/**
 * The admin storage editor: validating a requested set of allocations and saving it
 * (AdminUpdateUserStorageAllocations in api/routes/admin_browse.go).
 */
module AdminBrowse {
  import opened Prelude
  import opened Tables
  import opened Drives
  import opened Allocations

  /** One requested allocation; `drive` is None when the text is not a drive id. */
  datatype Item = Item(drive: Option<Id>, quota: int)

  datatype Violation =
    | UsedExceedsQuota(drive: Id, used: nat, requested: int)
    | InsufficientCapacity(drive: Id, max: int)
    | RemovalBlocked(drive: Id, used: nat)

  datatype Response =
    | BadRequest
    | UserNotFound
    | DriveNotFound(drive: Id)
    | Conflict(violations: seq<Violation>)
    | SaveFailed
    | Saved(total: int)

  /** The user's bytes per drive; drives without files need no entry. */
  type Usage = map<Id, nat>

  function UsedOn(used: Usage, drive: Id): nat { if drive in used then used[drive] else 0 }

  /** What the validation loop finds wrong with one requested quota. */
  function ItemViolation(s: State, user: Id, used: Usage, drive: Id, quota: int): Option<Violation> {
    if drive in s.RowsOf(user) then
      var held := s.RowsOf(user)[drive].quota;
      if quota < UsedOn(used, drive) then Some(UsedExceedsQuota(drive, UsedOn(used, drive), quota))
      else if quota > held && quota > Available(s, drive) + held then
        Some(InsufficientCapacity(drive, Available(s, drive) + held))
      else None
    else if quota > Available(s, drive) then Some(InsufficientCapacity(drive, Available(s, drive)))
    else None
  }

  predicate Requested(items: seq<Item>, drive: Id) { exists item <- items :: item.drive == Some(drive) }

  /** The violation is that of one of the first `n` items. */
  ghost predicate ItemsViolate(s: State, user: Id, used: Usage, items: seq<Item>, n: nat, v: Violation)
    requires n <= |items|
  {
    exists i | 0 <= i < n ::
      items[i].drive.Some? && ItemViolation(s, user, used, items[i].drive.value, items[i].quota) == Some(v)
  }

  ghost predicate RequestViolates(s: State, user: Id, used: Usage, items: seq<Item>, v: Violation) {
    ItemsViolate(s, user, used, items, |items|, v)
  }

  /** A row the request leaves out although the user has bytes there. */
  ghost predicate RemovalViolates(s: State, user: Id, used: Usage, items: seq<Item>, v: Violation) {
    exists drive <- s.RowsOf(user) ::
      !Requested(items, drive) && UsedOn(used, drive) != 0 && v == RemovalBlocked(drive, UsedOn(used, drive))
  }

  /** Shape of the request: non-empty, no negative quota, and every drive named once, by id. */
  ghost predicate WellFormedRequest(items: seq<Item>) {
    && items != []
    && (forall item <- items :: 0 <= item.quota && item.drive.Some?)
    && forall i, j | 0 <= i < j < |items| :: items[i].drive != items[j].drive
  }

  /** A drive the user may be given: one already held, or any active one. */
  predicate Assignable(s: State, user: Id, drive: Id) {
    drive in s.RowsOf(user) || (drive in s.drives && s.drives[drive].active)
  }

  /** Exactly the requests that are saved. */
  ghost predicate Acceptable(s: State, user: Id, used: Usage, items: seq<Item>) {
    && user in s.users && WellFormedRequest(items)
    && (forall item <- items :: item.drive.Some? ==> Assignable(s, user, item.drive.value))
    && (forall v: Violation :: !RequestViolates(s, user, used, items, v))
    && (forall v: Violation :: !RemovalViolates(s, user, used, items, v))
  }

  /**
   * A request is acceptable exactly when it names known ids once each with no negative quota, each
   * held drive gets at least what the user has there and no more than it has now or than fits, each
   * new one is active and has the room, and every drive left out is empty.
   */
  lemma AcceptableIff(s: State, user: Id, used: Usage, items: seq<Item>)
    ensures Acceptable(s, user, used, items) <==>
      && user in s.users && items != []
      && (forall i, j | 0 <= i < j < |items| :: items[i].drive != items[j].drive)
      && (forall item <- items ::
            && item.drive.Some? && 0 <= item.quota
            && var d := item.drive.value;
               if d in s.RowsOf(user) then
                 && (d in used ==> used[d] <= item.quota)
                 && (item.quota <= s.RowsOf(user)[d].quota || item.quota <= Available(s, d) + s.RowsOf(user)[d].quota)
               else d in s.drives && s.drives[d].active && item.quota <= Available(s, d))
      && forall d <- s.RowsOf(user) | d in used && 0 < used[d] :: exists item <- items :: item.drive == Some(d)
  {
    RequestCleanIff(s, user, used, items);
    RemovalsCleanIff(s, user, used, items);
  }

  lemma RequestCleanIff(s: State, user: Id, used: Usage, items: seq<Item>)
    ensures (forall v: Violation :: !RequestViolates(s, user, used, items, v)) <==>
      forall item <- items | item.drive.Some? ::
        var d := item.drive.value;
        if d in s.RowsOf(user) then
          && UsedOn(used, d) <= item.quota
          && (item.quota <= s.RowsOf(user)[d].quota || item.quota <= Available(s, d) + s.RowsOf(user)[d].quota)
        else item.quota <= Available(s, d)
  {
    forall i | 0 <= i < |items| && items[i].drive.Some?
      ensures ItemViolation(s, user, used, items[i].drive.value, items[i].quota).Some? ==>
        exists v: Violation :: RequestViolates(s, user, used, items, v)
    {
      var found := ItemViolation(s, user, used, items[i].drive.value, items[i].quota);
      if found.Some? { assert RequestViolates(s, user, used, items, found.value); }
    }
  }

  lemma RemovalsCleanIff(s: State, user: Id, used: Usage, items: seq<Item>)
    ensures (forall v: Violation :: !RemovalViolates(s, user, used, items, v)) <==>
      forall d <- s.RowsOf(user) | d in used && 0 < used[d] :: exists item <- items :: item.drive == Some(d)
  {
    forall d <- s.RowsOf(user) | d in used && 0 < used[d] && forall item <- items :: item.drive != Some(d)
      ensures exists v: Violation :: RemovalViolates(s, user, used, items, v)
    {
      assert RemovalViolates(s, user, used, items, RemovalBlocked(d, used[d]));
    }
  }

  /** Each violation of a request, with its numbers. */
  lemma ViolationsAreExact(s: State, user: Id, used: Usage, items: seq<Item>, v: Violation)
    ensures RequestViolates(s, user, used, items, v) || RemovalViolates(s, user, used, items, v) <==>
      match v
      case UsedExceedsQuota(d, bytes, requested) =>
        && d in s.RowsOf(user) && Item(Some(d), requested) in items
        && bytes == (if d in used then used[d] else 0) && requested < bytes
      case InsufficientCapacity(d, max) =>
        if d in s.RowsOf(user) then
          && max == Available(s, d) + s.RowsOf(user)[d].quota
          && exists item <- items ::
               && item.drive == Some(d) && (d in used ==> used[d] <= item.quota) && (d !in used ==> 0 <= item.quota)
               && s.RowsOf(user)[d].quota < item.quota && max < item.quota
        else
          max == Available(s, d) && exists item <- items :: item.drive == Some(d) && max < item.quota
      case RemovalBlocked(d, bytes) =>
        && d in s.RowsOf(user) && d in used && bytes == used[d] && 0 < bytes
        && forall item <- items :: item.drive != Some(d)
  {
    RequestViolatesIff(s, user, used, items, v);
    assert RemovalViolates(s, user, used, items, v) ==> v.RemovalBlocked?;
    assert RequestViolates(s, user, used, items, v) ==> !v.RemovalBlocked?;
  }

  lemma RequestViolatesIff(s: State, user: Id, used: Usage, items: seq<Item>, v: Violation)
    ensures RequestViolates(s, user, used, items, v) <==>
      exists item <- items :: item.drive.Some? && ItemViolation(s, user, used, item.drive.value, item.quota) == Some(v)
  {
    forall item <- items | item.drive.Some? ensures exists i | 0 <= i < |items| :: items[i] == item {
    }
  }

  function Wants(items: seq<Item>): seq<Want>
    requires forall item <- items :: item.drive.Some?
  {
    seq(|items|, i requires 0 <= i < |items| => Want(items[i].drive.value, items[i].quota))
  }

  /** The first `n` items name distinct drives the user may be given; `seen` has those drives. */
  ghost predicate Screened(s: State, user: Id, items: seq<Item>, n: nat, seen: set<Id>)
    requires n <= |items|
  {
    && (forall k | 0 <= k < n ::
          items[k].drive.Some? && items[k].drive.value in seen && Assignable(s, user, items[k].drive.value))
    && (forall j, k | 0 <= j < k < n :: items[j].drive != items[k].drive)
    && (forall d <- seen :: exists k | 0 <= k < n :: items[k].drive == Some(d))
  }

  /** What the loop has collected after `n` items. */
  ghost predicate Collected(s: State, user: Id, used: Usage, items: seq<Item>, n: nat,
                            violations: seq<Violation>, want: seq<Want>)
    requires n <= |items|
  {
    && (forall v: Violation :: v in violations <==> ItemsViolate(s, user, used, items, n, v))
    && (violations == [] ==>
          && |want| == n
          && forall k | 0 <= k < n :: items[k].drive.Some? && want[k] == Want(items[k].drive.value, items[k].quota))
  }

  lemma CollectedStep(s: State, user: Id, used: Usage, items: seq<Item>, n: nat, violations: seq<Violation>,
                      want: seq<Want>, violations': seq<Violation>, want': seq<Want>)
    requires n < |items| && items[n].drive.Some? && Collected(s, user, used, items, n, violations, want)
    requires var found := ItemViolation(s, user, used, items[n].drive.value, items[n].quota);
      if found.Some? then violations' == violations + [found.value] && want' == want
      else violations' == violations && want' == want + [Want(items[n].drive.value, items[n].quota)]
    ensures Collected(s, user, used, items, n + 1, violations', want')
  {
  }

  /** The loop over the requested items. None means every item has been looked at. */
  method CheckItems(q: Queries, user: Id, used: Usage, items: seq<Item>)
      returns (stop: Option<Response>, violations: seq<Violation>, want: seq<Want>, seen: set<Id>)
    ensures stop.Some? ==> stop.value.BadRequest? || stop.value.DriveNotFound?
    ensures stop == Some(BadRequest) ==> !WellFormedRequest(items)
    ensures stop.Some? && stop.value.DriveNotFound? ==>
      Requested(items, stop.value.drive) && !Assignable(q.View(), user, stop.value.drive)
    ensures stop.None? ==> Screened(q.View(), user, items, |items|, seen)
    ensures stop.None? ==> Collected(q.View(), user, used, items, |items|, violations, want)
  {
    var s := q.View();
    violations, want, seen := [], [], {};
    var i := 0;
    while i < |items|
      invariant 0 <= i <= |items|
      invariant Screened(s, user, items, i, seen)
      invariant Collected(s, user, used, items, i, violations, want)
    {
      var item := items[i];
      assert item in items;
      if item.drive.None? { return Some(BadRequest), violations, want, seen; }
      var drive := item.drive.value;
      if drive in seen { return Some(BadRequest), violations, want, seen; }
      if !Assignable(s, user, drive) { return Some(DriveNotFound(drive)), violations, want, seen; }
      seen := seen + {drive};
      ghost var violationsBefore, wantBefore := violations, want;
      var found := ItemViolation(s, user, used, drive, item.quota);
      if found.Some? {
        violations := violations + [found.value];
      } else {
        want := want + [Want(drive, item.quota)];
      }
      CollectedStep(s, user, used, items, i, violationsBefore, wantBefore, violations, want);
      i := i + 1;
    }
    stop := None;
  }

  /** The loop over the rows the request leaves out. */
  method CheckRemovals(s: State, user: Id, used: Usage, items: seq<Item>) returns (violations: seq<Violation>)
    ensures forall v: Violation :: v in violations <==> RemovalViolates(s, user, used, items, v)
  {
    violations := [];
    var left := s.RowsOf(user).Keys;
    while left != {}
      invariant left <= s.RowsOf(user).Keys
      invariant forall v: Violation :: v in violations <==>
        exists drive <- s.RowsOf(user).Keys - left ::
          !Requested(items, drive) && UsedOn(used, drive) != 0 && v == RemovalBlocked(drive, UsedOn(used, drive))
      decreases |left|
    {
      var drive: Id :| drive in left;
      ghost var done := s.RowsOf(user).Keys - left;
      left := left - {drive};
      assert s.RowsOf(user).Keys - left == done + {drive};
      if !Requested(items, drive) && UsedOn(used, drive) != 0 {
        violations := violations + [RemovalBlocked(drive, UsedOn(used, drive))];
      }
    }
  }

  /** After both loops: saving is right exactly when neither found anything. */
  lemma CleanIffAcceptable(s: State, user: Id, used: Usage, items: seq<Item>, seen: set<Id>,
                           violations: seq<Violation>, want: seq<Want>, removals: seq<Violation>)
    requires user in s.users && items != [] && forall item <- items :: 0 <= item.quota
    requires Screened(s, user, items, |items|, seen)
    requires Collected(s, user, used, items, |items|, violations, want)
    requires forall v: Violation :: v in removals <==> RemovalViolates(s, user, used, items, v)
    ensures violations + removals == [] <==> Acceptable(s, user, used, items)
    ensures violations == [] ==> want == Wants(items) && want != []
  {
    assert forall v: Violation :: v in violations <==> RequestViolates(s, user, used, items, v);
    if violations != [] {
      assert RequestViolates(s, user, used, items, violations[0]);
    } else if removals != [] {
      assert RemovalViolates(s, user, used, items, removals[0]);
    } else {
      assert forall item <- items :: item.drive.Some? && Assignable(s, user, item.drive.value);
    }
  }

  method AdminUpdateUserStorageAllocations(q: Queries, user: Id, used: Usage, items: seq<Item>)
      returns (r: Response)
    requires q.View().ForeignKeys()
    modifies q`allocations, q`users
    ensures r.Saved? <==> Acceptable(old(q.View()), user, used, items)
    ensures r.UserNotFound? <==> user !in old(q.users) && items != [] && forall item <- items :: 0 <= item.quota
    ensures r.BadRequest? ==> !WellFormedRequest(items)
    ensures r.DriveNotFound? ==> Requested(items, r.drive) && !Assignable(old(q.View()), user, r.drive)
    ensures r.Conflict? ==> WellFormedRequest(items)
    ensures r.Saved? ==> Saves(old(q.View()), user, Wants(items), q.View(), r.total)
    ensures !r.Saved? ==> q.View() == old(q.View()) && !r.SaveFailed?
    ensures r.Conflict? ==> r.violations != [] && forall v: Violation :: v in r.violations <==>
      RequestViolates(old(q.View()), user, used, items, v) || RemovalViolates(old(q.View()), user, used, items, v)
  {
    if items == [] || exists item <- items :: item.quota < 0 { return BadRequest; }
    if user !in q.users { return UserNotFound; }
    ghost var s := q.View();
    var stop, violations, want, seen := CheckItems(q, user, used, items);
    if stop.Some? { return stop.value; }
    var removals := CheckRemovals(q.View(), user, used, items);
    CleanIffAcceptable(s, user, used, items, seen, violations, want, removals);
    if violations + removals != [] { return Conflict(violations + removals); }
    if want == [] { return BadRequest; }
    var total := SaveUserDriveAllocations(q, user, want);
    r := if total.Some? then Saved(total.value) else SaveFailed;
  }
}
