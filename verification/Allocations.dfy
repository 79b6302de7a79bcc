/**
 * A user's drive allocations: provisioning, the primary drive, replacing the whole set
 * (api/db/drives.go) and adding purchased bytes (api/db/storage_orders.go).
 */
module Allocations {
  import opened Prelude
  import opened Sums
  import opened Tables

  type Rows = map<Id, Allocation>

  function QuotaRows(rows: Rows): map<Id, int> { map d | d in rows :: rows[d].quota }

  function TotalQuota(rows: Rows): int { Total(QuotaRows(rows)) }

  function WithRows(s: State, user: Id, rows: Rows): State {
    s.(allocations := s.allocations[user := rows])
  }

  /** The target row is written with the quota and is the only primary. */
  ghost predicate MakesPrimary(s: State, user: Id, drive: Id, quota: int, s': State) {
    var old_, new_ := s.RowsOf(user), s'.RowsOf(user);
    && s' == WithRows(s, user, new_)
    && new_.Keys == old_.Keys + {drive}
    && new_[drive] == Allocation(quota, true, s.now)
    && forall d <- old_ :: d != drive ==> new_[d] == old_[d].(primary := false)
  }

  /** The user's quota moves to what the target row has, the row is the one primary, and other users keep their rows. */
  lemma AllocationIsPrimary(s: State, user: Id, drive: Id, quota: int, s': State)
    requires MakesPrimary(s, user, drive, quota, s')
    ensures drive in s'.RowsOf(user) && s'.RowsOf(user)[drive] == Allocation(quota, true, s.now)
    ensures forall d <- s'.RowsOf(user) :: s'.RowsOf(user)[d].primary <==> d == drive
    ensures TotalQuota(s'.RowsOf(user)) == TotalQuota(s.RowsOf(user)) - s.QuotaOn(user, drive) + quota
    ensures s'.users == s.users && forall u: Id :: u != user ==> s'.RowsOf(u) == s.RowsOf(u)
  {
    var before, after := QuotaRows(s.RowsOf(user)), QuotaRows(s'.RowsOf(user));
    assert after == before[drive := quota];
    TotalUpdate(before, drive, quota);
  }

  /** AllocateUserToDrive; false is a foreign key violation. */
  method AllocateUserToDrive(q: Queries, user: Id, drive: Id, quota: int) returns (ok: bool)
    modifies q`allocations
    ensures ok <==> user in q.users && drive in q.drives
    ensures ok ==> MakesPrimary(old(q.View()), user, drive, quota, q.View())
    ensures !ok ==> q.View() == old(q.View())
  {
    ok := user in q.users && drive in q.drives;
    if ok {
      var rows := q.View().RowsOf(user);
      rows := map d | d in rows :: rows[d].(primary := false);
      rows := rows[drive := Allocation(quota, true, q.now)];
      q.allocations := q.allocations[user := rows];
    }
  }

  ghost predicate AtMostOnePrimary(rows: Rows) {
    forall d <- rows, e <- rows :: rows[d].primary && rows[e].primary ==> d == e
  }

  /** Exactly one row is the user's primary. */
  ghost predicate OnePrimary(rows: Rows) {
    (exists p <- rows :: rows[p].primary) && AtMostOnePrimary(rows)
  }

  /** That is, the number of primary rows is one. */
  lemma OnePrimaryIsOne(rows: Rows)
    ensures OnePrimary(rows) <==> |set d | d in rows && rows[d].primary| == 1
  {
    var primaries := set d | d in rows && rows[d].primary;
    if OnePrimary(rows) {
      var p :| p in rows && rows[p].primary;
      assert primaries == {p};
    }
    if |primaries| == 1 {
      var p :| p in primaries;
      assert |primaries - {p}| == 0;
      assert primaries == {p};
      forall d <- rows | rows[d].primary ensures d == p { assert d in primaries; }
    }
  }

  /** SetPrimaryDrive; false is sql.ErrNoRows. */
  method SetPrimaryDrive(q: Queries, user: Id, drive: Id) returns (ok: bool)
    modifies q`allocations
    ensures ok <==> drive in old(q.View()).RowsOf(user)
    ensures ok ==> SetsPrimary(old(q.View()), user, drive, q.View())
    ensures !ok ==> q.View() == old(q.View())
  {
    var rows := q.View().RowsOf(user);
    ok := drive in rows;
    if ok {
      var flagged: Rows := map d | d in rows :: rows[d].(primary := d == drive);
      assert flagged[drive].primary;
      q.allocations := q.allocations[user := flagged];
    }
  }

  ghost predicate SetsPrimary(s: State, user: Id, drive: Id, s': State) {
    var old_, new_ := s.RowsOf(user), s'.RowsOf(user);
    && s' == WithRows(s, user, new_)
    && new_.Keys == old_.Keys && drive in new_ && OnePrimary(new_) && new_[drive].primary
    && forall d <- old_ :: new_[d] == old_[d].(primary := d == drive)
  }

  // ── Replacing the whole set ────────────────────────────────────────────────

  datatype Want = Want(drive: Id, quota: int)

  /** The quota the last entry for the drive asks for. */
  function LastQuota(want: seq<Want>, drive: Id): Option<int> {
    if want == [] then None
    else
      var last := want[|want| - 1];
      if last.drive == drive then Some(last.quota) else LastQuota(want[..|want| - 1], drive)
  }

  /** Ahead in ORDER BY quota_bytes DESC, allocated_at ASC, or level. */
  predicate RanksBefore(a: Allocation, b: Allocation) {
    a.quota > b.quota || (a.quota == b.quota && a.allocatedAt <= b.allocatedAt)
  }

  /** The rows are the wanted drives with the wanted quotas; kept rows keep their age and flag. */
  ghost predicate Upserted(s: State, user: Id, want: seq<Want>, rows: Rows) {
    && (forall d: Id :: d in rows <==> LastQuota(want, d).Some?)
    && forall d <- rows ::
         rows[d] == Allocation(
           LastQuota(want, d).value,
           d in s.RowsOf(user) && s.RowsOf(user)[d].primary,
           if d in s.RowsOf(user) then s.RowsOf(user)[d].allocatedAt else s.now)
  }

  /** A surviving primary stays; otherwise a best-ranked row becomes it. */
  ghost predicate PrimaryReassigned(before: Rows, after: Rows) {
    && after.Keys == before.Keys
    && if before == map[] || exists d <- before :: before[d].primary then after == before
       else exists p <- before ::
         && (forall d <- before :: RanksBefore(before[p], before[d]))
         && forall d <- after :: after[d] == before[d].(primary := d == p)
  }

  ghost predicate Saves(s: State, user: Id, want: seq<Want>, s': State, total: int) {
    && (exists rows :: Upserted(s, user, want, rows) && PrimaryReassigned(rows, s'.RowsOf(user)))
    && total == TotalQuota(s'.RowsOf(user))
    && s' == WithRows(s, user, s'.RowsOf(user)).(
               users := if user in s.users then s.users[user := total] else s.users)
  }

  lemma BestRanked(rows: Rows) returns (best: Id)
    requires rows != map[]
    ensures best in rows && forall d <- rows :: RanksBefore(rows[best], rows[d])
    decreases |rows|
  {
    best :| best in rows;
    var others := rows - {best};
    assert forall d <- rows :: d == best || d in others;
    if others != map[] {
      var rest := BestRanked(others);
      best := if RanksBefore(rows[best], rows[rest]) then best else rest;
    }
  }

  /** The rows once the kept ones were joined by the upserts of `done`. */
  ghost predicate Upserting(s: State, user: Id, keep: set<Id>, done: seq<Want>, rows: Rows) {
    && (forall d: Id :: d in rows <==> LastQuota(done, d).Some? || (d in s.RowsOf(user) && d in keep))
    && forall d: Id | d in rows :: rows[d] == UpsertedRow(s, user, done, d)
  }

  lemma UpsertStep(s: State, user: Id, keep: set<Id>, done: seq<Want>, rows: Rows, w: Want, rows': Rows)
    requires Upserting(s, user, keep, done, rows)
    requires rows' == rows[w.drive := if w.drive in rows then rows[w.drive].(quota := w.quota)
                                      else Allocation(w.quota, false, s.now)]
    requires w.drive in keep
    ensures Upserting(s, user, keep, done + [w], rows')
  {
  }

  /** The DELETE of unwanted rows and the upserts, on the user's rows; None on a missing reference. */
  method Upsert(q: Queries, user: Id, want: seq<Want>) returns (result: Option<Rows>)
    ensures result.None? <==> exists w <- want :: user !in q.users || w.drive !in q.drives
    ensures result.Some? ==> Upserted(q.View(), user, want, result.value)
  {
    var s := q.View();
    var keep := set w <- want :: w.drive;
    var rows: Rows := map d | d in s.RowsOf(user) && d in keep :: s.RowsOf(user)[d];
    var i := 0;
    while i < |want|
      invariant 0 <= i <= |want|
      invariant forall j | 0 <= j < i :: user in s.users && want[j].drive in s.drives
      invariant Upserting(s, user, keep, want[..i], rows)
    {
      var w := want[i];
      assert w in want;
      if user !in q.users || w.drive !in q.drives { return None; }
      ghost var before := rows;
      rows := rows[w.drive := if w.drive in rows then rows[w.drive].(quota := w.quota)
                              else Allocation(w.quota, false, q.now)];
      UpsertStep(s, user, keep, want[..i], before, w, rows);
      assert want[..i + 1] == want[..i] + [w];
      i := i + 1;
    }
    assert want[..i] == want;
    KeptIffWanted(want);
    return Some(rows);
  }

  method AssignPrimary(rows: Rows) returns (after: Rows)
    ensures PrimaryReassigned(rows, after)
  {
    if rows == map[] || exists d <- rows :: rows[d].primary { return rows; }
    ghost var best := BestRanked(rows);
    var p: Id :| p in rows && forall d <- rows :: RanksBefore(rows[p], rows[d]);
    after := map d | d in rows :: rows[d].(primary := d == p);
  }

  /** SaveUserDriveAllocations; None is a foreign key violation and rolls everything back. */
  method SaveUserDriveAllocations(q: Queries, user: Id, want: seq<Want>) returns (total: Option<int>)
    modifies q`allocations, q`users
    ensures total.None? <==> exists w <- want :: user !in old(q.users) || w.drive !in q.drives
    ensures total.Some? ==> Saves(old(q.View()), user, want, q.View(), total.value)
    ensures total.None? ==> q.View() == old(q.View())
  {
    var upserted := Upsert(q, user, want);
    if upserted.None? { return None; }
    var rows := AssignPrimary(upserted.value);
    q.allocations := q.allocations[user := rows];
    total := Some(TotalQuota(rows));
    if user in q.users {
      q.users := q.users[user := total.value];
    }
  }

  ghost function UpsertedRow(s: State, user: Id, want: seq<Want>, d: Id): Allocation {
    var quota := LastQuota(want, d);
    if d in s.RowsOf(user) then
      (if quota.Some? then s.RowsOf(user)[d].(quota := quota.value) else s.RowsOf(user)[d])
    else Allocation(if quota.Some? then quota.value else 0, false, s.now)
  }

  lemma {:induction false} KeptIffWanted(want: seq<Want>)
    ensures forall d: Id :: LastQuota(want, d).Some? <==> exists w <- want :: w.drive == d
  {
    if want != [] {
      var init := want[..|want| - 1];
      KeptIffWanted(init);
      assert want == init + [want[|want| - 1]];
    }
  }

  /** With no drive asked for twice, each gets exactly the quota asked for. */
  lemma {:induction false} DistinctWantsAreExact(want: seq<Want>)
    requires forall i, j | 0 <= i < j < |want| :: want[i].drive != want[j].drive
    ensures forall w <- want :: LastQuota(want, w.drive) == Some(w.quota)
  {
    if want != [] {
      var init, last := want[..|want| - 1], want[|want| - 1];
      DistinctWantsAreExact(init);
      assert want == init + [last];
      forall w <- want ensures LastQuota(want, w.drive) == Some(w.quota) {
        var i :| 0 <= i < |want| && want[i] == w;
        if i < |want| - 1 {
          assert w in init;
          assert w.drive != last.drive;
        }
      }
    }
  }

  /** An entry counts when no later one names its drive. */
  lemma {:induction false} LastEntryWins(want: seq<Want>, i: nat)
    requires i < |want| && forall j | i < j < |want| :: want[j].drive != want[i].drive
    ensures LastQuota(want, want[i].drive) == Some(want[i].quota)
    decreases |want|
  {
    if i < |want| - 1 {
      LastEntryWins(want[..|want| - 1], i);
    }
  }

  /** One row has the flag, no other's quota exceeds its own, and none of the same quota predates it. */
  ghost predicate BestIsPrimary(rows: Rows) {
    exists p <- rows ::
      && (forall d <- rows :: rows[d].primary <==> d == p)
      && (forall d <- rows :: rows[d].quota <= rows[p].quota)
      && forall d <- rows | rows[d].quota == rows[p].quota :: rows[p].allocatedAt <= rows[d].allocatedAt
  }

  /** A surviving primary stays; without one the best row becomes it. No row changes otherwise. */
  lemma ReassignedPrimary(before: Rows, after: Rows)
    requires PrimaryReassigned(before, after)
    ensures after.Keys == before.Keys
    ensures forall d <- before :: after[d].(primary := before[d].primary) == before[d]
    ensures if exists d <- before :: before[d].primary then after == before else before == map[] || BestIsPrimary(after)
  {
    if before != map[] && !exists d <- before :: before[d].primary {
      var p :| p in before && (forall d <- before :: RanksBefore(before[p], before[d]))
        && forall d <- after :: after[d] == before[d].(primary := d == p);
      FlaggedBest(before, after, p);
    }
  }

  lemma FlaggedBest(before: Rows, after: Rows, p: Id)
    requires p in before && after.Keys == before.Keys
    requires forall d <- before :: RanksBefore(before[p], before[d])
    requires forall d <- after :: after[d] == before[d].(primary := d == p)
    ensures BestIsPrimary(after)
  {
    assert p in after;
    forall d <- after
      ensures after[d].quota <= after[p].quota
      ensures after[d].quota == after[p].quota ==> after[p].allocatedAt <= after[d].allocatedAt
    {
      assert RanksBefore(before[p], before[d]);
    }
  }

  /** A save keeps the age of the rows it keeps, and dates new ones now. */
  lemma SavedRowsKeepAge(s: State, user: Id, want: seq<Want>, s': State, total: int, d: Id)
    requires Saves(s, user, want, s', total) && d in s'.RowsOf(user)
    ensures s'.RowsOf(user)[d].allocatedAt == if d in s.RowsOf(user) then s.RowsOf(user)[d].allocatedAt else s.now
  {
    var rows :| Upserted(s, user, want, rows) && PrimaryReassigned(rows, s'.RowsOf(user));
    ReassignedPrimary(rows, s'.RowsOf(user));
  }

  // ── Adding purchased bytes ─────────────────────────────────────────────────

  /** The aggregate grows; the drive's row grows with it when there is one. */
  function ToppedUp(s: State, user: Id, drive: Option<Id>, bytes: int): State
    requires user in s.users
  {
    var s1 := s.(users := s.users[user := s.users[user] + bytes]);
    if drive.Some? && drive.value in s.RowsOf(user) then
      var row := s.RowsOf(user)[drive.value];
      WithRows(s1, user, s.RowsOf(user)[drive.value := row.(quota := row.quota + bytes)])
    else s1
  }

  /** Column by column: the user's aggregate and the quota of the named row grow, and nothing else changes. */
  lemma TopUpIsExact(s: State, user: Id, drive: Option<Id>, bytes: int, u: Id, d: Id)
    requires user in s.users
    ensures var s' := ToppedUp(s, user, drive, bytes);
      && s' == s.(users := s'.users, allocations := s'.allocations)
      && s'.users == s.users[user := s.users[user] + bytes]
      && (d in s'.RowsOf(u) <==> d in s.RowsOf(u))
      && (d in s.RowsOf(u) ==>
            var row := s.RowsOf(u)[d];
            s'.RowsOf(u)[d] == if u == user && drive == Some(d)
                               then Allocation(row.quota + bytes, row.primary, row.allocatedAt) else row)
  {
  }

  /** UpdateUserQuota: the aggregate is overwritten, the rows stay. */
  function WithQuota(s: State, user: Id, quota: int): State {
    if user in s.users then s.(users := s.users[user := quota]) else s
  }

  method UpdateUserQuota(q: Queries, user: Id, quota: int)
    modifies q`users
    ensures q.View() == WithQuota(old(q.View()), user, quota)
    ensures user in old(q.users) ==> q.users == old(q.users)[user := quota]
    ensures user !in old(q.users) ==> q.users == old(q.users)
  {
    if user in q.users { q.users := q.users[user := quota]; }
  }

  lemma ToppedUpTables(s: State, user: Id, drive: Option<Id>, bytes: int)
    requires user in s.users
    ensures var s' := ToppedUp(s, user, drive, bytes);
      && s' == s.(users := s.users[user := s.users[user] + bytes], allocations := s'.allocations)
      && (s'.allocations == s.allocations || s'.allocations == s.allocations[user := s'.RowsOf(user)])
  {
  }

  /** AddUserQuotaAndAllocation; None is an unknown user. */
  method AddUserQuotaAndAllocation(q: Queries, user: Id, drive: Option<Id>, bytes: int)
      returns (newQuota: Option<int>)
    modifies q`allocations, q`users
    ensures newQuota.Some? <==> user in old(q.users)
    ensures newQuota.Some? ==> q.View() == ToppedUp(old(q.View()), user, drive, bytes)
    ensures newQuota.Some? ==> newQuota.value == q.users[user] == old(q.users[user]) + bytes
    ensures newQuota.None? ==> q.View() == old(q.View())
  {
    if user !in q.users { return None; }
    q.users := q.users[user := q.users[user] + bytes];
    if drive.Some? && drive.value in q.View().RowsOf(user) {
      var rows := q.View().RowsOf(user);
      var row := rows[drive.value];
      q.allocations := q.allocations[user := rows[drive.value := row.(quota := row.quota + bytes)]];
    }
    return Some(q.users[user]);
  }
}
