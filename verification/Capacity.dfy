/**
 * Capacity over whole runs: allocated quota plus the quota set aside for registration
 * slots never exceeds a drive's capacity, and each event's exact condition for that.
 */
module Capacity {
  import opened Prelude
  import opened Sums
  import opened Tables
  import opened Drives
  import opened Registration
  import opened Allocations
  import opened AdminBrowse
  import opened Runs

  /** What user allocations and registration slots claim of a drive together. */
  function Load(s: State, d: Id): int { Allocated(s, d) + Reserved(s, d) }

  ghost predicate WithinCapacity(s: State) {
    forall d <- s.drives :: Load(s, d) <= s.drives[d].capacity
  }

  // ── How a change to the tables moves the two totals ────────────────────────

  /** A drive's allocation is one user's quota there plus everyone else's. */
  lemma AllocatedSplit(s: State, user: Id, d: Id)
    ensures Allocated(s, d) == Total(AllocatedRows(s, d) - {user}) + s.QuotaOn(user, d)
  {
    var rows := AllocatedRows(s, d);
    TotalUpdate(rows, user, 0);
    assert user in rows <==> d in s.RowsOf(user);
  }

  /** Rewriting one user's rows moves a drive's allocation by that user's change there. */
  lemma AllocatedMoves(s: State, user: Id, s': State, d: Id)
    requires s'.allocations == s.allocations[user := s'.RowsOf(user)]
    ensures Allocated(s', d) - s'.QuotaOn(user, d) == Allocated(s, d) - s.QuotaOn(user, d)
  {
    AllocatedSplit(s, user, d);
    AllocatedSplit(s', user, d);
    assert AllocatedRows(s, d) - {user} == AllocatedRows(s', d) - {user};
  }

  lemma AllocatedSame(s: State, s': State, d: Id)
    requires s'.allocations == s.allocations
    ensures Allocated(s', d) == Allocated(s, d)
  {
  }

  /** Every reserving slot of `s'` is one of `s`, on the same drive with the same quota. */
  ghost predicate ReservesNoMore(s: State, s': State) {
    forall k <- s'.slots :: Reserving(s', s'.slots[k]) ==>
      k in s.slots && s.slots[k] == s'.slots[k] && Reserving(s, s.slots[k])
  }

  lemma ReservedShrinks(s: State, s': State, d: Id)
    requires PositiveSlots(s) && ReservesNoMore(s, s')
    ensures Reserved(s', d) <= Reserved(s, d)
  {
    TotalMonotone(ReservedRows(s', d), ReservedRows(s, d));
  }

  lemma ReservedSame(s: State, s': State, d: Id)
    requires s'.now == s.now && s'.groups == s.groups && s'.slots == s.slots
    ensures Reserved(s', d) == Reserved(s, d)
  {
    assert ReservedRows(s, d) == ReservedRows(s', d);
  }

  lemma ShrinkingKeepsCapacity(s: State, s': State)
    requires WithinCapacity(s) && PositiveSlots(s) && ReservesNoMore(s, s')
    requires s'.drives == s.drives && s'.allocations == s.allocations
    ensures WithinCapacity(s')
  {
    forall d <- s'.drives
      ensures Load(s', d) <= s'.drives[d].capacity
    {
      AllocatedSame(s, s', d);
      ReservedShrinks(s, s', d);
    }
  }

  // ── Inserting slots ────────────────────────────────────────────────────────

  lemma InsertKeepsCapacity(s: State, group: Id, sig: Signature, s': State)
    requires WithinCapacity(s) && InsertsOne(s, group, sig, s')
    ensures WithinCapacity(s')
  {
    var p: Placement :| GoodPlacement(s, group, sig, p) && s' == WithSlot(s, group, sig, p);
    forall d <- s'.drives
      ensures Load(s', d) <= s'.drives[d].capacity
    {
      AllocatedSame(s, s', d);
      ReservedAfterInsert(s, group, sig, p, d);
    }
  }

  lemma ReservedAfterInsert(s: State, group: Id, sig: Signature, p: Placement, d: Id)
    requires p.slot !in s.slots && 0 < sig.quota
    ensures Reserved(WithSlot(s, group, sig, p), d) <= Reserved(s, d) + if d == p.drive then sig.quota else 0
  {
    var s' := WithSlot(s, group, sig, p);
    var before, after := ReservedRows(s, d), ReservedRows(s', d);
    if p.slot in after {
      assert after == before[p.slot := sig.quota];
      TotalInsert(before, p.slot, sig.quota);
    } else {
      assert after == before;
    }
  }

  lemma {:induction false} TraceKeepsCapacity(trace: seq<State>, group: Id, sigs: seq<Signature>, n: nat)
    requires InsertTrace(trace, group, sigs) && n < |trace| && WithinCapacity(trace[0])
    ensures WithinCapacity(trace[n])
  {
    if n > 0 {
      TraceKeepsCapacity(trace, group, sigs, n - 1);
      InsertKeepsCapacity(trace[n - 1], group, sigs[n - 1], trace[n]);
    }
  }

  lemma BeforeInsertReservesNoMore(s: State, e: Event)
    requires Sound(s) && InsertsSlots(e) && (e.CreateGroup? ==> e.id !in s.groups)
    ensures ReservesNoMore(s, BeforeInsert(s, e))
  {
  }

  lemma InsertEventKeepsCapacity(s: State, e: Event, s': State)
    requires Sound(s) && WithinCapacity(s) && InsertsSlots(e) && Step(s, e, s')
    ensures WithinCapacity(s')
  {
    var group, sigs, end, r := InsertEvent(s, e, s');
    if s' != s {
      var s1 := BeforeInsert(s, e);
      BeforeInsertReservesNoMore(s, e);
      ShrinkingKeepsCapacity(s, s1);
      InsertsKeepCapacity(s1, group, sigs, end, r);
    }
  }

  lemma InsertsKeepCapacity(s: State, group: Id, sigs: seq<Signature>, s': State, r: Outcome)
    requires WithinCapacity(s) && Inserts(s, group, sigs, s', r)
    ensures WithinCapacity(s')
  {
    var trace :| InsertTrace(trace, group, sigs) && trace[0] == s && trace[|trace| - 1] == s';
    TraceKeepsCapacity(trace, group, sigs, |trace| - 1);
  }

  // ── Events that the code checks, and those it does not ─────────────────────

  function DormantRows(s: State, group: Id, drive: Id): map<Id, int> {
    map k | k in s.slots && s.slots[k].drive == drive && s.slots[k].group == group && s.slots[k].consumedAt.None?
      :: s.slots[k].sig.quota
  }

  /** The quota a group would set aside on the drive if it were active and unexpired. */
  function Dormant(s: State, group: Id, drive: Id): int { Total(DormantRows(s, group, drive)) }

  predicate Revives(s: State, group: Id, g: Group) {
    group in s.groups && !GroupReserves(s.groups[group], s.now) && GroupReserves(g, s.now)
  }

  /**
   * What must hold before an event for capacity to survive it. The code does not check it
   * for reviving an inactive or expired group, registering through a hold whose group has
   * expired, or saving away a row that a refund left negative; for a top-up it checks in a
   * statement of its own, before the one that adds the bytes.
   */
  ghost predicate Fits(s: State, e: Event) {
    match e
    case EditGroup(group, g) =>
      Revives(s, group, g) ==> forall d <- s.drives :: Dormant(s, group, d) <= Available(s, d)
    case Register(_, hold) =>
      hold in s.holds && s.holds[hold].slot in s.slots ==>
        var slot := s.slots[s.holds[hold].slot];
        Reserving(s, slot) || slot.sig.quota <= Available(s, slot.drive)
    case TopUp(user, drive, bytes) =>
      drive.Some? && drive.value in s.RowsOf(user) ==> bytes <= Available(s, drive.value)
    case AdminSave(user, _, items, _) => forall d <- s.drives :: DropFits(s, user, items, d)
    case _ => true
  }

  /** A change on one drive alone keeps capacity exactly when it fits there. */
  lemma LoadMovesOnOneDrive(s: State, s': State, drive: Id, delta: int)
    requires WithinCapacity(s) && s'.drives == s.drives && drive in s.drives
    requires forall d <- s.drives ::
      Load(s', d) == Load(s, d) + if d == drive then delta else 0
    ensures WithinCapacity(s') <==> delta <= Available(s, drive)
  {
  }

  /** Reviving a group sets its dormant quota aside again. */
  lemma RevivalReserves(s: State, group: Id, g: Group, d: Id)
    requires Revives(s, group, g)
    ensures Reserved(WithGroup(s, group, g), d) == Reserved(s, d) + Dormant(s, group, d)
  {
    var before, dormant := ReservedRows(s, d), DormantRows(s, group, d);
    assert ReservedRows(WithGroup(s, group, g), d) == before + dormant;
    TotalUnion(before, dormant);
  }

  lemma EditKeepsCapacityIff(s: State, group: Id, g: Group)
    requires Sound(s) && WithinCapacity(s)
    ensures WithinCapacity(WithGroup(s, group, g)) <==> Fits(s, EditGroup(group, g))
  {
    var s' := WithGroup(s, group, g);
    if Revives(s, group, g) {
      forall d <- s.drives
        ensures Load(s', d) == Load(s, d) + Dormant(s, group, d)
      {
        AllocatedSame(s, s', d);
        RevivalReserves(s, group, g, d);
      }
    } else {
      EditReservesNoMore(s, group, g);
      ShrinkingKeepsCapacity(s, s');
    }
  }

  lemma EditReservesNoMore(s: State, group: Id, g: Group)
    requires !Revives(s, group, g)
    ensures ReservesNoMore(s, WithGroup(s, group, g))
  {
  }

  /** Consuming a slot gives back its quota if it was set aside. */
  lemma ReservedAfterConsume(s: State, k: Id, s': State, d: Id)
    requires k in s.slots && s'.now == s.now && s'.groups == s.groups
    requires s.slots[k].consumedAt.None?
    requires k in s'.slots && s'.slots[k].consumedAt.Some? && s'.slots == s.slots[k := s'.slots[k]]
    ensures Reserved(s', d) == Reserved(s, d)
      - if d == s.slots[k].drive && Reserving(s, s.slots[k]) then s.slots[k].sig.quota else 0
  {
    TotalUpdate(ReservedRows(s, d), k, 0);
    ReservedRowsAfterConsume(s, k, s', d);
  }

  lemma ReservedRowsAfterConsume(s: State, k: Id, s': State, d: Id)
    requires k in s.slots && s'.now == s.now && s'.groups == s.groups
    requires k in s'.slots && s'.slots[k].consumedAt.Some? && s'.slots == s.slots[k := s'.slots[k]]
    ensures ReservedRows(s', d) == ReservedRows(s, d) - {k}
  {
  }

  /** What registering through a hold adds to its slot's drive: nothing if the quota was set aside. */
  function RegisterDelta(s: State, slot: Slot): int { if Reserving(s, slot) then 0 else slot.sig.quota }

  lemma RegisterKeepsCapacityIff(s: State, user: Id, hold: Id, s': State)
    requires Sound(s) && WithinCapacity(s) && Registers(s, user, hold, s')
    ensures WithinCapacity(s') <==> Fits(s, Register(user, hold))
  {
    RegisterFindsSlot(s, user, hold, s');
    var slot := s.slots[s.holds[hold].slot];
    var drive, delta := slot.drive, RegisterDelta(s, slot);
    forall d <- s.drives
      ensures Load(s', d) == Load(s, d) + if d == drive then delta else 0
    {
      RegisterMovesLoad(s, user, hold, s', d);
    }
    LoadMovesOnOneDrive(s, s', drive, delta);
    RegisterFits(s, user, hold);
  }

  lemma RegisterFindsSlot(s: State, user: Id, hold: Id, s': State)
    requires Sound(s) && Registers(s, user, hold, s')
    ensures hold in s.holds && s.holds[hold].slot in s.slots && s'.drives == s.drives
    ensures s.slots[s.holds[hold].slot].drive in s.drives
  {
  }

  lemma RegisterFits(s: State, user: Id, hold: Id)
    requires WithinCapacity(s) && hold in s.holds && s.holds[hold].slot in s.slots
    requires s.slots[s.holds[hold].slot].drive in s.drives
    ensures var slot := s.slots[s.holds[hold].slot];
      Fits(s, Register(user, hold)) <==> RegisterDelta(s, slot) <= Available(s, slot.drive)
  {
  }

  lemma RegisterMovesLoad(s: State, user: Id, hold: Id, s': State, d: Id)
    requires Sound(s) && Registers(s, user, hold, s')
    requires hold in s.holds && s.holds[hold].slot in s.slots
    ensures var slot := s.slots[s.holds[hold].slot];
      Load(s', d) == Load(s, d) + if d == slot.drive then RegisterDelta(s, slot) else 0
  {
    var drive, quota := RegisterWritesOneRow(s, user, hold, s');
    AllocatedMoves(s, user, s', d);
    RegisterConsumesSlot(s, user, hold, s');
    ReservedAfterConsume(s, s.holds[hold].slot, s', d);
  }

  /** Adding bytes to a held row adds them to that drive's load alone. */
  lemma TopUpMovesLoad(s: State, user: Id, drive: Id, bytes: int, s': State, d: Id)
    requires user in s.users && drive in s.RowsOf(user)
    requires s' == ToppedUp(s, user, Some(drive), bytes)
    ensures Load(s', d) == Load(s, d) + if d == drive then bytes else 0
  {
    ReservedSame(s, s', d);
    AllocatedMoves(s, user, s', d);
    assert s'.RowsOf(user) == s.RowsOf(user)[drive := s'.RowsOf(user)[drive]];
  }

  lemma HeldTopUpFits(s: State, user: Id, drive: Id, bytes: int, s': State)
    requires Sound(s) && WithinCapacity(s) && user in s.users && drive in s.RowsOf(user)
    requires s' == ToppedUp(s, user, Some(drive), bytes)
    ensures WithinCapacity(s') <==> bytes <= Available(s, drive)
  {
    forall d <- s.drives
      ensures Load(s', d) == Load(s, d) + if d == drive then bytes else 0
    {
      TopUpMovesLoad(s, user, drive, bytes, s', d);
    }
    LoadMovesOnOneDrive(s, s', drive, bytes);
  }

  lemma TopUpKeepsCapacityIff(s: State, user: Id, drive: Option<Id>, bytes: int)
    requires Sound(s) && WithinCapacity(s) && user in s.users
    ensures WithinCapacity(ToppedUp(s, user, drive, bytes)) <==> Fits(s, TopUp(user, drive, bytes))
  {
    if drive.Some? && drive.value in s.RowsOf(user) {
      HeldTopUpFits(s, user, drive.value, bytes, ToppedUp(s, user, drive, bytes));
    } else {
      UnheldTopUpFits(s, user, drive, bytes);
    }
  }

  /** Two top-ups of one drive that were both checked before either ran fit exactly if their sum does. */
  lemma TwoCheckedTopUps(s: State, first: Id, second: Id, drive: Id, a: int, b: int)
    requires Sound(s) && WithinCapacity(s) && first in s.users && second in s.users
    requires drive in s.RowsOf(first) && drive in s.RowsOf(second)
    requires a <= Available(s, drive) && b <= Available(s, drive)
    ensures var s1 := ToppedUp(s, first, Some(drive), a);
      && WithinCapacity(s1) && second in s1.users
      && (WithinCapacity(ToppedUp(s1, second, Some(drive), b)) <==> a + b <= Available(s, drive))
  {
    var s1 := ToppedUp(s, first, Some(drive), a);
    HeldTopUpFits(s, first, drive, a, s1);
    TopUpKeepsSound(s, first, Some(drive), a);
    TopUpTakesRoom(s, first, drive, a, second);
    HeldTopUpFits(s1, second, drive, b, ToppedUp(s1, second, Some(drive), b));
  }

  lemma TopUpTakesRoom(s: State, user: Id, drive: Id, bytes: int, other: Id)
    requires Sound(s) && user in s.users && drive in s.RowsOf(user)
    requires other in s.users && drive in s.RowsOf(other)
    ensures var s' := ToppedUp(s, user, Some(drive), bytes);
      && other in s'.users && drive in s'.RowsOf(other) && drive in s'.drives
      && Available(s', drive) == Available(s, drive) - bytes
  {
    TopUpMovesLoad(s, user, drive, bytes, ToppedUp(s, user, Some(drive), bytes), drive);
  }

  lemma UnheldTopUpFits(s: State, user: Id, drive: Option<Id>, bytes: int)
    requires Sound(s) && WithinCapacity(s) && user in s.users && !(drive.Some? && drive.value in s.RowsOf(user))
    ensures WithinCapacity(ToppedUp(s, user, drive, bytes))
  {
    OnlyUsersChange(s, ToppedUp(s, user, drive, bytes));
  }

  lemma OnlyUsersChange(s: State, s': State)
    requires Sound(s) && WithinCapacity(s) && s' == s.(users := s'.users)
    ensures WithinCapacity(s')
  {
    ReservesSameRows(s, s');
    ShrinkingKeepsCapacity(s, s');
  }

  lemma ReservesSameRows(s: State, s': State)
    requires s'.now == s.now && s'.groups == s.groups && s'.slots == s.slots
    ensures ReservesNoMore(s, s')
  {
  }

  lemma ProvisionKeepsCapacity(s: State, user: Id, drive: Id, quota: int, s': State)
    requires Sound(s) && WithinCapacity(s)
    requires BestFit(Rooms(s), quota, Some(drive)) && Provisions(s, user, drive, quota, s')
    ensures WithinCapacity(s')
  {
    ProvisionKeepsSound(s, user, drive, quota, s');
    forall d <- s'.drives
      ensures Load(s', d) <= s'.drives[d].capacity
    {
      AllocatedMoves(s, user, s', d);
      ReservedSame(s, s', d);
    }
  }

  /** Dropping a row with a negative quota takes room from its drive: there is room for that. */
  predicate DropFits(s: State, user: Id, items: seq<Item>, d: Id) {
    d in s.RowsOf(user) && !Requested(items, d) ==> 0 <= Available(s, d) + s.RowsOf(user)[d].quota
  }

  /** An accepted save leaves a drive's availability non-negative exactly when its drops fit. */
  lemma SaveKeepsDriveIff(s: State, user: Id, used: Usage, items: seq<Item>, s': State, total: int, d: Id)
    requires Sound(s) && Acceptable(s, user, used, items) && Saves(s, user, Wants(items), s', total)
    requires d in s.drives && 0 <= Available(s, d)
    ensures 0 <= Available(s', d) <==> DropFits(s, user, items, d)
  {
    AvailableMoves(s, user, s', d);
    SavedIffRequested(s, user, used, items, s', total, d);
    if d in s'.RowsOf(user) {
      NoViolation(s, user, used, items, d, s'.RowsOf(user)[d].quota);
      KeptHasRoom(s, user, used, d, s'.RowsOf(user)[d].quota, s');
    } else {
      assert s'.QuotaOn(user, d) == 0;
    }
  }

  lemma SavedIffRequested(s: State, user: Id, used: Usage, items: seq<Item>, s': State, total: int, d: Id)
    requires Acceptable(s, user, used, items) && Saves(s, user, Wants(items), s', total)
    ensures d in s'.RowsOf(user) <==> Requested(items, d)
    ensures d in s'.RowsOf(user) ==> Item(Some(d), s'.RowsOf(user)[d].quota) in items
  {
    SavedRowsAreRequested(s, user, used, items, s', total);
    RequestedRows(s'.RowsOf(user), items, d);
  }

  lemma RequestedRows(rows: map<Id, Allocation>, items: seq<Item>, d: Id)
    requires forall q: int :: (d in rows && rows[d].quota == q) <==> Item(Some(d), q) in items
    ensures d in rows <==> Requested(items, d)
    ensures d in rows ==> Item(Some(d), rows[d].quota) in items
  {
    if d in rows { assert Item(Some(d), rows[d].quota) in items; }
    if Requested(items, d) {
      var item :| item in items && item.drive == Some(d);
      assert item == Item(Some(d), item.quota);
    }
  }

  /** A quota without a violation leaves room. */
  lemma KeptHasRoom(s: State, user: Id, used: Usage, d: Id, quota: int, s': State)
    requires ItemViolation(s, user, used, d, quota) == None && 0 <= Available(s, d)
    requires Available(s', d) + quota == Available(s, d) + s.QuotaOn(user, d)
    ensures 0 <= Available(s', d)
  {
  }

  /** A save takes no drive's availability from non-negative to negative exactly when its drops fit. */
  lemma SaveKeepsCapacityIff(s: State, user: Id, used: Usage, items: seq<Item>, s': State, total: int)
    requires Sound(s) && Acceptable(s, user, used, items) && Saves(s, user, Wants(items), s', total)
    ensures (forall d <- s.drives :: 0 <= Available(s, d) ==> 0 <= Available(s', d)) <==>
            (forall d <- s.drives :: 0 <= Available(s, d) ==> DropFits(s, user, items, d))
  {
    forall d <- s.drives | 0 <= Available(s, d) ensures 0 <= Available(s', d) <==> DropFits(s, user, items, d) {
      SaveKeepsDriveIff(s, user, used, items, s', total, d);
    }
  }

  lemma SaveWithinCapacityIff(s: State, user: Id, used: Usage, items: seq<Item>, s': State, total: int)
    requires Sound(s) && WithinCapacity(s)
    requires Acceptable(s, user, used, items) && Saves(s, user, Wants(items), s', total)
    ensures WithinCapacity(s') <==> Fits(s, AdminSave(user, used, items, total))
  {
    SaveKeepsDrives(s, user, Wants(items), s', total);
    SaveKeepsCapacityIff(s, user, used, items, s', total);
    DropsDecide(s, user, used, items, s', total);
  }

  lemma SaveKeepsDrives(s: State, user: Id, want: seq<Want>, s': State, total: int)
    requires Saves(s, user, want, s', total)
    ensures s'.drives == s.drives
  {
  }

  /** Where no drive is overdrawn yet, staying so on each drive is staying within capacity. */
  lemma DropsDecide(s: State, user: Id, used: Usage, items: seq<Item>, s': State, total: int)
    requires WithinCapacity(s) && s'.drives == s.drives
    requires (forall d <- s.drives :: 0 <= Available(s, d) ==> 0 <= Available(s', d)) <==>
             (forall d <- s.drives :: 0 <= Available(s, d) ==> DropFits(s, user, items, d))
    ensures WithinCapacity(s') <==> Fits(s, AdminSave(user, used, items, total))
  {
    NotOverdrawn(s);
    NotOverdrawn(s');
  }

  lemma NotOverdrawn(s: State)
    ensures WithinCapacity(s) <==> forall d <- s.drives :: 0 <= Available(s, d)
  {
    assert forall d <- s.drives :: 0 <= Available(s, d) <==> Load(s, d) <= s.drives[d].capacity;
  }

  /** Rewriting one user's rows moves a drive's availability by that user's change there. */
  lemma AvailableMoves(s: State, user: Id, s': State, d: Id)
    requires d in s.drives && s'.allocations == s.allocations[user := s'.RowsOf(user)]
    requires s' == s.(users := s'.users, allocations := s'.allocations)
    ensures Available(s', d) + s'.QuotaOn(user, d) == Available(s, d) + s.QuotaOn(user, d)
  {
    AllocatedMoves(s, user, s', d);
    ReservedSame(s, s', d);
  }

  lemma NoViolation(s: State, user: Id, used: Usage, items: seq<Item>, d: Id, quota: int)
    requires Acceptable(s, user, used, items) && Item(Some(d), quota) in items
    ensures ItemViolation(s, user, used, d, quota) == None
  {
    var found := ItemViolation(s, user, used, d, quota);
    if found.Some? {
      var i :| 0 <= i < |items| && items[i] == Item(Some(d), quota);
      assert RequestViolates(s, user, used, items, found.value);
    }
  }

  lemma RowEventKeepsCapacityIff(s: State, e: Event, s': State)
    requires Sound(s) && WithinCapacity(s) && Step(s, e, s') && WritesRows(e)
    ensures WithinCapacity(s') <==> Fits(s, e)
  {
    match e
    case Register(user, hold) => RegisterKeepsCapacityIff(s, user, hold, s');
    case TopUp(user, drive, bytes) => TopUpKeepsCapacityIff(s, user, drive, bytes);
    case SetQuota(user, quota) => OnlyUsersChange(s, s');
    case Provision(user, drive, quota) => ProvisionKeepsCapacity(s, user, drive, quota, s');
    case AdminSave(user, used, items, total) => SaveWithinCapacityIff(s, user, used, items, s', total);
    case SetPrimary(user, drive) => SetPrimaryKeepsCapacity(s, user, drive, s');
  }

  lemma SetPrimaryKeepsCapacity(s: State, user: Id, drive: Id, s': State)
    requires WithinCapacity(s) && SetsPrimary(s, user, drive, s')
    ensures WithinCapacity(s')
  {
    forall d <- s'.drives
      ensures Load(s', d) <= s'.drives[d].capacity
    {
      AllocatedMoves(s, user, s', d);
      ReservedSame(s, s', d);
    }
  }

  /** The exact condition, event by event. */
  lemma StepKeepsCapacityIff(s: State, e: Event, s': State)
    requires Sound(s) && WithinCapacity(s) && Step(s, e, s')
    ensures WithinCapacity(s') <==> Fits(s, e)
  {
    if InsertsSlots(e) {
      InsertEventKeepsCapacity(s, e, s');
    } else if WritesRows(e) {
      RowEventKeepsCapacityIff(s, e, s');
    } else if e.EditGroup? {
      EditKeepsCapacityIff(s, e.group, e.g);
    } else {
      OtherEventReservesNoMore(s, e, s');
      ShrinkingKeepsCapacity(s, s');
    }
  }

  /** Deleting, sweeping, releasing, reserving and time passing never set quota aside. */
  lemma OtherEventReservesNoMore(s: State, e: Event, s': State)
    requires Step(s, e, s') && !InsertsSlots(e) && !WritesRows(e) && !e.EditGroup?
    ensures ReservesNoMore(s, s') && s'.drives == s.drives && s'.allocations == s.allocations
  {
  }

  /** A run stays within capacity throughout exactly when each event fitted when it happened. */
  lemma RunWithinCapacityIff(states: seq<State>, events: seq<Event>)
    requires Run(states, events) && Sound(states[0]) && WithinCapacity(states[0])
    ensures (forall i | 0 <= i < |states| :: WithinCapacity(states[i]))
       <==> (forall i | 0 <= i < |events| :: Fits(states[i], events[i]))
  {
    if forall i | 0 <= i < |events| :: Fits(states[i], events[i]) {
      forall i | 0 <= i < |states| ensures WithinCapacity(states[i]) {
        FittingRunWithinCapacity(states, events, i);
      }
    }
    if forall i | 0 <= i < |states| :: WithinCapacity(states[i]) {
      forall i | 0 <= i < |events| ensures Fits(states[i], events[i]) {
        RunKeepsSound(states, events, i);
        StepKeepsCapacityIff(states[i], events[i], states[i + 1]);
      }
    }
  }

  lemma {:induction false} FittingRunWithinCapacity(states: seq<State>, events: seq<Event>, i: nat)
    requires Run(states, events) && Sound(states[0]) && WithinCapacity(states[0]) && i < |states|
    requires forall j | 0 <= j < i :: Fits(states[j], events[j])
    ensures WithinCapacity(states[i])
  {
    if i > 0 {
      FittingRunWithinCapacity(states, events, i - 1);
      RunKeepsSound(states, events, i - 1);
      StepKeepsCapacityIff(states[i - 1], events[i - 1], states[i]);
    }
  }

  // ── A drive overcommitted through an expired group ─────────────────────────

  /** One drive of ten bytes, all allocated; an expired group's ten-byte slot is still held. */
  function Overcommittable(): State {
    State(5, map[0 := true], map[0 := Drive(0, Hdd, 10, true)], map[1 := 10],
          map[1 := map[0 := Allocation(10, true, 0)]],
          map[0 := Group(0, true, Some(5))],
          map[0 := Slot(0, 0, Signature(0, Hdd, 10, Base, None), 0, None, None)],
          map[0 := Hold(0, 0, 6, None, None)])
  }

  function Overcommitted(): State {
    var s := Overcommittable();
    CompletedState(s.(users := s.users[2 := 10], allocations := s.allocations[2 := map[0 := Allocation(10, true, 5)]]),
                   0, 0, 2)
  }

  /**
   * The gap is real: a hold taken while its group was live may be completed after the
   * group expired and its space was given away. Registering through it allocates twenty
   * of the drive's ten bytes.
   */
  lemma ExpiredGroupOvercommits()
    ensures var s := Overcommittable();
      Sound(s) && WithinCapacity(s) && Step(s, Register(2, 0), Overcommitted()) && !WithinCapacity(Overcommitted())
  {
    OvercommittableIsFull();
    OvercommittingRegisters();
    RegisterKeepsCapacityIff(Overcommittable(), 2, 0, Overcommitted());
  }

  lemma OvercommittableIsFull()
    ensures var s := Overcommittable();
      Sound(s) && WithinCapacity(s) && !Fits(s, Register(2, 0))
  {
    OvercommittableTotals();
    var s := Overcommittable();
    assert forall u: Id, d: Id :: d in s.RowsOf(u) <==> u == 1 && d == 0;
  }

  lemma OvercommittableTotals()
    ensures Allocated(Overcommittable(), 0) == 10 && Reserved(Overcommittable(), 0) == 0
  {
    var s := Overcommittable();
    TotalInsert(map[], 1, 10);
    assert AllocatedRows(s, 0) == map[][1 := 10];
    assert ReservedRows(s, 0) == map[];
  }

  lemma OvercommittingRegisters()
    ensures Registers(Overcommittable(), 2, 0, Overcommitted())
  {
    var s := Overcommittable();
    assert Swept(s).holds == s.holds;
    var s1 := s.(users := s.users[2 := 10]);
    var s2 := s1.(allocations := s.allocations[2 := map[0 := Allocation(10, true, 5)]]);
    assert MakesPrimary(s1, 2, 0, 10, s2);
    assert Provisions(s, 2, 0, 10, s2);
    assert Completes(s2, 0, 0, 2, Overcommitted(), Completed);
  }
}
