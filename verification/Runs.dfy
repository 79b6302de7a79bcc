/**
 * The storage tables as one state machine: every operation on them is an event, and a run
 * is any interleaving of events. Each event is one committed transaction, or one rolled
 * back; NOW() never goes back.
 */
module Runs {
  import opened Prelude
  import opened Tables
  import opened Drives
  import opened Registration
  import opened Allocations
  import opened AdminBrowse

  datatype Event =
    | Tick(to: Time)
    | CreateGroup(id: Id, link: Id, expiresAt: Option<Time>, specs: seq<SlotSpec>, created: Outcome)
    | AddSlots(group: Id, specs: seq<SlotSpec>, added: Outcome)
    | DeleteFree(group: Id, sig: Signature)
    | ReplaceType(group: Id, sig: Signature, spec: SlotSpec, replaced: Outcome)
    | EditGroup(group: Id, g: Group)
    | DeleteGroup(group: Id)
    | Reserve(slot: Id, token: Id, expiresAt_: Time, reserved: ReserveResult)
    | Sweep
    | Release(token: Id)
    | Register(user: Id, hold: Id)
    | Provision(user: Id, drive: Id, quota: int)
    | AdminSave(user: Id, used: Usage, items: seq<Item>, total: int)
    | SetPrimary(user: Id, drive: Id)
    | TopUp(user: Id, drive_: Option<Id>, bytes: int)      // negative bytes: a refund or a revert
    | SetQuota(user: Id, quota: int)                      // an admin overwrites the aggregate

  /** CreateUser followed by AllocateUserToDrive: an account whose whole quota is on one drive. */
  ghost predicate Provisions(s: State, user: Id, drive: Id, quota: int, s': State) {
    && user !in s.users && drive in s.drives && 0 <= quota
    && MakesPrimary(s.(users := s.users[user := quota]), user, drive, quota, s')
  }

  /**
   * RegisterWithReservation: sweep, check that the hold survived and its group is active
   * (an expired group still serves holds already taken), then provision the account on the
   * slot's drive and complete the hold.
   */
  ghost predicate Registers(s: State, user: Id, hold: Id, s': State) {
    var s1 := Swept(s);
    && hold in s1.holds && s1.holds[hold].Open()
    && var k := s1.holds[hold].slot;
       && k in s1.slots && s1.slots[k].consumedAt.None?
       && s1.slots[k].group in s1.groups && s1.groups[s1.slots[k].group].active
       && exists s2 ::
            && Provisions(s1, user, s1.slots[k].drive, s1.slots[k].sig.quota, s2)
            && Completes(s2, hold, k, user, s', Completed)
  }

  ghost predicate Step(s: State, e: Event, s': State) {
    match e
    case Tick(to) => s.now <= to && s' == s.(now := to)
    case CreateGroup(id, link, expiresAt, specs, r) =>
      CreatesGroup(s, Group(link, true, expiresAt), specs, s', id, r)
    case AddSlots(group, specs, r) => AddsSlots(s, group, specs, s', r)
    case DeleteFree(group, sig) => s' == WithoutSlots(s, FreeSlots(s, group, sig))
    case ReplaceType(group, sig, spec, r) => ReplacesType(s, group, sig, spec, s', r)
    case EditGroup(group, g) => s' == WithGroup(s, group, g)
    case DeleteGroup(group) => s' == WithoutGroup(s, group)
    case Reserve(slot, token, expiresAt, r) => Reserves(s, slot, token, expiresAt, s', r)
    case Sweep => s' == Swept(s)
    case Release(token) => s' == Released(s, token)
    case Register(user, hold) => Registers(s, user, hold, s')
    case Provision(user, drive, quota) =>
      BestFit(Rooms(s), quota, Some(drive)) && Provisions(s, user, drive, quota, s')
    case AdminSave(user, used, items, total) =>
      Acceptable(s, user, used, items) && Saves(s, user, Wants(items), s', total)
    case SetPrimary(user, drive) => SetsPrimary(s, user, drive, s')
    case TopUp(user, drive, bytes) => user in s.users && s' == ToppedUp(s, user, drive, bytes)
    case SetQuota(user, quota) => s' == WithQuota(s, user, quota)
  }

  ghost predicate Run(states: seq<State>, events: seq<Event>) {
    && |states| == |events| + 1
    && forall i | 0 <= i < |events| :: Step(states[i], events[i], states[i + 1])
  }

  /** What each event of the group tables is for, by their columns. */
  lemma GroupEventsTakeEffect(s: State, e: Event, s': State)
    requires Step(s, e, s')
    ensures e.Release? ==> forall h <- s'.holds | s'.holds[h].token == e.token ::
      s'.holds[h].completedAt.Some? || s'.holds[h].releasedAt.Some?
    ensures e.Sweep? ==> forall h <- s'.holds | s'.holds[h].expiresAt <= s.now ::
      s'.holds[h].completedAt.Some? || s'.holds[h].releasedAt.Some?
    ensures e.DeleteGroup? ==> e.group !in s'.groups && forall k <- s'.slots :: s'.slots[k].group != e.group
    ensures e.EditGroup? && e.group in s.groups ==> e.group in s'.groups && s'.groups[e.group] == e.g
    ensures e.Tick? ==> s'.now == e.to
    ensures !e.Tick? ==> s'.now == s.now
  {
    if InsertsSlots(e) {
      InsertEventKeepsClock(s, e, s');
    } else if e.TopUp? {
      ToppedUpTables(s, e.user, e.drive_, e.bytes);
    }
  }

  lemma InsertEventKeepsClock(s: State, e: Event, s': State)
    requires InsertsSlots(e) && Step(s, e, s')
    ensures s'.now == s.now
  {
    var group, sigs, end, r := InsertEvent(s, e, s');
    if s' != s { InsertsGrow(BeforeInsert(s, e), group, sigs, end, r); }
  }

  /** After deleting the free slots of a type, whatever is left of it is consumed or under a live hold. */
  lemma DeleteFreeTakesEffect(s: State, group: Id, sig: Signature, s': State)
    requires Step(s, DeleteFree(group, sig), s')
    ensures forall k <- s'.slots | s'.slots[k].group == group && s'.slots[k].sig == sig ::
      s'.slots[k].consumedAt.Some? || HeldNow(s', k)
  {
    FreeSlotsGo(s, group, sig);
    forall k <- s'.slots
      | s'.slots[k].group == group && s'.slots[k].sig == sig && s'.slots[k].consumedAt.None?
      ensures HeldNow(s', k)
    {
      var h :| h in s.holds && s.holds[h].slot == k
        && !(s.holds[h].completedAt.Some? || s.holds[h].releasedAt.Some? || s.holds[h].expiresAt <= s.now);
      assert h in s'.holds && s'.holds[h] == s.holds[h];
    }
  }

  /** What each event of the user tables is for. */
  lemma UserEventsTakeEffect(s: State, e: Event, s': State)
    requires Step(s, e, s')
    ensures e.Provision? ==>
      e.drive in s'.RowsOf(e.user) && s'.RowsOf(e.user)[e.drive] == Allocation(e.quota, true, s.now)
    ensures e.SetPrimary? ==> forall d <- s'.RowsOf(e.user) :: s'.RowsOf(e.user)[d].primary <==> d == e.drive
    ensures e.TopUp? ==> e.user in s.users && s'.users == s.users[e.user := s.users[e.user] + e.bytes]
    ensures e.SetQuota? && e.user in s.users ==> s'.users == s.users[e.user := e.quota]
  {
    if e.TopUp? { ToppedUpTables(s, e.user, e.drive_, e.bytes); }
  }

  /** References resolve and every slot has a quota. */
  ghost predicate Sound(s: State) {
    s.ForeignKeys() && PositiveSlots(s)
  }

  ghost predicate PositiveSlots(s: State) { forall k <- s.slots :: 0 < s.slots[k].sig.quota }

  /** What inserting slots never touches, and what it adds. */
  ghost predicate Grows(s: State, group: Id, s': State) {
    && s' == s.(slots := s'.slots)
    && (forall k <- s.slots :: k in s'.slots && s'.slots[k] == s.slots[k])
    && forall k <- s'.slots :: k in s.slots || (
         && s'.slots[k].group == group && group in s.groups
         && s'.slots[k].drive in s.drives && 0 < s'.slots[k].sig.quota && s'.slots[k].consumedAt.None?)
  }

  lemma InsertGrows(s: State, group: Id, sig: Signature, s': State)
    requires InsertsOne(s, group, sig, s')
    ensures Grows(s, group, s')
  {
  }

  lemma GrowsTransitive(s: State, group: Id, s1: State, s2: State)
    requires Grows(s, group, s1) && Grows(s1, group, s2)
    ensures Grows(s, group, s2)
  {
  }

  lemma {:induction false} TraceGrowsTable(trace: seq<State>, group: Id, sigs: seq<Signature>, n: nat)
    requires InsertTrace(trace, group, sigs) && n < |trace|
    ensures Grows(trace[0], group, trace[n])
  {
    if n > 0 {
      TraceGrowsTable(trace, group, sigs, n - 1);
      InsertGrows(trace[n - 1], group, sigs[n - 1], trace[n]);
      GrowsTransitive(trace[0], group, trace[n - 1], trace[n]);
    }
  }

  lemma InsertsGrow(s: State, group: Id, sigs: seq<Signature>, s': State, r: Outcome)
    requires Inserts(s, group, sigs, s', r)
    ensures Grows(s, group, s')
  {
    var trace :| InsertTrace(trace, group, sigs) && trace[0] == s && trace[|trace| - 1] == s';
    TraceGrowsTable(trace, group, sigs, |trace| - 1);
  }

  /** The tables before slots are inserted, for the three events that insert them. */
  function BeforeInsert(s: State, e: Event): State
    requires InsertsSlots(e)
  {
    match e
    case CreateGroup(id, link, expiresAt, _, _) => s.(groups := s.groups[id := Group(link, true, expiresAt)])
    case AddSlots(_, _, _) => s
    case ReplaceType(group, sig, _, _) => WithoutSlots(s, FreeSlots(s, group, sig))
  }

  lemma InsertEvent(s: State, e: Event, s': State) returns (group: Id, sigs: seq<Signature>, end: State, r: Outcome)
    requires InsertsSlots(e)
    requires Step(s, e, s')
    ensures s' == s || (Inserts(BeforeInsert(s, e), group, sigs, end, r) && Commits(s, end, s', r))
    ensures e.CreateGroup? && s' != s ==> e.id == group && group !in s.groups
  {
    match e
    case CreateGroup(id, link, expiresAt, specs, created) =>
      group, sigs, r, end := id, Expanded(specs), created, s;
      if LinkTaken(s, link) { return; }
      end :| Inserts(BeforeInsert(s, e), group, sigs, end, r) && Commits(s, end, s', r);
    case AddSlots(g, specs, added) =>
      group, sigs, r := g, Expanded(specs), added;
      end :| Inserts(BeforeInsert(s, e), group, sigs, end, r) && Commits(s, end, s', r);
    case ReplaceType(g, sig, spec, replaced) =>
      group, sigs, r := g, Expanded([spec]), replaced;
      end :| Inserts(BeforeInsert(s, e), group, sigs, end, r) && Commits(s, end, s', r);
  }

  predicate InsertsSlots(e: Event) { e.CreateGroup? || e.AddSlots? || e.ReplaceType? }

  /** The events that rewrite users or allocation rows. */
  predicate WritesRows(e: Event) {
    e.Register? || e.Provision? || e.AdminSave? || e.SetPrimary? || e.TopUp? || e.SetQuota?
  }

  /** Every event keeps the tables sound. */
  lemma StepKeepsSound(s: State, e: Event, s': State)
    requires Sound(s) && Step(s, e, s')
    ensures Sound(s')
  {
    if InsertsSlots(e) {
      InsertKeepsSound(s, e, s');
    } else if WritesRows(e) {
      RowEventKeepsSound(s, e, s');
    } else {
      GroupEventKeepsSound(s, e, s');
    }
  }

  lemma RowEventKeepsSound(s: State, e: Event, s': State)
    requires Sound(s) && Step(s, e, s') && WritesRows(e)
    ensures Sound(s')
  {
    match e
    case Provision(user, drive, quota) => ProvisionKeepsSound(s, user, drive, quota, s');
    case Register(user, hold) => RegisterKeepsSound(s, user, hold, s');
    case AdminSave(user, used, items, total) => SaveKeepsSound(s, user, used, items, s', total);
    case SetPrimary(user, drive) => SetPrimaryKeepsSound(s, user, drive, s');
    case TopUp(user, drive, bytes) => TopUpKeepsSound(s, user, drive, bytes);
    case SetQuota(user, quota) => SetQuotaKeepsSound(s, user, quota);
  }

  lemma SetPrimaryKeepsSound(s: State, user: Id, drive: Id, s': State)
    requires Sound(s) && SetsPrimary(s, user, drive, s')
    ensures Sound(s')
  {
    assert user in s.users;
    RowsKeepSound(s, user, s');
  }

  lemma SetQuotaKeepsSound(s: State, user: Id, quota: int)
    requires Sound(s)
    ensures Sound(WithQuota(s, user, quota))
  {
    assert forall u: Id :: WithQuota(s, user, quota).RowsOf(u) == s.RowsOf(u);
  }

  lemma TopUpKeepsSound(s: State, user: Id, drive: Option<Id>, bytes: int)
    requires Sound(s) && user in s.users
    ensures Sound(ToppedUp(s, user, drive, bytes))
  {
    var s' := ToppedUp(s, user, drive, bytes);
    forall d <- s'.RowsOf(user)
      ensures d in s.drives
    {
      assert d in s.RowsOf(user);
    }
    RowsKeepSound(s, user, s');
  }

  lemma GroupEventKeepsSound(s: State, e: Event, s': State)
    requires Sound(s) && Step(s, e, s') && !InsertsSlots(e) && !WritesRows(e)
    ensures Sound(s')
  {
    match e
    case Reserve(slot, token, expiresAt, r) => ReserveKeepsSound(s, slot, token, expiresAt, s', r);
    case DeleteGroup(group) => DeleteKeepsSound(s, SlotsOfGroup(s, group), s');
    case DeleteFree(group, sig) => DeleteKeepsSound(s, FreeSlots(s, group, sig), s');
    case _ => ClosingEventKeepsSound(s, e, s');
  }

  /** Time passing, editing a group, sweeping and releasing. */
  lemma ClosingEventKeepsSound(s: State, e: Event, s': State)
    requires Sound(s) && Step(s, e, s') && (e.Tick? || e.EditGroup? || e.Sweep? || e.Release?)
    ensures Sound(s')
  {
    GroupTablesKeepSound(s, s');
  }

  lemma ReserveKeepsSound(s: State, slot: Id, token: Id, expiresAt: Time, s': State, r: ReserveResult)
    requires Sound(s) && Reserves(s, slot, token, expiresAt, s', r)
    ensures Sound(s')
  {
    if r.Held? {
      assert Claimable(Swept(s), r.slot, s.slots[slot].group, s.slots[slot].sig);
      GroupTablesKeepSound(s, s');
    }
  }

  lemma DeleteKeepsSound(s: State, gone: set<Id>, s': State)
    requires Sound(s)
    requires s' == WithoutSlots(s, gone).(groups := s'.groups)
    requires forall k <- s.slots :: k !in gone ==> s.slots[k].group in s'.groups
    ensures Sound(s')
  {
    GroupTablesKeepSound(s, s');
  }

  /** Changes confined to the group tables and the clock, with references intact. */
  lemma GroupTablesKeepSound(s: State, s': State)
    requires Sound(s)
    requires s' == s.(now := s'.now, groups := s'.groups, slots := s'.slots, holds := s'.holds)
    requires forall k <- s'.slots ::
      s'.slots[k].group in s'.groups && s'.slots[k].drive in s.drives && 0 < s'.slots[k].sig.quota
    requires forall h <- s'.holds :: s'.holds[h].slot in s'.slots
    ensures Sound(s')
  {
    assert forall u: Id :: s'.RowsOf(u) == s.RowsOf(u);
  }

  /** Registering adds one user with one row, and consumes one slot. */
  lemma RegisterWritesOneRow(s: State, user: Id, hold: Id, s': State) returns (drive: Id, quota: int)
    requires Sound(s) && Registers(s, user, hold, s')
    ensures hold in s.holds && s.holds[hold].slot in s.slots
    ensures var slot := s.slots[s.holds[hold].slot]; drive == slot.drive && quota == slot.sig.quota
    ensures user !in s.users && s.RowsOf(user) == map[] && s'.users == s.users[user := quota]
    ensures s'.allocations == s.allocations[user := map[drive := Allocation(quota, true, s.now)]]
  {
    var s1 := Swept(s);
    GroupTablesKeepSound(s, s1);
    var k := s1.holds[hold].slot;
    drive, quota := s1.slots[k].drive, s1.slots[k].sig.quota;
    var s2 :| Provisions(s1, user, drive, quota, s2) && Completes(s2, hold, k, user, s', Completed);
    ProvisionKeepsSound(s1, user, drive, quota, s2);
  }

  lemma RegisterConsumesSlot(s: State, user: Id, hold: Id, s': State)
    requires Registers(s, user, hold, s')
    ensures hold in s.holds && s.holds[hold].slot in s.slots && s.slots[s.holds[hold].slot].consumedAt.None?
    ensures s'.now == s.now && s'.groups == s.groups
    ensures var k := s.holds[hold].slot;
      k in s'.slots && s'.slots[k].consumedAt.Some? && s'.slots == s.slots[k := s'.slots[k]]
  {
  }

  /** Both rows are closed for the new user: the hold is completed now, and the slot is that user's. */
  lemma RegisterClosesBoth(s: State, user: Id, hold: Id, s': State)
    requires Registers(s, user, hold, s')
    ensures hold in s.holds && s.holds[hold].slot in s.slots && s.groups[s.slots[s.holds[hold].slot].group].active
    ensures s.holds[hold].completedAt.None? && s.holds[hold].releasedAt.None? && s.now < s.holds[hold].expiresAt
    ensures s'.holds[hold] == s.holds[hold].(completedAt := Some(s.now))
    ensures var k := s.holds[hold].slot;
      s'.slots == s.slots[k := s.slots[k].(consumedAt := Some(s.now), consumedBy := Some(user))]
  {
  }

  lemma CompletionKeepsSound(s: State, hold: Id, slot: Id, user: Id, s': State)
    requires Sound(s) && Completes(s, hold, slot, user, s', Completed)
    ensures Sound(s')
  {
    GroupTablesKeepSound(s, s');
  }

  lemma RegisterKeepsSound(s: State, user: Id, hold: Id, s': State)
    requires Sound(s) && Registers(s, user, hold, s')
    ensures Sound(s')
  {
    var s1 := Swept(s);
    GroupTablesKeepSound(s, s1);
    var k := s1.holds[hold].slot;
    var s2 :| Provisions(s1, user, s1.slots[k].drive, s1.slots[k].sig.quota, s2)
      && Completes(s2, hold, k, user, s', Completed);
    ProvisionKeepsSound(s1, user, s1.slots[k].drive, s1.slots[k].sig.quota, s2);
    CompletionKeepsSound(s2, hold, k, user, s');
  }

  /** An inserting event keeps nothing, or grows the slot table it starts inserting into. */
  lemma InsertEventGrows(s: State, e: Event, s': State) returns (group: Id)
    requires InsertsSlots(e)
    requires Sound(s) && Step(s, e, s')
    ensures Sound(BeforeInsert(s, e))
    ensures s' == s || Grows(BeforeInsert(s, e), group, s')
  {
    var sigs, end, r;
    group, sigs, end, r := InsertEvent(s, e, s');
    if s' != s { InsertsGrow(BeforeInsert(s, e), group, sigs, end, r); }
    BeforeInsertSound(s, e);
  }

  lemma BeforeInsertSound(s: State, e: Event)
    requires InsertsSlots(e) && Sound(s)
    ensures Sound(BeforeInsert(s, e))
  {
    GroupTablesKeepSound(s, BeforeInsert(s, e));
  }

  lemma InsertKeepsSound(s: State, e: Event, s': State)
    requires InsertsSlots(e)
    requires Sound(s) && Step(s, e, s')
    ensures Sound(s')
  {
    var group := InsertEventGrows(s, e, s');
    if s' != s {
      GroupTablesKeepSound(BeforeInsert(s, e), s');
    }
  }

  /** Replacing one user's rows by rows on known drives. */
  lemma RowsKeepSound(s: State, user: Id, s': State)
    requires Sound(s)
    requires s'.users.Keys == s.users.Keys + {user}
    requires s' == WithRows(s, user, s'.RowsOf(user)).(users := s'.users) || s' == s.(users := s'.users)
    requires forall d <- s'.RowsOf(user) :: d in s.drives
    ensures Sound(s')
  {
    assert forall u: Id | u != user :: s'.RowsOf(u) == s.RowsOf(u);
  }

  lemma ProvisionKeepsSound(s: State, user: Id, drive: Id, quota: int, s': State)
    requires Sound(s) && Provisions(s, user, drive, quota, s')
    ensures Sound(s') && s.RowsOf(user) == map[]
    ensures s'.RowsOf(user) == map[drive := Allocation(quota, true, s.now)]
  {
    assert s.RowsOf(user) == map[] by {
      assert forall d: Id :: d !in s.RowsOf(user);
    }
    assert s.(users := s.users[user := quota]).RowsOf(user) == s.RowsOf(user);
    assert s'.RowsOf(user).Keys == {drive};
    RowsKeepSound(s, user, s');
  }

  lemma SaveKeepsSound(s: State, user: Id, used: Usage, items: seq<Item>, s': State, total: int)
    requires Sound(s) && Acceptable(s, user, used, items) && Saves(s, user, Wants(items), s', total)
    ensures Sound(s')
  {
    SavedRowsAreRequested(s, user, used, items, s', total);
    forall d <- s'.RowsOf(user)
      ensures d in s.drives
    {
      var i :| 0 <= i < |items| && items[i] == Item(Some(d), s'.RowsOf(user)[d].quota);
      assert items[i] in items;
      assert Assignable(s, user, d);
    }
    RowsKeepSound(s, user, s');
  }

  /** The saved rows are exactly the requested drives with the requested quotas. */
  lemma SavedRowsAreRequested(s: State, user: Id, used: Usage, items: seq<Item>, s': State, total: int)
    requires Acceptable(s, user, used, items) && Saves(s, user, Wants(items), s', total)
    ensures forall d: Id, quota: int ::
      (d in s'.RowsOf(user) && s'.RowsOf(user)[d].quota == quota) <==> Item(Some(d), quota) in items
  {
    var want, saved := Wants(items), s'.RowsOf(user);
    SavedRowsAreWanted(s, user, want, saved);
    DistinctWants(want);
    WantsAreItems(items);
  }

  lemma SavedRowsAreWanted(s: State, user: Id, want: seq<Want>, saved: Rows)
    requires exists rows :: Upserted(s, user, want, rows) && PrimaryReassigned(rows, saved)
    ensures forall d: Id :: LastQuota(want, d) == if d in saved then Some(saved[d].quota) else None
  {
  }

  lemma DistinctWants(want: seq<Want>)
    requires forall i, j | 0 <= i < j < |want| :: want[i].drive != want[j].drive
    ensures forall d: Id, quota: int :: LastQuota(want, d) == Some(quota) <==> Want(d, quota) in want
  {
    DistinctWantsAreExact(want);
    KeptIffWanted(want);
    forall d: Id, quota: int
      ensures LastQuota(want, d) == Some(quota) <==> Want(d, quota) in want
    {
      if LastQuota(want, d) == Some(quota) {
        var w :| w in want && w.drive == d;
        assert LastQuota(want, w.drive) == Some(w.quota);
      }
      if Want(d, quota) in want {
        assert LastQuota(want, Want(d, quota).drive) == Some(quota);
      }
    }
  }

  lemma WantsAreItems(items: seq<Item>)
    requires forall item <- items :: item.drive.Some?
    ensures forall d: Id, quota: int :: Want(d, quota) in Wants(items) <==> Item(Some(d), quota) in items
  {
    var want := Wants(items);
    forall d: Id, quota: int
      ensures Want(d, quota) in want <==> Item(Some(d), quota) in items
    {
      if Want(d, quota) in want {
        var i :| 0 <= i < |want| && want[i] == Want(d, quota);
        assert items[i] in items;
      }
      if Item(Some(d), quota) in items {
        var i :| 0 <= i < |items| && items[i] == Item(Some(d), quota);
        assert want[i] == Want(d, quota);
      }
    }
  }

  lemma {:induction false} RunKeepsSound(states: seq<State>, events: seq<Event>, i: nat)
    requires Run(states, events) && Sound(states[0]) && i < |states|
    ensures Sound(states[i])
  {
    if i > 0 {
      RunKeepsSound(states, events, i - 1);
      StepKeepsSound(states[i - 1], events[i - 1], states[i]);
    }
  }
}
