/**
 * The reservation protocol over whole runs: a slot has at most one open hold, it is
 * consumed exactly when one of its holds was completed, and a live hold is honoured.
 */
module Holds {
  import opened Prelude
  import opened Tables
  import opened Registration
  import opened Allocations
  import opened Runs

  ghost predicate OneOpenHold(s: State) {
    forall g <- s.holds, h <- s.holds ::
      s.holds[g].Open() && s.holds[h].Open() && s.holds[g].slot == s.holds[h].slot ==> g == h
  }

  /** A completed hold accounts for its slot alone. */
  ghost predicate OneCompletedHold(s: State) {
    forall g <- s.holds, h <- s.holds ::
      s.holds[g].completedAt.Some? && s.holds[h].completedAt.Some? && s.holds[g].slot == s.holds[h].slot ==> g == h
  }

  ghost predicate CompletedFor(s: State, slot: Id) {
    exists h <- s.holds :: s.holds[h].slot == slot && s.holds[h].completedAt.Some?
  }

  ghost predicate Protocol(s: State) {
    && OneOpenHold(s) && OneCompletedHold(s)
    && (forall k <- s.slots :: s.slots[k].consumedAt.Some? <==> CompletedFor(s, k))
    && (forall h <- s.holds :: s.holds[h].Open() && s.holds[h].slot in s.slots
          ==> s.slots[s.holds[h].slot].consumedAt.None?)
    && (forall g <- s.holds, h <- s.holds :: s.holds[g].token == s.holds[h].token ==> g == h)
  }

  /** Holds are only closed without completing them; slots only disappear together with their holds. */
  ghost predicate OnlyCloses(s: State, s': State) {
    && (forall k <- s'.slots :: k in s.slots && s'.slots[k] == s.slots[k])
    && (forall h <- s'.holds :: h in s.holds
          && s'.holds[h].slot == s.holds[h].slot && s'.holds[h].token == s.holds[h].token
          && s'.holds[h].completedAt == s.holds[h].completedAt
          && (s'.holds[h].Open() ==> s.holds[h].Open()))
    && (forall h <- s.holds :: s.holds[h].slot in s'.slots ==> h in s'.holds)
  }

  lemma ClosingKeepsProtocol(s: State, s': State)
    requires Protocol(s) && OnlyCloses(s, s')
    ensures Protocol(s')
  {
  }

  /** A new hold on an unconsumed slot without an open one. */
  lemma OpeningKeepsProtocol(s: State, id: Id, hold: Hold)
    requires Protocol(s) && id !in s.holds && hold.Open()
    requires hold.slot in s.slots && s.slots[hold.slot].consumedAt.None? && !OpenHeld(s, hold.slot)
    requires forall h <- s.holds :: s.holds[h].token != hold.token
    ensures Protocol(s.(holds := s.holds[id := hold]))
  {
    var s' := s.(holds := s.holds[id := hold]);
    assert forall h <- s.holds :: s'.holds[h] == s.holds[h];
    forall k <- s'.slots
      ensures CompletedFor(s', k) <==> CompletedFor(s, k)
    {
      if CompletedFor(s, k) {
        var h :| h in s.holds && s.holds[h].slot == k && s.holds[h].completedAt.Some?;
        assert s'.holds[h].completedAt.Some?;
      }
    }
  }

  lemma ReserveKeepsProtocol(s: State, slot: Id, token: Id, expiresAt: Time, s': State, r: ReserveResult)
    requires Protocol(s) && Reserves(s, slot, token, expiresAt, s', r)
    ensures Protocol(s')
  {
    if r.Held? {
      var s1 := Swept(s);
      ClosingKeepsProtocol(s, s1);
      assert Claimable(s1, r.slot, s.slots[slot].group, s.slots[slot].sig);
      OpeningKeepsProtocol(s1, r.hold, Hold(r.slot, token, expiresAt, None, None));
    }
  }

  /** Completing an open hold on its own slot. */
  lemma CompletionKeepsProtocol(s: State, hold: Id, user: Id)
    requires Protocol(s) && hold in s.holds && s.holds[hold].Open() && s.holds[hold].slot in s.slots
    ensures Protocol(CompletedState(s, hold, s.holds[hold].slot, user))
  {
    var slot := s.holds[hold].slot;
    var s' := CompletedState(s, hold, slot, user);
    assert !CompletedFor(s, slot);
    forall k <- s'.slots
      ensures s'.slots[k].consumedAt.Some? <==> CompletedFor(s', k)
    {
      if k == slot {
        assert s'.holds[hold].slot == k;
      } else if CompletedFor(s, k) {
        var h :| h in s.holds && s.holds[h].slot == k && s.holds[h].completedAt.Some?;
        assert s'.holds[h] == s.holds[h];
      }
    }
  }

  /**
   * CompleteSlotReservation trusts the slot its caller names. On success the protocol
   * survives exactly when that slot is the hold's own.
   */
  lemma CompletionNeedsOwnSlot(s: State, hold: Id, slot: Id, user: Id, s': State)
    requires Protocol(s) && Sound(s) && Completes(s, hold, slot, user, s', Completed)
    ensures Protocol(s') <==> slot == s.holds[hold].slot
  {
    var own := s.holds[hold].slot;
    if slot == own {
      CompletionKeepsProtocol(s, hold, user);
    } else {
      assert s'.slots[own].consumedAt.None?;
      assert s'.holds[hold].slot == own && s'.holds[hold].completedAt.Some?;
      assert CompletedFor(s', own);
    }
  }

  /** A new slot has no holds: every hold refers to an older slot. */
  lemma GrowthKeepsProtocol(s: State, group: Id, s': State)
    requires Sound(s) && Protocol(s) && Grows(s, group, s')
    ensures Protocol(s')
  {
  }

  lemma BeforeInsertOnlyCloses(s: State, e: Event)
    requires InsertsSlots(e)
    ensures OnlyCloses(s, BeforeInsert(s, e))
  {
  }

  lemma InsertKeepsProtocol(s: State, e: Event, s': State)
    requires Sound(s) && Protocol(s) && InsertsSlots(e) && Step(s, e, s')
    ensures Protocol(s')
  {
    var group := InsertEventGrows(s, e, s');
    if s' != s {
      BeforeInsertOnlyCloses(s, e);
      ClosingKeepsProtocol(s, BeforeInsert(s, e));
      GrowthKeepsProtocol(BeforeInsert(s, e), group, s');
    }
  }

  lemma RegisterKeepsProtocol(s: State, user: Id, hold: Id, s': State)
    requires Protocol(s) && Registers(s, user, hold, s')
    ensures Protocol(s')
  {
    var s1 := Swept(s);
    ClosingKeepsProtocol(s, s1);
    var k := s1.holds[hold].slot;
    var s2 :| Provisions(s1, user, s1.slots[k].drive, s1.slots[k].sig.quota, s2)
      && Completes(s2, hold, k, user, s', Completed);
    assert s2.slots == s1.slots && s2.holds == s1.holds;
    ClosingKeepsProtocol(s1, s2);
    CompletionKeepsProtocol(s2, hold, user);
  }

  /** Every event keeps the protocol. */
  lemma StepKeepsProtocol(s: State, e: Event, s': State)
    requires Sound(s) && Protocol(s) && Step(s, e, s')
    ensures Protocol(s')
  {
    if InsertsSlots(e) {
      InsertKeepsProtocol(s, e, s');
    } else if e.Register? {
      RegisterKeepsProtocol(s, e.user, e.hold, s');
    } else if e.Reserve? {
      ReserveKeepsProtocol(s, e.slot, e.token, e.expiresAt_, s', e.reserved);
    } else {
      if WritesRows(e) {
        RowEventLeavesGroupTables(s, e, s');
      } else {
        OtherEventOnlyCloses(s, e, s');
      }
      ClosingKeepsProtocol(s, s');
    }
  }

  lemma RowEventLeavesGroupTables(s: State, e: Event, s': State)
    requires Step(s, e, s') && WritesRows(e) && !e.Register?
    ensures s' == s.(users := s'.users, allocations := s'.allocations)
  {
    if e.TopUp? { ToppedUpTables(s, e.user, e.drive_, e.bytes); }
  }

  lemma OtherEventOnlyCloses(s: State, e: Event, s': State)
    requires Step(s, e, s') && !InsertsSlots(e) && !WritesRows(e) && !e.Reserve?
    ensures OnlyCloses(s, s')
  {
  }

  lemma {:induction false} RunKeepsProtocol(states: seq<State>, events: seq<Event>, i: nat)
    requires Run(states, events) && Sound(states[0]) && Protocol(states[0]) && i < |states|
    ensures Protocol(states[i])
  {
    if i > 0 {
      RunKeepsProtocol(states, events, i - 1);
      RunKeepsSound(states, events, i - 1);
      StepKeepsProtocol(states[i - 1], events[i - 1], states[i]);
    }
  }

  // ── A live hold is honoured ────────────────────────────────────────────────

  /** The hold is open on its unconsumed slot, and both rows are as they were in `s`. */
  ghost predicate Keeps(s: State, hold: Id, s': State) {
    && hold in s.holds && hold in s'.holds && s'.holds[hold] == s.holds[hold] && s.holds[hold].Open()
    && var k := s.holds[hold].slot;
       k in s.slots && k in s'.slots && s'.slots[k] == s.slots[k] && s.slots[k].consumedAt.None?
  }

  /** The events that may end the hold before it expires: its own release or completion, or its group going. */
  ghost predicate Ends(s: State, e: Event, hold: Id)
    requires hold in s.holds && s.holds[hold].slot in s.slots
  {
    || e == Release(s.holds[hold].token)
    || (e.Register? && e.hold == hold)
    || e == DeleteGroup(s.slots[s.holds[hold].slot].group)
  }

  lemma StepHonoursHold(s: State, e: Event, s': State, hold: Id)
    requires Sound(s) && Protocol(s) && Step(s, e, s')
    requires hold in s.holds && s.holds[hold].Live(s.now) && !Ends(s, e, hold)
    ensures Keeps(s, hold, s')
  {
    if InsertsSlots(e) {
      InsertHonoursHold(s, e, s', hold);
    } else if e.Register? {
      RegisterHonoursHold(s, e.user, e.hold, s', hold);
    } else if WritesRows(e) {
      RowEventLeavesGroupTables(s, e, s');
    } else {
      OtherEventHonoursHold(s, e, s', hold);
    }
  }

  lemma InsertHonoursHold(s: State, e: Event, s': State, hold: Id)
    requires Sound(s) && InsertsSlots(e) && Step(s, e, s') && Protocol(s)
    requires hold in s.holds && s.holds[hold].Live(s.now)
    ensures Keeps(s, hold, s')
  {
    BeforeInsertHonoursHold(s, e, hold);
    var group := InsertEventGrows(s, e, s');
    if s' != s {
      GrowthHonoursHold(s, BeforeInsert(s, e), group, s', hold);
    }
  }

  lemma BeforeInsertHonoursHold(s: State, e: Event, hold: Id)
    requires Sound(s) && Protocol(s) && InsertsSlots(e)
    requires hold in s.holds && s.holds[hold].Live(s.now)
    ensures Keeps(s, hold, s) && Keeps(s, hold, BeforeInsert(s, e))
  {
  }

  lemma DeleteFreeHonoursHold(s: State, group: Id, sig: Signature, hold: Id)
    requires Sound(s) && Protocol(s) && hold in s.holds && s.holds[hold].Live(s.now)
    ensures Keeps(s, hold, WithoutSlots(s, FreeSlots(s, group, sig)))
  {
  }

  lemma GrowthHonoursHold(s: State, s1: State, group: Id, s': State, hold: Id)
    requires Keeps(s, hold, s1) && Grows(s1, group, s')
    ensures Keeps(s, hold, s')
  {
  }

  lemma RegisterHonoursHold(s: State, user: Id, other: Id, s': State, hold: Id)
    requires Sound(s) && Protocol(s) && Registers(s, user, other, s') && other != hold
    requires hold in s.holds && s.holds[hold].Live(s.now)
    ensures Keeps(s, hold, s')
  {
    RegisterConsumesSlot(s, user, other, s');
    RegisterLeavesHold(s, user, other, s', hold);
    assert s.holds[other].slot != s.holds[hold].slot;
  }

  lemma RegisterLeavesHold(s: State, user: Id, other: Id, s': State, hold: Id)
    requires Registers(s, user, other, s') && other != hold
    requires hold in s.holds && s.holds[hold].Live(s.now)
    ensures hold in s'.holds && s'.holds[hold] == s.holds[hold] && other in s.holds && s.holds[other].Open()
  {
  }

  lemma OtherEventHonoursHold(s: State, e: Event, s': State, hold: Id)
    requires Sound(s) && Protocol(s) && Step(s, e, s')
    requires !InsertsSlots(e) && !WritesRows(e)
    requires hold in s.holds && s.holds[hold].Live(s.now) && !Ends(s, e, hold)
    ensures Keeps(s, hold, s')
  {
    if e.DeleteFree? {
      DeleteFreeHonoursHold(s, e.group, e.sig, hold);
    } else if e.DeleteGroup? {
      DeleteGroupHonoursHold(s, e.group, hold);
    } else if e.Reserve? {
      ReserveHonoursHold(s, e.slot, e.token, e.expiresAt_, s', e.reserved, hold);
    } else {
      ClosingEventHonoursHold(s, e, s', hold);
    }
  }

  /** Time passing, editing a group, sweeping, and releasing another token. */
  lemma ClosingEventHonoursHold(s: State, e: Event, s': State, hold: Id)
    requires Sound(s) && Protocol(s) && Step(s, e, s')
    requires e.Tick? || e.EditGroup? || e.Sweep? || e.Release?
    requires hold in s.holds && s.holds[hold].Live(s.now) && e != Release(s.holds[hold].token)
    ensures Keeps(s, hold, s')
  {
  }

  lemma DeleteGroupHonoursHold(s: State, group: Id, hold: Id)
    requires Sound(s) && Protocol(s) && hold in s.holds && s.holds[hold].Live(s.now)
    requires s.holds[hold].slot in s.slots && s.slots[s.holds[hold].slot].group != group
    ensures Keeps(s, hold, WithoutGroup(s, group))
  {
  }

  lemma ReserveHonoursHold(s: State, slot: Id, token: Id, expiresAt: Time, s': State, r: ReserveResult, hold: Id)
    requires Sound(s) && Protocol(s) && Reserves(s, slot, token, expiresAt, s', r)
    requires hold in s.holds && s.holds[hold].Live(s.now)
    ensures Keeps(s, hold, s')
  {
  }

  /**
   * A hold that is live now stays, with its slot, through any run of other reservations,
   * completions of other holds, sweeps, free-slot deletions, replacements, edits and saves,
   * for as long as each event finds it unexpired.
   */
  lemma {:induction false} LiveHoldIsHonoured(states: seq<State>, events: seq<Event>, hold: Id, n: nat)
    requires Run(states, events) && Sound(states[0]) && Protocol(states[0]) && n <= |events|
    requires hold in states[0].holds && states[0].holds[hold].Open()
    requires forall i | 0 <= i < n ::
      states[i].now < states[0].holds[hold].expiresAt && !Ends(states[0], events[i], hold)
    ensures Keeps(states[0], hold, states[n])
  {
    if n > 0 {
      LiveHoldIsHonoured(states, events, hold, n - 1);
      RunKeepsSound(states, events, n - 1);
      RunKeepsProtocol(states, events, n - 1);
      StepKeepsOn(states[0], states[n - 1], events[n - 1], states[n], hold);
    }
  }

  lemma StepKeepsOn(first: State, s: State, e: Event, s': State, hold: Id)
    requires Sound(s) && Protocol(s) && Step(s, e, s') && Keeps(first, hold, s)
    requires s.now < first.holds[hold].expiresAt && !Ends(first, e, hold)
    ensures Keeps(first, hold, s')
  {
    StepHonoursHold(s, e, s', hold);
  }

  /** Whatever such a run did, completing the hold afterwards succeeds. */
  lemma LiveHoldCompletes(states: seq<State>, events: seq<Event>, hold: Id, user: Id, s': State, r: CompleteResult)
    requires Run(states, events) && Sound(states[0]) && Protocol(states[0])
    requires hold in states[0].holds && states[0].holds[hold].Open()
    requires forall i | 0 <= i < |events| ::
      states[i].now < states[0].holds[hold].expiresAt && !Ends(states[0], events[i], hold)
    requires Completes(states[|states| - 1], hold, states[0].holds[hold].slot, user, s', r)
    ensures r.Completed? && s'.slots[states[0].holds[hold].slot].consumedBy == Some(user)
  {
    LiveHoldIsHonoured(states, events, hold, |events|);
  }

  /** One row marked primary where the user had none. */
  lemma FirstRow(s: State, user: Id, drive: Id, quota: int) returns (s': State)
    requires user in s.users && drive in s.drives && s.RowsOf(user) == map[]
    ensures MakesPrimary(s, user, drive, quota, s')
  {
    var rows := map[drive := Allocation(quota, true, s.now)];
    s' := s.(allocations := s.allocations[user := rows]);
    assert s'.RowsOf(user) == rows;
  }

  /** A new user can be given an account on any drive. */
  lemma CanProvision(s: State, user: Id, drive: Id, quota: int) returns (s': State)
    requires Sound(s) && user !in s.users && drive in s.drives && 0 <= quota
    ensures Provisions(s, user, drive, quota, s') && s'.holds == s.holds && s'.slots == s.slots
  {
    assert s.RowsOf(user) == map[] by { assert forall d: Id :: d !in s.RowsOf(user); }
    var s0 := s.(users := s.users[user := quota]);
    assert s0.RowsOf(user) == s.RowsOf(user);
    s' := FirstRow(s0, user, drive, quota);
  }

  /** A live hold can be registered through exactly when its group is active and the name is new. */
  lemma LiveHoldRegistersIff(s: State, hold: Id, user: Id)
    requires Sound(s) && hold in s.holds && s.holds[hold].Live(s.now)
    requires s.slots[s.holds[hold].slot].consumedAt.None?
    ensures (exists s' :: Registers(s, user, hold, s'))
       <==> s.groups[s.slots[s.holds[hold].slot].group].active && user !in s.users
  {
    var slot := s.slots[s.holds[hold].slot];
    if s.groups[slot.group].active && user !in s.users {
      var s1 := Swept(s);
      GroupTablesKeepSound(s, s1);
      assert s1.holds[hold] == s.holds[hold];
      var s2 := CanProvision(s1, user, slot.drive, slot.sig.quota);
      var s' := CompletedState(s2, hold, s.holds[hold].slot, user);
      assert Completes(s2, hold, s.holds[hold].slot, user, s', Completed);
      assert Registers(s, user, hold, s');
    }
  }

  /**
   * Whatever happened to others, a hold that is still unexpired can be registered through
   * exactly when its group is still active and nobody has taken the name.
   */
  lemma HonouredHoldRegistersIff(states: seq<State>, events: seq<Event>, hold: Id, user: Id)
    requires Run(states, events) && Sound(states[0]) && Protocol(states[0])
    requires hold in states[0].holds && states[0].holds[hold].Open()
    requires forall i | 0 <= i < |events| ::
      states[i].now < states[0].holds[hold].expiresAt && !Ends(states[0], events[i], hold)
    requires states[|events|].now < states[0].holds[hold].expiresAt
    ensures var last, slot := states[|events|], states[0].slots[states[0].holds[hold].slot];
      slot.group in last.groups
      && ((exists s' :: Registers(last, user, hold, s')) <==> last.groups[slot.group].active && user !in last.users)
  {
    LiveHoldIsHonoured(states, events, hold, |events|);
    RunKeepsSound(states, events, |events|);
    LiveHoldRegistersIff(states[|events|], hold, user);
  }
}
