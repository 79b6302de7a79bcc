/**
 * Refunds and reverts take bytes from the drive that is primary at the time, and no constraint
 * keeps a per-drive quota from going negative: when it stays non-negative, over whole runs.
 */
module Refunds {
  import opened Prelude
  import opened Tables
  import opened Drives
  import opened Allocations
  import opened AdminBrowse
  import opened Runs
  import opened Capacity
  import opened Quotas

  ghost predicate NonNegativeRows(s: State) {
    forall u: Id, d: Id | d in s.RowsOf(u) :: 0 <= s.RowsOf(u)[d].quota
  }

  ghost predicate NonNegativeOf(s: State, user: Id) {
    forall d: Id | d in s.RowsOf(user) :: 0 <= s.RowsOf(user)[d].quota
  }

  /** The drive's row has the bytes a refund takes from it. */
  predicate Covers(s: State, e: Event) {
    e.TopUp? && e.drive_.Some? && e.drive_.value in s.RowsOf(e.user) ==>
      0 <= s.RowsOf(e.user)[e.drive_.value].quota + e.bytes
  }

  /** Only one user's rows change, so only that user's can go negative. */
  lemma OneUserNonNegativeIff(s: State, user: Id, s': State)
    requires NonNegativeRows(s) && forall u: Id :: u != user ==> s'.RowsOf(u) == s.RowsOf(u)
    ensures NonNegativeRows(s') <==> NonNegativeOf(s', user)
  {
  }

  lemma TopUpNonNegativeIff(s: State, user: Id, drive: Option<Id>, bytes: int)
    requires NonNegativeRows(s) && user in s.users
    ensures NonNegativeRows(ToppedUp(s, user, drive, bytes)) <==> Covers(s, TopUp(user, drive, bytes))
  {
    var s' := ToppedUp(s, user, drive, bytes);
    TopUpLeavesOthers(s, user, drive, bytes);
    OneUserNonNegativeIff(s, user, s');
    if drive.Some? && drive.value in s.RowsOf(user) {
      assert s'.RowsOf(user) == s.RowsOf(user)[drive.value := s'.RowsOf(user)[drive.value]];
    } else {
      assert s'.RowsOf(user) == s.RowsOf(user);
    }
  }

  lemma SaveNonNegative(s: State, user: Id, used: Usage, items: seq<Item>, s': State, total: int)
    requires NonNegativeRows(s) && Acceptable(s, user, used, items) && Saves(s, user, Wants(items), s', total)
    ensures NonNegativeRows(s')
  {
    SavedRowsAreRequested(s, user, used, items, s', total);
    OthersKeepRows(s, user, s');
    forall d: Id | d in s'.RowsOf(user) ensures 0 <= s'.RowsOf(user)[d].quota {
      assert Item(Some(d), s'.RowsOf(user)[d].quota) in items;
    }
  }

  lemma NewRowNonNegative(s: State, user: Id, drive: Id, row: Allocation, s': State)
    requires NonNegativeRows(s) && 0 <= row.quota && s'.allocations == s.allocations[user := map[drive := row]]
    ensures NonNegativeRows(s')
  {
    OthersKeepRows(s, user, s');
  }

  lemma ProvisionNonNegative(s: State, user: Id, drive: Id, quota: int, s': State)
    requires Sound(s) && NonNegativeRows(s) && Provisions(s, user, drive, quota, s')
    ensures NonNegativeRows(s')
  {
    ProvisionKeepsSound(s, user, drive, quota, s');
    NewRowNonNegative(s, user, drive, Allocation(quota, true, s.now), s');
  }

  lemma RegisterNonNegative(s: State, user: Id, hold: Id, s': State)
    requires Sound(s) && NonNegativeRows(s) && Registers(s, user, hold, s')
    ensures NonNegativeRows(s')
  {
    var drive, quota := RegisterWritesOneRow(s, user, hold, s');
    NewRowNonNegative(s, user, drive, Allocation(quota, true, s.now), s');
  }

  lemma SetPrimaryNonNegative(s: State, user: Id, drive: Id, s': State)
    requires NonNegativeRows(s) && SetsPrimary(s, user, drive, s')
    ensures NonNegativeRows(s')
  {
    OthersKeepRows(s, user, s');
  }

  lemma SameRowsNonNegative(s: State, s': State)
    requires NonNegativeRows(s) && s'.allocations == s.allocations
    ensures NonNegativeRows(s')
  {
    assert forall u: Id :: s'.RowsOf(u) == s.RowsOf(u);
  }

  lemma OtherEventNonNegative(s: State, e: Event, s': State)
    requires Sound(s) && NonNegativeRows(s) && Step(s, e, s') && !e.TopUp?
    ensures NonNegativeRows(s') && Covers(s, e)
  {
    if !WritesRows(e) {
      GroupEventLeavesRows(s, e, s');
      SameRowsNonNegative(s, s');
    } else {
      match e
      case Register(user, hold) => RegisterNonNegative(s, user, hold, s');
      case Provision(user, drive, quota) => ProvisionNonNegative(s, user, drive, quota, s');
      case AdminSave(user, used, items, total) => SaveNonNegative(s, user, used, items, s', total);
      case SetPrimary(user, drive) => SetPrimaryNonNegative(s, user, drive, s');
      case SetQuota(user, quota) => SameRowsNonNegative(s, s');
    }
  }

  /** A step leaves a negative quota exactly when it is a refund the hit row does not cover. */
  lemma StepNonNegativeIff(s: State, e: Event, s': State)
    requires Sound(s) && NonNegativeRows(s) && Step(s, e, s')
    ensures NonNegativeRows(s') <==> Covers(s, e)
  {
    if e.TopUp? {
      TopUpNonNegativeIff(s, e.user, e.drive_, e.bytes);
    } else {
      OtherEventNonNegative(s, e, s');
    }
  }

  /** Quotas stay non-negative throughout a run exactly when every refund was covered where it hit. */
  lemma RunNonNegativeIff(states: seq<State>, events: seq<Event>)
    requires Run(states, events) && Sound(states[0]) && NonNegativeRows(states[0])
    ensures (forall i | 0 <= i < |states| :: NonNegativeRows(states[i]))
       <==> (forall i | 0 <= i < |events| :: Covers(states[i], events[i]))
  {
    if forall i | 0 <= i < |events| :: Covers(states[i], events[i]) {
      forall i | 0 <= i < |states| ensures NonNegativeRows(states[i]) {
        CoveredRunNonNegative(states, events, i);
      }
    }
    if forall i | 0 <= i < |states| :: NonNegativeRows(states[i]) {
      forall i | 0 <= i < |events| ensures Covers(states[i], events[i]) {
        RunKeepsSound(states, events, i);
        StepNonNegativeIff(states[i], events[i], states[i + 1]);
      }
    }
  }

  lemma {:induction false} CoveredRunNonNegative(states: seq<State>, events: seq<Event>, i: nat)
    requires Run(states, events) && Sound(states[0]) && NonNegativeRows(states[0]) && i < |states|
    requires forall j | 0 <= j < i :: Covers(states[j], events[j])
    ensures NonNegativeRows(states[i])
  {
    if i > 0 {
      CoveredRunNonNegative(states, events, i - 1);
      RunKeepsSound(states, events, i - 1);
      StepNonNegativeIff(states[i - 1], events[i - 1], states[i]);
    }
  }

  /** Where no quota is negative, a save's drops always fit. */
  lemma NonNegativeDropFits(s: State, user: Id, items: seq<Item>, d: Id)
    requires NonNegativeOf(s, user) && 0 <= Available(s, d)
    ensures DropFits(s, user, items, d)
  {
  }

  // ── A purchase refunded from another drive ─────────────────────────────────

  /** One user on two empty drives, the first of them primary. */
  function TwoDrives(first: Allocation, second: Allocation, quota: int): State {
    State(0, map[0 := true], map[0 := Drive(0, Hdd, 10, true), 1 := Drive(0, Hdd, 10, true)],
          map[7 := quota], map[7 := map[0 := first, 1 := second]], map[], map[], map[])
  }

  function Unbought(): State { TwoDrives(Allocation(0, true, 0), Allocation(0, false, 0), 0) }

  function Bought(): State { TwoDrives(Allocation(5, true, 0), Allocation(0, false, 0), 5) }

  function Swapped(): State { TwoDrives(Allocation(5, false, 0), Allocation(0, true, 0), 5) }

  function Refunded(): State { TwoDrives(Allocation(5, false, 0), Allocation(-5, true, 0), 0) }

  /** Five bytes bought on one drive are refunded after the other drive became primary. */
  function RefundRun(): (seq<State>, seq<Event>) {
    ([Unbought(), Bought(), Swapped(), Refunded()], [TopUp(7, Some(0), 5), SetPrimary(7, 1), TopUp(7, Some(1), -5)])
  }

  lemma TopUpSteps(s: State, s': State, user: Id, drive: Id, bytes: int)
    requires user in s.users && drive in s.RowsOf(user)
    requires var row := s.RowsOf(user)[drive].(quota := s.RowsOf(user)[drive].quota + bytes);
      s' == s.(users := s.users[user := s.users[user] + bytes],
               allocations := s.allocations[user := s.RowsOf(user)[drive := row]])
    ensures Step(s, TopUp(user, Some(drive), bytes), s')
  {
  }

  lemma TwoDrivesToppedUp(first: Allocation, second: Allocation, quota: int, bytes: int)
    ensures Step(TwoDrives(first, second, quota), TopUp(7, Some(0), bytes),
                 TwoDrives(first.(quota := first.quota + bytes), second, quota + bytes))
    ensures Step(TwoDrives(first, second, quota), TopUp(7, Some(1), bytes),
                 TwoDrives(first, second.(quota := second.quota + bytes), quota + bytes))
  {
    var s := TwoDrives(first, second, quota);
    var f, g := first.(quota := first.quota + bytes), second.(quota := second.quota + bytes);
    assert s.RowsOf(7) == map[0 := first, 1 := second];
    assert s.RowsOf(7)[0 := f] == map[0 := f, 1 := second] && s.RowsOf(7)[1 := g] == map[0 := first, 1 := g];
    assert s.allocations[7 := map[0 := f, 1 := second]] == map[7 := map[0 := f, 1 := second]];
    assert s.allocations[7 := map[0 := first, 1 := g]] == map[7 := map[0 := first, 1 := g]];
    assert s.users[7 := quota + bytes] == map[7 := quota + bytes];
    TopUpSteps(s, TwoDrives(f, second, quota + bytes), 7, 0, bytes);
    TopUpSteps(s, TwoDrives(first, g, quota + bytes), 7, 1, bytes);
  }

  lemma TwoDrivesSwapped(first: Allocation, second: Allocation, quota: int)
    requires first.primary && !second.primary
    ensures Step(TwoDrives(first, second, quota), SetPrimary(7, 1),
                 TwoDrives(first.(primary := false), second.(primary := true), quota))
  {
    var after := TwoDrives(first.(primary := false), second.(primary := true), quota);
    assert after.RowsOf(7)[1].primary;
  }

  lemma TwoDrivesSound(first: Allocation, second: Allocation, quota: int)
    requires 0 <= first.quota && 0 <= second.quota
    ensures Sound(TwoDrives(first, second, quota)) && NonNegativeRows(TwoDrives(first, second, quota))
  {
    var s := TwoDrives(first, second, quota);
    assert forall u: Id :: s.RowsOf(u) == if u == 7 then map[0 := first, 1 := second] else map[];
  }

  lemma Buys()
    ensures Step(Unbought(), TopUp(7, Some(0), 5), Bought())
  {
    TwoDrivesToppedUp(Allocation(0, true, 0), Allocation(0, false, 0), 0, 5);
  }

  lemma Swaps()
    ensures Step(Bought(), SetPrimary(7, 1), Swapped())
  {
    TwoDrivesSwapped(Allocation(5, true, 0), Allocation(0, false, 0), 5);
  }

  lemma Refunds()
    ensures Step(Swapped(), TopUp(7, Some(1), -5), Refunded())
  {
    TwoDrivesToppedUp(Allocation(5, false, 0), Allocation(0, true, 0), 5, -5);
  }

  lemma RunExtends(states: seq<State>, events: seq<Event>, e: Event, s': State)
    requires Run(states, events) && Step(states[|events|], e, s')
    ensures Run(states + [s'], events + [e])
  {
    var longer, more := states + [s'], events + [e];
    assert longer[..|states|] == states && more[..|events|] == events;
    assert longer[|events|] == states[|events|] && longer[|events| + 1] == s' && more[|events|] == e;
  }

  lemma RefundRunIsRun()
    ensures var (states, events) := RefundRun(); Run(states, events)
  {
    Buys();
    Swaps();
    Refunds();
    assert Run([Unbought()], []);
    RunExtends([Unbought()], [], TopUp(7, Some(0), 5), Bought());
    RunExtends([Unbought(), Bought()], [TopUp(7, Some(0), 5)], SetPrimary(7, 1), Swapped());
    RunExtends([Unbought(), Bought(), Swapped()], [TopUp(7, Some(0), 5), SetPrimary(7, 1)],
               TopUp(7, Some(1), -5), Refunded());
  }

  lemma RefundHitsOtherDrive()
    ensures var (states, events) := RefundRun();
      Run(states, events) && Sound(states[0]) && NonNegativeRows(states[0]) && !NonNegativeRows(states[3])
  {
    RefundRunIsRun();
    TwoDrivesSound(Allocation(0, true, 0), Allocation(0, false, 0), 0);
    LeavesNegative();
  }

  lemma LeavesNegative()
    ensures !NonNegativeRows(Refunded())
  {
    assert 1 in Refunded().RowsOf(7) && Refunded().RowsOf(7)[1].quota == -5;
  }
}
