/**
 * Per-user laws over whole runs: the aggregate quota is the sum of the per-drive quotas,
 * every user with allocations has exactly one primary drive, and an accepted admin save
 * does exactly what was asked.
 */
module Quotas {
  import opened Prelude
  import opened Sums
  import opened Tables
  import opened Drives
  import opened Allocations
  import opened AdminBrowse
  import opened Runs
  import opened Capacity

  /** users.storage_quota_bytes is the sum of the user's rows. */
  ghost predicate Aggregated(s: State) {
    forall u <- s.users :: s.users[u] == TotalQuota(s.RowsOf(u))
  }

  /** Bytes go to a drive the user holds, and an aggregate set directly is the sum the rows have. */
  predicate Lands(s: State, e: Event) {
    && (e.TopUp? ==> e.bytes == 0 || (e.drive_.Some? && e.drive_.value in s.RowsOf(e.user)))
    && (e.SetQuota? && e.user in s.users ==> e.quota == TotalQuota(s.RowsOf(e.user)))
  }

  lemma RowsUnchangedKeepsAggregate(s: State, s': State)
    requires Aggregated(s) && s'.users == s.users && s'.allocations == s.allocations
    ensures Aggregated(s')
  {
  }

  /** Only one user changes, and that user's sum is right afterwards exactly when `right` holds. */
  lemma OneUserAggregateIff(s: State, user: Id, s': State)
    requires Aggregated(s) && user in s'.users
    requires forall u <- s'.users :: u != user ==> u in s.users && s'.users[u] == s.users[u]
    requires forall u: Id :: u != user ==> s'.RowsOf(u) == s.RowsOf(u)
    ensures Aggregated(s') <==> s'.users[user] == TotalQuota(s'.RowsOf(user))
  {
  }

  lemma TopUpSum(s: State, user: Id, drive: Id, bytes: int)
    requires user in s.users && drive in s.RowsOf(user)
    ensures TotalQuota(ToppedUp(s, user, Some(drive), bytes).RowsOf(user)) == TotalQuota(s.RowsOf(user)) + bytes
  {
    var rows, rows' := s.RowsOf(user), ToppedUp(s, user, Some(drive), bytes).RowsOf(user);
    TotalUpdate(QuotaRows(rows), drive, rows[drive].quota + bytes);
    assert QuotaRows(rows') == QuotaRows(rows)[drive := rows[drive].quota + bytes];
  }

  lemma TopUpKeepsAggregateIff(s: State, user: Id, drive: Option<Id>, bytes: int)
    requires Aggregated(s) && user in s.users
    ensures Aggregated(ToppedUp(s, user, drive, bytes)) <==> Lands(s, TopUp(user, drive, bytes))
  {
    var s' := ToppedUp(s, user, drive, bytes);
    TopUpLeavesOthers(s, user, drive, bytes);
    OneUserAggregateIff(s, user, s');
    if drive.Some? && drive.value in s.RowsOf(user) {
      TopUpSum(s, user, drive.value, bytes);
    } else {
      assert s'.RowsOf(user) == s.RowsOf(user);
    }
  }

  lemma TopUpLeavesOthers(s: State, user: Id, drive: Option<Id>, bytes: int)
    requires user in s.users
    ensures var s' := ToppedUp(s, user, drive, bytes);
      s'.users == s.users[user := s.users[user] + bytes] && forall u: Id :: u != user ==> s'.RowsOf(u) == s.RowsOf(u)
  {
    ToppedUpTables(s, user, drive, bytes);
  }

  /** A new user with one row. */
  lemma NewRowKeepsAggregate(s: State, user: Id, drive: Id, quota: int, at: Time, s': State)
    requires Aggregated(s) && s'.users == s.users[user := quota]
    requires s'.allocations == s.allocations[user := map[drive := Allocation(quota, true, at)]]
    ensures Aggregated(s')
  {
    assert QuotaRows(s'.RowsOf(user)) == map[][drive := quota];
    TotalInsert(map[], drive, quota);
    assert forall u: Id :: u != user ==> s'.RowsOf(u) == s.RowsOf(u);
    OneUserAggregateIff(s, user, s');
  }

  lemma SaveKeepsAggregate(s: State, user: Id, want: seq<Want>, s': State, total: int)
    requires Aggregated(s) && user in s.users && Saves(s, user, want, s', total)
    ensures Aggregated(s')
  {
  }

  lemma SetQuotaKeepsAggregateIff(s: State, user: Id, quota: int)
    requires Aggregated(s)
    ensures Aggregated(WithQuota(s, user, quota)) <==> Lands(s, SetQuota(user, quota))
  {
    var s' := WithQuota(s, user, quota);
    assert forall u: Id :: s'.RowsOf(u) == s.RowsOf(u);
    if user in s.users { OneUserAggregateIff(s, user, s'); }
  }

  lemma ProvisionKeepsAggregate(s: State, user: Id, drive: Id, quota: int, s': State)
    requires Sound(s) && Aggregated(s) && Provisions(s, user, drive, quota, s')
    ensures Aggregated(s')
  {
    ProvisionKeepsSound(s, user, drive, quota, s');
    NewRowKeepsAggregate(s, user, drive, quota, s.now, s');
  }

  lemma RegisterKeepsAggregate(s: State, user: Id, hold: Id, s': State)
    requires Sound(s) && Aggregated(s) && Registers(s, user, hold, s')
    ensures Aggregated(s')
  {
    var drive, quota := RegisterWritesOneRow(s, user, hold, s');
    NewRowKeepsAggregate(s, user, drive, quota, s.now, s');
  }

  lemma SetPrimaryKeepsAggregate(s: State, user: Id, drive: Id, s': State)
    requires Sound(s) && Aggregated(s) && SetsPrimary(s, user, drive, s')
    ensures Aggregated(s')
  {
    assert QuotaRows(s'.RowsOf(user)) == QuotaRows(s.RowsOf(user));
    assert user in s.users;
    OneUserAggregateIff(s, user, s');
  }

  /** Events outside the allocation rows leave users and rows alone. */
  lemma GroupEventLeavesRows(s: State, e: Event, s': State)
    requires Sound(s) && Step(s, e, s') && !WritesRows(e)
    ensures s'.users == s.users && s'.allocations == s.allocations
  {
    if InsertsSlots(e) {
      var group := InsertEventGrows(s, e, s');
    }
  }

  lemma TopUpEventKeepsAggregateIff(s: State, e: Event, s': State)
    requires Sound(s) && Aggregated(s) && Step(s, e, s') && e.TopUp?
    ensures Aggregated(s') <==> Lands(s, e)
  {
    TopUpKeepsAggregateIff(s, e.user, e.drive_, e.bytes);
  }

  lemma SetQuotaEventKeepsAggregateIff(s: State, e: Event, s': State)
    requires Sound(s) && Aggregated(s) && Step(s, e, s') && e.SetQuota?
    ensures Aggregated(s') <==> Lands(s, e)
  {
    SetQuotaKeepsAggregateIff(s, e.user, e.quota);
  }

  lemma OtherEventLands(s: State, e: Event)
    requires !e.TopUp? && !e.SetQuota?
    ensures Lands(s, e)
  {
  }

  lemma OtherEventKeepsAggregate(s: State, e: Event, s': State)
    requires Sound(s) && Aggregated(s) && Step(s, e, s') && !e.TopUp? && !e.SetQuota?
    ensures Aggregated(s')
  {
    if !WritesRows(e) {
      GroupEventLeavesRows(s, e, s');
      RowsUnchangedKeepsAggregate(s, s');
    } else {
      match e
      case Register(user, hold) => RegisterKeepsAggregate(s, user, hold, s');
      case Provision(user, drive, quota) => ProvisionKeepsAggregate(s, user, drive, quota, s');
      case AdminSave(user, used, items, total) => SaveKeepsAggregate(s, user, Wants(items), s', total);
      case SetPrimary(user, drive) => SetPrimaryKeepsAggregate(s, user, drive, s');
    }
  }

  lemma StepKeepsAggregateIff(s: State, e: Event, s': State)
    requires Sound(s) && Aggregated(s) && Step(s, e, s')
    ensures Aggregated(s') <==> Lands(s, e)
  {
    if e.TopUp? {
      TopUpEventKeepsAggregateIff(s, e, s');
    } else if e.SetQuota? {
      SetQuotaEventKeepsAggregateIff(s, e, s');
    } else {
      OtherEventKeepsAggregate(s, e, s');
      OtherEventLands(s, e);
    }
  }

  /**
   * The aggregate equals the sum throughout a run exactly when every top-up landed on a held drive
   * and every aggregate an admin set was the sum already.
   */
  lemma RunAggregatedIff(states: seq<State>, events: seq<Event>)
    requires Run(states, events) && Sound(states[0]) && Aggregated(states[0])
    ensures (forall i | 0 <= i < |states| :: Aggregated(states[i]))
       <==> (forall i | 0 <= i < |events| :: Lands(states[i], events[i]))
  {
    if forall i | 0 <= i < |events| :: Lands(states[i], events[i]) {
      forall i | 0 <= i < |states| ensures Aggregated(states[i]) {
        LandingRunAggregated(states, events, i);
      }
    }
    if forall i | 0 <= i < |states| :: Aggregated(states[i]) {
      forall i | 0 <= i < |events| ensures Lands(states[i], events[i]) {
        RunKeepsSound(states, events, i);
        StepKeepsAggregateIff(states[i], events[i], states[i + 1]);
      }
    }
  }

  lemma {:induction false} LandingRunAggregated(states: seq<State>, events: seq<Event>, i: nat)
    requires Run(states, events) && Sound(states[0]) && Aggregated(states[0]) && i < |states|
    requires forall j | 0 <= j < i :: Lands(states[j], events[j])
    ensures Aggregated(states[i])
  {
    if i > 0 {
      LandingRunAggregated(states, events, i - 1);
      RunKeepsSound(states, events, i - 1);
      StepKeepsAggregateIff(states[i - 1], events[i - 1], states[i]);
    }
  }

  // ── One primary drive ──────────────────────────────────────────────────────

  ghost predicate PrimaryLaw(s: State) {
    forall u: Id :: s.RowsOf(u) == map[] || OnePrimary(s.RowsOf(u))
  }

  lemma OneUserPrimary(s: State, user: Id, s': State)
    requires PrimaryLaw(s) && forall u: Id :: u != user ==> s'.RowsOf(u) == s.RowsOf(u)
    requires s'.RowsOf(user) == map[] || OnePrimary(s'.RowsOf(user))
    ensures PrimaryLaw(s')
  {
  }

  lemma ReassignedHasOnePrimary(before: Rows, after: Rows)
    requires PrimaryReassigned(before, after) && AtMostOnePrimary(before) && before != map[]
    ensures OnePrimary(after)
  {
    if d :| d in before && before[d].primary {
      assert after[d].primary;
    } else {
      var p: Id :| p in before && (forall d <- after :: after[d] == before[d].(primary := d == p));
      assert after[p].primary;
    }
  }

  lemma SaveGivesOnePrimary(s: State, user: Id, want: seq<Want>, s': State, total: int)
    requires Saves(s, user, want, s', total) && AtMostOnePrimary(s.RowsOf(user))
    ensures s'.RowsOf(user) == map[] || OnePrimary(s'.RowsOf(user))
  {
  }

  lemma StepKeepsPrimaryLaw(s: State, e: Event, s': State)
    requires Sound(s) && PrimaryLaw(s) && Step(s, e, s')
    ensures PrimaryLaw(s')
  {
    if !WritesRows(e) {
      GroupEventLeavesRows(s, e, s');
      assert forall u: Id :: s'.RowsOf(u) == s.RowsOf(u);
    } else {
      OneUserPrimaryAfter(s, e, s');
      OneUserPrimary(s, e.user, s');
    }
  }

  lemma OneRowIsPrimary(drive: Id, row: Allocation)
    requires row.primary
    ensures OnePrimary(map[drive := row])
  {
    var rows: Rows := map[drive := row];
    assert rows[drive].primary;
  }

  lemma OthersKeepRows(s: State, user: Id, s': State)
    requires s'.allocations == s.allocations[user := s'.RowsOf(user)]
    ensures forall u: Id :: u != user ==> s'.RowsOf(u) == s.RowsOf(u)
  {
  }

  lemma ProvisionGivesOnePrimary(s: State, user: Id, drive: Id, quota: int, s': State)
    requires Sound(s) && Provisions(s, user, drive, quota, s')
    ensures forall u: Id :: u != user ==> s'.RowsOf(u) == s.RowsOf(u)
    ensures OnePrimary(s'.RowsOf(user))
  {
    ProvisionKeepsSound(s, user, drive, quota, s');
    OthersKeepRows(s, user, s');
    OneRowIsPrimary(drive, Allocation(quota, true, s.now));
  }

  lemma RegisterGivesOnePrimary(s: State, user: Id, hold: Id, s': State)
    requires Sound(s) && Registers(s, user, hold, s')
    ensures forall u: Id :: u != user ==> s'.RowsOf(u) == s.RowsOf(u)
    ensures OnePrimary(s'.RowsOf(user))
  {
    var drive, quota := RegisterWritesOneRow(s, user, hold, s');
    OthersKeepRows(s, user, s');
    OneRowIsPrimary(drive, Allocation(quota, true, s.now));
  }

  lemma OneUserPrimaryAfter(s: State, e: Event, s': State)
    requires Sound(s) && PrimaryLaw(s) && Step(s, e, s') && WritesRows(e)
    ensures forall u: Id :: u != e.user ==> s'.RowsOf(u) == s.RowsOf(u)
    ensures s'.RowsOf(e.user) == map[] || OnePrimary(s'.RowsOf(e.user))
  {
    match e
    case Register(user, hold) => RegisterGivesOnePrimary(s, user, hold, s');
    case Provision(user, drive, quota) => ProvisionGivesOnePrimary(s, user, drive, quota, s');
    case AdminSave(user, used, items, total) =>
      SaveGivesOnePrimary(s, user, Wants(items), s', total);
      OthersKeepRows(s, user, s');
    case SetPrimary(user, drive) => SetPrimaryGivesOnePrimary(s, user, drive, s');
    case TopUp(user, drive, bytes) => TopUpKeepsPrimary(s, user, drive, bytes);
    case SetQuota(user, quota) => SetQuotaLeavesRows(s, user, quota);
  }

  lemma SetPrimaryGivesOnePrimary(s: State, user: Id, drive: Id, s': State)
    requires SetsPrimary(s, user, drive, s')
    ensures OnePrimary(s'.RowsOf(user)) && forall u: Id :: u != user ==> s'.RowsOf(u) == s.RowsOf(u)
  {
    OthersKeepRows(s, user, s');
  }

  lemma SetQuotaLeavesRows(s: State, user: Id, quota: int)
    ensures forall u: Id :: WithQuota(s, user, quota).RowsOf(u) == s.RowsOf(u)
  {
  }

  lemma TopUpKeepsPrimary(s: State, user: Id, drive: Option<Id>, bytes: int)
    requires user in s.users && (s.RowsOf(user) == map[] || OnePrimary(s.RowsOf(user)))
    ensures var s' := ToppedUp(s, user, drive, bytes);
      && (s'.RowsOf(user) == map[] || OnePrimary(s'.RowsOf(user)))
      && forall u: Id :: u != user ==> s'.RowsOf(u) == s.RowsOf(u)
  {
    var s' := ToppedUp(s, user, drive, bytes);
    if drive.Some? && drive.value in s.RowsOf(user) {
      OthersKeepRows(s, user, s');
      SameFlagsSamePrimary(s.RowsOf(user), s'.RowsOf(user));
    }
  }

  lemma SameFlagsSamePrimary(before: Rows, after: Rows)
    requires OnePrimary(before) && after.Keys == before.Keys
    requires forall d: Id | d in after :: after[d].primary == before[d].primary
    ensures OnePrimary(after)
  {
  }

  lemma {:induction false} RunKeepsPrimaryLaw(states: seq<State>, events: seq<Event>, i: nat)
    requires Run(states, events) && Sound(states[0]) && PrimaryLaw(states[0]) && i < |states|
    ensures PrimaryLaw(states[i])
  {
    if i > 0 {
      RunKeepsPrimaryLaw(states, events, i - 1);
      RunKeepsSound(states, events, i - 1);
      StepKeepsPrimaryLaw(states[i - 1], events[i - 1], states[i]);
    }
  }

  // ── What an accepted save did ──────────────────────────────────────────────

  /** The old primary survives, or a drive with the largest quota takes over. */
  ghost predicate PrimarySucceeds(before: Rows, after: Rows) {
    && OnePrimary(after)
    && forall p: Id | p in after && after[p].primary ::
         || (p in before && before[p].primary)
         || (&& (forall d: Id | d in before && before[d].primary :: d !in after)
             && (forall d: Id | d in after :: after[d].quota <= after[p].quota))
  }

  lemma ReassignedSucceeds(before: Rows, rows: Rows, after: Rows)
    requires PrimaryReassigned(rows, after) && AtMostOnePrimary(before) && rows != map[]
    requires forall d: Id | d in rows :: rows[d].primary == (d in before && before[d].primary)
    ensures PrimarySucceeds(before, after)
  {
    ReassignedHasOnePrimary(rows, after);
    if d: Id :| d in rows && rows[d].primary {
      assert after == rows;
    } else {
      var q: Id :| q in rows && (forall d <- rows :: RanksBefore(rows[q], rows[d]))
        && (forall d <- after :: after[d] == rows[d].(primary := d == q));
      assert forall d: Id | d in after :: after[d].quota == rows[d].quota;
    }
  }

  lemma SavePicksPrimary(s: State, user: Id, want: seq<Want>, s': State, total: int)
    requires Saves(s, user, want, s', total) && want != []
    requires s.RowsOf(user) == map[] || OnePrimary(s.RowsOf(user))
    ensures PrimarySucceeds(s.RowsOf(user), s'.RowsOf(user))
  {
    var rows: Rows :| Upserted(s, user, want, rows) && PrimaryReassigned(rows, s'.RowsOf(user));
    KeptIffWanted(want);
    assert want[0].drive in rows;
    ReassignedSucceeds(s.RowsOf(user), rows, s'.RowsOf(user));
  }

  lemma KeptAndDropped(s: State, user: Id, used: Usage, items: seq<Item>, s': State, total: int, d: Id)
    requires Acceptable(s, user, used, items) && Saves(s, user, Wants(items), s', total)
    requires d in s.RowsOf(user)
    ensures if d in s'.RowsOf(user) then UsedOn(used, d) <= s'.RowsOf(user)[d].quota else UsedOn(used, d) == 0
  {
    SavedRowsAreRequested(s, user, used, items, s', total);
    if d in s'.RowsOf(user) {
      NoViolation(s, user, used, items, d, s'.RowsOf(user)[d].quota);
    } else {
      assert !RemovalViolates(s, user, used, items, RemovalBlocked(d, UsedOn(used, d)));
      if item :| item in items && item.drive == Some(d) {
        assert Item(Some(d), item.quota) == item;
      }
    }
  }

  /** The rows are exactly the requested drives with the requested quotas. */
  ghost predicate RowsAre(rows: Rows, items: seq<Item>) {
    forall d: Id, quota: int :: (d in rows && rows[d].quota == quota) <==> Item(Some(d), quota) in items
  }

  /** No kept drive falls below its used bytes, and no dropped drive had any. */
  ghost predicate RespectsUsage(before: Rows, after: Rows, used: Usage) {
    forall d: Id | d in before :: if d in after then UsedOn(used, d) <= after[d].quota else UsedOn(used, d) == 0
  }

  /**
   * An accepted save leaves exactly the requested drives and quotas, one primary chosen by
   * the succession rule, usage respected, the aggregate recomputed, everyone else
   * untouched, and no drive newly overdrawn unless a row with a negative quota was dropped.
   */
  lemma AcceptedSaveIsExact(s: State, user: Id, used: Usage, items: seq<Item>, s': State, total: int)
    requires Sound(s) && (s.RowsOf(user) == map[] || OnePrimary(s.RowsOf(user)))
    requires Acceptable(s, user, used, items) && Saves(s, user, Wants(items), s', total)
    ensures RowsAre(s'.RowsOf(user), items)
    ensures PrimarySucceeds(s.RowsOf(user), s'.RowsOf(user))
    ensures RespectsUsage(s.RowsOf(user), s'.RowsOf(user), used)
    ensures s'.users[user] == total == TotalQuota(s'.RowsOf(user))
    ensures s' == s.(users := s.users[user := total], allocations := s.allocations[user := s'.RowsOf(user)])
    ensures forall d <- s.drives | 0 <= Available(s, d) ::
      0 <= Available(s', d) <==> DropFits(s, user, items, d)
  {
    SaveRespects(s, user, used, items, s', total);
    SavePicksPrimary(s, user, Wants(items), s', total);
    forall d <- s.drives | 0 <= Available(s, d) ensures 0 <= Available(s', d) <==> DropFits(s, user, items, d) {
      SaveKeepsDriveIff(s, user, used, items, s', total, d);
    }
  }

  lemma SaveRespects(s: State, user: Id, used: Usage, items: seq<Item>, s': State, total: int)
    requires Acceptable(s, user, used, items) && Saves(s, user, Wants(items), s', total)
    ensures RowsAre(s'.RowsOf(user), items) && RespectsUsage(s.RowsOf(user), s'.RowsOf(user), used)
  {
    SavedRowsAreRequested(s, user, used, items, s', total);
    forall d: Id | d in s.RowsOf(user) { KeptAndDropped(s, user, used, items, s', total, d); }
  }
}
