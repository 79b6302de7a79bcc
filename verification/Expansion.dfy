/**
 * Expansion requests: guarded updates of a nine-state lifecycle (api/db/expansion_requests.go,
 * with the table of db/20_server_expansion_requests.sql).
 */
module Expansion {
  import opened Prelude

  datatype Status = Opened | InvoiceSent | Accepted | Approved | Expanded | Completed | Expired | Refunded | Rejected

  datatype Request = Request(order: Id, capture: Option<Id>, status: Status, deposit: int, fullPrice: int,
                             postQuota: Option<int>, approvalDue: Option<Time>, approvedAt: Option<Time>,
                             expansionDue: Option<Time>, paymentDue: Option<Time>, completedAt: Option<Time>,
                             reminders: nat, refund: Option<Id>)

  type Requests = map<Id, Request>

  /** How far a request has come. Every way of ending ranks the same. */
  function Rank(status: Status): nat {
    match status
    case Opened => 0
    case InvoiceSent => 1
    case Accepted => 2
    case Approved => 3
    case Expanded => 4
    case _ => 5
  }

  predicate Ended(status: Status) { Rank(status) == 5 }

  /** What a guarded update of one request asks for. */
  datatype Change =
    | Cancel(refund: Id)
    | Expire(refunded: Option<Id>)
    | Approve(expansionDue: Time)
    | Provision(postQuota: int)
    | MarkPaid
    | SendInvoice
    | AcceptInvoice(deposit: int, fullPrice: int, order: Id, capture: Option<Id>, approvalDue: Time)
    | Reject
    | Remind(n: nat)
    | Revert

  /** The WHERE of the update. */
  predicate Enabled(r: Request, change: Change) {
    match change
    case Cancel(_) => r.status in {Opened, Accepted, Approved, Expanded}
    case Expire(_) => r.status in {Opened, Accepted, InvoiceSent, Approved}
    case Approve(_) => r.status in {Opened, Accepted}
    case Provision(_) => r.status in {Opened, Approved}
    case MarkPaid => r.status == Expanded
    case SendInvoice => r.status in {Opened, InvoiceSent}
    case AcceptInvoice(_, _, _, _, _) => r.status == InvoiceSent
    case Reject => r.status in {Opened, InvoiceSent} && r.capture.None?
    case Remind(n) => r.status == Expanded && r.reminders < n
    case Revert => r.status == Expanded
  }

  /** The SET of the update. */
  function Changed(r: Request, change: Change, now: Time): Request {
    match change
    case Cancel(refund) => r.(status := Refunded, refund := Some(refund), completedAt := Some(now))
    case Expire(refund) => r.(status := Expired, refund := refund, completedAt := Some(now))
    case Approve(due) => r.(status := Approved, approvedAt := Some(now), expansionDue := Some(due))
    case Provision(quota) => r.(status := Expanded, paymentDue := Some(now), postQuota := Some(quota))
    case MarkPaid => r.(status := Completed, completedAt := Some(now))
    case SendInvoice => r.(status := InvoiceSent)
    case AcceptInvoice(deposit, price, order, capture, due) =>
      r.(status := Accepted, deposit := deposit, fullPrice := price, order := order,
         capture := if capture.Some? then capture else r.capture, approvalDue := Some(due))
    case Reject => r.(status := Rejected, completedAt := Some(now))
    case Remind(n) => r.(reminders := n)
    case Revert => r.(status := Expired, completedAt := Some(now))
  }

  /** ser_paypal_capture_id_uidx. */
  ghost predicate UniqueCaptures(rows: Requests) {
    forall i <- rows, j <- rows :: rows[i].capture.Some? && rows[i].capture == rows[j].capture ==> i == j
  }

  /** The requests a capture applies to. */
  function Uncaptured(rows: Requests, order: Id): set<Id> {
    set id | id in rows && rows[id].order == order && rows[id].capture.None?
  }

  predicate CaptureInUse(rows: Requests, capture: Id) { exists id <- rows :: rows[id].capture == Some(capture) }

  /** Refused: the statement would break the unique index, so it fails and changes nothing. */
  datatype Outcome = Done | NothingToDo | Refused

  /** A capture that lands marks its one request captured and reopens it, whatever its status was. */
  ghost predicate Captures(rows: Requests, rows': Requests, order: Id, capture: Id, outcome: Outcome) {
    var matched := Uncaptured(rows, order);
    match outcome
    case NothingToDo => matched == {} && rows' == rows
    case Refused => matched != {} && (|matched| > 1 || CaptureInUse(rows, capture)) && rows' == rows
    case Done =>
      !CaptureInUse(rows, capture) &&
      exists id | id in rows ::
        matched == {id} && rows' == rows[id := rows[id].(capture := Some(capture), status := Opened)]
  }

  /** The deposit's capture, if there is one, must be new or the request's own. */
  predicate CaptureFree(rows: Requests, id: Id, capture: Option<Id>) {
    capture.Some? ==> forall j <- rows :: rows[j].capture == capture ==> j == id
  }

  ghost predicate AcceptsInvoice(rows: Requests, rows': Requests, id: Id, change: Change, now: Time, outcome: Outcome)
    requires change.AcceptInvoice?
  {
    match outcome
    case NothingToDo => !(id in rows && Enabled(rows[id], change)) && rows' == rows
    case Refused => id in rows && Enabled(rows[id], change) && !CaptureFree(rows, id, change.capture) && rows' == rows
    case Done =>
      && id in rows && Enabled(rows[id], change) && CaptureFree(rows, id, change.capture)
      && rows' == rows[id := Changed(rows[id], change, now)]
  }

  class RequestTable {
    var rows: Requests
    var now: Time

    constructor (rows: Requests, now: Time)
      ensures this.rows == rows && this.now == now
    {
      this.rows, this.now := rows, now;
    }

    method CreateExpansionRequest(order: Id, capture: Option<Id>, deposit: int, fullPrice: int, due: Time)
      returns (id: Option<Id>)
      modifies this`rows
      ensures id.Some? <==> !(capture.Some? && CaptureInUse(old(rows), capture.value))
      ensures id.Some? ==> id.value !in old(rows)
      ensures id.Some? ==> rows == old(rows)[id.value := NewRequest(order, capture, deposit, fullPrice, due)]
      ensures id.Some? ==>
        rows[id.value] ==
        Request(order, capture, Opened, deposit, fullPrice, None, Some(due), None, None, None, None, 0, None)
      ensures id.None? ==> capture.Some? && exists i <- old(rows) :: old(rows)[i].capture == capture
      ensures id.Some? && capture.Some? ==> forall i <- old(rows) :: old(rows)[i].capture != capture
      ensures id.Some? ==> Step(old(rows), Event.Create(id.value, order, capture, deposit, fullPrice, due), rows)
      ensures id.None? ==> rows == old(rows)
    {
      if capture.Some? && CaptureInUse(rows, capture.value) {
        return None;
      }
      var row := NewId(rows.Keys);
      rows := rows[row := NewRequest(order, capture, deposit, fullPrice, due)];
      return Some(row);
    }

    method MarkExpansionRequestCaptured(order: Id, capture: Id) returns (outcome: Outcome)
      modifies this`rows
      ensures Captures(old(rows), rows, order, capture, outcome)
      ensures Step(old(rows), Event.Capture(order, capture), rows)
      ensures outcome.NothingToDo? <==>
        forall i <- old(rows) | old(rows)[i].order == order :: old(rows)[i].capture.Some?
      ensures outcome.Done? ==>
        && (forall i <- old(rows) :: old(rows)[i].capture != Some(capture))
        && exists i <- old(rows) ::
             && old(rows)[i].order == order && old(rows)[i].capture.None?
             && rows == old(rows)[i := old(rows)[i].(capture := Some(capture), status := Opened)]
      ensures !outcome.Done? ==> rows == old(rows)
    {
      var matched := Uncaptured(rows, order);
      assert forall i <- rows | rows[i].order == order && rows[i].capture.None? :: i in matched;
      if matched == {} {
        assert Captures(rows, rows, order, capture, NothingToDo);
        return NothingToDo;
      }
      if |matched| > 1 || CaptureInUse(rows, capture) {
        assert Captures(rows, rows, order, capture, Refused);
        return Refused;
      }
      var id: Id :| id in matched;
      assert matched == {id} by { assert |matched - {id}| == 0; }
      rows := rows[id := rows[id].(capture := Some(capture), status := Opened)];
      assert id in old(rows);
      assert Captures(old(rows), rows, order, capture, Done);
      return Done;
    }

    method AcceptExpansionRequestInvoice(
      id: Id, deposit: int, fullPrice: int, order: Id, capture: Option<Id>, due: Time)
      returns (outcome: Outcome)
      modifies this`rows
      ensures AcceptsInvoice(old(rows), rows, id, AcceptInvoice(deposit, fullPrice, order, capture, due), now, outcome)
      ensures Step(old(rows), Event.Update(id, AcceptInvoice(deposit, fullPrice, order, capture, due), now), rows)
      ensures outcome.NothingToDo? <==> id !in old(rows) || old(rows)[id].status != InvoiceSent
      ensures outcome.Refused? ==>
        capture.Some? && exists i <- old(rows) :: i != id && old(rows)[i].capture == capture
      ensures outcome.Done? ==>
        && (capture.Some? ==> forall i <- old(rows) | i != id :: old(rows)[i].capture != capture)
        && rows == old(rows)[id := old(rows)[id].(
             status := Accepted, deposit := deposit, fullPrice := fullPrice, order := order, approvalDue := Some(due),
             capture := if capture.Some? then capture else old(rows)[id].capture)]
    {
      if id !in rows || rows[id].status != InvoiceSent {
        assert AcceptsInvoice(rows, rows, id, AcceptInvoice(deposit, fullPrice, order, capture, due), now, NothingToDo);
        return NothingToDo;
      }
      if !CaptureFree(rows, id, capture) {
        assert AcceptsInvoice(rows, rows, id, AcceptInvoice(deposit, fullPrice, order, capture, due), now, Refused);
        return Refused;
      }
      rows := rows[id := rows[id].(status := Accepted, deposit := deposit, fullPrice := fullPrice, order := order,
                                   capture := if capture.Some? then capture else rows[id].capture,
                                   approvalDue := Some(due))];
      assert AcceptsInvoice(
        old(rows), rows, id, AcceptInvoice(deposit, fullPrice, order, capture, due), now, Done);
      return Done;
    }

    /** An UPDATE of one request with the change's guard in its WHERE. */
    method Update(id: Id, change: Change) returns (changed: bool)
      modifies this`rows
      ensures changed <==> id in old(rows) && Enabled(old(rows)[id], change)
      ensures rows == if changed then old(rows)[id := Changed(old(rows)[id], change, now)] else old(rows)
      ensures !change.AcceptInvoice? ==> Step(old(rows), Event.Update(id, change, now), rows)
    {
      changed := id in rows && Enabled(rows[id], change);
      if changed {
        rows := rows[id := Changed(rows[id], change, now)];
      }
    }

    method CancelExpansionRequest(id: Id, refund: Id) returns (changed: bool)
      modifies this`rows
      ensures changed <==>
        id in old(rows) && old(rows)[id].status in {Opened, Accepted, Approved, Expanded}
      ensures changed ==>
        rows == old(rows)[id := old(rows)[id].(status := Refunded, refund := Some(refund), completedAt := Some(now))]
      ensures !changed ==> rows == old(rows)
    {
      changed := Update(id, Cancel(refund));
    }

    method ExpireExpansionRequest(id: Id, refund: Option<Id>) returns (changed: bool)
      modifies this`rows
      ensures changed <==>
        id in old(rows) && old(rows)[id].status in {Opened, Accepted, InvoiceSent, Approved}
      ensures changed ==>
        rows == old(rows)[id := old(rows)[id].(status := Expired, refund := refund, completedAt := Some(now))]
      ensures !changed ==> rows == old(rows)
    {
      changed := Update(id, Expire(refund));
    }

    method ApproveExpansionRequest(id: Id, due: Time) returns (changed: bool)
      modifies this`rows
      ensures changed <==>
        id in old(rows) && old(rows)[id].status in {Opened, Accepted}
      ensures changed ==>
        rows == old(rows)[id := old(rows)[id].(status := Approved, approvedAt := Some(now), expansionDue := Some(due))]
      ensures !changed ==> rows == old(rows)
    {
      changed := Update(id, Approve(due));
    }

    method ProvisionExpansionRequest(id: Id, postQuota: int) returns (changed: bool)
      modifies this`rows
      ensures changed <==>
        id in old(rows) && old(rows)[id].status in {Opened, Approved}
      ensures changed ==>
        rows == old(rows)[id :=
          old(rows)[id].(status := Expanded, paymentDue := Some(now), postQuota := Some(postQuota))]
      ensures !changed ==> rows == old(rows)
    {
      changed := Update(id, Provision(postQuota));
    }

    method MarkExpansionRequestPaid(id: Id) returns (changed: bool)
      modifies this`rows
      ensures changed <==>
        id in old(rows) && old(rows)[id].status == Expanded
      ensures changed ==>
        rows == old(rows)[id := old(rows)[id].(status := Completed, completedAt := Some(now))]
      ensures !changed ==> rows == old(rows)
    {
      changed := Update(id, MarkPaid);
    }

    method MarkExpansionInvoiceSent(id: Id) returns (changed: bool)
      modifies this`rows
      ensures changed <==>
        id in old(rows) && old(rows)[id].status in {Opened, InvoiceSent}
      ensures changed ==>
        rows == old(rows)[id := old(rows)[id].(status := InvoiceSent)]
      ensures !changed ==> rows == old(rows)
    {
      changed := Update(id, SendInvoice);
    }

    method RejectExpansionRequest(id: Id) returns (changed: bool)
      modifies this`rows
      ensures changed <==>
        id in old(rows) && old(rows)[id].status in {Opened, InvoiceSent} && old(rows)[id].capture.None?
      ensures changed ==>
        rows == old(rows)[id := old(rows)[id].(status := Rejected, completedAt := Some(now))]
      ensures !changed ==> rows == old(rows)
    {
      changed := Update(id, Reject);
    }

    method MarkExpansionReminderSent(id: Id, n: nat) returns (changed: bool)
      modifies this`rows
      ensures changed <==>
        id in old(rows) && old(rows)[id].status == Expanded && old(rows)[id].reminders < n
      ensures changed ==>
        rows == old(rows)[id := old(rows)[id].(reminders := n)]
      ensures !changed ==> rows == old(rows)
    {
      changed := Update(id, Remind(n));
    }

    method RevertExpansionRequest(id: Id) returns (changed: bool)
      modifies this`rows
      ensures changed <==>
        id in old(rows) && old(rows)[id].status == Expanded
      ensures changed ==>
        rows == old(rows)[id := old(rows)[id].(status := Expired, completedAt := Some(now))]
      ensures !changed ==> rows == old(rows)
    {
      changed := Update(id, Revert);
    }
  }

  function NewRequest(order: Id, capture: Option<Id>, deposit: int, fullPrice: int, due: Time): Request {
    Request(order, capture, Opened, deposit, fullPrice, None, Some(due), None, None, None, None, 0, None)
  }

  // ── Lifecycles ─────────────────────────────────────────────────────────────

  datatype Event =
    | Create(id: Id, order: Id, deposited: Option<Id>, deposit: int, fullPrice: int, due: Time)
    | Capture(order: Id, capture: Id)
    | Update(id: Id, change: Change, now: Time)

  ghost predicate Step(rows: Requests, event: Event, rows': Requests) {
    match event
    case Create(id, order, capture, deposit, fullPrice, due) =>
      && id !in rows && (capture.Some? ==> !CaptureInUse(rows, capture.value))
      && rows' == rows[id := NewRequest(order, capture, deposit, fullPrice, due)]
    case Capture(order, capture) => exists outcome :: Captures(rows, rows', order, capture, outcome)
    case Update(id, change, now) =>
      if change.AcceptInvoice? then exists outcome :: AcceptsInvoice(rows, rows', id, change, now, outcome)
      else rows' == if id in rows && Enabled(rows[id], change) then rows[id := Changed(rows[id], change, now)] else rows
  }

  /** An update that fires raises the rank, except a reminder or re-sending an invoice, which keep the status. */
  lemma UpdateRaisesRank(r: Request, change: Change, now: Time)
    requires Enabled(r, change)
    ensures var r' := Changed(r, change, now);
      if change.Remind? || (change.SendInvoice? && r.status == InvoiceSent) then r'.status == r.status
      else Rank(r.status) < Rank(r'.status)
  {
  }

  /** What one step does to one request that exists already. */
  ghost predicate RowStep(r: Request, event: Event, r': Request) {
    || r' == r
    || (event.Update? && Enabled(r, event.change) && r' == Changed(r, event.change, event.now))
    || (event.Capture? && r.order == event.order && r.capture.None?
        && r' == r.(capture := Some(event.capture), status := Opened))
  }

  lemma StepOnRow(rows: Requests, event: Event, rows': Requests, id: Id)
    requires Step(rows, event, rows') && id in rows
    ensures id in rows' && RowStep(rows[id], event, rows'[id])
  {
  }

  /** The event captures this request's deposit: its order names no other uncaptured request, the capture is new. */
  ghost predicate Lands(rows: Requests, event: Event, id: Id) {
    event.Capture? && Uncaptured(rows, event.order) == {id} && !CaptureInUse(rows, event.capture)
  }

  /** A capture changes the row it lands on, and no other. */
  lemma CaptureOnRow(rows: Requests, event: Event, rows': Requests, id: Id)
    requires Step(rows, event, rows') && event.Capture? && id in rows
    ensures id in rows'
    ensures rows'[id] ==
      if Lands(rows, event, id) then rows[id].(capture := Some(event.capture), status := Opened) else rows[id]
  {
    var outcome :| Captures(rows, rows', event.order, event.capture, outcome);
    if Uncaptured(rows, event.order) == {id} { assert |Uncaptured(rows, event.order)| == 1; }
    assert Lands(rows, event, id) ==> outcome.Done? && id in Uncaptured(rows, event.order);
  }

  ghost predicate Falls(rows: Requests, rows': Requests, id: Id)
    requires id in rows && id in rows'
  {
    Rank(rows'[id].status) < Rank(rows[id].status)
  }

  /** A step lowers a request's rank exactly when a capture lands on it and it is past 'opened'. */
  lemma StepLowersRankIff(rows: Requests, event: Event, rows': Requests, id: Id)
    requires Step(rows, event, rows') && id in rows
    ensures id in rows'
    ensures Falls(rows, rows', id) <==> Lands(rows, event, id) && rows[id].status != Opened
  {
    if event.Capture? { CaptureOnRow(rows, event, rows', id); } else { StepOnRow(rows, event, rows', id); }
  }

  /** A request that has ended leaves that status exactly when a capture lands on it. */
  lemma EndedIsLeftIff(rows: Requests, event: Event, rows': Requests, id: Id)
    requires Step(rows, event, rows') && id in rows && Ended(rows[id].status)
    ensures id in rows' && (rows'[id].status != rows[id].status <==> Lands(rows, event, id))
  {
    if event.Capture? { CaptureOnRow(rows, event, rows', id); } else { StepOnRow(rows, event, rows', id); }
  }

  ghost predicate Run(states: seq<Requests>, events: seq<Event>) {
    && |states| == |events| + 1
    && forall i | 0 <= i < |events| :: Step(states[i], events[i], states[i + 1])
  }

  /** One request's row through a run. */
  function History(states: seq<Requests>, id: Id): seq<Request>
    requires forall i | 0 <= i < |states| :: id in states[i]
  {
    seq(|states|, i requires 0 <= i < |states| => states[i][id])
  }

  ghost predicate RowRun(rows: seq<Request>, events: seq<Event>) {
    && |rows| == |events| + 1
    && forall i | 0 <= i < |events| :: RowStep(rows[i], events[i], rows[i + 1])
  }

  /** Requests are never deleted, so one has a row in every state of a run that starts with it. */
  lemma {:induction false} RowsStay(states: seq<Requests>, events: seq<Event>, id: Id, n: nat)
    requires Run(states, events) && n < |states| && id in states[0]
    ensures forall i | 0 <= i <= n :: id in states[i]
  {
    if n > 0 {
      RowsStay(states, events, id, n - 1);
      StepOnRow(states[n - 1], events[n - 1], states[n], id);
    }
  }

  lemma RunOfRow(states: seq<Requests>, events: seq<Event>, id: Id)
    requires Run(states, events) && id in states[0]
    ensures forall i | 0 <= i < |states| :: id in states[i]
    ensures RowRun(History(states, id), events)
  {
    RowsStay(states, events, id, |events|);
    forall i | 0 <= i < |events| ensures RowStep(states[i][id], events[i], states[i + 1][id]) {
      StepOnRow(states[i], events[i], states[i + 1], id);
    }
  }

  /** The request's deposit is captured only while it is still 'opened'. */
  ghost predicate CapturedOpened(states: seq<Requests>, events: seq<Event>, id: Id)
    requires |states| == |events| + 1 && forall i | 0 <= i < |states| :: id in states[i]
  {
    forall i | 0 <= i < |events| && Lands(states[i], events[i], id) :: states[i][id].status == Opened
  }

  /** How often the status changed. */
  function StatusChanges(rows: seq<Request>): nat {
    if |rows| < 2 then 0
    else StatusChanges(rows[..|rows| - 1]) + if rows[|rows| - 1].status != rows[|rows| - 2].status then 1 else 0
  }

  predicate ChangesAt(rows: seq<Request>, i: int)
    requires 0 < i < |rows|
  {
    rows[i].status != rows[i - 1].status
  }

  /** That is, at how many rows the status differs from the row before. */
  lemma {:induction false} StatusChangesCount(rows: seq<Request>)
    ensures StatusChanges(rows) == |set i | 0 < i < |rows| && ChangesAt(rows, i)|
    decreases |rows|
  {
    var changes := set i | 0 < i < |rows| && ChangesAt(rows, i);
    if |rows| < 2 {
      assert changes == {};
    } else {
      var n, init := |rows| - 1, rows[..|rows| - 1];
      StatusChangesCount(init);
      assert changes == (set i | 0 < i < |init| && ChangesAt(init, i)) + if ChangesAt(rows, n) then {n} else {};
    }
  }

  /** Each status change uses up some rank. */
  ghost predicate Climbs(r: Request, r': Request) {
    Rank(r.status) + (if r'.status != r.status then 1 else 0) <= Rank(r'.status) && r.reminders <= r'.reminders
  }

  lemma StepClimbs(rows: Requests, event: Event, rows': Requests, id: Id)
    requires Step(rows, event, rows') && id in rows && (Lands(rows, event, id) ==> rows[id].status == Opened)
    ensures id in rows' && Climbs(rows[id], rows'[id])
  {
    if event.Capture? {
      CaptureOnRow(rows, event, rows', id);
    } else {
      StepOnRow(rows, event, rows', id);
      if event.Update? && rows'[id] != rows[id] { UpdateRaisesRank(rows[id], event.change, event.now); }
    }
  }

  lemma {:induction false} ClimbsAreBounded(rows: seq<Request>)
    requires rows != [] && forall i | 0 < i < |rows| :: Climbs(rows[i - 1], rows[i])
    ensures Rank(rows[0].status) + StatusChanges(rows) <= Rank(rows[|rows| - 1].status) <= 5
    ensures Ended(rows[0].status) ==> rows[|rows| - 1].status == rows[0].status
    ensures rows[0].reminders <= rows[|rows| - 1].reminders
    decreases |rows|
  {
    if |rows| > 1 {
      ClimbsAreBounded(rows[..|rows| - 1]);
      assert Climbs(rows[|rows| - 2], rows[|rows| - 1]);
    }
  }

  /**
   * While its deposit is captured only when opened, a request changes status at most five times
   * and stays as it ends; its reminder counter never falls.
   */
  lemma StatusChangesAreBounded(states: seq<Requests>, events: seq<Event>, id: Id)
    requires Run(states, events) && id in states[0]
    ensures forall i | 0 <= i < |states| :: id in states[i]
    ensures CapturedOpened(states, events, id) ==>
      var rows := History(states, id);
      && Rank(rows[0].status) + StatusChanges(rows) <= Rank(rows[|rows| - 1].status) <= 5
      && (Ended(rows[0].status) ==> rows[|rows| - 1].status == rows[0].status)
      && rows[0].reminders <= rows[|rows| - 1].reminders
  {
    RowsStay(states, events, id, |events|);
    if CapturedOpened(states, events, id) {
      var rows := History(states, id);
      forall i | 0 < i < |rows| ensures Climbs(rows[i - 1], rows[i]) {
        StepClimbs(states[i - 1], events[i - 1], states[i], id);
      }
      ClimbsAreBounded(rows);
    }
  }

  /** A request's rank never falls in a run exactly when its deposit is captured only while opened. */
  lemma RankNeverFallsIff(states: seq<Requests>, events: seq<Event>, id: Id)
    requires Run(states, events) && id in states[0]
    ensures forall i | 0 <= i < |states| :: id in states[i]
    ensures CapturedOpened(states, events, id) <==> forall i | 0 <= i < |events| :: !Falls(states[i], states[i + 1], id)
  {
    RowsStay(states, events, id, |events|);
    if CapturedOpened(states, events, id) {
      forall i | 0 <= i < |events| ensures !Falls(states[i], states[i + 1], id) {
        StepLowersRankIff(states[i], events[i], states[i + 1], id);
      }
    }
    if forall i | 0 <= i < |events| :: !Falls(states[i], states[i + 1], id) {
      forall i | 0 <= i < |events| && Lands(states[i], events[i], id) ensures states[i][id].status == Opened {
        StepLowersRankIff(states[i], events[i], states[i + 1], id);
      }
    }
  }

  /** The order of a rejected request can still be captured, which reopens it. */
  lemma RejectedCanReopen(r: Request, rows: Requests, now: Time)
    requires r.status == Opened && r.capture.None?
    ensures var rejected := map[1 := Changed(r, Reject, now)];
      var reopened := map[1 := r.(capture := Some(9), completedAt := Some(now))];
      Run([map[1 := r], rejected, reopened], [Update(1, Reject, now), Capture(r.order, 9)])
  {
    var rejected := map[1 := Changed(r, Reject, now)];
    var reopened := map[1 := r.(capture := Some(9), completedAt := Some(now))];
    assert Uncaptured(rejected, r.order) == {1};
    assert reopened == rejected[1 := rejected[1].(capture := Some(9), status := Opened)];
    assert Captures(rejected, reopened, r.order, 9, Done) by { assert 1 in rejected; }
  }

  /** A provisioned request knows the quota it granted and when the balance fell due; captures are never shared. */
  ghost predicate Billed(rows: Requests) {
    && UniqueCaptures(rows)
    && forall id <- rows | rows[id].status in {Expanded, Completed} ::
         rows[id].postQuota.Some? && rows[id].paymentDue.Some?
  }

  lemma {:induction false} RunKeepsBilled(states: seq<Requests>, events: seq<Event>, n: nat)
    requires Run(states, events) && Billed(states[0]) && n < |states|
    ensures Billed(states[n])
  {
    if n > 0 {
      RunKeepsBilled(states, events, n - 1);
      StepKeepsBilled(states[n - 1], events[n - 1], states[n]);
    }
  }

  lemma StepKeepsBilled(rows: Requests, event: Event, rows': Requests)
    requires Step(rows, event, rows') && Billed(rows)
    ensures Billed(rows')
  {
  }
}
