/**
 * Invoices of custom expansion requests (api/db/expansion_invoices.go). Creating one is two
 * statements outside a transaction, so other processes may run between them.
 */
module Invoices {
  import opened Prelude

  datatype Status = Sent | Accepted | Expired | Cancelled

  datatype Invoice = Invoice(
    request: Id, status: Status, order: Option<Id>, capture: Option<Id>, acceptedAt: Option<Time>)

  type Invoices = map<Id, Invoice>

  function Pending(invoices: Invoices, request: Id): set<Id> {
    set i | i in invoices && invoices[i].request == request && invoices[i].status.Sent?
  }

  /** The first statement of CreateExpansionInvoice: pending invoices of the request are cancelled. */
  function Superseded(invoices: Invoices, request: Id): Invoices {
    map i | i in invoices ::
      if i in Pending(invoices, request) then invoices[i].(status := Cancelled) else invoices[i]
  }

  function NewInvoice(request: Id): Invoice { Invoice(request, Sent, None, None, None) }

  /** paypal_capture_id is unique. */
  predicate CaptureFree(invoices: Invoices, id: Id, capture: Option<Id>) {
    capture.Some? ==> forall i <- invoices :: invoices[i].capture == capture ==> i == id
  }

  function FirstOf<T>(given: Option<T>, stored: Option<T>): Option<T> { if given.Some? then given else stored }

  class InvoiceTable {
    var invoices: Invoices
    var now: Time

    constructor (invoices: Invoices, now: Time)
      ensures this.invoices == invoices && this.now == now
    {
      this.invoices, this.now := invoices, now;
    }

    /** Run without interruption. */
    method CreateExpansionInvoice(request: Id) returns (id: Id)
      modifies this`invoices
      ensures id !in old(invoices) && invoices == Superseded(old(invoices), request)[id := NewInvoice(request)]
      ensures Step(old(invoices), Supersede(request), Superseded(old(invoices), request))
      ensures Step(Superseded(old(invoices), request), Insert(id, request), invoices)
      ensures invoices.Keys == old(invoices).Keys + {id} && invoices[id] == Invoice(request, Sent, None, None, None)
      ensures forall i <- old(invoices) | old(invoices)[i].request == request && old(invoices)[i].status.Sent? ::
          invoices[i] == old(invoices)[i].(status := Cancelled)
      ensures forall i <- old(invoices) | old(invoices)[i].request != request || !old(invoices)[i].status.Sent? ::
          invoices[i] == old(invoices)[i]
      ensures Pending(invoices, request) == {id}
      ensures forall r: Id | r != request :: Pending(invoices, r) == Pending(old(invoices), r)
      ensures AcceptedStay(old(invoices), invoices)
    {
      invoices := Superseded(invoices, request);
      id := NewId(invoices.Keys);
      invoices := invoices[id := NewInvoice(request)];
    }

    /** None when the unique capture id refuses the update. */
    method AcceptExpansionInvoice(id: Id, order: Option<Id>, capture: Option<Id>) returns (accepted: Option<bool>)
      modifies this`invoices
      ensures accepted.None? <==>
        id in old(invoices) && old(invoices)[id].status.Sent? && !CaptureFree(old(invoices), id, capture)
      ensures accepted == Some(true) <==>
        id in old(invoices) && old(invoices)[id].status.Sent? && CaptureFree(old(invoices), id, capture)
      ensures accepted != Some(true) ==> invoices == old(invoices)
      ensures accepted == Some(true) ==>
        invoices == old(invoices)[id := AcceptedWith(old(invoices)[id], order, capture, now)]
      ensures accepted == Some(true) ==>
        && invoices[id].status == Accepted && invoices[id].acceptedAt == Some(now)
        && invoices[id].request == old(invoices)[id].request
        && invoices[id].order == (if order.Some? then order else old(invoices)[id].order)
        && invoices[id].capture == (if capture.Some? then capture else old(invoices)[id].capture)
      ensures accepted.None? ==>
        capture.Some? && exists i <- old(invoices) :: i != id && old(invoices)[i].capture == capture
      ensures accepted == Some(true) && capture.Some? ==>
        forall i <- old(invoices) | i != id :: old(invoices)[i].capture != capture
      ensures Step(old(invoices), Accept(id, order, capture, now), invoices)
    {
      if id !in invoices || !invoices[id].status.Sent? {
        return Some(false);
      }
      if !CaptureFree(invoices, id, capture) {
        return None;
      }
      invoices := invoices[id := invoices[id].(status := Accepted, acceptedAt := Some(now),
                                               order := if order.Some? then order else invoices[id].order,
                                               capture := if capture.Some? then capture else invoices[id].capture)];
      return Some(true);
    }

    method SetExpansionInvoiceStatus(id: Id, status: Status)
      modifies this`invoices
      ensures invoices == if id in old(invoices) && old(invoices)[id].status.Sent?
                          then old(invoices)[id := old(invoices)[id].(status := status)] else old(invoices)
      ensures Step(old(invoices), SetStatus(id, status), invoices)
    {
      if id in invoices && invoices[id].status.Sent? {
        invoices := invoices[id := invoices[id].(status := status)];
      }
    }
  }

  function AcceptedWith(i: Invoice, order: Option<Id>, capture: Option<Id>, now: Time): Invoice {
    i.(status := Accepted, acceptedAt := Some(now),
       order := FirstOf(order, i.order), capture := FirstOf(capture, i.capture))
  }

  /** Accepted invoices, with all their fields, stay as they are. */
  ghost predicate AcceptedStay(before: Invoices, after: Invoices) {
    forall i <- before :: before[i].status.Accepted? ==> i in after && after[i] == before[i]
  }

  // ── Statements of any number of processes ──────────────────────────────────

  datatype Event =
    | Supersede(request: Id)
    | Insert(id: Id, request: Id)
    | Accept(id: Id, order: Option<Id>, capture: Option<Id>, now: Time)
    | SetStatus(id: Id, status: Status)

  ghost predicate Step(before: Invoices, event: Event, after: Invoices) {
    match event
    case Supersede(request) => after == Superseded(before, request)
    case Insert(id, request) => id !in before && after == before[id := NewInvoice(request)]
    case Accept(id, order, capture, now) =>
      after == if id in before && before[id].status.Sent? && CaptureFree(before, id, capture)
               then before[id := AcceptedWith(before[id], order, capture, now)] else before
    case SetStatus(id, status) =>
      after == if id in before && before[id].status.Sent? then before[id := before[id].(status := status)] else before
  }

  /** No request has two pending invoices. */
  ghost predicate OnePending(invoices: Invoices) {
    forall i <- invoices, j <- invoices ::
      invoices[i].status.Sent? && invoices[j].status.Sent? && invoices[i].request == invoices[j].request ==> i == j
  }

  /** Only an insert for a request that has a pending invoice breaks the rule. */
  lemma StepKeepsOnePendingIff(before: Invoices, event: Event, after: Invoices)
    requires Step(before, event, after) && OnePending(before)
    ensures OnePending(after) <==> (event.Insert? ==> Pending(before, event.request) == {})
  {
    if event.Insert? {
      var pending := Pending(before, event.request);
      assert forall i <- before :: i in pending <==> before[i].request == event.request && before[i].status.Sent?;
      if i: Id :| i in pending {
        assert after[i] == before[i] && after[event.id].status.Sent?;
      }
    }
  }

  lemma StepKeepsAccepted(before: Invoices, event: Event, after: Invoices)
    requires Step(before, event, after)
    ensures AcceptedStay(before, after)
  {
  }

  ghost predicate Run(states: seq<Invoices>, events: seq<Event>) {
    && |states| == |events| + 1
    && forall i | 0 <= i < |events| :: Step(states[i], events[i], states[i + 1])
  }

  /** Between a create's two statements, nobody else inserts for the request. */
  predicate CreatesUnbroken(events: seq<Event>) {
    forall i | 0 <= i < |events| && events[i].Insert? :: exists s | 0 <= s < i ::
      events[s] == Supersede(events[i].request) && NoInsert(events, s + 1, i, events[i].request)
  }

  predicate NoInsert(events: seq<Event>, from: nat, to: nat, request: Id)
    requires to <= |events|
  {
    forall k | from <= k < to :: !(events[k].Insert? && events[k].request == request)
  }

  lemma {:induction false} StaysClear(states: seq<Invoices>, events: seq<Event>, request: Id, s: nat, n: nat)
    requires Run(states, events) && s < n <= |events|
    requires events[s] == Supersede(request) && NoInsert(events, s + 1, n, request)
    ensures Pending(states[n], request) == {}
  {
    if n > s + 1 {
      StaysClear(states, events, request, s, n - 1);
      assert Step(states[n - 1], events[n - 1], states[n]);
      forall i <- states[n] ensures i !in Pending(states[n], request) {
        assert i in states[n - 1] ==> i !in Pending(states[n - 1], request);
      }
    } else {
      assert Step(states[s], events[s], states[n]);
    }
  }

  /** In runs whose creates are unbroken, no request ever has two pending invoices. */
  lemma {:induction false} RunKeepsOnePending(states: seq<Invoices>, events: seq<Event>, n: nat)
    requires Run(states, events) && OnePending(states[0]) && CreatesUnbroken(events) && n < |states|
    ensures OnePending(states[n])
  {
    if n > 0 {
      RunKeepsOnePending(states, events, n - 1);
      var event := events[n - 1];
      if event.Insert? {
        var s :| 0 <= s < n - 1 && events[s] == Supersede(event.request)
          && NoInsert(events, s + 1, n - 1, event.request);
        StaysClear(states, events, event.request, s, n - 1);
      }
      StepKeepsOnePendingIff(states[n - 1], event, states[n]);
    }
  }

  /** No request has two pending invoices throughout a run exactly when no insert finds one pending. */
  lemma RunKeepsOnePendingIff(states: seq<Invoices>, events: seq<Event>)
    requires Run(states, events) && OnePending(states[0])
    ensures (forall i | 0 <= i < |states| :: OnePending(states[i])) <==>
            (forall i | 0 <= i < |events| && events[i].Insert? :: Pending(states[i], events[i].request) == {})
  {
    if forall i | 0 <= i < |events| && events[i].Insert? :: Pending(states[i], events[i].request) == {} {
      forall i | 0 <= i < |states| ensures OnePending(states[i]) {
        ClearRunKeepsOnePending(states, events, i);
      }
    }
    if forall i | 0 <= i < |states| :: OnePending(states[i]) {
      forall i | 0 <= i < |events| && events[i].Insert? ensures Pending(states[i], events[i].request) == {} {
        StepKeepsOnePendingIff(states[i], events[i], states[i + 1]);
      }
    }
  }

  lemma {:induction false} ClearRunKeepsOnePending(states: seq<Invoices>, events: seq<Event>, n: nat)
    requires Run(states, events) && OnePending(states[0]) && n < |states|
    requires forall i | 0 <= i < n && events[i].Insert? :: Pending(states[i], events[i].request) == {}
    ensures OnePending(states[n])
  {
    if n > 0 {
      ClearRunKeepsOnePending(states, events, n - 1);
      StepKeepsOnePendingIff(states[n - 1], events[n - 1], states[n]);
    }
  }

  lemma {:induction false} RunKeepsAccepted(states: seq<Invoices>, events: seq<Event>, n: nat)
    requires Run(states, events) && n < |states|
    ensures AcceptedStay(states[0], states[n])
  {
    if n > 0 {
      RunKeepsAccepted(states, events, n - 1);
      StepKeepsAccepted(states[n - 1], events[n - 1], states[n]);
    }
  }

  /** Two creates whose statements interleave leave two pending invoices. */
  lemma InterleavedCreatesLeaveTwo(request: Id)
    ensures var one := map[1 := NewInvoice(request)]; var two := one[2 := NewInvoice(request)];
      Run([map[], map[], map[], one, two],
          [Supersede(request), Supersede(request), Insert(1, request), Insert(2, request)]) && !OnePending(two)
  {
    var one := map[1 := NewInvoice(request)];
    var two := one[2 := NewInvoice(request)];
    assert Superseded(map[], request) == map[];
    assert two[1].status.Sent? && two[2].status.Sent?;
  }
}
