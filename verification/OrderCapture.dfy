/**
 * Storage orders under any interleaving of requests: captures, direct purchases, refunds and
 * sandbox reverts (api/db/storage_orders.go, api/db/orders.go). Marking an order and moving its
 * bytes are two transactions; between them other requests run.
 */
module OrderCapture {
  import opened Prelude
  import opened Sums

  datatype Status = Created | Captured | Refunded

  /** `order` is PayPal's order id, which no constraint keeps unique. */
  datatype Row = Row(
    order: Id, user: Id, bytes: int, capture: Option<Id>, status: Status, sandbox: bool, reverted: bool)

  type Rows = map<Id, Row>

  function Uncaptured(rows: Rows, order: Id): set<Id> {
    set id | id in rows && rows[id].order == order && rows[id].capture.None?
  }

  /** paypal_capture_id is unique. */
  predicate CaptureInUse(rows: Rows, capture: Id) { exists id <- rows :: rows[id].capture == Some(capture) }

  /** Refused: the statement would break the unique index, so it fails and changes nothing. */
  datatype Outcome = Done(row: Id) | NothingToDo | Refused

  ghost predicate Marks(rows: Rows, rows': Rows, order: Id, capture: Id, outcome: Outcome) {
    var matched := Uncaptured(rows, order);
    match outcome
    case NothingToDo => matched == {} && rows' == rows
    case Refused => matched != {} && (|matched| > 1 || CaptureInUse(rows, capture)) && rows' == rows
    case Done(id) =>
      && matched == {id} && !CaptureInUse(rows, capture)
      && rows' == rows[id := rows[id].(capture := Some(capture), status := Captured)]
  }

  predicate Refundable(rows: Rows, id: Id) { id in rows && rows[id].status == Captured }

  predicate Revertible(rows: Rows, id: Id) {
    id in rows && rows[id].status == Captured && rows[id].sandbox && !rows[id].reverted
  }

  class OrderStore {
    var rows: Rows

    constructor (rows: Rows)
      ensures this.rows == rows
    {
      this.rows := rows;
    }

    /** Refused when the row brings a capture that is in use. */
    method CreateStorageOrder(row: Row) returns (id: Option<Id>)
      modifies this
      ensures id.Some? <==> !(row.capture.Some? && CaptureInUse(old(rows), row.capture.value))
      ensures id.Some? ==> id.value !in old(rows) && rows == old(rows)[id.value := row]
      ensures id.None? ==> rows == old(rows)
    {
      if row.capture.Some? && CaptureInUse(rows, row.capture.value) {
        return None;
      }
      var id_ := NewId(rows.Keys);
      rows := rows[id_ := row];
      return Some(id_);
    }

    /** One call captures an order; where two rows share it, or the capture is used, none does. */
    method MarkStorageOrderCaptured(order: Id, capture: Id) returns (outcome: Outcome)
      modifies this
      ensures Marks(old(rows), rows, order, capture, outcome)
    {
      var matched := Uncaptured(rows, order);
      if matched == {} {
        return NothingToDo;
      }
      if |matched| > 1 || CaptureInUse(rows, capture) {
        return Refused;
      }
      var id: Id :| id in matched;
      assert matched == {id} by { assert |matched - {id}| == 0; }
      rows := rows[id := rows[id].(capture := Some(capture), status := Captured)];
      return Done(id);
    }

    method MarkStorageOrderRefunded(id: Id) returns (applied: bool)
      modifies this
      ensures applied <==> id in old(rows) && old(rows)[id].status == Captured
      ensures rows == if applied then old(rows)[id := old(rows)[id].(status := Refunded)] else old(rows)
    {
      applied := Refundable(rows, id);
      if applied {
        rows := rows[id := rows[id].(status := Refunded)];
      }
    }

    /** The order stays captured, so it can still be refunded. */
    method MarkStorageOrderAllocationReverted(id: Id) returns (applied: bool)
      modifies this
      ensures applied <==>
        id in old(rows) && old(rows)[id].status == Captured && old(rows)[id].sandbox && !old(rows)[id].reverted
      ensures rows == if applied then old(rows)[id := old(rows)[id].(reverted := true)] else old(rows)
    {
      applied := Revertible(rows, id);
      if applied {
        rows := rows[id := rows[id].(reverted := true)];
      }
    }
  }

  // ── Runs ───────────────────────────────────────────────────────────────────

  /** Bytes a request was told to add to a user's quota, or to take away, and has yet to. */
  datatype Grant = Grant(user: Id, bytes: int)

  datatype Ledger = Ledger(rows: Rows, quotas: map<Id, int>, pending: map<Id, Grant>)

  /**
   * A capture reads an order's user and bytes from some row with its order id, `read`, before it
   * marks the row that is uncaptured.
   */
  datatype Event =
    | Create(request: Id, id: Id, row: Row)
    | Mark(request: Id, read: Id, order: Id, capture: Id, outcome: Outcome)
    | Refund(request: Id, id: Id)
    | Revert(request: Id, id: Id)
    | Apply(request: Id)

  /** Refunds and reverts take away a positive number of bytes, or nothing. */
  function UndoBytes(bytes: int): int { if bytes > 0 then bytes else 0 }

  function Undo(s: Ledger, request: Id, row: Row): map<Id, Grant> {
    if row.bytes > 0 then s.pending[request := Grant(row.user, -row.bytes)] else s.pending
  }

  ghost predicate Step(s: Ledger, e: Event, s': Ledger) {
    match e
    case Create(request, id, row) =>
      && request !in s.pending && id !in s.rows && row.status == (if row.capture.Some? then Captured else Created)
      && !row.reverted && (row.capture.Some? ==> !CaptureInUse(s.rows, row.capture.value))
      && s' == s.(rows := s.rows[id := row],
                  pending := if row.capture.Some? then s.pending[request := Grant(row.user, row.bytes)] else s.pending)
    case Mark(request, read, order, capture, outcome) =>
      && request !in s.pending && read in s.rows && s.rows[read].order == order
      && Marks(s.rows, s'.rows, order, capture, outcome) && s'.quotas == s.quotas
      && s'.pending == if outcome.Done? then s.pending[request := Grant(s.rows[read].user, s.rows[read].bytes)]
                       else s.pending
    case Refund(request, id) =>
      && request !in s.pending
      && s' == if Refundable(s.rows, id) then
                 s.(rows := s.rows[id := s.rows[id].(status := Refunded)], pending := Undo(s, request, s.rows[id]))
               else s
    case Revert(request, id) =>
      && request !in s.pending
      && s' == if Revertible(s.rows, id) then
                 s.(rows := s.rows[id := s.rows[id].(reverted := true)], pending := Undo(s, request, s.rows[id]))
               else s
    case Apply(request) =>
      && request in s.pending && s.pending[request].user in s.quotas
      && var Grant(user, bytes) := s.pending[request];
         s' == s.(quotas := s.quotas[user := s.quotas[user] + bytes], pending := s.pending - {request})
  }

  /** A purchase or capture marks the row and leaves the request to add the bytes; a refund or revert, to take them. */
  lemma EventsTakeEffect(s: Ledger, e: Event, s': Ledger)
    requires Step(s, e, s')
    ensures e.Create? ==> e.id !in s.rows && s'.rows == s.rows[e.id := e.row]
    ensures e.Create? && e.row.capture.Some? ==> s'.pending == s.pending[e.request := Grant(e.row.user, e.row.bytes)]
    ensures e.Mark? && e.outcome.Done? ==>
      && e.outcome.row in s'.rows && s'.rows[e.outcome.row].capture == Some(e.capture)
      && s'.rows[e.outcome.row].status == Captured
      && e.request in s'.pending && s'.pending[e.request] == Grant(s.rows[e.read].user, s.rows[e.read].bytes)
    ensures (e.Refund? || e.Revert?) && s' != s && s.rows[e.id].bytes > 0 ==>
      e.request in s'.pending && s'.pending[e.request] == Grant(s.rows[e.id].user, -s.rows[e.id].bytes)
    ensures e.Refund? && e.id in s.rows && s.rows[e.id].status == Captured ==> s'.rows[e.id].status == Refunded
    ensures e.Revert? && e.id in s.rows && s.rows[e.id].status == Captured && s.rows[e.id].sandbox ==>
      s'.rows[e.id].reverted
    ensures e.Apply? ==>
      && e.request in s.pending && e.request !in s'.pending
      && s'.quotas[s.pending[e.request].user] == s.quotas[s.pending[e.request].user] + s.pending[e.request].bytes
  {
  }

  ghost predicate Run(states: seq<Ledger>, events: seq<Event>) {
    && |states| == |events| + 1
    && forall i | 0 <= i < |events| :: Step(states[i], events[i], states[i + 1])
  }

  /** An order has a capture once it is captured, and for ever after; none is reverted before. */
  ghost predicate Valid(s: Ledger) {
    && (forall id <- s.rows :: s.rows[id].capture.None? <==> s.rows[id].status == Created)
    && (forall id <- s.rows :: s.rows[id].reverted ==> s.rows[id].status != Created)
  }

  lemma {:induction false} RunKeepsValid(states: seq<Ledger>, events: seq<Event>, i: nat)
    requires Run(states, events) && Valid(states[0]) && i < |states|
    ensures Valid(states[i]) && states[i].quotas.Keys == states[0].quotas.Keys
  {
    if i > 0 {
      RunKeepsValid(states, events, i - 1);
      assert Step(states[i - 1], events[i - 1], states[i]);
    }
  }

  // ── The balance ────────────────────────────────────────────────────────────

  /** What the row's history asks of its user's quota. */
  function Net(row: Row): int {
    (if row.status == Created then 0 else row.bytes)
    - (if row.status == Refunded then UndoBytes(row.bytes) else 0)
    - (if row.reverted then UndoBytes(row.bytes) else 0)
  }

  function Share(row: Row, user: Id): int { if row.user == user then Net(row) else 0 }

  function Shares(rows: Rows, user: Id): map<Id, int> { map id | id in rows :: Share(rows[id], user) }

  function Owed(grant: Grant, user: Id): int { if grant.user == user then grant.bytes else 0 }

  function Owing(pending: map<Id, Grant>, user: Id): map<Id, int> { map r | r in pending :: Owed(pending[r], user) }

  /** The quota, with what is still to be added, beyond what the orders ask. */
  function Balance(s: Ledger, user: Id): int
    requires user in s.quotas
  {
    s.quotas[user] + Total(Owing(s.pending, user)) - Total(Shares(s.rows, user))
  }

  lemma RowSet(rows: Rows, id: Id, row: Row, user: Id)
    ensures Total(Shares(rows[id := row], user))
         == Total(Shares(rows, user)) + Share(row, user) - (if id in rows then Share(rows[id], user) else 0)
  {
    TotalUpdate(Shares(rows, user), id, Share(row, user));
    assert Shares(rows[id := row], user) == Shares(rows, user)[id := Share(row, user)];
  }

  lemma GrantAdded(pending: map<Id, Grant>, request: Id, grant: Grant, user: Id)
    requires request !in pending
    ensures Total(Owing(pending[request := grant], user)) == Total(Owing(pending, user)) + Owed(grant, user)
  {
    TotalInsert(Owing(pending, user), request, Owed(grant, user));
    assert Owing(pending[request := grant], user) == Owing(pending, user)[request := Owed(grant, user)];
  }

  lemma GrantApplied(pending: map<Id, Grant>, request: Id, user: Id)
    requires request in pending
    ensures Total(Owing(pending, user)) == Owed(pending[request], user) + Total(Owing(pending - {request}, user))
  {
    TotalRemove(Owing(pending, user), request);
    assert Owing(pending - {request}, user) == Owing(pending, user) - {request};
  }

  /** What a capture grants the user from the row it read, beyond the row it marked. */
  function Misread(s: Ledger, e: Event, user: Id): int {
    if e.Mark? && e.outcome.Done? && e.read in s.rows && e.outcome.row in s.rows then
      Owed(Grant(s.rows[e.read].user, s.rows[e.read].bytes), user)
      - Owed(Grant(s.rows[e.outcome.row].user, s.rows[e.outcome.row].bytes), user)
    else 0
  }

  /** What capturing the row is worth to the user. */
  function Worth(row: Row, user: Id): int { if row.user == user then row.bytes else 0 }

  /**
   * Where the capture will land, on the order's one uncaptured row and with an unused capture id,
   * the row it reads is worth to the user what that row is.
   */
  ghost predicate ReadsRight(s: Ledger, e: Event, user: Id) {
    e.Mark? && e.read in s.rows && !CaptureInUse(s.rows, e.capture) ==>
      forall id <- s.rows | Uncaptured(s.rows, e.order) == {id} ::
        Worth(s.rows[e.read], user) == Worth(s.rows[id], user)
  }

  lemma ReadsRightIff(s: Ledger, e: Event, s': Ledger, user: Id)
    requires Step(s, e, s')
    ensures Misread(s, e, user) == 0 <==> ReadsRight(s, e, user)
  {
    if e.Mark? {
      var matched := Uncaptured(s.rows, e.order);
      forall id <- s.rows | matched == {id} && !CaptureInUse(s.rows, e.capture) ensures e.outcome == Done(id) {
        assert id in matched && |matched| == 1;
      }
      assert e.outcome.Done? ==> e.outcome.row in matched;
    }
  }

  lemma MarkMovesBalance(s: Ledger, e: Event, s': Ledger, user: Id)
    requires e.Mark? && Valid(s) && Step(s, e, s') && user in s.quotas
    ensures Balance(s', user) == Balance(s, user) + Misread(s, e, user)
  {
    if e.outcome.Done? {
      var id := e.outcome.row;
      assert id in Uncaptured(s.rows, e.order);
      RowSet(s.rows, id, s'.rows[id], user);
      GrantAdded(s.pending, e.request, Grant(s.rows[e.read].user, s.rows[e.read].bytes), user);
    }
  }

  lemma UndoMovesNothing(s: Ledger, request: Id, id: Id, row: Row, user: Id)
    requires request !in s.pending && id in s.rows && row.user == s.rows[id].user
    requires Net(row) == Net(s.rows[id]) - UndoBytes(s.rows[id].bytes)
    ensures Total(Owing(Undo(s, request, s.rows[id]), user)) - Total(Shares(s.rows[id := row], user))
         == Total(Owing(s.pending, user)) - Total(Shares(s.rows, user))
  {
    RowSet(s.rows, id, row, user);
    if s.rows[id].bytes > 0 {
      GrantAdded(s.pending, request, Grant(s.rows[id].user, -s.rows[id].bytes), user);
    }
  }

  /** Only a capture that reads another row than it marks moves the balance. */
  lemma StepMovesBalance(s: Ledger, e: Event, s': Ledger, user: Id)
    requires Valid(s) && Step(s, e, s') && user in s.quotas
    ensures user in s'.quotas && Balance(s', user) == Balance(s, user) + Misread(s, e, user)
  {
    match e
    case Create(request, id, row) =>
      RowSet(s.rows, id, row, user);
      if row.capture.Some? { GrantAdded(s.pending, request, Grant(row.user, row.bytes), user); }
    case Mark(_, _, _, _, _) => MarkMovesBalance(s, e, s', user);
    case Refund(request, id) =>
      if Refundable(s.rows, id) { UndoMovesNothing(s, request, id, s.rows[id].(status := Refunded), user); }
    case Revert(request, id) =>
      if Revertible(s.rows, id) { UndoMovesNothing(s, request, id, s.rows[id].(reverted := true), user); }
    case Apply(request) => GrantApplied(s.pending, request, user);
  }

  /** A user's balance stays throughout a run exactly when each capture granted what it marked. */
  lemma QuotaTracksOrdersIff(states: seq<Ledger>, events: seq<Event>, user: Id)
    requires Run(states, events) && Valid(states[0]) && user in states[0].quotas
    ensures forall i | 0 <= i < |states| :: user in states[i].quotas
    ensures (forall i | 0 <= i < |states| :: Balance(states[i], user) == Balance(states[0], user))
       <==> (forall i | 0 <= i < |events| :: ReadsRight(states[i], events[i], user))
  {
    forall i | 0 <= i < |states| ensures user in states[i].quotas { RunKeepsValid(states, events, i); }
    forall i | 0 <= i < |events|
      ensures Misread(states[i], events[i], user) == 0 <==> ReadsRight(states[i], events[i], user)
    {
      ReadsRightIff(states[i], events[i], states[i + 1], user);
    }
    if forall i | 0 <= i < |events| :: ReadsRight(states[i], events[i], user) {
      forall i | 0 <= i < |states| ensures Balance(states[i], user) == Balance(states[0], user) {
        BalanceStays(states, events, user, i);
      }
    }
    if forall i | 0 <= i < |states| :: Balance(states[i], user) == Balance(states[0], user) {
      forall i | 0 <= i < |events| ensures ReadsRight(states[i], events[i], user) {
        RunKeepsValid(states, events, i);
        StepMovesBalance(states[i], events[i], states[i + 1], user);
      }
    }
  }

  lemma {:induction false} BalanceStays(states: seq<Ledger>, events: seq<Event>, user: Id, i: nat)
    requires Run(states, events) && Valid(states[0]) && user in states[0].quotas && i < |states|
    requires forall j | 0 <= j < i :: Misread(states[j], events[j], user) == 0
    ensures user in states[i].quotas && Balance(states[i], user) == Balance(states[0], user)
  {
    if i > 0 {
      BalanceStays(states, events, user, i - 1);
      RunKeepsValid(states, events, i - 1);
      StepMovesBalance(states[i - 1], events[i - 1], states[i], user);
    }
  }

  /** Two rows share an order: the capture reads one and marks the other, and a user's balance moves. */
  lemma SharedOrderMisgrants() returns (s: Ledger, e: Event, s': Ledger)
    ensures Valid(s) && Step(s, e, s') && 7 in s.quotas && 7 in s'.quotas
    ensures !ReadsRight(s, e, 7) && Balance(s', 7) == Balance(s, 7) - 10
  {
    var waiting := Row(5, 7, 10, None, Created, false, false);
    var taken := Row(5, 8, 10, Some(3), Captured, false, false);
    s := Ledger(map[1 := waiting, 2 := taken], map[7 := 0, 8 := 10], map[]);
    e := Mark(6, 2, 5, 4, Done(1));
    s' := s.(rows := s.rows[1 := waiting.(capture := Some(4), status := Captured)], pending := map[6 := Grant(8, 10)]);
    assert Uncaptured(s.rows, 5) == {1};
    StepMovesBalance(s, e, s', 7);
    ReadsRightIff(s, e, s', 7);
  }

  // ── Distinct orders ────────────────────────────────────────────────────────

  ghost predicate DistinctOrders(rows: Rows) {
    forall i <- rows, j <- rows :: rows[i].order == rows[j].order ==> i == j
  }

  /** Where no two rows share an order, a capture reads the row it marks. */
  lemma DistinctOrdersReadRight(s: Ledger, e: Event, s': Ledger, user: Id)
    requires DistinctOrders(s.rows) && Step(s, e, s')
    ensures ReadsRight(s, e, user)
  {
    if e.Mark? {
      assert forall id <- s.rows | Uncaptured(s.rows, e.order) == {id} :: id in Uncaptured(s.rows, e.order);
    }
  }

  /**
   * With distinct orders and nothing in flight, the quota has grown by what the orders' histories
   * ask, each capture, refund and revert counted once, however often it was requested.
   */
  lemma CapturedOrdersCountOnce(states: seq<Ledger>, events: seq<Event>, user: Id)
    requires Run(states, events) && Valid(states[0]) && user in states[0].quotas
    requires forall i | 0 <= i < |states| :: DistinctOrders(states[i].rows)
    requires states[0].pending == map[] && states[|events|].pending == map[]
    ensures var first, last := states[0], states[|events|];
      && user in last.quotas
      && last.quotas[user] - first.quotas[user] == Total(Shares(last.rows, user)) - Total(Shares(first.rows, user))
  {
    forall i | 0 <= i < |events| ensures Misread(states[i], events[i], user) == 0 {
      DistinctOrdersReadRight(states[i], events[i], states[i + 1], user);
      ReadsRightIff(states[i], events[i], states[i + 1], user);
    }
    BalanceStays(states, events, user, |events|);
    assert Owing(states[0].pending, user) == Owing(states[|events|].pending, user);
  }

  // ── Orders undone twice ────────────────────────────────────────────────────

  /** The bytes of an order that is captured and neither refunded nor reverted. */
  function Active(row: Row, user: Id): int {
    if row.user == user && row.status == Captured && !row.reverted then row.bytes else 0
  }

  function ActiveBytes(rows: Rows, user: Id): map<Id, int> { map id | id in rows :: Active(rows[id], user) }

  ghost predicate UndoneTwice(rows: Rows, user: Id) {
    exists id <- rows :: rows[id].user == user && rows[id].status == Refunded && rows[id].reverted
  }

  ghost predicate PositiveBytes(rows: Rows) { forall id <- rows :: 0 < rows[id].bytes }

  /** The orders' histories ask for the active orders' bytes exactly when none was both reverted and refunded. */
  lemma NetIsActiveIff(s: Ledger, user: Id)
    requires Valid(s) && PositiveBytes(s.rows)
    ensures var rows := s.rows;
      Total(Shares(rows, user)) == Total(ActiveBytes(rows, user)) <==> !UndoneTwice(rows, user)
  {
    var rows := s.rows;
    TotalCompare(Shares(rows, user), ActiveBytes(rows, user));
    assert forall id <- rows ::
      Shares(rows, user)[id] != ActiveBytes(rows, user)[id] <==>
      rows[id].user == user && rows[id].status == Refunded && rows[id].reverted;
  }

  /** That happens exactly when a captured order is refunded after it was reverted. */
  lemma StepUndoesTwiceIff(s: Ledger, e: Event, s': Ledger, user: Id)
    requires Valid(s) && Step(s, e, s') && !UndoneTwice(s.rows, user)
    ensures UndoneTwice(s'.rows, user)
       <==> e.Refund? && Refundable(s.rows, e.id) && s.rows[e.id].reverted && s.rows[e.id].user == user
  {
    if e.Refund? && Refundable(s.rows, e.id) {
      assert s'.rows[e.id].status == Refunded;
      assert forall id <- s.rows | id != e.id :: s'.rows[id] == s.rows[id];
    }
  }

  /** A sandbox order that is reverted stays captured, so a refund takes its bytes again. */
  lemma RevertedThenRefunded(row: Row)
    requires row.bytes > 0 && row.capture.Some? && row.status == Captured && row.sandbox && !row.reverted
    ensures var s0 := Ledger(map[1 := row], map[row.user := row.bytes], map[]);
      var s2 := Ledger(map[1 := row.(reverted := true)], map[row.user := 0], map[]);
      var s4 := Ledger(map[1 := row.(reverted := true, status := Refunded)], map[row.user := -row.bytes], map[]);
      exists s1, s3 :: Run([s0, s1, s2, s3, s4], [Revert(8, 1), Apply(8), Refund(9, 1), Apply(9)])
  {
    var s0 := Ledger(map[1 := row], map[row.user := row.bytes], map[]);
    var s1 := Ledger(map[1 := row.(reverted := true)], map[row.user := row.bytes],
                     map[8 := Grant(row.user, -row.bytes)]);
    var s2 := Ledger(map[1 := row.(reverted := true)], map[row.user := 0], map[]);
    var s3 := Ledger(map[1 := row.(reverted := true, status := Refunded)], map[row.user := 0],
                     map[9 := Grant(row.user, -row.bytes)]);
    var s4 := Ledger(map[1 := row.(reverted := true, status := Refunded)], map[row.user := -row.bytes], map[]);
    assert Step(s0, Revert(8, 1), s1);
    assert Step(s1, Apply(8), s2);
    assert Step(s2, Refund(9, 1), s3);
    assert Step(s3, Apply(9), s4);
    assert Run([s0, s1, s2, s3, s4], [Revert(8, 1), Apply(8), Refund(9, 1), Apply(9)]);
  }
}
