/**
 * Registration groups: placing slots on drives, and holding, releasing, completing,
 * deleting and replacing them (api/db/registration_groups.go). NOW() is `State.now`; a
 * method that fails leaves every table as it found it, as its transaction rolls back.
 */
module Registration {
  import opened Prelude
  import opened Tables
  import opened Drives

  datatype SlotSpec = SlotSpec(sig: Signature, count: int)

  /** Why an insert failed. Constraint stands for a CHECK, UNIQUE or foreign key violation. */
  datatype Outcome = Done | NoCapacity | Constraint

  // ── Placing slots ──────────────────────────────────────────────────────────

  /** One signature per slot to insert, in insertion order. */
  function Expanded(specs: seq<SlotSpec>): seq<Signature> {
    if specs == [] then []
    else Repeated(specs[0].sig, Copies(specs[0])) + Expanded(specs[1..])
  }

  function Repeated(sig: Signature, copies: nat): (sigs: seq<Signature>)
    ensures |sigs| == copies && forall i | 0 <= i < copies :: sigs[i] == sig
  {
    if copies == 0 then [] else [sig] + Repeated(sig, copies - 1)
  }

  function Copies(spec: SlotSpec): nat { if spec.count < 0 then 0 else spec.count }

  lemma ExpandedStep(specs: seq<SlotSpec>, n: nat)
    requires n < |specs|
    ensures |Expanded(specs[n..])| >= Copies(specs[n])
    ensures forall i | 0 <= i < Copies(specs[n]) :: Expanded(specs[n..])[i] == specs[n].sig
    ensures Expanded(specs[n..])[Copies(specs[n])..] == Expanded(specs[n + 1..])
  {
  }

  /** The id and drive one inserted slot received. */
  datatype Placement = Placement(slot: Id, drive: Id)

  function WithSlot(s: State, group: Id, sig: Signature, p: Placement): State {
    s.(slots := s.slots[p.slot := Slot(group, p.drive, sig, s.now, None, None)])
  }

  /** The slot goes under a fresh id on a best-fit drive of its tier, given what is placed already. */
  ghost predicate GoodPlacement(s: State, group: Id, sig: Signature, p: Placement) {
    && p.slot !in s.slots
    && BestFit(TierRooms(s, sig.server, sig.tier), sig.quota, Some(p.drive))
    && 0 < sig.quota && group in s.groups
  }

  ghost predicate InsertsOne(s: State, group: Id, sig: Signature, s': State) {
    exists p: Placement :: GoodPlacement(s, group, sig, p) && s' == WithSlot(s, group, sig, p)
  }

  /** The tables after each insert: `trace[i]` has the first i slots. */
  ghost predicate InsertTrace(trace: seq<State>, group: Id, sigs: seq<Signature>) {
    && 0 < |trace| <= |sigs| + 1
    && forall i | 0 <= i < |trace| - 1 :: InsertsOne(trace[i], group, sigs[i], trace[i + 1])
  }

  /** Why inserting stops at `s` with `n` slots placed. */
  ghost predicate StopsAt(s: State, group: Id, sigs: seq<Signature>, n: nat, r: Outcome) {
    match r
    case Done => n == |sigs|
    case NoCapacity =>
      n < |sigs| && BestFit(TierRooms(s, sigs[n].server, sigs[n].tier), sigs[n].quota, None)
    case Constraint =>
      n < |sigs| && (sigs[n].quota <= 0 || group !in s.groups)
  }

  /** Inserting the slots one after the other leads from `s` to `s'`, where it stops with `r`. */
  ghost predicate Inserts(s: State, group: Id, sigs: seq<Signature>, s': State, r: Outcome) {
    exists trace: seq<State> ::
      && InsertTrace(trace, group, sigs) && trace[0] == s && trace[|trace| - 1] == s'
      && StopsAt(s', group, sigs, |trace| - 1, r)
  }

  /** The SELECT and INSERT of one slot. */
  method InsertSlot(q: Queries, group: Id, sig: Signature) returns (r: Outcome)
    modifies q`slots
    ensures r.Done? ==> InsertsOne(old(q.View()), group, sig, q.View())
    ensures r.Done? ==> 0 < sig.quota && group in q.groups
    ensures !r.Done? ==> q.View() == old(q.View()) && StopsAt(q.View(), group, [sig], 0, r)
    ensures r.NoCapacity? ==> forall d <- q.drives
      | q.drives[d].server == sig.server && q.drives[d].tier == sig.tier
        && q.drives[d].active && sig.server in q.servers && q.servers[sig.server] ::
      Available(q.View(), d) < sig.quota
    ensures r.Constraint? ==> sig.quota <= 0 || group !in q.groups
  {
    var choice := PickBestFit(TierRooms(q.View(), sig.server, sig.tier), sig.quota);
    PlacementIsInService(q.View(), sig.server, sig.tier, sig.quota, choice);
    if choice.None? { return NoCapacity; }
    if sig.quota <= 0 || group !in q.groups { return Constraint; }
    var id := NewId(q.slots.Keys);
    assert GoodPlacement(q.View(), group, sig, Placement(id, choice.value));
    q.slots := q.slots[id := Slot(group, choice.value, sig, q.now, None, None)];
    return Done;
  }

  /** The new row, column by column: its drive is one in service of the slot's tier, the fullest that has the room. */
  lemma InsertedSlot(s: State, group: Id, sig: Signature, s': State) returns (id: Id)
    requires InsertsOne(s, group, sig, s')
    ensures id !in s.slots && id in s'.slots && s' == s.(slots := s.slots[id := s'.slots[id]])
    ensures var d := s'.slots[id].drive;
      && s'.slots[id] == Slot(group, d, sig, s.now, None, None)
      && d in s.drives && s.drives[d].server == sig.server && s.drives[d].tier == sig.tier
      && s.drives[d].active && sig.server in s.servers && s.servers[sig.server] && sig.quota <= Available(s, d)
      && forall e <- s.drives
           | s.drives[e].server == sig.server && s.drives[e].tier == sig.tier && s.drives[e].active
             && sig.quota <= Available(s, e) ::
           Available(s, d) <= Available(s, e)
  {
    var p: Placement :| GoodPlacement(s, group, sig, p) && s' == WithSlot(s, group, sig, p);
    id := p.slot;
    PlacementIsInService(s, sig.server, sig.tier, sig.quota, Some(p.drive));
  }

  lemma DropTwice(sigs: seq<Signature>, first: nat, second: nat)
    requires first + second <= |sigs|
    ensures sigs[first..][second..] == sigs[first + second..]
    ensures forall i | first <= i < first + second :: sigs[i] == sigs[first..][i - first]
  {
  }

  lemma TraceGrows(trace: seq<State>, group: Id, sigs: seq<Signature>, s': State)
    requires InsertTrace(trace, group, sigs) && |trace| <= |sigs|
    requires InsertsOne(trace[|trace| - 1], group, sigs[|trace| - 1], s')
    ensures InsertTrace(trace + [s'], group, sigs)
  {
  }

  /** The inner loop of insertRegistrationSlotsTx: the slots of one spec. */
  method InsertCopies(q: Queries, group: Id, spec: SlotSpec, ghost trace: seq<State>, ghost sigs: seq<Signature>)
      returns (r: Outcome, ghost longer: seq<State>)
    requires InsertTrace(trace, group, sigs) && trace[|trace| - 1] == q.View()
    requires |trace| - 1 + Copies(spec) <= |sigs|
    requires forall i | |trace| - 1 <= i < |trace| - 1 + Copies(spec) :: sigs[i] == spec.sig
    modifies q`slots
    ensures trace <= longer && InsertTrace(longer, group, sigs) && longer[|longer| - 1] == q.View()
    ensures if r.Done? then |longer| == |trace| + Copies(spec)
            else StopsAt(q.View(), group, sigs, |longer| - 1, r)
  {
    longer := trace;
    var i := 0;
    while i < spec.count
      invariant 0 <= i <= Copies(spec) && |longer| == |trace| + i
      invariant trace <= longer && InsertTrace(longer, group, sigs) && longer[|longer| - 1] == q.View()
    {
      r := InsertSlot(q, group, spec.sig);
      if !r.Done? { return; }
      TraceGrows(longer, group, sigs, q.View());
      longer := longer + [q.View()];
      i := i + 1;
    }
    r := Done;
  }

  /** insertRegistrationSlotsTx: runs inside the caller's transaction. */
  method InsertSlots(q: Queries, group: Id, specs: seq<SlotSpec>) returns (r: Outcome)
    modifies q`slots
    ensures Inserts(old(q.View()), group, Expanded(specs), q.View(), r)
  {
    ghost var trace, sigs := [q.View()], Expanded(specs);
    var n := 0;
    while n < |specs|
      invariant 0 <= n <= |specs|
      invariant InsertTrace(trace, group, sigs) && trace[0] == old(q.View()) && trace[|trace| - 1] == q.View()
      invariant sigs[|trace| - 1..] == Expanded(specs[n..])
    {
      ExpandedStep(specs, n);
      DropTwice(sigs, |trace| - 1, Copies(specs[n]));
      r, trace := InsertCopies(q, group, specs[n], trace, sigs);
      if !r.Done? { return; }
      n := n + 1;
    }
    r := Done;
  }

  /** A failed transaction leaves the tables as they were. */
  ghost predicate Commits(s: State, end: State, s': State, r: Outcome) {
    s' == if r.Done? then end else s
  }

  /** link_id is unique. */
  predicate LinkTaken(s: State, link: Id) { exists h <- s.groups :: s.groups[h].link == link }

  /** A group was created with all its slots placed, or nothing was kept; a taken link refuses it outright. */
  ghost predicate CreatesGroup(s: State, g: Group, specs: seq<SlotSpec>, s': State, id: Id, r: Outcome) {
    if LinkTaken(s, g.link) then r.Constraint? && s' == s else
    && id !in s.groups
    && exists end :: Inserts(s.(groups := s.groups[id := g]), id, Expanded(specs), end, r) && Commits(s, end, s', r)
  }

  method CreateRegistrationGroup(q: Queries, link: Id, expiresAt: Option<Time>, specs: seq<SlotSpec>)
      returns (id: Id, r: Outcome)
    modifies q
    ensures CreatesGroup(old(q.View()), Group(link, true, expiresAt), specs, q.View(), id, r)
  {
    var groups, slots := q.groups, q.slots;
    id := NewId(q.groups.Keys);
    if LinkTaken(q.View(), link) { return id, Constraint; }
    q.groups := q.groups[id := Group(link, true, expiresAt)];
    r := InsertSlots(q, id, specs);
    ghost var end := q.View();
    if !r.Done? {
      q.groups, q.slots := groups, slots;
    }
    assert Commits(old(q.View()), end, q.View(), r);
  }

  ghost predicate AddsSlots(s: State, group: Id, specs: seq<SlotSpec>, s': State, r: Outcome) {
    exists end :: Inserts(s, group, Expanded(specs), end, r) && Commits(s, end, s', r)
  }

  method AddRegistrationSlots(q: Queries, group: Id, specs: seq<SlotSpec>) returns (r: Outcome)
    modifies q
    ensures AddsSlots(old(q.View()), group, specs, q.View(), r)
  {
    var slots := q.slots;
    r := InsertSlots(q, group, specs);
    ghost var end := q.View();
    if !r.Done? {
      q.slots := slots;
    }
    assert Commits(old(q.View()), end, q.View(), r);
  }

  // ── Free slots ─────────────────────────────────────────────────────────────

  /** activeReservationExists: the slot has an open hold that has not expired. */
  predicate LiveHeld(s: State, slot: Id) {
    exists h <- s.holds :: s.holds[h].slot == slot && s.holds[h].Live(s.now)
  }

  /** The slot has an open hold, expired or not: what the partial unique index covers. */
  predicate OpenHeld(s: State, slot: Id) {
    exists h <- s.holds :: s.holds[h].slot == slot && s.holds[h].Open()
  }

  predicate OfType(s: State, slot: Id, group: Id, sig: Signature) {
    slot in s.slots && s.slots[slot].group == group && s.slots[slot].sig == sig
  }

  predicate FreeOfType(s: State, slot: Id, group: Id, sig: Signature) {
    OfType(s, slot, group, sig) && s.slots[slot].consumedAt.None? && !LiveHeld(s, slot)
  }

  function FreeSlots(s: State, group: Id, sig: Signature): set<Id> {
    set k | k in s.slots && FreeOfType(s, k, group, sig)
  }

  /** The slots go, and the reservation rows that point at them go with them. */
  function WithoutSlots(s: State, gone: set<Id>): State {
    s.(slots := s.slots - gone, holds := map h | h in s.holds && s.holds[h].slot !in gone :: s.holds[h])
  }

  method DeleteFreeRegistrationSlots(q: Queries, group: Id, sig: Signature) returns (deleted: nat)
    modifies q
    ensures q.View() == WithoutSlots(old(q.View()), FreeSlots(old(q.View()), group, sig))
    ensures deleted == |FreeSlots(old(q.View()), group, sig)|
  {
    var gone := FreeSlots(q.View(), group, sig);
    q.slots := q.slots - gone;
    q.holds := map h | h in q.holds && q.holds[h].slot !in gone :: q.holds[h];
    deleted := |gone|;
  }

  ghost predicate ReplacesType(s: State, group: Id, oldSig: Signature, spec: SlotSpec, s': State, r: Outcome) {
    exists end ::
      && Inserts(WithoutSlots(s, FreeSlots(s, group, oldSig)), group, Expanded([spec]), end, r)
      && Commits(s, end, s', r)
  }

  method ReplaceRegistrationSlotType(q: Queries, group: Id, oldSig: Signature, spec: SlotSpec) returns (r: Outcome)
    modifies q
    ensures ReplacesType(old(q.View()), group, oldSig, spec, q.View(), r)
  {
    var slots, holds := q.slots, q.holds;
    var _ := DeleteFreeRegistrationSlots(q, group, oldSig);
    r := InsertSlots(q, group, [spec]);
    ghost var end := q.View();
    if !r.Done? {
      q.slots, q.holds := slots, holds;
    }
    assert Commits(old(q.View()), end, q.View(), r);
  }

  /**
   * A slot goes exactly when it is of the type, unconsumed, and every hold on it is closed or
   * expired; a reservation row goes exactly when its slot does.
   */
  lemma FreeSlotsGo(s: State, group: Id, sig: Signature)
    ensures var s' := WithoutSlots(s, FreeSlots(s, group, sig));
      && s' == s.(slots := s'.slots, holds := s'.holds)
      && (forall k <- s'.slots :: k in s.slots && s'.slots[k] == s.slots[k])
      && (forall k <- s.slots :: k !in s'.slots <==>
            && s.slots[k].group == group && s.slots[k].sig == sig && s.slots[k].consumedAt.None?
            && forall h <- s.holds | s.holds[h].slot == k ::
                 s.holds[h].completedAt.Some? || s.holds[h].releasedAt.Some? || s.holds[h].expiresAt <= s.now)
      && (forall h <- s'.holds :: h in s.holds && s'.holds[h] == s.holds[h])
      && (forall h <- s.holds :: h !in s'.holds <==> s.holds[h].slot in s.slots && s.holds[h].slot !in s'.slots)
  {
  }

  // ── How many slots an insert adds ──────────────────────────────────────────

  /** How many slots of the signature the specs ask for; a negative count asks for none. */
  function Ordered(specs: seq<SlotSpec>, sig: Signature): nat {
    if specs == [] then 0
    else (if specs[0].sig == sig && 0 < specs[0].count then specs[0].count else 0) + Ordered(specs[1..], sig)
  }

  function Occurrences(sigs: seq<Signature>, sig: Signature): nat {
    if sigs == [] then 0 else (if sigs[0] == sig then 1 else 0) + Occurrences(sigs[1..], sig)
  }

  lemma {:induction false} OccurrencesJoin(a: seq<Signature>, b: seq<Signature>, sig: Signature)
    ensures Occurrences(a + b, sig) == Occurrences(a, sig) + Occurrences(b, sig)
    decreases |a|
  {
    if a == [] {
      assert a + b == b;
    } else {
      assert (a + b)[1..] == a[1..] + b;
      OccurrencesJoin(a[1..], b, sig);
    }
  }

  lemma {:induction false} RepeatedOccurs(sig: Signature, copies: nat, other: Signature)
    ensures Occurrences(Repeated(sig, copies), other) == if sig == other then copies else 0
    decreases copies
  {
    if copies > 0 {
      RepeatedOccurs(sig, copies - 1, other);
      assert Repeated(sig, copies)[1..] == Repeated(sig, copies - 1);
    }
  }

  lemma {:induction false} ExpandedOccurs(specs: seq<SlotSpec>, sig: Signature)
    ensures Occurrences(Expanded(specs), sig) == Ordered(specs, sig)
    decreases |specs|
  {
    if specs != [] {
      ExpandedOccurs(specs[1..], sig);
      RepeatedOccurs(specs[0].sig, Copies(specs[0]), sig);
      OccurrencesJoin(Repeated(specs[0].sig, Copies(specs[0])), Expanded(specs[1..]), sig);
    }
  }

  /** The group's slots of the type, by their columns. */
  ghost function SlotsLike(s: State, group: Id, sig: Signature): set<Id> {
    set k | k in s.slots && s.slots[k].group == group && s.slots[k].sig == sig
  }

  lemma InsertAddsOne(s: State, group: Id, sig: Signature, s': State, other: Signature)
    requires InsertsOne(s, group, sig, s')
    ensures |SlotsLike(s', group, other)| == |SlotsLike(s, group, other)| + if sig == other then 1 else 0
  {
    var id := InsertedSlot(s, group, sig, s');
    assert SlotsLike(s', group, other) == SlotsLike(s, group, other) + if sig == other then {id} else {};
  }

  lemma {:induction false} TraceAdds(trace: seq<State>, group: Id, sigs: seq<Signature>, n: nat, sig: Signature)
    requires InsertTrace(trace, group, sigs) && n < |trace|
    ensures |SlotsLike(trace[n], group, sig)| == |SlotsLike(trace[0], group, sig)| + Occurrences(sigs[..n], sig)
  {
    if n > 0 {
      TraceAdds(trace, group, sigs, n - 1, sig);
      InsertAddsOne(trace[n - 1], group, sigs[n - 1], trace[n], sig);
      assert sigs[..n] == sigs[..n - 1] + [sigs[n - 1]];
      OccurrencesJoin(sigs[..n - 1], [sigs[n - 1]], sig);
      assert [sigs[n - 1]][1..] == [];
    }
  }

  lemma InsertsAdd(s: State, group: Id, sigs: seq<Signature>, s': State, sig: Signature)
    requires Inserts(s, group, sigs, s', Done)
    ensures |SlotsLike(s', group, sig)| == |SlotsLike(s, group, sig)| + Occurrences(sigs, sig)
  {
    var trace :| InsertTrace(trace, group, sigs) && trace[0] == s && trace[|trace| - 1] == s'
      && StopsAt(s', group, sigs, |trace| - 1, Done);
    TraceAdds(trace, group, sigs, |trace| - 1, sig);
    assert sigs[..|sigs|] == sigs;
  }

  /** A new group has of each type as many slots as were asked for; a taken link or a failed insert keeps nothing. */
  lemma CreatedGroupHasSlots(s: State, g: Group, specs: seq<SlotSpec>, s': State, id: Id, r: Outcome, sig: Signature)
    requires CreatesGroup(s, g, specs, s', id, r) && s.ForeignKeys()
    ensures (exists other <- s.groups :: s.groups[other].link == g.link) ==> r.Constraint?
    ensures !r.Done? ==> s' == s
    ensures r.Done? ==>
      id !in s.groups && id in s'.groups && s'.groups[id] == g && |SlotsLike(s', id, sig)| == Ordered(specs, sig)
  {
    if r.Done? {
      var s1 := s.(groups := s.groups[id := g]);
      var end :| Inserts(s1, id, Expanded(specs), end, r) && Commits(s, end, s', r);
      InsertsAdd(s1, id, Expanded(specs), end, sig);
      ExpandedOccurs(specs, sig);
      assert SlotsLike(s1, id, sig) == {};
      InsertsKeepGroups(s1, id, Expanded(specs), end, r);
    }
  }

  lemma {:induction false} TraceKeepsGroups(trace: seq<State>, group: Id, sigs: seq<Signature>, n: nat)
    requires InsertTrace(trace, group, sigs) && n < |trace|
    ensures trace[n].groups == trace[0].groups
  {
    if n > 0 {
      TraceKeepsGroups(trace, group, sigs, n - 1);
      var id := InsertedSlot(trace[n - 1], group, sigs[n - 1], trace[n]);
    }
  }

  lemma InsertsKeepGroups(s: State, group: Id, sigs: seq<Signature>, s': State, r: Outcome)
    requires Inserts(s, group, sigs, s', r)
    ensures s'.groups == s.groups
  {
    var trace :| InsertTrace(trace, group, sigs) && trace[0] == s && trace[|trace| - 1] == s';
    TraceKeepsGroups(trace, group, sigs, |trace| - 1);
  }

  /** Adding slots raises the number of each type by what was asked for, or changes nothing. */
  lemma AddedSlotsCount(s: State, group: Id, specs: seq<SlotSpec>, s': State, r: Outcome, sig: Signature)
    requires AddsSlots(s, group, specs, s', r)
    ensures !r.Done? ==> s' == s
    ensures r.Done? ==> |SlotsLike(s', group, sig)| == |SlotsLike(s, group, sig)| + Ordered(specs, sig)
  {
    if r.Done? {
      InsertsAdd(s, group, Expanded(specs), s', sig);
      ExpandedOccurs(specs, sig);
    }
  }

  /** Replacing a type takes its free slots away and adds what was asked for, or changes nothing. */
  lemma ReplacedTypeCounts(
    s: State, group: Id, oldSig: Signature, spec: SlotSpec, s': State, r: Outcome, sig: Signature)
    requires ReplacesType(s, group, oldSig, spec, s', r)
    ensures !r.Done? ==> s' == s
    ensures r.Done? ==>
      var gone := if sig == oldSig then TypeOf(s, group, oldSig).available else 0;
      |SlotsLike(s', group, sig)| == |SlotsLike(s, group, sig)| - gone + Ordered([spec], sig)
  {
    if r.Done? {
      var free := FreeSlots(s, group, oldSig);
      var s1 := WithoutSlots(s, free);
      InsertsAdd(s1, group, Expanded([spec]), s', sig);
      ExpandedOccurs([spec], sig);
      AvailableCountsFreeSlots(s, group, oldSig);
      assert SlotsLike(s1, group, sig) == SlotsLike(s, group, sig) - free;
      assert if sig == oldSig then free <= SlotsLike(s, group, sig) else free !! SlotsLike(s, group, sig);
    }
  }

  // ── Slot type listing ──────────────────────────────────────────────────────

  /** One row of ListRegistrationSlotTypes. */
  datatype SlotType = SlotType(total: int, consumed: int, reserved: int, available: int)

  function SlotsOfType(s: State, group: Id, sig: Signature): set<Id> {
    set k | k in s.slots && OfType(s, k, group, sig)
  }

  function ConsumedSlots(s: State, group: Id, sig: Signature): set<Id> {
    set k | k in s.slots && OfType(s, k, group, sig) && s.slots[k].consumedAt.Some?
  }

  function HeldSlots(s: State, group: Id, sig: Signature): set<Id> {
    set k | k in s.slots && OfType(s, k, group, sig) && s.slots[k].consumedAt.None? && LiveHeld(s, k)
  }

  function TypeOf(s: State, group: Id, sig: Signature): SlotType {
    var total, consumed, reserved :=
      |SlotsOfType(s, group, sig)|, |ConsumedSlots(s, group, sig)|, |HeldSlots(s, group, sig)|;
    SlotType(total, consumed, reserved, total - consumed - reserved)
  }

  /** Available counts exactly the free slots, so it is never negative. */
  lemma AvailableCountsFreeSlots(s: State, group: Id, sig: Signature)
    ensures TypeOf(s, group, sig).available == |FreeSlots(s, group, sig)|
  {
    var consumed, reserved, free :=
      ConsumedSlots(s, group, sig), HeldSlots(s, group, sig), FreeSlots(s, group, sig);
    assert SlotsOfType(s, group, sig) == consumed + reserved + free;
    assert consumed !! reserved && (consumed + reserved) !! free;
  }

  /** An open, unexpired hold stands on the slot, by its columns. */
  ghost predicate HeldNow(s: State, slot: Id) {
    exists h <- s.holds ::
      && s.holds[h].slot == slot && s.holds[h].completedAt.None? && s.holds[h].releasedAt.None?
      && s.now < s.holds[h].expiresAt
  }

  /** The row's numbers are those of the slots of the type, the consumed ones, and the others under a live hold. */
  lemma ListingCounts(s: State, group: Id, sig: Signature)
    ensures var row, slots := TypeOf(s, group, sig), SlotsLike(s, group, sig);
      && row.total == |slots|
      && row.consumed == |set k | k in slots && s.slots[k].consumedAt.Some?|
      && row.reserved == |set k | k in slots && s.slots[k].consumedAt.None? && HeldNow(s, k)|
  {
    var slots := SlotsLike(s, group, sig);
    assert SlotsOfType(s, group, sig) == slots;
    assert ConsumedSlots(s, group, sig) == (set k | k in slots && s.slots[k].consumedAt.Some?);
    assert HeldSlots(s, group, sig) == (set k | k in slots && s.slots[k].consumedAt.None? && HeldNow(s, k));
  }

  // ── Holds ──────────────────────────────────────────────────────────────────

  /** Every expired open hold is released now. */
  function Swept(s: State): State {
    s.(holds := map h | h in s.holds ::
      if s.holds[h].expiresAt <= s.now && s.holds[h].Open() then s.holds[h].(releasedAt := Some(s.now))
      else s.holds[h])
  }

  method ReleaseExpiredSlotReservations(q: Queries) returns (released: nat)
    modifies q`holds
    ensures q.View() == Swept(old(q.View()))
    ensures released == |set h | h in old(q.holds) && old(q.holds)[h].Open() && !old(q.holds)[h].Live(q.now)|
  {
    released := |set h | h in q.holds && q.holds[h].Open() && !q.holds[h].Live(q.now)|;
    q.holds := map h | h in q.holds ::
      if q.holds[h].expiresAt <= q.now && q.holds[h].Open() then q.holds[h].(releasedAt := Some(q.now))
      else q.holds[h];
  }

  /** The sweep, column by column: an open hold that has expired is released now, any other row stays. */
  lemma SweepReleasesExpired(s: State)
    ensures Swept(s) == s.(holds := Swept(s).holds) && Swept(s).holds.Keys == s.holds.Keys
    ensures forall h <- s.holds ::
      var hold := s.holds[h];
      Swept(s).holds[h] ==
        if hold.completedAt.None? && hold.releasedAt.None? && hold.expiresAt <= s.now
        then Hold(hold.slot, hold.token, hold.expiresAt, None, Some(s.now)) else hold
  {
  }

  datatype ReserveResult = Held(hold: Id, slot: Id) | SlotNotFound | NoFreeSlot | TokenTaken

  /** Unconsumed and without an open hold: what ReserveRegistrationSlot looks for. */
  predicate Claimable(s: State, slot: Id, group: Id, sig: Signature) {
    OfType(s, slot, group, sig) && s.slots[slot].consumedAt.None? && !OpenHeld(s, slot)
  }

  ghost predicate Reserves(s: State, slotId: Id, token: Id, expiresAt: Time, s': State, r: ReserveResult) {
    var s1 := Swept(s);
    match r
    case SlotNotFound => slotId !in s.slots && s' == s
    case NoFreeSlot =>
      && slotId in s.slots && s' == s
      && forall k <- s.slots :: !Claimable(s1, k, s.slots[slotId].group, s.slots[slotId].sig)
    case TokenTaken =>
      && slotId in s.slots && s' == s
      && (exists k <- s.slots :: Claimable(s1, k, s.slots[slotId].group, s.slots[slotId].sig))
      && exists h <- s.holds :: s.holds[h].token == token
    case Held(hold, slot) =>
      && slotId in s.slots && hold !in s.holds
      && (forall h <- s.holds :: s.holds[h].token != token)
      && Claimable(s1, slot, s.slots[slotId].group, s.slots[slotId].sig)
      && (forall k <- s.slots :: Claimable(s1, k, s.slots[slotId].group, s.slots[slotId].sig)
           ==> s.slots[slot].createdAt <= s.slots[k].createdAt)
      && s' == s1.(holds := s1.holds[hold := Hold(slot, token, expiresAt, None, None)])
  }

  /** The oldest claimable slot of the type, if any. */
  method OldestClaimable(s: State, group: Id, sig: Signature) returns (slot: Option<Id>)
    ensures slot.None? ==> forall k <- s.slots :: !Claimable(s, k, group, sig)
    ensures slot.Some? ==> Claimable(s, slot.value, group, sig)
    ensures slot.Some? ==> forall k <- s.slots ::
      Claimable(s, k, group, sig) ==> s.slots[slot.value].createdAt <= s.slots[k].createdAt
  {
    var ages := map k | k in s.slots && Claimable(s, k, group, sig) :: s.slots[k].createdAt;
    assert forall k <- s.slots :: Claimable(s, k, group, sig) ==> k in ages;
    if ages == map[] { return None; }
    var oldest := Sums.Smallest(ages);
    return Some(oldest);
  }

  method ReserveRegistrationSlot(q: Queries, slotId: Id, token: Id, expiresAt: Time) returns (r: ReserveResult)
    modifies q`holds
    ensures Reserves(old(q.View()), slotId, token, expiresAt, q.View(), r)
  {
    var before := q.holds;
    ghost var s := q.View();
    var _ := ReleaseExpiredSlotReservations(q);
    if slotId !in q.slots {
      q.holds := before;
      return SlotNotFound;
    }
    var slot := OldestClaimable(q.View(), q.slots[slotId].group, q.slots[slotId].sig);
    if slot.None? {
      q.holds := before;
      return NoFreeSlot;
    }
    if h :| h in before && before[h].token == token {
      q.holds := before;
      assert Claimable(Swept(s), slot.value, s.slots[slotId].group, s.slots[slotId].sig);
      return TokenTaken;
    }
    var hold := NewId(q.holds.Keys);
    q.holds := q.holds[hold := Hold(slot.value, token, expiresAt, None, None)];
    return Held(hold, slot.value);
  }

  /**
   * The listing and the reservation agree although they test different things: the
   * listing ignores expired holds, the reservation ignores none but sweeps first.
   */
  lemma NoFreeSlotIffNoneListed(s: State, slotId: Id, token: Id, expiresAt: Time, s': State, r: ReserveResult)
    requires slotId in s.slots && Reserves(s, slotId, token, expiresAt, s', r)
    ensures r.NoFreeSlot? <==> TypeOf(s, s.slots[slotId].group, s.slots[slotId].sig).available == 0
  {
    var group, sig := s.slots[slotId].group, s.slots[slotId].sig;
    var free := FreeSlots(s, group, sig);
    AvailableCountsFreeSlots(s, group, sig);
    SweepMakesFreeClaimable(s, group, sig);
    if free != {} {
      var k :| k in free;
      assert Claimable(Swept(s), k, group, sig);
    }
    if r.Held? {
      assert r.slot in free;
    } else if r.TokenTaken? {
      // A taken token is noticed only after a claimable slot was found.
      var k :| k in s.slots && Claimable(Swept(s), k, group, sig);
      assert k in free;
    }
  }

  lemma SweepMakesFreeClaimable(s: State, group: Id, sig: Signature)
    ensures forall k <- s.slots :: Claimable(Swept(s), k, group, sig) <==> FreeOfType(s, k, group, sig)
  {
    var s1 := Swept(s);
    forall k <- s.slots
      ensures OpenHeld(s1, k) <==> LiveHeld(s, k)
    {
      if OpenHeld(s1, k) {
        var h :| h in s1.holds && s1.holds[h].slot == k && s1.holds[h].Open();
        assert s.holds[h].Live(s.now);
      }
      if LiveHeld(s, k) {
        var h :| h in s.holds && s.holds[h].slot == k && s.holds[h].Live(s.now);
        assert s1.holds[h] == s.holds[h];
      }
    }
  }

  /** A reservation succeeds exactly with a new token while some unconsumed slot of the type is unheld. */
  lemma ReserveSucceedsIff(s: State, slotId: Id, token: Id, expiresAt: Time, s': State, r: ReserveResult)
    requires Reserves(s, slotId, token, expiresAt, s', r)
    ensures r.Held? <==>
      && slotId in s.slots && (forall h <- s.holds :: s.holds[h].token != token)
      && exists k <- s.slots ::
           && s.slots[k].group == s.slots[slotId].group && s.slots[k].sig == s.slots[slotId].sig
           && s.slots[k].consumedAt.None? && !HeldNow(s, k)
    ensures r.SlotNotFound? <==> slotId !in s.slots
    ensures !r.Held? ==> s' == s
  {
    if slotId in s.slots {
      var group, sig := s.slots[slotId].group, s.slots[slotId].sig;
      SweepMakesFreeClaimable(s, group, sig);
      forall k <- s.slots
        ensures Claimable(Swept(s), k, group, sig) <==>
          s.slots[k].group == group && s.slots[k].sig == sig && s.slots[k].consumedAt.None? && !HeldNow(s, k)
      {
      }
    }
  }

  /** Its effect: the oldest such slot is held under the token until the expiry, after a sweep of the rest. */
  lemma ReserveHoldsOldest(s: State, slotId: Id, token: Id, expiresAt: Time, s': State, r: ReserveResult)
    requires Reserves(s, slotId, token, expiresAt, s', r) && r.Held?
    ensures r.slot in s.slots && slotId in s.slots && r.hold !in s.holds
    ensures s.slots[r.slot].group == s.slots[slotId].group && s.slots[r.slot].sig == s.slots[slotId].sig
    ensures s.slots[r.slot].consumedAt.None? && !HeldNow(s, r.slot)
    ensures forall k <- s.slots
      | s.slots[k].group == s.slots[slotId].group && s.slots[k].sig == s.slots[slotId].sig
        && s.slots[k].consumedAt.None? && !HeldNow(s, k) ::
      s.slots[r.slot].createdAt <= s.slots[k].createdAt
    ensures s' == s.(holds := Swept(s).holds[r.hold := Hold(r.slot, token, expiresAt, None, None)])
  {
    var group, sig := s.slots[slotId].group, s.slots[slotId].sig;
    SweepMakesFreeClaimable(s, group, sig);
    forall k <- s.slots
      ensures Claimable(Swept(s), k, group, sig) <==>
        s.slots[k].group == group && s.slots[k].sig == sig && s.slots[k].consumedAt.None? && !HeldNow(s, k)
    {
    }
  }

  function Released(s: State, token: Id): State {
    s.(holds := map h | h in s.holds ::
      if s.holds[h].token == token && s.holds[h].Open() then s.holds[h].(releasedAt := Some(s.now))
      else s.holds[h])
  }

  /** Afterwards no hold under the token is open; holds under other tokens, and closed ones, are as they were. */
  lemma ReleaseClosesToken(s: State, token: Id)
    ensures var s' := Released(s, token);
      && s' == s.(holds := s'.holds) && s'.holds.Keys == s.holds.Keys
      && forall h <- s.holds ::
           if s.holds[h].token == token && s.holds[h].completedAt.None? && s.holds[h].releasedAt.None?
           then s'.holds[h] == s.holds[h].(releasedAt := Some(s.now))
           else s'.holds[h] == s.holds[h]
  {
  }

  /** So an unconsumed slot that only this token held can be reserved again at once, under a new token. */
  lemma ReleasedSlotCanBeReserved(s: State, token: Id, slot: Id, next: Id, expiresAt: Time, s': State, r: ReserveResult)
    requires slot in s.slots && s.slots[slot].consumedAt.None?
    requires forall h <- s.holds | s.holds[h].slot == slot && s.holds[h].token != token ::
      s.holds[h].completedAt.Some? || s.holds[h].releasedAt.Some? || s.holds[h].expiresAt <= s.now
    requires forall h <- s.holds :: s.holds[h].token != next
    requires Reserves(Released(s, token), slot, next, expiresAt, s', r)
    ensures r.Held?
  {
    var s1 := Released(s, token);
    ReleaseClosesToken(s, token);
    assert !HeldNow(s1, slot);
    ReserveSucceedsIff(s1, slot, next, expiresAt, s', r);
  }

  method ReleaseSlotReservation(q: Queries, token: Id)
    modifies q`holds
    ensures q.View() == Released(old(q.View()), token)
    ensures forall h <- q.holds | q.holds[h].token == token ::
      q.holds[h].completedAt.Some? || q.holds[h].releasedAt.Some?
  {
    q.holds := map h | h in q.holds ::
      if q.holds[h].token == token && q.holds[h].Open() then q.holds[h].(releasedAt := Some(q.now))
      else q.holds[h];
  }

  datatype CompleteResult = Completed | NotActive | AlreadyConsumed

  function CompletedState(s: State, hold: Id, slot: Id, user: Id): State
    requires hold in s.holds && slot in s.slots
  {
    s.(holds := s.holds[hold := s.holds[hold].(completedAt := Some(s.now))],
       slots := s.slots[slot := s.slots[slot].(consumedAt := Some(s.now), consumedBy := Some(user))])
  }

  ghost predicate Completes(s: State, hold: Id, slot: Id, user: Id, s': State, r: CompleteResult) {
    var active := hold in s.holds && s.holds[hold].Open();
    var unconsumed := slot in s.slots && s.slots[slot].consumedAt.None?;
    match r
    case NotActive => !active && s' == s
    case AlreadyConsumed => active && !unconsumed && s' == s
    case Completed => active && unconsumed && s' == CompletedState(s, hold, slot, user)
  }

  method CompleteSlotReservation(q: Queries, hold: Id, slot: Id, user: Id) returns (r: CompleteResult)
    modifies q`holds, q`slots
    ensures Completes(old(q.View()), hold, slot, user, q.View(), r)
  {
    var before := q.holds;
    if hold !in q.holds || !q.holds[hold].Open() { return NotActive; }
    q.holds := q.holds[hold := q.holds[hold].(completedAt := Some(q.now))];
    if slot !in q.slots || q.slots[slot].consumedAt.Some? {
      q.holds := before;
      return AlreadyConsumed;
    }
    q.slots := q.slots[slot := q.slots[slot].(consumedAt := Some(q.now), consumedBy := Some(user))];
    return Completed;
  }

  /** Exactly an open hold on a slot that nobody consumed completes: both rows get the time, the slot its user. */
  lemma CompletionIsExact(s: State, hold: Id, slot: Id, user: Id, s': State, r: CompleteResult)
    requires Completes(s, hold, slot, user, s', r)
    ensures r.Completed? <==>
      && hold in s.holds && s.holds[hold].completedAt.None? && s.holds[hold].releasedAt.None?
      && slot in s.slots && s.slots[slot].consumedAt.None?
    ensures r.NotActive? <==>
      hold !in s.holds || s.holds[hold].completedAt.Some? || s.holds[hold].releasedAt.Some?
    ensures !r.Completed? ==> s' == s
    ensures r.Completed? ==>
      && s' == s.(holds := s.holds[hold := s'.holds[hold]], slots := s.slots[slot := s'.slots[slot]])
      && s'.holds[hold].completedAt == Some(s.now) && s'.holds[hold].(completedAt := None) == s.holds[hold]
      && s'.slots[slot].consumedAt == Some(s.now) && s'.slots[slot].consumedBy == Some(user)
      && s'.slots[slot].(consumedAt := None, consumedBy := s.slots[slot].consumedBy) == s.slots[slot]
  {
  }

  // ── Groups ─────────────────────────────────────────────────────────────────

  /** SetRegistrationGroupActive and the expiry part of UpdateRegistrationGroup. */
  function WithGroup(s: State, group: Id, g: Group): State {
    if group in s.groups then s.(groups := s.groups[group := g]) else s
  }

  method SetRegistrationGroupActive(q: Queries, group: Id, active: bool) returns (found: bool)
    modifies q`groups
    ensures found <==> group in old(q.groups)
    ensures found ==> q.View() == WithGroup(old(q.View()), group, old(q.groups)[group].(active := active))
    ensures found ==> group in q.groups && q.groups[group] == old(q.groups)[group].(active := active)
    ensures !found ==> q.View() == old(q.View())
  {
    found := group in q.groups;
    if found { q.groups := q.groups[group := q.groups[group].(active := active)]; }
  }

  method UpdateRegistrationGroup(q: Queries, group: Id, expiresAt: Option<Time>) returns (found: bool)
    modifies q`groups
    ensures found <==> group in old(q.groups)
    ensures found ==> q.View() == WithGroup(old(q.View()), group, old(q.groups)[group].(expiresAt := expiresAt))
    ensures found ==> group in q.groups && q.groups[group] == old(q.groups)[group].(expiresAt := expiresAt)
    ensures !found ==> q.View() == old(q.View())
  {
    found := group in q.groups;
    if found { q.groups := q.groups[group := q.groups[group].(expiresAt := expiresAt)]; }
  }

  function SlotsOfGroup(s: State, group: Id): set<Id> { set k | k in s.slots && s.slots[k].group == group }

  /** The group goes, its slots go with it, and their reservations with them. */
  function WithoutGroup(s: State, group: Id): State {
    var s1 := WithoutSlots(s, SlotsOfGroup(s, group));
    s1.(groups := s1.groups - {group})
  }

  /** The group's row goes, with exactly its slots and the reservations on them. */
  lemma DeletedGroupTakesSlots(s: State, group: Id)
    ensures var s' := WithoutGroup(s, group);
      && s' == s.(groups := s.groups - {group}, slots := s'.slots, holds := s'.holds)
      && (forall k <- s.slots :: k in s'.slots <==> s.slots[k].group != group)
      && (forall k <- s'.slots :: k in s.slots && s'.slots[k] == s.slots[k])
      && (forall h <- s'.holds :: h in s.holds && s'.holds[h] == s.holds[h])
      && (forall h <- s.holds :: h in s'.holds <==>
            !(s.holds[h].slot in s.slots && s.slots[s.holds[h].slot].group == group))
  {
  }

  method DeleteRegistrationGroup(q: Queries, group: Id) returns (found: bool)
    modifies q
    ensures found <==> group in old(q.groups)
    ensures q.View() == WithoutGroup(old(q.View()), group)
  {
    found := group in q.groups;
    var gone := SlotsOfGroup(q.View(), group);
    q.groups := q.groups - {group};
    q.slots := q.slots - gone;
    q.holds := map h | h in q.holds && q.holds[h].slot !in gone :: q.holds[h];
  }
}
