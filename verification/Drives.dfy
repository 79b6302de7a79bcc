/**
 * Drive capacity: what user allocations and registration slots have claimed of each
 * drive, and the queries that look for a drive with room (api/db/drives.go).
 */
module Drives {
  import opened Prelude
  import opened Sums
  import opened Tables

  predicate GroupReserves(g: Group, now: Time) {
    g.active && (g.expiresAt.None? || g.expiresAt.value > now)
  }

  /** The slot's quota is set aside: unconsumed, in an active, unexpired group. */
  predicate Reserving(s: State, slot: Slot) {
    && slot.consumedAt.None?
    && slot.group in s.groups
    && GroupReserves(s.groups[slot.group], s.now)
  }

  function ReservedRows(s: State, drive: Id): map<Id, int> {
    map id | id in s.slots && s.slots[id].drive == drive && Reserving(s, s.slots[id])
      :: s.slots[id].sig.quota
  }

  function AllocatedRows(s: State, drive: Id): map<Id, int> {
    map user | user in s.allocations && drive in s.allocations[user]
      :: s.allocations[user][drive].quota
  }

  function Reserved(s: State, drive: Id): int { Total(ReservedRows(s, drive)) }

  function Allocated(s: State, drive: Id): int { Total(AllocatedRows(s, drive)) }

  /** GetDriveAvailableBytes: zero for an unknown drive. */
  function Available(s: State, drive: Id): int {
    if drive in s.drives then s.drives[drive].capacity - Allocated(s, drive) - Reserved(s, drive)
    else 0
  }

  predicate Usable(s: State, drive: Id) {
    && drive in s.drives && s.drives[drive].active
    && s.drives[drive].server in s.servers && s.servers[s.drives[drive].server]
  }

  /** The usable drives and the room on each. */
  function Rooms(s: State): map<Id, int> {
    map d | d in s.drives && Usable(s, d) :: Available(s, d)
  }

  /** The usable drives of one tier of one server and the room on each. */
  function TierRooms(s: State, server: Id, tier: Tier): map<Id, int> {
    map d | d in s.drives && Usable(s, d) && s.drives[d].server == server && s.drives[d].tier == tier
      :: Available(s, d)
  }

  /** The choice is a best fit: the least room that still holds the quota, or nothing fits. */
  ghost predicate BestFit(rooms: map<Id, int>, quota: int, choice: Option<Id>) {
    match choice
    case None => forall d <- rooms :: rooms[d] < quota
    case Some(best) =>
      && best in rooms && quota <= rooms[best]
      && forall d <- rooms :: quota <= rooms[d] ==> rooms[best] <= rooms[d]
  }

  method PickBestFit(rooms: map<Id, int>, quota: int) returns (choice: Option<Id>)
    ensures BestFit(rooms, quota, choice)
  {
    var fitting := map d | d in rooms && quota <= rooms[d] :: rooms[d];
    if fitting == map[] {
      assert forall d <- rooms :: quota <= rooms[d] ==> d in fitting;
      return None;
    }
    var best := Smallest(fitting);
    assert forall d <- rooms :: quota <= rooms[d] ==> d in fitting;
    return Some(best);
  }

  /** SelectDriveForQuota over the current tables; None is ErrNoCapacity. */
  method SelectDriveForQuota(q: Queries, quota: int) returns (choice: Option<Id>)
    ensures BestFit(Rooms(q.View()), quota, choice)
    ensures choice.Some? ==>
      var d := choice.value;
      && d in q.drives && q.drives[d].active && q.drives[d].server in q.servers && q.servers[q.drives[d].server]
      && quota <= Available(q.View(), d)
    ensures forall d <- q.drives
      | q.drives[d].active && q.drives[d].server in q.servers && q.servers[q.drives[d].server]
        && quota <= Available(q.View(), d) ::
      choice.Some? && Available(q.View(), choice.value) <= Available(q.View(), d)
  {
    choice := PickBestFit(Rooms(q.View()), quota);
    SelectionIsInService(q.View(), quota, choice);
  }

  /** The chosen drive and its server are in service and it has the room; nothing in service that has it fits better. */
  lemma SelectionIsInService(s: State, quota: int, choice: Option<Id>)
    requires BestFit(Rooms(s), quota, choice)
    ensures choice.Some? ==>
      var d := choice.value;
      && d in s.drives && s.drives[d].active && s.drives[d].server in s.servers && s.servers[s.drives[d].server]
      && quota <= Available(s, d)
    ensures forall d <- s.drives
      | s.drives[d].active && s.drives[d].server in s.servers && s.servers[s.drives[d].server]
        && quota <= Available(s, d) ::
      choice.Some? && Available(s, choice.value) <= Available(s, d)
  {
    forall d <- s.drives | s.drives[d].active && s.drives[d].server in s.servers && s.servers[s.drives[d].server]
      ensures d in Rooms(s) && Rooms(s)[d] == Available(s, d)
    {
    }
  }

  /** The same for a slot, among the drives of its tier on its server. */
  lemma PlacementIsInService(s: State, server: Id, tier: Tier, quota: int, choice: Option<Id>)
    requires BestFit(TierRooms(s, server, tier), quota, choice)
    ensures choice.Some? ==>
      var d := choice.value;
      && d in s.drives && s.drives[d].server == server && s.drives[d].tier == tier
      && s.drives[d].active && server in s.servers && s.servers[server] && quota <= Available(s, d)
    ensures forall d <- s.drives
      | s.drives[d].server == server && s.drives[d].tier == tier
        && s.drives[d].active && server in s.servers && s.servers[server] && quota <= Available(s, d) ::
      choice.Some? && Available(s, choice.value) <= Available(s, d)
  {
    forall d <- s.drives
      | s.drives[d].server == server && s.drives[d].tier == tier
        && s.drives[d].active && server in s.servers && s.servers[server]
      ensures d in TierRooms(s, server, tier) && TierRooms(s, server, tier)[d] == Available(s, d)
    {
    }
  }

  /**
   * The room on a drive is its capacity, less what users have been given there, less what the
   * unconsumed slots of active, unexpired groups keep back.
   */
  lemma RoomIsUnclaimed(s: State, d: Id) returns (given: map<Id, int>, kept: map<Id, int>)
    requires d in s.drives
    ensures Available(s, d) == s.drives[d].capacity - Total(given) - Total(kept)
    ensures forall u: Id :: u in given <==> u in s.allocations && d in s.allocations[u]
    ensures forall u <- given :: given[u] == s.allocations[u][d].quota
    ensures forall k: Id :: k in kept <==>
      && k in s.slots && s.slots[k].drive == d && s.slots[k].consumedAt.None?
      && s.slots[k].group in s.groups && s.groups[s.slots[k].group].active
      && (s.groups[s.slots[k].group].expiresAt.Some? ==> s.now < s.groups[s.slots[k].group].expiresAt.value)
    ensures forall k <- kept :: kept[k] == s.slots[k].sig.quota
  {
    given, kept := AllocatedRows(s, d), ReservedRows(s, d);
  }

  /** COALESCE(MAX(GREATEST(room, 0)), 0). */
  function Most(rooms: map<Id, int>): (most: int)
    ensures 0 <= most && forall d <- rooms :: rooms[d] <= most
    ensures most == 0 || exists d <- rooms :: rooms[d] == most
  {
    if rooms == map[] then 0
    else
      var d := Least(rooms.Keys);
      var rest := Most(rooms - {d});
      assert forall e <- rooms :: e == d || e in rooms - {d};
      assert forall e <- rooms - {d} :: e in rooms && rooms[e] == (rooms - {d})[e];
      if rooms[d] > rest then rooms[d] else rest
  }

  /** GetMaxAvailableQuota. */
  function MaxAvailableQuota(s: State): int { Most(Rooms(s)) }

  /** One row of GetServerTierAvailability; None when the tier has no usable drive. */
  function ServerTierAvailability(s: State, server: Id, tier: Tier): Option<int> {
    var rooms := TierRooms(s, server, tier);
    if rooms == map[] then None else Some(Most(rooms))
  }

  /**
   * The advertised maximum is exact: a positive quota finds a drive exactly when it does not
   * exceed the maximum. (A quota of zero can still fail when every drive is overdrawn,
   * because the maximum is floored at zero.)
   */
  lemma AdvertisedMaximumIsExact(s: State, quota: int, choice: Option<Id>)
    requires BestFit(Rooms(s), quota, choice) && 0 < quota
    ensures choice.Some? <==> quota <= MaxAvailableQuota(s)
  {
  }

  /** A slot of positive quota is placed exactly when its tier is listed with at least that much. */
  lemma TierAvailabilityIsExact(s: State, server: Id, tier: Tier, quota: int, choice: Option<Id>)
    requires BestFit(TierRooms(s, server, tier), quota, choice) && 0 < quota
    ensures choice.Some? <==> (ServerTierAvailability(s, server, tier).Some? &&
                               quota <= ServerTierAvailability(s, server, tier).value)
  {
  }

  /** A tier is listed exactly when it has a drive in service. */
  lemma ListedIffInService(s: State, server: Id, tier: Tier)
    ensures ServerTierAvailability(s, server, tier).Some? <==>
      server in s.servers && s.servers[server]
      && exists d <- s.drives :: s.drives[d].server == server && s.drives[d].tier == tier && s.drives[d].active
  {
    var rooms := TierRooms(s, server, tier);
    if rooms != map[] {
      var d :| d in rooms;
      assert d in s.drives && s.drives[d].active;
    }
    forall d <- s.drives
      | server in s.servers && s.servers[server]
        && s.drives[d].server == server && s.drives[d].tier == tier && s.drives[d].active
      ensures d in rooms
    {
    }
  }

  /** Without positivity the maximum misleads: an overdrawn drive takes not even zero bytes. */
  lemma AdvertisedMaximumIsFloored()
    ensures var rooms: map<Id, int> := map[0 := -1]; BestFit(rooms, 0, None) && 0 <= Most(rooms)
  {
  }
}
