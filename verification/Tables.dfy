/**
 * The tables behind storage allocation and group registration, and the object whose
 * methods read and write them. Each table is a field; `View` is one consistent reading
 * of all of them, which is what a transaction sees.
 */
module Tables {
  import opened Prelude

  datatype Tier = Nvme | Hdd
  datatype AccountStatus = Base | Premium

  datatype Drive = Drive(server: Id, tier: Tier, capacity: int, active: bool)

  /** One user_drive_allocations row; the user and the drive are its key. */
  datatype Allocation = Allocation(quota: int, primary: bool, allocatedAt: Time)

  /** `link` is the group's public link id. */
  datatype Group = Group(link: Id, active: bool, expiresAt: Option<Time>)

  /** The configuration slots are grouped by: identical slots share a signature. */
  datatype Signature = Signature(
    server: Id, tier: Tier, quota: int, status: AccountStatus, premiumExpiresAt: Option<Time>)

  datatype Slot = Slot(
    group: Id, drive: Id, sig: Signature, createdAt: Time, consumedAt: Option<Time>, consumedBy: Option<Id>)

  /** A reservation row: a hold on one slot, identified to its holder by a token. */
  datatype Hold = Hold(
    slot: Id, token: Id, expiresAt: Time, completedAt: Option<Time>, releasedAt: Option<Time>)
  {
    predicate Open() { completedAt.None? && releasedAt.None? }

    predicate Live(now: Time) { Open() && expiresAt > now }
  }

  datatype State = State(
    now: Time,
    servers: map<Id, bool>,
    drives: map<Id, Drive>,
    users: map<Id, int>,
    allocations: map<Id, map<Id, Allocation>>,
    groups: map<Id, Group>,
    slots: map<Id, Slot>,
    holds: map<Id, Hold>)
  {
    /** The allocation rows of one user, by drive. */
    function RowsOf(user: Id): map<Id, Allocation> {
      if user in allocations then allocations[user] else map[]
    }

    /** The references between tables that the database enforces. */
    ghost predicate ForeignKeys() {
      && (forall d <- drives :: drives[d].server in servers)
      && (forall u: Id, d: Id {:trigger d in RowsOf(u)} | d in RowsOf(u) :: u in users && d in drives)
      && (forall k <- slots :: slots[k].group in groups && slots[k].drive in drives)
      && (forall h <- holds :: holds[h].slot in slots)
    }

    /** The quota one user has on one drive; zero without a row. */
    function QuotaOn(user: Id, drive: Id): int {
      if drive in RowsOf(user) then RowsOf(user)[drive].quota else 0
    }
  }

  class Queries {
    var now: Time
    var servers: map<Id, bool>                      // servers, by whether they are active
    var drives: map<Id, Drive>
    var users: map<Id, int>                         // users, by storage_quota_bytes
    var allocations: map<Id, map<Id, Allocation>>   // user, then drive
    var groups: map<Id, Group>
    var slots: map<Id, Slot>
    var holds: map<Id, Hold>

    constructor (s: State)
      ensures View() == s
    {
      now, servers, drives, users := s.now, s.servers, s.drives, s.users;
      allocations, groups, slots, holds := s.allocations, s.groups, s.slots, s.holds;
    }

    function View(): State
      reads this
    {
      State(now, servers, drives, users, allocations, groups, slots, holds)
    }
  }
}
