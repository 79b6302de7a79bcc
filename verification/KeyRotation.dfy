/**
 * Rotating and purging master keys, and the users wrapped under them (api/db/master_keys.go,
 * api/db/users.go). Any number of processes may interleave; `cleared` remembers the retiring keys
 * for which some process has counted zero users and may go on to purge.
 */
module KeyRotation {
  import opened Prelude
  import opened Sums
  import opened MasterKeys

  datatype KeyState = KeyState(keys: Keys, users: map<Id, Id>, cleared: set<Id>)

  function UsersOn(users: map<Id, Id>, version: Id): set<Id> { set u | u in users && users[u] == version }

  /** One committed transaction: the old key retires, the new one is stored, all others stay. */
  ghost predicate Rotates(before: Keys, after: Keys, retired: Id, key: Id, created: Key) {
    && after.Keys == before.Keys + {key} && after[key] == created
    && forall k <- before | k != key :: after[k] == if k == retired then before[k].(status := Retiring) else before[k]
  }

  /** The insert meets neither the primary key nor the index on the active key. */
  predicate Insertable(keys: Keys, retired: Id, key: Id, created: Key) {
    key !in keys && (created.status.Active? ==> ActiveIds(keys) <= {retired})
  }

  class KeyStore {
    var keys: Keys
    var users: map<Id, Id>
    ghost var cleared: set<Id>

    constructor (keys: Keys, users: map<Id, Id>)
      ensures View() == KeyState(keys, users, {})
    {
      this.keys, this.users, cleared := keys, users, {};
    }

    ghost function View(): KeyState reads this { KeyState(keys, users, cleared) }

    /** BootstrapMasterKey, run without interruption. */
    method BootstrapMasterKey(k: Id, material: Id) returns (winner: Option<Id>, insertedNew: bool)
      modifies this`keys
      ensures insertedNew <==> ActiveIds(old(keys)) == {} && k !in old(keys)
      ensures if insertedNew then keys == old(keys)[k := Key(Some(material), Active)] && winner == Some(k)
              else keys == old(keys)
      ensures !insertedNew && winner.Some? ==> winner.value in ActiveIds(old(keys))
      ensures winner.None? <==> ActiveIds(old(keys)) == {} && k in old(keys)
    {
      var active := ActiveIds(keys);
      if active != {} {
        return Some(Least(active)), false;
      }
      if k in keys {
        return None, false;
      }
      keys := keys[k := Key(Some(material), Active)];
      return Some(k), true;
    }

    /** A refused insert rolls the retirement back. */
    method RetireAndCreateMasterKey(retired: Id, key: Id, created: Key) returns (ok: bool)
      modifies this`keys
      ensures ok <==> Insertable(old(keys), retired, key, created)
      ensures if ok then Rotates(old(keys), keys, retired, key, created) else keys == old(keys)
      ensures ok <==>
        && key !in old(keys)
        && (created.status.Active? ==> forall k <- old(keys) | k != retired :: !old(keys)[k].status.Active?)
      ensures created.material.Some? ==> KeyStep(old(View()), Rotate(retired, key, created), View())
    {
      var before := keys;
      if retired in keys {
        keys := keys[retired := keys[retired].(status := Retiring)];
      }
      assert ActiveIds(keys) == ActiveIds(before) - {retired};
      if key in keys || (created.status.Active? && ActiveIds(keys) != {}) {
        keys := before;
        return false;
      }
      keys := keys[key := created];
      return true;
    }

    method PurgeMasterKey(key: Id)
      modifies this`keys
      ensures keys == if key in old(keys) then old(keys)[key := Key(None, Deleted)] else old(keys)
      ensures key in old(cleared) && key in old(keys) ==> KeyStep(old(View()), Purge(key), View())
    {
      if key in keys {
        keys := keys[key := Key(None, Deleted)];
      }
    }

    /** The reference to master_keys refuses a version that does not exist. */
    method UpdateUserEncryptionKey(user: Id, version: Id) returns (ok: bool)
      modifies this`users
      ensures ok <==> user !in users || version in keys
      ensures users == if user in old(users) && ok then old(users)[user := version] else old(users)
      ensures user in old(users) ==> KeyStep(old(View()), PutUser(user, version), View())
    {
      if user in users {
        if version !in keys {
          return false;
        }
        users := users[user := version];
      }
      return true;
    }

    method CountUsersByKeyVersion(version: Id) returns (n: nat)
      modifies this`cleared
      ensures n == 0 <==> UsersOn(users, version) == {}
      ensures n == |set u | u in users && users[u] == version|
      ensures CountStep(old(View()), View(), version)
    {
      n := |UsersOn(users, version)|;
      assert UsersOn(users, version) == set u | u in users && users[u] == version;
      if n == 0 && version in keys && keys[version].status.Retiring? {
        cleared := cleared + {version};
      }
    }
  }

  /**
   * BootstrapMasterKey as one call, and the same statements as interleaved processes run them, agree:
   * alone on a table with at most one active key, the process ends as the call does.
   */
  lemma AloneIsTheCall(s: System, p: Id, winner: Option<Id>, insertedNew: bool, keys: Keys)
    requires s.lock.None? && (forall q <- s.processes :: s.InPhase(q, Idle)) && p in s.processes && OneActive(s.keys)
    requires var (k, material) := (s.processes[p].candidate, s.processes[p].material);
      && (insertedNew <==> ActiveIds(s.keys) == {} && k !in s.keys)
      && (if insertedNew then keys == s.keys[k := Key(Some(material), Active)] && winner == Some(k) else keys == s.keys)
      && (!insertedNew && winner.Some? ==> winner.value in ActiveIds(s.keys))
      && (winner.None? <==> ActiveIds(s.keys) == {} && k in s.keys)
    ensures var end := Alone(s, p, if insertedNew then 5 else 4);
      && end.keys == keys
      && if winner.Some? then end.InPhase(p, Returned(winner.value, keys[winner.value].material, insertedNew))
         else end.InPhase(p, Failed)
  {
    if insertedNew {
      AloneStoresKey(s, p);
    } else if winner.Some? {
      assert ActiveIds(s.keys) == {winner.value};
      AloneAdoptsKey(s, p, winner.value);
    } else {
      AloneFailsOnTakenId(s, p);
    }
  }

  // ── Runs of interleaved processes ──────────────────────────────────────────

  datatype KeyEvent =
    | Rotate(retired: Id, key: Id, created: Key)
    | PutUser(user: Id, version: Id)          // a user is created or rewrapped on this version
    | Count(version: Id)
    | Purge(version: Id)                      // by a process that counted zero before

  ghost predicate CountStep(s: KeyState, s': KeyState, version: Id) {
    s' == if UsersOn(s.users, version) == {} && version in s.keys && s.keys[version].status.Retiring?
          then s.(cleared := s.cleared + {version}) else s
  }

  ghost predicate KeyStep(s: KeyState, event: KeyEvent, s': KeyState) {
    match event
    case Rotate(retired, key, created) =>
      created.material.Some? &&
      if Insertable(s.keys, retired, key, created)
      then s' == s.(keys := s'.keys) && Rotates(s.keys, s'.keys, retired, key, created)
      else s' == s
    case PutUser(user, version) => s' == if version in s.keys then s.(users := s.users[user := version]) else s
    case Count(version) => CountStep(s, s', version)
    case Purge(version) =>
      version in s.cleared && version in s.keys && s' == s.(keys := s.keys[version := Key(None, Deleted)])
  }

  /** No user depends on purged material, and none on a key about to be purged. */
  ghost predicate Usable(s: KeyState) {
    && (forall u <- s.users :: s.users[u] in s.keys && s.keys[s.users[u]].material.Some?)
    && (forall k <- s.cleared :: k in s.keys && !s.keys[k].status.Active? && UsersOn(s.users, k) == {})
    && (forall k <- ActiveIds(s.keys) :: s.keys[k].material.Some?)
    && OneActive(s.keys)
  }

  /** Where it is safe to put a user: a key with material that nobody has cleared for purging. */
  predicate SafeTarget(s: KeyState, version: Id) {
    version in s.keys ==> s.keys[version].material.Some? && version !in s.cleared
  }

  /** A rotation commits a table without an active key exactly when it stores an inactive one over the last active. */
  lemma RotationKeepsActiveIff(before: Keys, after: Keys, retired: Id, key: Id, created: Key)
    requires Insertable(before, retired, key, created) && Rotates(before, after, retired, key, created)
    ensures ActiveIds(after) != {} <==> (created.status.Active? || ActiveIds(before) - {retired} != {})
    ensures created.status.Active? ==> ActiveIds(after) == {key}
  {
    assert ActiveIds(after) == (ActiveIds(before) - {retired}) + if created.status.Active? then {key} else {};
  }

  lemma RotateKeepsUsable(s: KeyState, retired: Id, key: Id, created: Key, s': KeyState)
    requires Usable(s) && KeyStep(s, Rotate(retired, key, created), s')
    ensures Usable(s')
  {
    if Insertable(s.keys, retired, key, created) {
      assert forall k <- s.keys :: s'.keys[k].material == s.keys[k].material;
      RotationKeepsActiveIff(s.keys, s'.keys, retired, key, created);
      assert ActiveIds(s'.keys) <= ActiveIds(s.keys) + {key};
    }
  }

  lemma PurgeKeepsUsable(s: KeyState, version: Id, s': KeyState)
    requires Usable(s) && KeyStep(s, Purge(version), s')
    ensures Usable(s')
  {
    forall u <- s.users ensures s.users[u] != version {
      assert u in UsersOn(s.users, s.users[u]);
    }
    assert ActiveIds(s'.keys) == ActiveIds(s.keys);
  }

  lemma PutUserKeepsUsableIff(s: KeyState, user: Id, version: Id, s': KeyState)
    requires Usable(s) && KeyStep(s, PutUser(user, version), s')
    ensures Usable(s') <==> SafeTarget(s, version)
  {
    if version in s.keys {
      if Usable(s') {
        assert user in UsersOn(s'.users, version);
      } else if SafeTarget(s, version) {
        forall k <- s.cleared ensures UsersOn(s'.users, k) == {} {
          assert UsersOn(s'.users, k) <= UsersOn(s.users, k);
        }
      }
    }
  }

  /** Only putting a user on a purged key, or on one cleared for purging, can leave a user without a key. */
  lemma StepKeepsUsableIff(s: KeyState, event: KeyEvent, s': KeyState)
    requires Usable(s) && KeyStep(s, event, s')
    ensures Usable(s') <==> (event.PutUser? ==> SafeTarget(s, event.version))
  {
    match event
    case Rotate(retired, key, created) => RotateKeepsUsable(s, retired, key, created, s');
    case PutUser(user, version) => PutUserKeepsUsableIff(s, user, version, s');
    case Count(version) =>
    case Purge(version) => PurgeKeepsUsable(s, version, s');
  }

  /** The active key is always a safe target. */
  lemma ActiveIsSafe(s: KeyState, version: Id)
    requires Usable(s) && version in ActiveIds(s.keys)
    ensures SafeTarget(s, version)
  {
  }

  ghost predicate KeyRun(states: seq<KeyState>, events: seq<KeyEvent>) {
    && |states| == |events| + 1
    && forall i | 0 <= i < |events| :: KeyStep(states[i], events[i], states[i + 1])
  }

  /** If users only ever go onto the key that is active at the time, no user is left on a purged key. */
  lemma {:induction false} RunKeepsUsable(states: seq<KeyState>, events: seq<KeyEvent>, n: nat)
    requires KeyRun(states, events) && Usable(states[0]) && n < |states|
    requires forall i | 0 <= i < |events| :: events[i].PutUser? ==> events[i].version in ActiveIds(states[i].keys)
    ensures Usable(states[n])
  {
    if n > 0 {
      RunKeepsUsable(states, events, n - 1);
      StepKeepsUsableIff(states[n - 1], events[n - 1], states[n]);
      if events[n - 1].PutUser? {
        ActiveIsSafe(states[n - 1], events[n - 1].version);
      }
    }
  }

  /** Every user has a key throughout a run exactly when users are put on safe targets alone. */
  lemma RunUsableIff(states: seq<KeyState>, events: seq<KeyEvent>)
    requires KeyRun(states, events) && Usable(states[0])
    ensures (forall i | 0 <= i < |states| :: Usable(states[i])) <==>
            (forall i | 0 <= i < |events| && events[i].PutUser? :: SafeTarget(states[i], events[i].version))
  {
    if forall i | 0 <= i < |events| && events[i].PutUser? :: SafeTarget(states[i], events[i].version) {
      forall i | 0 <= i < |states| ensures Usable(states[i]) {
        SafeRunUsable(states, events, i);
      }
    }
    if forall i | 0 <= i < |states| :: Usable(states[i]) {
      forall i | 0 <= i < |events| && events[i].PutUser? ensures SafeTarget(states[i], events[i].version) {
        StepKeepsUsableIff(states[i], events[i], states[i + 1]);
      }
    }
  }

  lemma {:induction false} SafeRunUsable(states: seq<KeyState>, events: seq<KeyEvent>, n: nat)
    requires KeyRun(states, events) && Usable(states[0]) && n < |states|
    requires forall i | 0 <= i < n && events[i].PutUser? :: SafeTarget(states[i], events[i].version)
    ensures Usable(states[n])
  {
    if n > 0 {
      SafeRunUsable(states, events, n - 1);
      StepKeepsUsableIff(states[n - 1], events[n - 1], states[n]);
    }
  }

  // ── One active key ─────────────────────────────────────────────────────────

  /** One key is active, and no process is about to purge an active one. */
  ghost predicate OneInUse(s: KeyState) {
    && (exists key :: ActiveIds(s.keys) == {key})
    && forall k <- s.cleared :: k in s.keys && !s.keys[k].status.Active?
  }

  /** A rotation that goes through leaves an active key behind. */
  predicate LeavesActive(s: KeyState, event: KeyEvent) {
    event.Rotate? && Insertable(s.keys, event.retired, event.key, event.created) ==>
      event.created.status.Active? || ActiveIds(s.keys) - {event.retired} != {}
  }

  lemma StepKeepsOneActiveIff(s: KeyState, event: KeyEvent, s': KeyState)
    requires OneInUse(s) && KeyStep(s, event, s')
    ensures OneInUse(s') <==> LeavesActive(s, event)
  {
    var key :| ActiveIds(s.keys) == {key};
    if event.Rotate? && Insertable(s.keys, event.retired, event.key, event.created) {
      RotationKeepsActiveIff(s.keys, s'.keys, event.retired, event.key, event.created);
      var kept := ActiveIds(s.keys) - {event.retired};
      assert kept == {} || kept == {key};
      assert ActiveIds(s'.keys) == kept + if event.created.status.Active? then {event.key} else {};
    } else {
      assert ActiveIds(s'.keys) == ActiveIds(s.keys);
    }
  }

  /** From one active key, exactly one stays active exactly when each rotation leaves an active key. */
  lemma RunKeepsOneActiveIff(states: seq<KeyState>, events: seq<KeyEvent>)
    requires KeyRun(states, events) && OneInUse(states[0])
    ensures (forall i | 0 <= i < |states| :: OneInUse(states[i]))
       <==> (forall i | 0 <= i < |events| :: LeavesActive(states[i], events[i]))
  {
    if forall i | 0 <= i < |events| :: LeavesActive(states[i], events[i]) {
      forall i | 0 <= i < |states| ensures OneInUse(states[i]) {
        LeavingRunKeepsOneActive(states, events, i);
      }
    }
    if forall i | 0 <= i < |states| :: OneInUse(states[i]) {
      forall i | 0 <= i < |events| ensures LeavesActive(states[i], events[i]) {
        StepKeepsOneActiveIff(states[i], events[i], states[i + 1]);
      }
    }
  }

  lemma {:induction false} LeavingRunKeepsOneActive(states: seq<KeyState>, events: seq<KeyEvent>, n: nat)
    requires KeyRun(states, events) && OneInUse(states[0]) && n < |states|
    requires forall i | 0 <= i < n :: LeavesActive(states[i], events[i])
    ensures OneInUse(states[n])
  {
    if n > 0 {
      LeavingRunKeepsOneActive(states, events, n - 1);
      StepKeepsOneActiveIff(states[n - 1], events[n - 1], states[n]);
    }
  }

  /** Rotations to active keys, whatever users and stale writers do, keep exactly one at every commit. */
  lemma RunKeepsOneActive(states: seq<KeyState>, events: seq<KeyEvent>, n: nat)
    requires KeyRun(states, events) && OneInUse(states[0]) && n < |states|
    requires forall i | 0 <= i < |events| && events[i].Rotate? :: events[i].created.status.Active?
    ensures exists key :: ActiveIds(states[n].keys) == {key}
  {
    LeavingRunKeepsOneActive(states, events, n);
    assert OneInUse(states[n]);
  }

  /** A process that still writes under the retiring key, after another counted, loses its user's key. */
  lemma StaleWriterLosesKey() returns (states: seq<KeyState>, events: seq<KeyEvent>)
    ensures KeyRun(states, events) && Usable(states[0]) && |events| == 4
    ensures var end := states[4]; 7 in end.users && end.users[7] in end.keys && end.keys[end.users[7]].material.None?
  {
    var first, next := Key(Some(0), Active), Key(Some(1), Active);
    var s0 := KeyState(map[1 := first], map[], {});
    var s1 := s0.(keys := map[1 := first.(status := Retiring), 2 := next]);
    var s2 := s1.(cleared := {1});
    var s3 := s2.(users := map[7 := 1]);
    var s4 := s3.(keys := s3.keys[1 := Key(None, Deleted)]);
    assert ActiveIds(s0.keys) == {1};
    assert UsersOn(s1.users, 1) == {};
    states, events := [s0, s1, s2, s3, s4], [Rotate(1, 2, next), Count(1), PutUser(7, 1), Purge(1)];
  }
}
