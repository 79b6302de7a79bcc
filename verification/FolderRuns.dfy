/**
 * Runs of folder operations: creations and moves by the services and by WebDAV, drive
 * migrations, deletions and changes of a primary drive. When the forest stays a forest, and
 * when every subfolder stays on its parent's drive.
 */
module FolderRuns {
  import opened Prelude
  import opened Forest
  import opened Subtrees
  import opened FolderStore

  datatype Library = Library(folders: Folders, primaries: Primaries)

  datatype Event =
    | Create(id: Id, folder: Folder)
    | Rename(f: Id, name: string)
    | Move(f: Id, parent: Option<Id>)
    | Migrate(f: Id, drive: Id, parent: Option<Id>)
    | Delete(f: Id)
    | ChangePrimary(user: Id, primary: Option<Id>)

  /** References resolve, no cycle, one owner per tree, one folder per owner, parent and name. */
  ghost predicate IsForest(m: Folders) {
    Closed(m) && Acyclic(m) && SameOwner(m) && UniqueNames(m)
  }

  /** A parent is absent, or a folder of the owner. */
  ghost predicate ParentFor(m: Folders, owner: Id, parent: Option<Id>) {
    parent.Some? ==> parent.value in m && m[parent.value].owner == owner
  }

  /**
   * What every caller checks: existence, owner and name, and the cycle before a move. Owners
   * never change, but a migration checks the cycle when it is requested, and no more when it
   * completes. No event here compares drives.
   */
  ghost predicate FolderStep(m: Folders, e: Event, m': Folders)
    requires Closed(m) && Acyclic(m) && !e.ChangePrimary?
  {
    match e
    case Create(id, folder) =>
      && id !in m && ParentFor(m, folder.owner, folder.parent) && m' == m[id := folder]
      && !NameTaken(m', id, folder.parent, folder.name)
    case Rename(f, name) =>
      f in m && !NameTaken(m, f, m[f].parent, name) && m' == m[f := m[f].(name := name)]
    case Move(f, parent) =>
      && f in m && ParentFor(m, m[f].owner, parent) && !NameTaken(m, f, parent, m[f].name)
      && (parent.Some? ==> !WouldCreateCycle(m, f, parent.value)) && m' == Moved(m, f, parent)
    case Migrate(f, drive, parent) =>
      && f in m && ParentFor(m, m[f].owner, parent) && !NameTaken(m, f, parent, m[f].name)
      && m' == Moved(Retagged(m, f, drive), f, parent)
    case Delete(f) => m' == m - Subtree(m, f)
  }

  ghost predicate Step(s: Library, e: Event, s': Library)
    requires Closed(s.folders) && Acyclic(s.folders)
  {
    if e.ChangePrimary? then
      s' == s.(primaries := WithPrimary(s.primaries, e.user, e.primary))
    else
      s'.primaries == s.primaries && FolderStep(s.folders, e, s'.folders)
  }

  ghost predicate Run(states: seq<Library>, events: seq<Event>) {
    && |states| == |events| + 1
    && forall i | 0 <= i < |events| ::
         Closed(states[i].folders) && Acyclic(states[i].folders) ==> Step(states[i], events[i], states[i + 1])
  }

  /** What each event is for; the folders it is not about keep their columns. */
  lemma EventsTakeEffect(s: Library, e: Event, s': Library)
    requires Closed(s.folders) && Acyclic(s.folders) && Step(s, e, s')
    ensures var (m, m') := (s.folders, s'.folders);
      match e
      case Create(id, folder) => id !in m && m'.Keys == m.Keys + {id} && m'[id] == folder
                                 && forall g <- m :: m'[g] == m[g]
      case Rename(f, name) => m'.Keys == m.Keys && f in m && m'[f] == m[f].(name := name)
                              && forall g <- m | g != f :: m'[g] == m[g]
      case Move(f, parent) => m'.Keys == m.Keys && f in m && m'[f] == m[f].(parent := parent)
                              && forall g <- m | g != f :: m'[g] == m[g]
      case Migrate(f, drive, parent) =>
        && m'.Keys == m.Keys && f in m && m'[f] == m[f].(parent := parent, drive := Some(drive))
        && forall g <- m | g != f ::
             m'[g] == if IsDescendant(m, f, g) then m[g].(drive := Some(drive)) else m[g]
      case Delete(f) =>
        && (forall g <- m' :: g in m && m'[g] == m[g])
        && forall g <- m :: g in m' <==> !IsDescendant(m, f, g)
      case ChangePrimary(user, primary) => m' == m && PrimaryOf(s'.primaries, user) == primary
                                           && forall u: Id | u != user ::
                                                PrimaryOf(s'.primaries, u) == PrimaryOf(s.primaries, u)
  {
    if e.Migrate? || e.Delete? {
      forall g: Id { SubtreeIffDescendant(s.folders, e.f, g); }
    }
  }

  // ── The forest ─────────────────────────────────────────────────────────────

  /** A migration's cycle check, made when it was requested, would still pass. */
  ghost predicate StillChecked(m: Folders, e: Event) {
    e.Migrate? && e.parent.Some? && Acyclic(m) ==> !WouldCreateCycle(m, e.f, e.parent.value)
  }

  lemma CreateKeepsForest(m: Folders, id: Id, folder: Folder, m': Folders)
    requires IsForest(m) && FolderStep(m, Create(id, folder), m')
    ensures IsForest(m')
  {
    var above := if ParentOf(m', id).Some? then Rank(m)[folder.parent.value] + 1 else 0;
    assert Ranks(Rank(m)[id := above], m');
  }

  lemma RenameKeepsForest(m: Folders, f: Id, name: string, m': Folders)
    requires IsForest(m) && FolderStep(m, Rename(f, name), m')
    ensures IsForest(m')
  {
    assert Ranks(Rank(m), m');
  }

  /** A reparenting, on the same rows but for pins, keeps everything but acyclicity. */
  lemma ReparentKeepsRest(m: Folders, f: Id, parent: Option<Id>, m': Folders)
    requires IsForest(m) && f in m && ParentFor(m, m[f].owner, parent) && !NameTaken(m, f, parent, m[f].name)
    requires m'.Keys == m.Keys
    requires forall g <- m :: m'[g].owner == m[g].owner && m'[g].name == m[g].name
    requires forall g <- m :: m'[g].parent == if g == f then parent else m[g].parent
    ensures Closed(m') && SameOwner(m') && UniqueNames(m')
  {
    forall g <- m' ensures !NameTaken(m', g, m'[g].parent, m'[g].name) {
      assert !NameTaken(m, g, m[g].parent, m[g].name);
      assert forall h <- m' | h != g && m'[h].owner == m'[g].owner && m'[h].name == m'[g].name ::
               m'[h].parent != m'[g].parent;
    }
  }

  lemma MoveKeepsForest(m: Folders, f: Id, parent: Option<Id>, m': Folders)
    requires IsForest(m) && FolderStep(m, Move(f, parent), m')
    ensures IsForest(m')
  {
    if parent.Some? { MoveKeepsRanks(m, f, parent.value); } else { MoveToRootKeepsAcyclic(m, f); }
    ReparentKeepsRest(m, f, parent, m');
  }

  lemma {:induction false} SameEdgesSameAbove(m: Folders, m1: Folders, f: Id)
    requires Acyclic(m) && Acyclic(m1) && m1.Keys == m.Keys
    requires forall g: Id :: ParentOf(m1, g) == ParentOf(m, g)
    ensures Above(m1, f) == Above(m, f)
    decreases if f in m then Rank(m)[f] + 1 else 0
  {
    if ParentOf(m, f).Some? {
      SameEdgesSameAbove(m, m1, ParentOf(m, f).value);
    }
  }

  lemma RetaggedCycleCheck(m: Folders, f: Id, drive: Id, parent: Id)
    requires Closed(m) && Acyclic(m) && f in m && parent in m
    ensures Acyclic(Moved(Retagged(m, f, drive), f, Some(parent))) <==> !WouldCreateCycle(m, f, parent)
  {
    RetaggingKeepsParents(m, f, drive);
    var m1 := Retagged(m, f, drive);
    SameEdgesSameAbove(m, m1, parent);
    CycleCheckIsExact(m1, f, parent);
  }

  /** Retagging changes pins alone. */
  lemma MigratedRows(m: Folders, f: Id, drive: Id, parent: Option<Id>)
    requires Closed(m) && Acyclic(m) && f in m
    ensures var m' := Moved(Retagged(m, f, drive), f, parent);
      && m'.Keys == m.Keys
      && (forall g <- m :: m'[g].owner == m[g].owner && m'[g].name == m[g].name)
      && forall g <- m :: m'[g].parent == if g == f then parent else m[g].parent
  {
  }

  lemma MigratedIsAcyclicIff(m: Folders, f: Id, drive: Id, parent: Option<Id>)
    requires Closed(m) && Acyclic(m) && f in m && (parent.Some? ==> parent.value in m)
    ensures Acyclic(Moved(Retagged(m, f, drive), f, parent)) <==> StillChecked(m, Migrate(f, drive, parent))
  {
    if parent.Some? {
      RetaggedCycleCheck(m, f, drive, parent.value);
    } else {
      RetaggingKeepsParents(m, f, drive);
      MoveToRootKeepsAcyclic(Retagged(m, f, drive), f);
    }
  }

  lemma MigrateKeepsForestIff(m: Folders, f: Id, drive: Id, parent: Option<Id>, m': Folders)
    requires IsForest(m) && FolderStep(m, Migrate(f, drive, parent), m')
    ensures IsForest(m') <==> StillChecked(m, Migrate(f, drive, parent))
  {
    MigratedRows(m, f, drive, parent);
    ReparentKeepsRest(m, f, parent, m');
    MigratedIsAcyclicIff(m, f, drive, parent);
  }

  lemma DeleteKeepsEdges(m: Folders, f: Id, g: Id)
    requires Closed(m) && Acyclic(m) && g in m - Subtree(m, f) && m[g].parent.Some?
    ensures var m' := m - Subtree(m, f);
      ParentOf(m', g) == ParentOf(m, g) && m[g].parent.value in m'
  {
    SubtreeIffDescendant(m, f, g);
    SubtreeThroughParent(m, f, g);
  }

  lemma DeleteKeepsForest(m: Folders, f: Id, m': Folders)
    requires IsForest(m) && FolderStep(m, Delete(f), m')
    ensures IsForest(m')
  {
    forall g <- m' | m'[g].parent.Some?
      ensures ParentOf(m', g) == ParentOf(m, g) && m[g].parent.value in m'
    {
      DeleteKeepsEdges(m, f, g);
    }
    assert Ranks(Rank(m), m');
    forall g <- m' ensures !NameTaken(m', g, m'[g].parent, m'[g].name) {
      assert !NameTaken(m, g, m[g].parent, m[g].name);
    }
  }

  /** Every step keeps the forest, a migration exactly when its check would still pass. */
  lemma StepKeepsForestIff(s: Library, e: Event, s': Library)
    requires IsForest(s.folders) && Step(s, e, s')
    ensures IsForest(s'.folders) <==> StillChecked(s.folders, e)
  {
    var m, m' := s.folders, s'.folders;
    match e
    case Create(id, folder) => CreateKeepsForest(m, id, folder, m');
    case Rename(f, name) => RenameKeepsForest(m, f, name, m');
    case Move(f, parent) => MoveKeepsForest(m, f, parent, m');
    case Migrate(f, drive, parent) => MigrateKeepsForestIff(m, f, drive, parent, m');
    case Delete(f) => DeleteKeepsForest(m, f, m');
    case ChangePrimary(user, primary) =>
  }

  lemma {:induction false} CheckedRunKeepsForest(states: seq<Library>, events: seq<Event>, i: nat)
    requires Run(states, events) && IsForest(states[0].folders) && i < |states|
    requires forall j | 0 <= j < i :: StillChecked(states[j].folders, events[j])
    ensures IsForest(states[i].folders)
  {
    if i > 0 {
      CheckedRunKeepsForest(states, events, i - 1);
      StepKeepsForestIff(states[i - 1], events[i - 1], states[i]);
    }
  }

  /** A run keeps a forest throughout exactly when each migration's check still holds as it completes. */
  lemma RunKeepsForestIff(states: seq<Library>, events: seq<Event>)
    requires Run(states, events) && IsForest(states[0].folders)
    ensures (forall i | 0 <= i < |states| :: IsForest(states[i].folders))
       <==> (forall i | 0 <= i < |events| :: StillChecked(states[i].folders, events[i]))
  {
    if forall i | 0 <= i < |events| :: StillChecked(states[i].folders, events[i]) {
      forall i | 0 <= i < |states| ensures IsForest(states[i].folders) {
        CheckedRunKeepsForest(states, events, i);
      }
    }
    if forall i | 0 <= i < |states| :: IsForest(states[i].folders) {
      forall i | 0 <= i < |events| ensures StillChecked(states[i].folders, events[i]) {
        StepKeepsForestIff(states[i], events[i], states[i + 1]);
      }
    }
  }

  // ── One drive per tree ─────────────────────────────────────────────────────

  /** The folder is put under no parent, or under one on the drive. */
  ghost predicate OnDrive(m: Folders, primaries: Primaries, parent: Option<Id>, drive: Option<Id>) {
    parent.Some? && parent.value in m ==> DriveOf(primaries, m[parent.value]) == drive
  }

  /** A subfolder of the user has a pin where its parent has none, or the other way round. */
  ghost predicate MixesPins(m: Folders, user: Id) {
    exists f <- m ::
      m[f].owner == user && ParentOf(m, f).Some? && m[f].drive.None? != m[ParentOf(m, f).value].drive.None?
  }

  /** The event puts no folder under a parent on another drive. */
  ghost predicate Joins(s: Library, e: Event) {
    match e
    case Create(id, folder) => OnDrive(s.folders, s.primaries, folder.parent, DriveOf(s.primaries, folder))
    case Rename(f, name) => true
    case Move(f, parent) =>
      f in s.folders ==> OnDrive(s.folders, s.primaries, parent, DriveOf(s.primaries, s.folders[f]))
    case Migrate(f, drive, parent) => OnDrive(s.folders, s.primaries, parent, Some(drive))
    case Delete(f) => true
    case ChangePrimary(user, primary) => primary == PrimaryOf(s.primaries, user) || !MixesPins(s.folders, user)
  }

  ghost predicate OneDriveIn(s: Library) { OneDrive(s.folders, s.primaries) }

  lemma CreateJoinsIff(s: Library, id: Id, folder: Folder, s': Library)
    requires IsForest(s.folders) && OneDriveIn(s) && Step(s, Create(id, folder), s')
    ensures OneDriveIn(s') <==> Joins(s, Create(id, folder))
  {
    var m, m' := s.folders, s'.folders;
    assert ParentOf(m', id) == folder.parent;
    assert forall g <- m :: m'[g] == m[g] && ParentOf(m', g) == ParentOf(m, g);
  }

  lemma MoveJoinsIff(s: Library, f: Id, parent: Option<Id>, s': Library)
    requires IsForest(s.folders) && OneDriveIn(s) && Step(s, Move(f, parent), s')
    ensures OneDriveIn(s') <==> Joins(s, Move(f, parent))
  {
    var m, m' := s.folders, s'.folders;
    assert ParentOf(m', f) == parent;
    assert forall g <- m | g != f :: ParentOf(m', g) == ParentOf(m, g);
    assert forall g <- m :: DriveOf(s.primaries, m'[g]) == DriveOf(s.primaries, m[g]);
  }

  lemma RenameJoins(s: Library, f: Id, name: string, s': Library)
    requires IsForest(s.folders) && OneDriveIn(s) && Step(s, Rename(f, name), s')
    ensures OneDriveIn(s')
  {
    var m, m' := s.folders, s'.folders;
    assert forall g <- m :: ParentOf(m', g) == ParentOf(m, g);
    assert forall g <- m :: DriveOf(s.primaries, m'[g]) == DriveOf(s.primaries, m[g]);
  }

  lemma DeleteJoins(s: Library, f: Id, s': Library)
    requires IsForest(s.folders) && OneDriveIn(s) && Step(s, Delete(f), s')
    ensures OneDriveIn(s')
  {
    forall g <- s'.folders | s'.folders[g].parent.Some?
      ensures ParentOf(s'.folders, g) == ParentOf(s.folders, g)
    {
      DeleteKeepsEdges(s.folders, f, g);
    }
  }

  function WithPrimary(primaries: Primaries, user: Id, primary: Option<Id>): Primaries {
    if primary.Some? then primaries[user := primary.value] else primaries - {user}
  }

  /** With the old primary an unpinned folder and a pinned one agree; with another they do not. */
  lemma EdgeAfterChange(primaries: Primaries, user: Id, primary: Option<Id>, a: Folder, b: Folder)
    requires a.owner == b.owner && DriveOf(primaries, a) == DriveOf(primaries, b)
    ensures var after := WithPrimary(primaries, user, primary);
      DriveOf(after, a) == DriveOf(after, b) <==>
      (primary == PrimaryOf(primaries, user) || a.owner != user || a.drive.None? == b.drive.None?)
  {
  }

  lemma ChangePrimaryJoinsIff(s: Library, user: Id, primary: Option<Id>, s': Library)
    requires IsForest(s.folders) && OneDriveIn(s) && Step(s, ChangePrimary(user, primary), s')
    ensures OneDriveIn(s') <==> Joins(s, ChangePrimary(user, primary))
  {
    var m := s.folders;
    assert s'.folders == m && s'.primaries == WithPrimary(s.primaries, user, primary);
    forall f <- m | ParentOf(m, f).Some?
      ensures DriveOf(s'.primaries, m[f]) == DriveOf(s'.primaries, m[ParentOf(m, f).value]) <==>
        (primary == PrimaryOf(s.primaries, user) || m[f].owner != user
         || m[f].drive.None? == m[ParentOf(m, f).value].drive.None?)
    {
      EdgeAfterChange(s.primaries, user, primary, m[f], m[ParentOf(m, f).value]);
    }
  }

  /** A step keeps every subfolder on its parent's drive exactly when it joins no two drives. */
  lemma StepKeepsDrivesIff(s: Library, e: Event, s': Library)
    requires IsForest(s.folders) && OneDriveIn(s) && Step(s, e, s') && StillChecked(s.folders, e)
    ensures OneDriveIn(s') <==> Joins(s, e)
  {
    match e
    case Create(id, folder) => CreateJoinsIff(s, id, folder, s');
    case Rename(f, name) => RenameJoins(s, f, name, s');
    case Move(f, parent) => MoveJoinsIff(s, f, parent, s');
    case Migrate(f, drive, parent) => MigrationKeepsDrivesIff(s.folders, s.primaries, f, drive, parent);
    case Delete(f) => DeleteJoins(s, f, s');
    case ChangePrimary(user, primary) => ChangePrimaryJoinsIff(s, user, primary, s');
  }

  /** Pins alone: an event keeps children on their parents' pins exactly when it joins no two of them. */
  lemma StepKeepsPinsIff(s: Library, e: Event, s': Library)
    requires IsForest(s.folders) && InheritsDrive(s.folders) && Step(s, e, s') && StillChecked(s.folders, e)
    ensures InheritsDrive(s'.folders) <==> (!e.ChangePrimary? ==> Joins(s.(primaries := map[]), e))
  {
    InheritsIsNoPrimaries(s.folders);
    InheritsIsNoPrimaries(s'.folders);
    if !e.ChangePrimary? {
      StepKeepsDrivesIff(s.(primaries := map[]), e, s'.(primaries := map[]));
    }
  }

  /** The folder service's moves are exactly the owner's moves that join no two drives. */
  lemma ServiceMovesJoin(s: Library, user: Id, f: Id, target: Id)
    requires IsForest(s.folders) && f in s.folders
    ensures var m := s.folders; var m' := Moved(m, f, Some(target));
      (&& Owned(m, user, f) && Owned(m, user, target) && DriveOf(s.primaries, m[f]) == DriveOf(s.primaries, m[target])
       && Acyclic(m') && !NameTaken(m, f, Some(target), m[f].name))
      <==> (m[f].owner == user && Step(s, Move(f, Some(target)), s.(folders := m')) && Joins(s, Move(f, Some(target))))
  {
    if target in s.folders { CycleCheckIsExact(s.folders, f, target); }
  }

  /**
   * WebDAV's moves are exactly the owner's renamings followed by a move, whatever the drives,
   * where no file has the name at the destination.
   */
  lemma PathMovesAreSteps(s: Library, user: Id, f: Id, parent: Option<Id>, leaf: string, fileThere: bool)
    requires IsForest(s.folders) && f in s.folders
    ensures var m := s.folders; var s1 := s.(folders := Renamed(m, f, leaf));
      (&& Owned(m, user, f) && (parent.Some? ==> Owned(m, user, parent.value))
       && Acyclic(Moved(m, f, parent)) && !NameTaken(m, f, parent, leaf) && !fileThere
       && (m[f].name == leaf || !NameTaken(m, f, m[f].parent, leaf)))
      <==> (m[f].owner == user && !fileThere && Step(s, Rename(f, leaf), s1) && IsForest(s1.folders)
            && Step(s1, Move(f, parent), s.(folders := Moved(s1.folders, f, parent))))
  {
    var m1 := Renamed(s.folders, f, leaf);
    if !NameTaken(s.folders, f, s.folders[f].parent, leaf) {
      RenameKeepsForest(s.folders, f, leaf, m1);
      RenamingKeepsEdges(s.folders, f, leaf, parent);
      if parent.None? {
        MoveToRootKeepsAcyclic(m1, f);
      } else if parent.value in m1 {
        CycleCheckIsExact(m1, f, parent.value);
      }
    }
  }

  lemma {:induction false} JoiningRunKeepsDrives(states: seq<Library>, events: seq<Event>, i: nat)
    requires Run(states, events) && IsForest(states[0].folders) && OneDriveIn(states[0]) && i < |states|
    requires forall j | 0 <= j < i :: StillChecked(states[j].folders, events[j]) && Joins(states[j], events[j])
    ensures OneDriveIn(states[i])
  {
    if i > 0 {
      JoiningRunKeepsDrives(states, events, i - 1);
      CheckedRunKeepsForest(states, events, i - 1);
      StepKeepsDrivesIff(states[i - 1], events[i - 1], states[i]);
    }
  }

  /**
   * A run keeps a forest with every tree on one drive throughout exactly when each migration's
   * check still holds as it completes and no event joins two drives.
   */
  lemma RunKeepsDrivesIff(states: seq<Library>, events: seq<Event>)
    requires Run(states, events) && IsForest(states[0].folders) && OneDriveIn(states[0])
    ensures (forall i | 0 <= i < |states| :: IsForest(states[i].folders) && OneDriveIn(states[i])) <==>
            (forall i | 0 <= i < |events| :: StillChecked(states[i].folders, events[i]) && Joins(states[i], events[i]))
  {
    RunKeepsForestIff(states, events);
    if forall i | 0 <= i < |events| :: StillChecked(states[i].folders, events[i]) {
      CheckedRunKeepsDrivesIff(states, events);
    }
  }

  /** Over a run whose checks still hold, trees stay on one drive exactly when no event joins two. */
  lemma CheckedRunKeepsDrivesIff(states: seq<Library>, events: seq<Event>)
    requires Run(states, events) && IsForest(states[0].folders) && OneDriveIn(states[0])
    requires forall i | 0 <= i < |events| :: StillChecked(states[i].folders, events[i])
    ensures (forall i | 0 <= i < |states| :: OneDriveIn(states[i]))
       <==> (forall i | 0 <= i < |events| :: Joins(states[i], events[i]))
  {
    if forall i | 0 <= i < |events| :: Joins(states[i], events[i]) {
      forall i | 0 <= i < |states| ensures OneDriveIn(states[i]) {
        JoiningRunKeepsDrives(states, events, i);
      }
    }
    if forall i | 0 <= i < |states| :: OneDriveIn(states[i]) {
      forall i | 0 <= i < |events| ensures Joins(states[i], events[i]) {
        CheckedRunKeepsForest(states, events, i);
        StepKeepsDrivesIff(states[i], events[i], states[i + 1]);
      }
    }
  }

  // ── Runs that break a law ──────────────────────────────────────────────────

  function Top(name: string, drive: Option<Id>): Folder { Folder(0, None, drive, name) }

  /** Two folders of one user at the root. */
  function TwoTops(a: Option<Id>, b: Option<Id>): Folders {
    map[0 := Top("a", a), 1 := Top("b", b)]
  }

  lemma TwoTopsAreForest(a: Option<Id>, b: Option<Id>)
    ensures IsForest(TwoTops(a, b)) && InheritsDrive(TwoTops(a, b)) && !WouldCreateCycle(TwoTops(a, b), 1, 0)
    ensures !WouldCreateCycle(TwoTops(a, b), 0, 1)
    ensures forall primaries :: OneDrive(TwoTops(a, b), primaries)
  {
    assert Ranks(map[0 := 0, 1 := 0], TwoTops(a, b));
  }

  /** A WebDAV move between drives is accepted and leaves a subfolder on another drive. */
  lemma MoveCrossesDrives() returns (s: Library, s': Library)
    ensures IsForest(s.folders) && OneDriveIn(s) && Step(s, Move(1, Some(0)), s') && !OneDriveIn(s')
  {
    s := Library(TwoTops(Some(3), Some(4)), map[]);
    s' := s.(folders := Moved(s.folders, 1, Some(0)));
    TwoTopsAreForest(Some(3), Some(4));
    assert ParentOf(s'.folders, 1) == Some(0);
  }

  /** A folder created by path has no pin: under a folder that is not on the primary drive it leaves that drive. */
  lemma UnpinnedChildLeavesDrive() returns (s: Library, s': Library)
    ensures IsForest(s.folders) && OneDriveIn(s) && !OneDriveIn(s')
    ensures Step(s, Create(2, Folder(0, Some(0), None, "c")), s')
  {
    s := Library(TwoTops(Some(3), Some(3)), map[0 := 4]);
    s' := s.(folders := s.folders[2 := Folder(0, Some(0), None, "c")]);
    TwoTopsAreForest(Some(3), Some(3));
    CreateJoinsIff(s, 2, s'.folders[2], s');
  }

  /**
   * The service lets an unpinned folder under one pinned to the primary drive: the tree is
   * still on one drive, but no longer on one pin, and a change of the primary splits it.
   */
  lemma UnpinnedUnderPrimarySplits() returns (s: Library, s1: Library, s2: Library)
    ensures IsForest(s.folders) && InheritsDrive(s.folders) && OneDriveIn(s)
    ensures s.folders.Keys == {0, 1}
    ensures SameEffectiveDrive(PrimaryOf(s.primaries, 0), s.folders[1].drive, s.folders[0].drive)
    ensures Step(s, Move(1, Some(0)), s1) && IsForest(s1.folders) && OneDriveIn(s1) && !InheritsDrive(s1.folders)
    ensures Step(s1, ChangePrimary(0, Some(4)), s2) && !OneDriveIn(s2)
  {
    s := Library(TwoTops(Some(3), None), map[0 := 3]);
    s1 := s.(folders := Moved(s.folders, 1, Some(0)));
    s2 := s1.(primaries := s1.primaries[0 := 4]);
    TwoTopsAreForest(Some(3), None);
    StepKeepsForestIff(s, Move(1, Some(0)), s1);
    assert ParentOf(s1.folders, 1) == Some(0);
  }

  /**
   * The check must be made on the forest being changed. A drive migration checks when it is
   * requested and reparents when it completes; a move in between can make the target a
   * descendant, and the late reparent then closes a cycle.
   */
  lemma StaleCheckClosesCycle() returns (s: Library, s1: Library, s2: Library)
    ensures IsForest(s.folders) && StillChecked(s.folders, Migrate(0, 3, Some(1)))
    ensures Step(s, Move(1, Some(0)), s1) && IsForest(s1.folders)
    ensures Step(s1, Migrate(0, 3, Some(1)), s2) && !Acyclic(s2.folders)
  {
    s := Library(TwoTops(None, None), map[]);
    s1 := s.(folders := Moved(s.folders, 1, Some(0)));
    TwoTopsAreForest(None, None);
    StepKeepsForestIff(s, Move(1, Some(0)), s1);
    s2 := s1.(folders := Moved(Retagged(s1.folders, 0, 3), 0, Some(1)));
    ParentCannotMoveUnderChild(s1.folders, 0, 1);
    RetaggedCycleCheck(s1.folders, 0, 3, 1);
    assert s1.folders[0].name == "a" && s1.folders[1].name == "b";
  }

  lemma ParentCannotMoveUnderChild(m: Folders, f: Id, child: Id)
    requires Closed(m) && Acyclic(m) && f in m && ParentOf(m, child) == Some(f)
    ensures WouldCreateCycle(m, f, child)
  {
    assert f in Above(m, f);
  }
}
