/**
 * The folders table as an object: the statements on it, and the two checked moves, one of
 * the folder service and one of WebDAV.
 */
module FolderStore {
  import opened Prelude
  import opened Forest
  import opened Subtrees

  datatype MoveResult = Done | NotFound | NoSuchParent | CrossDrive | WouldCycle | DuplicateName | FileThere

  /** Another folder of the owner has the name under that parent; the root counts as one parent. */
  predicate NameTaken(m: Folders, f: Id, parent: Option<Id>, name: string)
    requires f in m
  {
    exists g <- m :: g != f && m[g].owner == m[f].owner && m[g].parent == parent && m[g].name == name
  }

  ghost predicate UniqueNames(m: Folders) {
    forall f <- m :: !NameTaken(m, f, m[f].parent, m[f].name)
  }

  /** getOwned: missing and foreign folders look alike. */
  predicate Owned(m: Folders, user: Id, f: Id) { f in m && m[f].owner == user }

  /** sameEffectiveDrive: equal pins, or equal once a missing pin is resolved to the primary drive. */
  predicate SameEffectiveDrive(primary: Option<Id>, a: Option<Id>, b: Option<Id>) {
    if a == b then true
    else if a.Some? && b.Some? then false
    else (if a.None? then primary else a) == (if b.None? then primary else b)
  }

  function PrimaryOf(primaries: Primaries, user: Id): Option<Id> {
    if user in primaries then Some(primaries[user]) else None
  }

  lemma SameEffectiveDriveIff(primaries: Primaries, a: Folder, b: Folder)
    requires a.owner == b.owner
    ensures SameEffectiveDrive(PrimaryOf(primaries, a.owner), a.drive, b.drive)
       <==> DriveOf(primaries, a) == DriveOf(primaries, b)
  {
  }

  /** A name has no part in the edges. */
  lemma RenamingKeepsEdges(m: Folders, f: Id, name: string, parent: Option<Id>)
    requires f in m
    ensures Acyclic(Moved(Renamed(m, f, name), f, parent)) <==> Acyclic(Moved(m, f, parent))
    ensures Closed(m) ==> Closed(Renamed(m, f, name))
    ensures NameTaken(Renamed(m, f, name), f, parent, name) <==> NameTaken(m, f, parent, name)
  {
    var moved, both := Moved(m, f, parent), Moved(Renamed(m, f, name), f, parent);
    assert forall g: Id :: ParentOf(both, g) == ParentOf(moved, g);
    assert forall rank: map<Id, nat> :: Ranks(rank, both) <==> Ranks(rank, moved);
    var m1 := Renamed(m, f, name);
    assert forall g <- m1 | g != f :: m1[g] == m[g];
    assert forall g <- m | g != f :: m[g] == m1[g];
  }

  class Store {
    var folders: Folders

    constructor (folders: Folders)
      ensures this.folders == folders
    {
      this.folders := folders;
    }

    /** UpdateFolderParent: the unique name and the foreign key are its only checks. */
    method UpdateFolderParent(f: Id, parent: Option<Id>) returns (r: MoveResult)
      modifies this
      ensures r.NotFound? <==> f !in old(folders)
      ensures r.DuplicateName? <==> f in old(folders) && NameTaken(old(folders), f, parent, old(folders)[f].name)
      ensures r.DuplicateName? <==> f in old(folders) && exists g <- old(folders) ::
        && g != f && old(folders)[g].owner == old(folders)[f].owner
        && old(folders)[g].parent == parent && old(folders)[g].name == old(folders)[f].name
      ensures r.NoSuchParent? ==> parent.Some? && parent.value !in old(folders)
      ensures r.Done? ==> (parent.Some? ==> parent.value in old(folders))
      ensures r.NotFound? || r.DuplicateName? || r.NoSuchParent? || r.Done?
      ensures folders == if r.Done? then Moved(old(folders), f, parent) else old(folders)
    {
      if f !in folders { return NotFound; }
      if NameTaken(folders, f, parent, folders[f].name) { return DuplicateName; }
      if parent.Some? && parent.value !in folders { return NoSuchParent; }
      folders := folders[f := folders[f].(parent := parent)];
      return Done;
    }

    /** FolderService.Move: owner, drive and cycle checks, then the update, in one transaction. */
    method MoveFolder(user: Id, primaries: Primaries, f: Id, target: Id) returns (r: MoveResult)
      requires Closed(folders) && Acyclic(folders)
      modifies this
      ensures var m := old(folders);
        var found := f in m && m[f].owner == user && target in m && m[target].owner == user;
        var sameDrive := found && DriveOf(primaries, m[f]) == DriveOf(primaries, m[target]);
        var noCycle := sameDrive && Acyclic(Moved(m, f, Some(target)));
        && (r.NotFound? <==> !found)
        && (r.CrossDrive? <==> found && !sameDrive)
        && (r.WouldCycle? <==> sameDrive && !noCycle)
        && (r.DuplicateName? <==> noCycle && NameTaken(m, f, Some(target), m[f].name))
        && (r.Done? <==> noCycle && !NameTaken(m, f, Some(target), m[f].name))
      ensures folders == if r.Done? then Moved(old(folders), f, Some(target)) else old(folders)
      ensures Closed(folders) && Acyclic(folders)
    {
      if !Owned(folders, user, f) || !Owned(folders, user, target) { return NotFound; }
      SameEffectiveDriveIff(primaries, folders[f], folders[target]);
      if !SameEffectiveDrive(PrimaryOf(primaries, user), folders[f].drive, folders[target].drive) {
        return CrossDrive;
      }
      CycleCheckIsExact(folders, f, target);
      if WouldCreateCycle(folders, f, target) { return WouldCycle; }
      r := UpdateFolderParent(f, Some(target));
    }

    /** UpdateFolderName: the unique name is its only check. */
    method UpdateFolderName(f: Id, name: string) returns (r: MoveResult)
      modifies this
      ensures r.NotFound? <==> f !in old(folders)
      ensures r.DuplicateName? <==> f in old(folders) && NameTaken(old(folders), f, old(folders)[f].parent, name)
      ensures r.NotFound? || r.DuplicateName? || r.Done?
      ensures folders == if r.Done? then Renamed(old(folders), f, name) else old(folders)
    {
      if f !in folders { return NotFound; }
      if NameTaken(folders, f, folders[f].parent, name) { return DuplicateName; }
      folders := folders[f := folders[f].(name := name)];
      return Done;
    }

    /**
     * WebDAV MOVE of a folder: to the root or under a folder, whatever the drives, under the name
     * `leaf`. The folder is renamed before it is reparented, so the name must be free in both
     * places; `fileThere` says that a file has it at the destination.
     */
    method MoveByPath(user: Id, f: Id, parent: Option<Id>, leaf: string, fileThere: bool) returns (r: MoveResult)
      requires Closed(folders) && Acyclic(folders)
      modifies this
      ensures var m := old(folders);
        var found :=
          f in m && m[f].owner == user && (parent.Some? ==> parent.value in m && m[parent.value].owner == user);
        var noCycle := found && Acyclic(Moved(m, f, parent));
        var free := noCycle && !NameTaken(m, f, parent, leaf);
        var blocked := free && m[f].name != leaf && NameTaken(m, f, m[f].parent, leaf);
        && (r.NotFound? <==> !found)
        && (r.WouldCycle? <==> found && !noCycle)
        && (r.DuplicateName? <==> (noCycle && !free) || (!fileThere && blocked))
        && (r.FileThere? <==> free && fileThere)
        && (r.Done? <==> free && !fileThere && !blocked)
      ensures folders == if r.Done? then Moved(Renamed(old(folders), f, leaf), f, parent) else old(folders)
      ensures Closed(folders) && Acyclic(folders)
    {
      if !Owned(folders, user, f) { return NotFound; }
      if parent.Some? {
        if !Owned(folders, user, parent.value) { return NotFound; }
        CycleCheckIsExact(folders, f, parent.value);
        if WouldCreateCycle(folders, f, parent.value) { return WouldCycle; }
      } else {
        MoveToRootKeepsAcyclic(folders, f);
      }
      if NameTaken(folders, f, parent, leaf) { return DuplicateName; }
      if fileThere { return FileThere; }
      RenamingKeepsEdges(folders, f, leaf, parent);
      if folders[f].name != leaf {
        r := UpdateFolderName(f, leaf);
        if !r.Done? { return; }
      }
      assert folders == Renamed(old(folders), f, leaf);
      r := UpdateFolderParent(f, parent);
    }

    method SetFolderSubtreeDriveID(f: Id, drive: Id)
      requires Closed(folders) && Acyclic(folders)
      modifies this
      ensures folders == Retagged(old(folders), f, drive)
      ensures folders.Keys == old(folders).Keys
      ensures forall g <- folders | IsDescendant(old(folders), f, g) ::
          folders[g] == old(folders)[g].(drive := Some(drive))
      ensures forall g <- folders | !IsDescendant(old(folders), f, g) :: folders[g] == old(folders)[g]
      ensures Closed(folders) && Acyclic(folders)
    {
      RetaggingKeepsParents(folders, f, drive);
      var tree := Subtree(folders, f);
      ghost var before := folders;
      folders := map g | g in folders :: if g in tree then folders[g].(drive := Some(drive)) else folders[g];
      forall g <- before ensures g in tree <==> IsDescendant(before, f, g) { SubtreeIffDescendant(before, f, g); }
    }
  }
}
