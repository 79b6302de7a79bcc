/**
 * Walking down the folder forest, and what the two directions have to do with each other
 * (api/db/folders.go, api/db/files.go).
 */
module Subtrees {
  import opened Prelude
  import opened Sums
  import opened Forest

  ghost predicate HasAbove(m: Folders, f: Id, frontier: set<Id>)
    requires Acyclic(m)
  {
    exists g <- frontier :: g in Above(m, f)
  }

  /** The folders that some member of the frontier is above, or is. */
  ghost function Below(m: Folders, frontier: set<Id>): set<Id>
    requires Acyclic(m)
  {
    set f | f in m && HasAbove(m, f, frontier)
  }

  function Children(m: Folders, frontier: set<Id>): set<Id> {
    set f | f in m && m[f].parent.Some? && m[f].parent.value in frontier
  }

  lemma ChildrenHaveParents(m: Folders, frontier: set<Id>, c: Id)
    requires Closed(m) && Acyclic(m) && c in Children(m, frontier)
    ensures ParentOf(m, c).Some? && ParentOf(m, c).value in frontier * m.Keys
    ensures ParentOf(m, c).value in Above(m, c) && HasAbove(m, c, frontier)
  {
  }

  lemma {:induction false} ChildOnTheWay(m: Folders, f: Id, g: Id) returns (child: Id)
    requires Acyclic(m) && g in Above(m, f) && g != f
    ensures child in Above(m, f) && ParentOf(m, child) == Some(g)
    decreases if f in m then Rank(m)[f] + 1 else 0
  {
    var p := ParentOf(m, f).value;
    if p == g {
      child := f;
    } else {
      child := ChildOnTheWay(m, p, g);
    }
  }

  lemma ChildrenAreBelow(m: Folders, frontier: set<Id>, f: Id)
    requires Closed(m) && Acyclic(m) && HasAbove(m, f, Children(m, frontier))
    ensures HasAbove(m, f, frontier)
  {
    var c :| c in Children(m, frontier) && c in Above(m, f);
    ChildrenHaveParents(m, frontier, c);
    AboveTransitive(m, f, c, ParentOf(m, c).value);
  }

  /** A frontier folder of lowest rank is not below any child of the frontier. */
  lemma LowestIsLeftBehind(m: Folders, frontier: set<Id>, lowest: Id)
    requires Closed(m) && Acyclic(m) && lowest in frontier * m.Keys
    requires forall f <- frontier * m.Keys :: Rank(m)[lowest] <= Rank(m)[f]
    ensures !HasAbove(m, lowest, Children(m, frontier))
  {
    if c :| c in Children(m, frontier) && c in Above(m, lowest) {
      ChildrenHaveParents(m, frontier, c);
      AboveRanks(m, Rank(m), lowest, c);
      assert false;
    }
  }

  lemma LowestExists(m: Folders, ids: set<Id>) returns (lowest: Id)
    requires Acyclic(m) && ids != {} && ids <= m.Keys
    ensures lowest in ids && forall f <- ids :: Rank(m)[lowest] <= Rank(m)[f]
  {
    var ranks := map f | f in ids :: Rank(m)[f];
    var some :| some in ids;
    assert some in ranks;
    lowest := SmallestOf(ranks);
    assert forall f <- ids :: f in ranks && ranks[f] == Rank(m)[f];
  }

  /** Stepping down leaves a folder behind, so the walk down ends. */
  lemma FrontierShrinks(m: Folders, frontier: set<Id>)
    requires Closed(m) && Acyclic(m)
    ensures Below(m, Children(m, frontier)) <= Below(m, frontier)
    ensures if frontier * m.Keys == {} then Children(m, frontier) == {}
            else Below(m, Children(m, frontier)) < Below(m, frontier)
  {
    forall f <- Below(m, Children(m, frontier)) ensures f in Below(m, frontier) {
      ChildrenAreBelow(m, frontier, f);
    }
    if frontier * m.Keys == {} {
      forall c <- Children(m, frontier) ensures false { ChildrenHaveParents(m, frontier, c); }
    } else {
      var lowest := LowestExists(m, frontier * m.Keys);
      LowestIsLeftBehind(m, frontier, lowest);
      assert lowest in Above(m, lowest) && HasAbove(m, lowest, frontier);
      assert lowest in Below(m, frontier) && lowest !in Below(m, Children(m, frontier));
    }
  }

  /**
   * The recursive part of the downward queries: the frontier, then its children, and so
   * on until no folder is found.
   */
  function Descend(m: Folders, frontier: set<Id>): set<Id>
    requires Closed(m) && Acyclic(m)
    decreases Below(m, frontier), |frontier|
  {
    FrontierShrinks(m, frontier);
    if frontier == {} then {} else frontier + Descend(m, Children(m, frontier))
  }

  /** What SetFolderSubtreeDriveID, ListFilesInFolderSubtree and the size query range over. */
  function Subtree(m: Folders, f: Id): set<Id>
    requires Closed(m) && Acyclic(m)
  {
    Descend(m, {f})
  }

  /** Below the frontier means in it, or below one of its children. */
  lemma BelowSplits(m: Folders, frontier: set<Id>, f: Id)
    requires Closed(m) && Acyclic(m) && f in m
    ensures HasAbove(m, f, frontier) <==> f in frontier || HasAbove(m, f, Children(m, frontier))
  {
    if g :| g in frontier && g in Above(m, f) && g != f {
      var c := ChildOnTheWay(m, f, g);
      AboveRanks(m, Rank(m), f, c);
      assert c in Children(m, frontier);
    }
    if HasAbove(m, f, Children(m, frontier)) { ChildrenAreBelow(m, frontier, f); }
    assert f in Above(m, f);
  }

  lemma {:induction false} DescendIsBelow(m: Folders, frontier: set<Id>, f: Id)
    requires Closed(m) && Acyclic(m)
    ensures f in Descend(m, frontier) <==> f in frontier || (f in m && HasAbove(m, f, frontier))
    decreases Below(m, frontier), |frontier|
  {
    FrontierShrinks(m, frontier);
    if frontier != {} {
      DescendIsBelow(m, Children(m, frontier), f);
      if f in m { BelowSplits(m, frontier, f); }
    }
  }

  /** The walks agree: a folder is in the subtree exactly when the upward check says so. */
  lemma SubtreeIffDescendant(m: Folders, f: Id, g: Id)
    requires Closed(m) && Acyclic(m)
    ensures g in Subtree(m, f) <==> IsDescendant(m, f, g)
  {
    DescendIsBelow(m, {f}, g);
  }

  // ── Breadcrumbs ────────────────────────────────────────────────────────────

  /** GetFolderAncestors: the user's chain down to the folder, root first. */
  function Ancestors(m: Folders, user: Id, f: Id): seq<Id>
    requires Acyclic(m)
    decreases if f in m then Rank(m)[f] + 1 else 0
  {
    if f !in m || m[f].owner != user then []
    else if ParentOf(m, f).None? then [f]
    else Ancestors(m, user, ParentOf(m, f).value) + [f]
  }

  /** Folders live under folders of the same owner. */
  ghost predicate SameOwner(m: Folders) {
    forall f <- m :: ParentOf(m, f).Some? ==> m[ParentOf(m, f).value].owner == m[f].owner
  }

  /** A path from a root down to the folder, each entry the parent of the next, none twice. */
  ghost predicate RootPath(m: Folders, path: seq<Id>, f: Id) {
    && path != [] && path[|path| - 1] == f && ParentOf(m, path[0]).None?
    && (forall i | 0 <= i < |path| - 1 :: ParentOf(m, path[i + 1]) == Some(path[i]))
    && (forall i, j | 0 <= i < j < |path| :: path[i] != path[j])
  }

  lemma {:induction false} AncestorsAreRootPath(m: Folders, user: Id, f: Id)
    requires Acyclic(m) && SameOwner(m) && f in m && m[f].owner == user
    ensures RootPath(m, Ancestors(m, user, f), f)
    ensures forall g: Id :: g in Ancestors(m, user, f) <==> g in Above(m, f)
    decreases Rank(m)[f]
  {
    if ParentOf(m, f).Some? {
      var p := ParentOf(m, f).value;
      AncestorsAreRootPath(m, user, p);
      if f in Above(m, p) { AboveRanks(m, Rank(m), p, f); }
      assert f !in Ancestors(m, user, p);
    }
  }

  /** A breadcrumb shows the user's own folders alone, and nothing for a folder of somebody else. */
  lemma {:induction false} AncestorsAreOwned(m: Folders, user: Id, f: Id)
    requires Acyclic(m)
    ensures forall g <- Ancestors(m, user, f) :: g in m && m[g].owner == user
    ensures Ancestors(m, user, f) == [] <==> f !in m || m[f].owner != user
    decreases if f in m then Rank(m)[f] + 1 else 0
  {
    if f in m && m[f].owner == user && ParentOf(m, f).Some? {
      AncestorsAreOwned(m, user, ParentOf(m, f).value);
    }
  }

  // ── Retagging a subtree ────────────────────────────────────────────────────

  /** SetFolderSubtreeDriveID. */
  function Retagged(m: Folders, f: Id, drive: Id): Folders
    requires Closed(m) && Acyclic(m)
  {
    var tree := Subtree(m, f);
    map g | g in m :: if g in tree then m[g].(drive := Some(drive)) else m[g]
  }

  /** Users' primary drives. */
  type Primaries = map<Id, Id>

  /** The drive a folder is on once a missing pin is resolved to its owner's primary drive. */
  function DriveOf(primaries: Primaries, folder: Folder): Option<Id> {
    if folder.drive.Some? then folder.drive
    else if folder.owner in primaries then Some(primaries[folder.owner])
    else None
  }

  /** Every subfolder is on its parent's drive, with missing pins resolved. */
  ghost predicate OneDrive(m: Folders, primaries: Primaries) {
    forall f <- m :: ParentOf(m, f).Some? ==> DriveOf(primaries, m[f]) == DriveOf(primaries, m[ParentOf(m, f).value])
  }

  /** Every subfolder has the pin of its parent, or neither has one. */
  ghost predicate InheritsDrive(m: Folders) {
    forall f <- m :: ParentOf(m, f).Some? ==> m[f].drive == m[ParentOf(m, f).value].drive
  }

  lemma InheritsIsNoPrimaries(m: Folders)
    ensures InheritsDrive(m) <==> OneDrive(m, map[])
  {
  }

  /** Every owner of a folder has a primary drive. */
  ghost predicate AllHavePrimary(m: Folders, primaries: Primaries) { forall f <- m :: m[f].owner in primaries }

  /** In a forest, inheriting the pin is being on one drive whatever the owners' primaries are, or become. */
  lemma InheritsIffForAllPrimaries(m: Folders)
    requires SameOwner(m)
    ensures InheritsDrive(m) <==> (forall primaries | AllHavePrimary(m, primaries) :: OneDrive(m, primaries))
  {
    if forall primaries | AllHavePrimary(m, primaries) :: OneDrive(m, primaries) {
      forall f <- m | ParentOf(m, f).Some? ensures m[f].drive == m[ParentOf(m, f).value].drive {
        var a, b := m[f].drive, m[ParentOf(m, f).value].drive;
        var other := 1 + (if a.Some? then a.value else 0) + (if b.Some? then b.value else 0);
        var primaries: Primaries := map g | g in m :: m[g].owner := other;
        assert AllHavePrimary(m, primaries);
        assert DriveOf(primaries, m[f]) == DriveOf(primaries, m[ParentOf(m, f).value]);
      }
    }
  }

  lemma RetaggingKeepsParents(m: Folders, f: Id, drive: Id)
    requires Closed(m) && Acyclic(m)
    ensures var m' := Retagged(m, f, drive);
      Closed(m') && Acyclic(m') && m'.Keys == m.Keys && forall g: Id :: ParentOf(m', g) == ParentOf(m, g)
  {
    assert Ranks(Rank(m), Retagged(m, f, drive));
  }

  /** A folder other than the top of a subtree is in it exactly when its parent is. */
  lemma SubtreeThroughParent(m: Folders, f: Id, g: Id)
    requires Closed(m) && Acyclic(m) && g in m && g != f && ParentOf(m, g).Some?
    ensures g in Subtree(m, f) <==> ParentOf(m, g).value in Subtree(m, f)
  {
    SubtreeIffDescendant(m, f, g);
    SubtreeIffDescendant(m, f, ParentOf(m, g).value);
    assert ParentOf(m, g).value in Above(m, ParentOf(m, g).value);
  }

  /** Below the top of a retagged subtree, and outside it, edges stay on one drive. */
  lemma RetaggedEdge(m: Folders, primaries: Primaries, f: Id, drive: Id, g: Id)
    requires Closed(m) && Acyclic(m) && OneDrive(m, primaries) && g in m && g != f && ParentOf(m, g).Some?
    ensures var m' := Retagged(m, f, drive);
      DriveOf(primaries, m'[g]) == DriveOf(primaries, m'[ParentOf(m, g).value])
  {
    SubtreeThroughParent(m, f, g);
  }

  lemma RetaggedDrive(m: Folders, primaries: Primaries, f: Id, drive: Id, g: Id)
    requires Closed(m) && Acyclic(m) && g in m
    ensures DriveOf(primaries, Retagged(m, f, drive)[g]) ==
      if f in Above(m, g) then Some(drive) else DriveOf(primaries, m[g])
  {
    SubtreeIffDescendant(m, f, g);
    assert g in Above(m, g);
  }

  /** Retagging alone is safe exactly when the folder's own parent is on the drive, or absent. */
  lemma RetagInheritsIff(m: Folders, primaries: Primaries, f: Id, drive: Id)
    requires Closed(m) && Acyclic(m) && OneDrive(m, primaries) && f in m
    ensures OneDrive(Retagged(m, f, drive), primaries)
       <==> ParentOf(m, f).None? || DriveOf(primaries, m[ParentOf(m, f).value]) == Some(drive)
  {
    RetaggingKeepsParents(m, f, drive);
    var m' := Retagged(m, f, drive);
    forall g <- m | g != f && ParentOf(m, g).Some?
      ensures DriveOf(primaries, m'[g]) == DriveOf(primaries, m'[ParentOf(m, g).value])
    {
      RetaggedEdge(m, primaries, f, drive, g);
    }
    RetaggedDrive(m, primaries, f, drive, f);
    assert f in Above(m, f);
    if ParentOf(m, f).Some? {
      var p := ParentOf(m, f).value;
      RetaggedDrive(m, primaries, f, drive, p);
      if f in Above(m, p) { AboveRanks(m, Rank(m), p, f); }
    }
  }

  /**
   * Retag a subtree, then put it under a new parent: safe exactly at the root, inside the
   * subtree itself, or under a folder that is on the drive, by its pin or by its owner's primary.
   */
  lemma MigrationKeepsDrivesIff(m: Folders, primaries: Primaries, f: Id, drive: Id, parent: Option<Id>)
    requires Closed(m) && Acyclic(m) && OneDrive(m, primaries) && f in m
    requires parent.Some? ==> parent.value in m
    ensures OneDrive(Moved(Retagged(m, f, drive), f, parent), primaries)
       <==> parent.None? || WouldCreateCycle(m, f, parent.value) || DriveOf(primaries, m[parent.value]) == Some(drive)
  {
    RetaggingKeepsParents(m, f, drive);
    var m1 := Retagged(m, f, drive);
    var m2 := Moved(m1, f, parent);
    forall g <- m2 | g != f && ParentOf(m2, g).Some?
      ensures DriveOf(primaries, m2[g]) == DriveOf(primaries, m2[ParentOf(m2, g).value])
    {
      assert ParentOf(m2, g) == ParentOf(m, g);
      RetaggedEdge(m, primaries, f, drive, g);
    }
    RetaggedDrive(m, primaries, f, drive, f);
    assert f in Above(m, f);
    if parent.Some? {
      RetaggedDrive(m, primaries, f, drive, parent.value);
      assert ParentOf(m2, f) == parent;
      assert DriveOf(primaries, m2[f]) == Some(drive);
    }
  }
}
