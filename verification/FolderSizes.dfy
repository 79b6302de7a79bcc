/**
 * The recursive folder size (folderListSelect in api/db/folders.go): what it adds up, and
 * how a move changes it.
 */
module FolderSizes {
  import opened Prelude
  import opened Sums
  import opened Forest
  import opened Subtrees

  /** `folder` is None for a file at the root. */
  datatype File = File(folder: Option<Id>, size: int)

  type Files = map<Id, File>

  /** The sizes of the files whose folder is one of `folders`. */
  function SizesIn(files: Files, folders: set<Id>): map<Id, int> {
    map x | x in files && files[x].folder.Some? && files[x].folder.value in folders :: files[x].size
  }

  /** size_bytes of a folder: every file in its subtree. */
  function Size(m: Folders, files: Files, f: Id): int
    requires Closed(m) && Acyclic(m)
  {
    Total(SizesIn(files, Subtree(m, f)))
  }

  /** The files directly in a folder. */
  function DirectSize(files: Files, f: Id): int { Total(SizesIn(files, {f})) }

  lemma SizesInUnion(files: Files, a: set<Id>, b: set<Id>)
    requires a !! b
    ensures Total(SizesIn(files, a + b)) == Total(SizesIn(files, a)) + Total(SizesIn(files, b))
  {
    assert SizesIn(files, a + b) == SizesIn(files, a) + SizesIn(files, b);
    TotalUnion(SizesIn(files, a), SizesIn(files, b));
  }

  // ── Disjoint subtrees ──────────────────────────────────────────────────────

  /** No member is above another. */
  ghost predicate Apart(m: Folders, tops: set<Id>)
    requires Acyclic(m)
  {
    tops <= m.Keys && forall f <- tops, g <- tops :: f in Above(m, g) ==> f == g
  }

  ghost function Sizes(m: Folders, files: Files, tops: set<Id>): map<Id, int>
    requires Closed(m) && Acyclic(m)
  {
    map f | f in tops :: Size(m, files, f)
  }

  lemma ApartSubtreesDisjoint(m: Folders, tops: set<Id>, top: Id)
    requires Closed(m) && Acyclic(m) && Apart(m, tops) && top in tops
    ensures Subtree(m, top) !! Descend(m, tops - {top})
    ensures Subtree(m, top) + Descend(m, tops - {top}) == Descend(m, tops)
  {
    forall f: Id
      ensures !(f in Subtree(m, top) && f in Descend(m, tops - {top}))
      ensures f in Descend(m, tops) <==> f in Subtree(m, top) || f in Descend(m, tops - {top})
    {
      DescendIsBelow(m, {top}, f);
      DescendIsBelow(m, tops - {top}, f);
      DescendIsBelow(m, tops, f);
      if f in m {
        if g :| g in tops - {top} && g in Above(m, f) && top in Above(m, f) {
          AboveLinear(m, f, g, top);
        }
      }
    }
  }

  lemma SizesWithTop(m: Folders, files: Files, tops: set<Id>, top: Id)
    requires Closed(m) && Acyclic(m) && top in tops
    ensures Total(Sizes(m, files, tops)) == Total(Sizes(m, files, tops - {top})) + Size(m, files, top)
  {
    var rest := Sizes(m, files, tops - {top});
    assert Sizes(m, files, tops) == rest[top := Size(m, files, top)];
    TotalInsert(rest, top, Size(m, files, top));
  }

  lemma ApartStep(m: Folders, files: Files, tops: set<Id>, top: Id)
    requires Closed(m) && Acyclic(m) && Apart(m, tops) && top in tops
    requires Total(Sizes(m, files, tops - {top})) == Total(SizesIn(files, Descend(m, tops - {top})))
    ensures Total(Sizes(m, files, tops)) == Total(SizesIn(files, Descend(m, tops)))
  {
    var rest := tops - {top};
    ApartSubtreesDisjoint(m, tops, top);
    SizesInUnion(files, Subtree(m, top), Descend(m, rest));
    SizesWithTop(m, files, tops, top);
  }

  /** Sizes of folders apart from one another add up to the size of everything under them. */
  lemma {:induction false} ApartSizesAdd(m: Folders, files: Files, tops: set<Id>)
    requires Closed(m) && Acyclic(m) && Apart(m, tops)
    ensures Total(Sizes(m, files, tops)) == Total(SizesIn(files, Descend(m, tops)))
    decreases |tops|
  {
    if tops == {} {
      assert Sizes(m, files, tops) == map[];
      assert SizesIn(files, {}) == map[];
    } else {
      var top :| top in tops;
      ApartSizesAdd(m, files, tops - {top});
      ApartStep(m, files, tops, top);
    }
  }

  lemma ChildrenAreApart(m: Folders, f: Id)
    requires Closed(m) && Acyclic(m)
    ensures Apart(m, Children(m, {f}))
  {
    var children := Children(m, {f});
    forall a <- children, b <- children | a in Above(m, b)
      ensures a == b
    {
      if a != b {
        AboveRanks(m, Rank(m), f, a);
      }
    }
  }

  /** A folder's size is its direct files plus the sizes of its children. */
  lemma SizeIsDirectPlusChildren(m: Folders, files: Files, f: Id)
    requires Closed(m) && Acyclic(m)
    ensures Size(m, files, f) == DirectSize(files, f) + Total(Sizes(m, files, Children(m, {f})))
  {
    var children := Children(m, {f});
    ChildrenAreApart(m, f);
    ApartSizesAdd(m, files, children);
    assert f !in Descend(m, children) by {
      DescendIsBelow(m, children, f);
      if f in m {
        if c :| c in children && c in Above(m, f) {
          ChildrenHaveParents(m, {f}, c);
          AboveRanks(m, Rank(m), f, c);
          assert false;
        }
      } else {
        forall c <- children ensures false { ChildrenHaveParents(m, {f}, c); }
      }
    }
    SizesInUnion(files, {f}, Descend(m, children));
  }

  // ── The whole forest ───────────────────────────────────────────────────────

  function Roots(m: Folders): set<Id> { set f | f in m && m[f].parent.None? }

  function RootFiles(files: Files): map<Id, int> { map x | x in files && files[x].folder.None? :: files[x].size }

  function AllFiles(files: Files): map<Id, int> { map x | x in files :: files[x].size }

  lemma {:induction false} RootAbove(m: Folders, f: Id) returns (root: Id)
    requires Closed(m) && Acyclic(m) && f in m
    ensures root in Roots(m) && root in Above(m, f)
    decreases Rank(m)[f]
  {
    if m[f].parent.None? {
      root := f;
    } else {
      root := RootAbove(m, m[f].parent.value);
    }
  }

  /** Root folders and root files account for every file once. */
  lemma RootSizesTotal(m: Folders, files: Files)
    requires Closed(m) && Acyclic(m)
    requires forall x <- files :: files[x].folder.Some? ==> files[x].folder.value in m
    ensures Total(Sizes(m, files, Roots(m))) + Total(RootFiles(files)) == Total(AllFiles(files))
  {
    var roots := Roots(m);
    assert Apart(m, roots);
    ApartSizesAdd(m, files, roots);
    forall f: Id ensures f in Descend(m, roots) <==> f in m {
      DescendIsBelow(m, roots, f);
      if f in m {
        var root := RootAbove(m, f);
        assert HasAbove(m, f, roots);
      }
    }
    var inFolders := SizesIn(files, Descend(m, roots));
    assert inFolders + RootFiles(files) == AllFiles(files);
    TotalUnion(inFolders, RootFiles(files));
  }

  // ── Moves ──────────────────────────────────────────────────────────────────

  /** The folders above the new parent; none for a move to the root. */
  function AboveTarget(m: Folders, target: Option<Id>): set<Id>
    requires Acyclic(m)
  {
    if target.Some? then Above(m, target.value) else {}
  }

  /**
   * After a move a folder outside the moved subtree has the chain it had; one inside has
   * its chain up to the moved folder, then the target's.
   */
  lemma {:induction false} AboveAfterMove(m: Folders, f: Id, target: Option<Id>, g: Id, x: Id)
    requires Acyclic(m) && f in m && g in m && Acyclic(Moved(m, f, target))
    requires target.Some? ==> target.value in m && !WouldCreateCycle(m, f, target.value)
    ensures x in Above(Moved(m, f, target), g) <==>
      if f in Above(m, g) then (x in Above(m, g) && f in Above(m, x)) || x in AboveTarget(m, target)
      else x in Above(m, g)
    decreases f in Above(m, g), Rank(m)[g]
  {
    var m' := Moved(m, f, target);
    if g == f {
      if target.Some? { AboveAfterMove(m, f, target, target.value, x); }
      if x in Above(m, f) && f in Above(m, x) { AboveAntisymmetric(m, f, x); }
    } else {
      assert ParentOf(m', g) == ParentOf(m, g);
      if ParentOf(m, g).Some? {
        AboveAfterMove(m, f, target, ParentOf(m, g).value, x);
      }
    }
  }

  lemma InSubtree(m: Folders, x: Id, g: Id)
    requires Closed(m) && Acyclic(m) && x in m
    ensures g in Subtree(m, x) <==> g in m && x in Above(m, g)
  {
    SubtreeIffDescendant(m, x, g);
    assert x in Above(m, x);
  }

  /** What a subtree loses and gains when f moves under the target. */
  lemma SubtreeAfterMove(m: Folders, f: Id, target: Option<Id>, x: Id)
    requires Closed(m) && Acyclic(m) && f in m && x in m
    requires target.Some? ==> target.value in m && !WouldCreateCycle(m, f, target.value)
    requires Acyclic(Moved(m, f, target))
    ensures Closed(Moved(m, f, target))
    ensures Subtree(Moved(m, f, target), x) ==
      (if x != f && x in Above(m, f) then Subtree(m, x) - Subtree(m, f) else Subtree(m, x))
      + (if x in AboveTarget(m, target) then Subtree(m, f) else {})
  {
    var m' := Moved(m, f, target);
    var kept := if x != f && x in Above(m, f) then Subtree(m, x) - Subtree(m, f) else Subtree(m, x);
    forall g: Id
      ensures g in Subtree(m', x) <==> g in kept || (x in AboveTarget(m, target) && g in Subtree(m, f))
    {
      InSubtree(m', x, g);
      InSubtree(m, x, g);
      InSubtree(m, f, g);
      if g in m {
        AboveAfterMove(m, f, target, g, x);
        if x in Above(m, g) && f in Above(m, g) { AboveLinear(m, g, x, f); }
        if x in Above(m, f) && f in Above(m, x) { AboveAntisymmetric(m, x, f); }
      }
    }
  }

  /** The subtrees of two folders are nested or disjoint. */
  lemma SubtreesNestOrAreDisjoint(m: Folders, x: Id, f: Id)
    requires Closed(m) && Acyclic(m) && x in m && f in m
    ensures x in Above(m, f) ==> Subtree(m, f) <= Subtree(m, x)
    ensures x !in Above(m, f) && f !in Above(m, x) ==> Subtree(m, f) !! Subtree(m, x)
  {
    forall g: Id
      ensures x in Above(m, f) && g in Subtree(m, f) ==> g in Subtree(m, x)
      ensures g in Subtree(m, f) && g in Subtree(m, x) ==> x in Above(m, f) || f in Above(m, x)
    {
      InSubtree(m, x, g);
      InSubtree(m, f, g);
      if g in Subtree(m, f) {
        if x in Above(m, f) { AboveTransitive(m, g, f, x); }
        if g in Subtree(m, x) { AboveLinear(m, g, x, f); }
      }
    }
  }

  /**
   * A move takes the moved folder's size from every folder properly above it and gives it
   * to the target and every folder above that; a folder on both chains keeps its size, and
   * so does every other folder.
   */
  lemma MoveShiftsSizes(m: Folders, files: Files, f: Id, target: Option<Id>, x: Id)
    requires Closed(m) && Acyclic(m) && f in m && x in m
    requires target.Some? ==> target.value in m && !WouldCreateCycle(m, f, target.value)
    ensures Closed(Moved(m, f, target)) && Acyclic(Moved(m, f, target))
    ensures Size(Moved(m, f, target), files, x) == Size(m, files, x)
      - (if x != f && x in Above(m, f) then Size(m, files, f) else 0)
      + (if x in AboveTarget(m, target) then Size(m, files, f) else 0)
  {
    if target.Some? { MoveKeepsRanks(m, f, target.value); } else { MoveToRootKeepsAcyclic(m, f); }
    SubtreeAfterMove(m, f, target, x);
    SubtreesNestOrAreDisjoint(m, x, f);
    var tree, moved := Subtree(m, x), Subtree(m, f);
    var kept := if x != f && x in Above(m, f) then tree - moved else tree;
    if x != f && x in Above(m, f) {
      SizesInUnion(files, tree - moved, moved);
      assert tree - moved + moved == tree;
    }
    if x in AboveTarget(m, target) {
      if f in Above(m, x) { AboveTransitive(m, target.value, x, f); }
      assert kept !! moved;
      SizesInUnion(files, kept, moved);
    } else {
      assert kept + {} == kept;
    }
  }
}
