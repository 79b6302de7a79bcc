/**
 * The folder forest: parent pointers, the cycle check before a move, and the recursive
 * walks up and down it (api/db/folders.go, and the subtree query in api/db/files.go).
 */
module Forest {
  import opened Prelude

  datatype Folder = Folder(owner: Id, parent: Option<Id>, drive: Option<Id>, name: string)

  type Folders = map<Id, Folder>

  /** The join a recursive step follows upwards: the parent row, if there is one. */
  function ParentOf(m: Folders, f: Id): Option<Id> {
    if f in m && m[f].parent.Some? && m[f].parent.value in m then m[f].parent else None
  }

  /** Every parent reference resolves, as the foreign key demands. */
  ghost predicate Closed(m: Folders) {
    forall f <- m :: m[f].parent.Some? ==> m[f].parent.value in m
  }

  // ── Acyclicity ─────────────────────────────────────────────────────────────

  /** Ranks fall on the way up, so no upward walk goes on for ever. */
  ghost predicate Ranks(rank: map<Id, nat>, m: Folders) {
    && (forall f <- m :: f in rank)
    && forall f <- m :: ParentOf(m, f).Some? ==> rank[ParentOf(m, f).value] < rank[f]
  }

  ghost predicate Acyclic(m: Folders) { exists rank :: Ranks(rank, m) }

  ghost function Rank(m: Folders): (rank: map<Id, nat>)
    requires Acyclic(m)
    ensures Ranks(rank, m)
  {
    var rank :| Ranks(rank, m);
    rank
  }

  /** The folder k steps up from f. */
  ghost function Up(m: Folders, f: Id, k: nat): Option<Id> {
    if k == 0 then (if f in m then Some(f) else None)
    else
      match Up(m, f, k - 1)
      case None => None
      case Some(g) => ParentOf(m, g)
  }

  /** No folder is its own proper ancestor. */
  ghost predicate NoCycle(m: Folders) {
    forall f: Id, k: nat | 0 < k :: f in m ==> Up(m, f, k) != Some(f)
  }

  lemma {:induction false} UpCompose(m: Folders, f: Id, j: nat, g: Id, k: nat)
    requires Up(m, f, j) == Some(g)
    ensures Up(m, f, j + k) == Up(m, g, k)
  {
    UpStaysInside(m, f, j);
    if k > 0 {
      UpCompose(m, f, j, g, k - 1);
    }
  }

  lemma {:induction false} UpStaysInside(m: Folders, f: Id, k: nat)
    ensures Up(m, f, k).Some? ==> Up(m, f, k).value in m
  {
  }

  lemma {:induction false} RankFallsAlong(m: Folders, rank: map<Id, nat>, f: Id, k: nat)
    requires Ranks(rank, m) && f in m && Up(m, f, k).Some?
    ensures Up(m, f, k).value in m && rank[Up(m, f, k).value] + k <= rank[f]
  {
    UpStaysInside(m, f, k);
    if k > 0 {
      RankFallsAlong(m, rank, f, k - 1);
    }
  }

  ghost predicate ProperlyAbove(m: Folders, g: Id, f: Id) { exists k: nat :: 0 < k && Up(m, f, k) == Some(g) }

  ghost function ProperAncestors(m: Folders, f: Id): set<Id> {
    set g | g in m && ProperlyAbove(m, g, f)
  }

  /** In a forest without cycles a folder has more proper ancestors than its parent. */
  lemma ParentHasFewerAncestors(m: Folders, f: Id)
    requires NoCycle(m) && ParentOf(m, f).Some?
    ensures |ProperAncestors(m, ParentOf(m, f).value)| < |ProperAncestors(m, f)|
  {
    var p := ParentOf(m, f).value;
    var above, mine := ProperAncestors(m, p), ProperAncestors(m, f);
    assert Up(m, f, 1) == Some(p) by { assert Up(m, f, 0) == Some(f); }
    assert p in mine;
    forall g <- above ensures g in mine {
      var k: nat :| 0 < k && Up(m, p, k) == Some(g);
      UpCompose(m, f, 1, p, k);
      assert Up(m, f, 1 + k) == Some(g);
    }
    assert p !in above;
    SubsetIsSmaller(above, mine, p);
  }

  lemma SubsetIsSmaller(small: set<Id>, large: set<Id>, extra: Id)
    requires small <= large && extra in large && extra !in small
    ensures |small| < |large|
  {
    var rest := large - small;
    assert extra in rest;
    assert large == small + rest;
  }

  /** Having ranks is the same as having no cycle. */
  lemma AcyclicIffNoCycle(m: Folders)
    ensures Acyclic(m) <==> NoCycle(m)
  {
    if Acyclic(m) {
      forall f: Id, k: nat | 0 < k && f in m
        ensures Up(m, f, k) != Some(f)
      {
        if Up(m, f, k).Some? { RankFallsAlong(m, Rank(m), f, k); }
      }
    }
    if NoCycle(m) {
      var rank := map f | f in m :: |ProperAncestors(m, f)|;
      forall f <- m | ParentOf(m, f).Some?
        ensures rank[ParentOf(m, f).value] < rank[f]
      {
        ParentHasFewerAncestors(m, f);
      }
      assert Ranks(rank, m);
    }
  }

  // ── The walk up ────────────────────────────────────────────────────────────

  /**
   * The ids of `chain`: the folder, then its parent, and so on to the root. Terminates on
   * an acyclic forest; an unknown folder has no chain.
   */
  function Above(m: Folders, f: Id): set<Id>
    requires Acyclic(m)
    decreases if f in m then Rank(m)[f] + 1 else 0
  {
    if f !in m then {}
    else
      match ParentOf(m, f)
      case None => {f}
      case Some(p) => {f} + Above(m, p)
  }

  /** FolderWouldCreateCycle: the target is the folder itself or lies below it. */
  predicate WouldCreateCycle(m: Folders, f: Id, target: Id)
    requires Acyclic(m)
  {
    f == target || f in Above(m, target)
  }

  /** IsFolderDescendant. */
  predicate IsDescendant(m: Folders, ancestor: Id, candidate: Id)
    requires Acyclic(m)
  {
    ancestor == candidate || ancestor in Above(m, candidate)
  }

  /** The recursive walk reaches exactly the folders some number of steps up. */
  lemma AboveIsUp(m: Folders, f: Id, g: Id)
    requires Acyclic(m)
    ensures g in Above(m, f) <==> exists k: nat :: Up(m, f, k) == Some(g)
  {
    if g in Above(m, f) {
      var k := StepsTo(m, f, g);
    } else if k: nat :| Up(m, f, k) == Some(g) {
      UpIsAbove(m, f, g, k);
    }
  }

  lemma {:induction false} StepsTo(m: Folders, f: Id, g: Id) returns (k: nat)
    requires Acyclic(m) && g in Above(m, f)
    ensures Up(m, f, k) == Some(g)
    decreases if f in m then Rank(m)[f] + 1 else 0
  {
    if g == f {
      k := 0;
    } else {
      var p := ParentOf(m, f).value;
      k := StepsTo(m, p, g);
      assert Up(m, f, 0) == Some(f) && Up(m, f, 1) == Some(p);
      UpCompose(m, f, 1, p, k);
      k := k + 1;
    }
  }

  lemma {:induction false} UpIsAbove(m: Folders, f: Id, g: Id, k: nat)
    requires Acyclic(m) && Up(m, f, k) == Some(g)
    ensures g in Above(m, f)
    decreases k
  {
    if k > 0 {
      UpStaysInside(m, f, k - 1);
      var child := Up(m, f, k - 1).value;
      UpIsAbove(m, f, child, k - 1);
      assert g in Above(m, g);
      AboveTransitive(m, f, child, g);
    }
  }

  lemma {:induction false} AboveRanks(m: Folders, rank: map<Id, nat>, f: Id, g: Id)
    requires Acyclic(m) && Ranks(rank, m) && f in m && g in Above(m, f)
    ensures g in m && rank[g] <= rank[f] && (g != f ==> rank[g] < rank[f])
    decreases Rank(m)[f]
  {
    if g != f {
      AboveRanks(m, rank, ParentOf(m, f).value, g);
    }
  }

  lemma {:induction false} AboveTransitive(m: Folders, f: Id, g: Id, h: Id)
    requires Acyclic(m) && g in Above(m, f) && h in Above(m, g)
    ensures h in Above(m, f)
    decreases if f in m then Rank(m)[f] + 1 else 0
  {
    if g != f {
      AboveTransitive(m, ParentOf(m, f).value, g, h);
    }
  }

  /** Two folders above the same one are above one another. */
  lemma {:induction false} AboveLinear(m: Folders, f: Id, g: Id, h: Id)
    requires Acyclic(m) && g in Above(m, f) && h in Above(m, f)
    ensures g in Above(m, h) || h in Above(m, g)
    decreases if f in m then Rank(m)[f] + 1 else 0
  {
    if g != f && h != f {
      AboveLinear(m, ParentOf(m, f).value, g, h);
    }
  }

  lemma AboveAntisymmetric(m: Folders, f: Id, g: Id)
    requires Acyclic(m) && g in Above(m, f) && f in Above(m, g)
    ensures f == g
  {
    AboveRanks(m, Rank(m), f, g);
    AboveRanks(m, Rank(m), g, f);
  }

  // ── Moves ──────────────────────────────────────────────────────────────────

  function Moved(m: Folders, f: Id, parent: Option<Id>): Folders
    requires f in m
  {
    m[f := m[f].(parent := parent)]
  }

  function Renamed(m: Folders, f: Id, name: string): Folders
    requires f in m
  {
    m[f := m[f].(name := name)]
  }

  /** Below a moved subtree ranks are shifted past the new parent's. */
  lemma MoveKeepsRanks(m: Folders, f: Id, target: Id)
    requires Acyclic(m) && f in m && target in m && !WouldCreateCycle(m, f, target)
    ensures Acyclic(Moved(m, f, Some(target)))
  {
    var m', rank := Moved(m, f, Some(target)), Rank(m);
    var rank' := map g | g in m :: if f in Above(m, g) then rank[g] + rank[target] + 1 else rank[g];
    forall g <- m' | ParentOf(m', g).Some?
      ensures rank'[ParentOf(m', g).value] < rank'[g]
    {
      if g != f {
        assert ParentOf(m', g) == ParentOf(m, g);
      }
    }
    assert Ranks(rank', m');
  }

  /** Detaching a folder, or leaving it at the root, never makes a cycle. */
  lemma MoveToRootKeepsAcyclic(m: Folders, f: Id)
    requires Acyclic(m) && f in m
    ensures Acyclic(Moved(m, f, None))
  {
    var m' := Moved(m, f, None);
    forall g <- m' | ParentOf(m', g).Some?
      ensures ParentOf(m', g) == ParentOf(m, g)
    {
    }
    assert Ranks(Rank(m), m');
  }

  /** In the moved forest a walk from `g` still reaches the moved folder, if it did before. */
  lemma {:induction false} MovedWalkReaches(m: Folders, f: Id, target: Id, rank: map<Id, nat>, g: Id)
    requires Acyclic(m) && f in m && g in m && f in Above(m, g)
    requires Ranks(rank, Moved(m, f, Some(target)))
    ensures rank[f] <= rank[g]
    decreases Rank(m)[g]
  {
    if g != f {
      var m' := Moved(m, f, Some(target));
      assert ParentOf(m', g) == ParentOf(m, g);
      MovedWalkReaches(m, f, target, rank, ParentOf(m, g).value);
    }
  }

  /** The cycle check is exact. */
  lemma CycleCheckIsExact(m: Folders, f: Id, target: Id)
    requires Acyclic(m) && f in m && target in m
    ensures Acyclic(Moved(m, f, Some(target))) <==> !WouldCreateCycle(m, f, target)
  {
    var m' := Moved(m, f, Some(target));
    if !WouldCreateCycle(m, f, target) {
      MoveKeepsRanks(m, f, target);
    } else if Acyclic(m') {
      var rank := Rank(m');
      assert ParentOf(m', f) == Some(target);
      if f != target {
        MovedWalkReaches(m, f, target, rank, target);
      }
      assert false;
    }
  }
}
