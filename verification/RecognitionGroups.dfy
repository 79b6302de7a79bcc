/**
 * Recognition groups and their members: merging groups and purging a collection
 * (api/db/recognition.go, with the foreign keys of db/36_recognition.sql).
 */
module RecognitionGroups {
  import opened Prelude
  import opened Sums

  datatype Group = Group(collection: Id, cover: Option<Id>)

  /** `key` names the stored crop, if there is one. */
  datatype Detection = Detection(file: Id, key: Option<Id>, size: int)

  datatype Member = Member(group: Id, detection: Id)

  datatype Indexed = Indexed(collection: Id, file: Id)

  /** What the purge's DELETE returns for each row. */
  datatype Deleted = Deleted(key: Option<Id>, size: int, drive: Option<Id>)

  datatype Crop = Crop(key: Id, size: int, drive: Option<Id>)

  /** `files` holds each file's drive; `jobs` is the ledger of indexed files. */
  datatype Catalog = Catalog(groups: map<Id, Group>, members: set<Member>, detections: map<Id, Detection>,
                             jobs: set<Indexed>, files: map<Id, Option<Id>>)
  {
    /** No member or cover dangles, and every detection has its file. */
    ghost predicate ForeignKeys() {
      && (forall m <- members :: m.group in groups && m.detection in detections)
      && (forall g <- groups :: groups[g].cover.Some? ==> groups[g].cover.value in detections)
      && forall d <- detections :: detections[d].file in files
    }

    function DetectionsOf(g: Id): set<Id> { set m | m in members && m.group == g :: m.detection }

    function DetectionsOfAll(gs: set<Id>): set<Id> { set m | m in members && m.group in gs :: m.detection }

    /** The detections that belong to some group. */
    function Grouped(): set<Id> { set m | m in members :: m.detection }

    /** The members the merge's UPDATE repoints. */
    function Moved(target: Id, sources: set<Id>): set<Member> {
      set m | m in members && m.group in sources && Member(target, m.detection) !in members
    }

    /** The primary key and the reference to the target survive the UPDATE. */
    ghost predicate Mergeable(target: Id, sources: set<Id>) {
      && (forall m <- Moved(target, sources), n <- Moved(target, sources) :: m.detection == n.detection ==> m == n)
      && (Moved(target, sources) != {} ==> target in groups)
    }

    /** Some other collection's group holds the detection. */
    predicate HeldElsewhere(collection: Id, d: Id)
      requires ForeignKeys()
    {
      exists m <- members :: m.detection == d && groups[m.group].collection != collection
    }

    /** The detections of the collection's indexed files that no other collection's group holds. */
    function Doomed(collection: Id): set<Id>
      requires ForeignKeys()
    {
      set d | d in detections && Indexed(collection, detections[d].file) in jobs && !HeldElsewhere(collection, d)
    }

    /** Every member's file is in its own collection's ledger. */
    ghost predicate LedgerComplete()
      requires ForeignKeys()
    {
      forall m <- members :: Indexed(groups[m.group].collection, detections[m.detection].file) in jobs
    }
  }

  function WithoutGroups(members: set<Member>, gone: set<Id>): set<Member> {
    set m | m in members && m.group !in gone
  }

  function WithoutDetections(members: set<Member>, gone: set<Id>): set<Member> {
    set m | m in members && m.detection !in gone
  }

  function WithoutCollection(jobs: set<Indexed>, collection: Id): set<Indexed> {
    set j | j in jobs && j.collection != collection
  }

  function Uncovered(groups: map<Id, Group>, gone: set<Id>): map<Id, Group> {
    map g | g in groups ::
      if groups[g].cover.Some? && groups[g].cover.value in gone then groups[g].(cover := None) else groups[g]
  }

  /** The stored crops that count against a drive. */
  function CropSizes(detections: map<Id, Detection>, files: map<Id, Option<Id>>, drive: Option<Id>): map<Id, int>
    requires forall d <- detections :: detections[d].file in files
  {
    map d | d in detections && detections[d].key.Some? && files[detections[d].file] == drive :: detections[d].size
  }

  function Bytes(crops: seq<Crop>, drive: Option<Id>): int {
    if crops == [] then 0
    else Bytes(crops[..|crops| - 1], drive) + (if crops[|crops| - 1].drive == drive then crops[|crops| - 1].size else 0)
  }

  lemma BytesAppend(crops: seq<Crop>, crop: Crop, drive: Option<Id>)
    ensures Bytes(crops + [crop], drive) == Bytes(crops, drive) + (if crop.drive == drive then crop.size else 0)
  {
  }

  function Only(detections: map<Id, Detection>, ids: set<Id>): map<Id, Detection> {
    map d | d in detections && d in ids :: detections[d]
  }

  lemma CropSizesSplit(detections: map<Id, Detection>, files: map<Id, Option<Id>>, gone: set<Id>, drive: Option<Id>)
    requires forall d <- detections :: detections[d].file in files
    requires gone <= detections.Keys
    ensures Total(CropSizes(detections, files, drive)) ==
            Total(CropSizes(detections - gone, files, drive)) +
            Total(CropSizes(Only(detections, gone), files, drive))
  {
    var kept := CropSizes(detections - gone, files, drive);
    var lost := CropSizes(Only(detections, gone), files, drive);
    assert kept + lost == CropSizes(detections, files, drive);
    TotalUnion(kept, lost);
  }

  lemma CropSizesRemove(rows: map<Id, Detection>, files: map<Id, Option<Id>>, d: Id, drive: Option<Id>)
    requires forall d <- rows :: rows[d].file in files
    requires d in rows
    ensures Total(CropSizes(rows, files, drive)) ==
            Total(CropSizes(rows - {d}, files, drive)) +
            (if rows[d].key.Some? && files[rows[d].file] == drive then rows[d].size else 0)
  {
    var sizes := CropSizes(rows, files, drive);
    assert CropSizes(rows - {d}, files, drive) == sizes - {d};
    if d in sizes {
      TotalRemove(sizes, d);
    } else {
      assert sizes - {d} == sizes;
    }
  }

  function Returned(d: Detection, files: map<Id, Option<Id>>): Deleted
    requires d.file in files
  {
    Deleted(d.key, d.size, files[d.file])
  }

  /** The crops of the returned rows, in their order; rows without a key have none. */
  function CropsOf(rows: seq<Deleted>): seq<Crop> {
    if rows == [] then [] else
      var row := rows[|rows| - 1];
      CropsOf(rows[..|rows| - 1]) + if row.key.Some? then [Crop(row.key.value, row.size, row.drive)] else []
  }

  /** The loop over the returned rows. */
  method ScanCrops(rows: seq<Deleted>) returns (crops: seq<Crop>)
    ensures crops == CropsOf(rows)
  {
    crops := [];
    for i := 0 to |rows|
      invariant crops == CropsOf(rows[..i])
    {
      assert rows[..i + 1][..i] == rows[..i];
      if rows[i].key.Some? {
        crops := crops + [Crop(rows[i].key.value, rows[i].size, rows[i].drive)];
      }
    }
    assert rows[..|rows|] == rows;
  }

  /** The rows are those of the deleted detections, each once. */
  ghost predicate ReturnsRows(rows: seq<Deleted>, order: seq<Id>, detections: map<Id, Detection>,
                              files: map<Id, Option<Id>>)
    requires forall d <- detections :: detections[d].file in files
  {
    && |rows| == |order|
    && (forall k | 0 <= k < |order| :: order[k] in detections && rows[k] == Returned(detections[order[k]], files))
    && (forall j, k | 0 <= j < k < |order| :: order[j] != order[k])
    && forall d <- detections :: d in order
  }

  lemma ReturnsRowsPrefix(rows: seq<Deleted>, order: seq<Id>, gone: map<Id, Detection>, files: map<Id, Option<Id>>)
    requires forall d <- gone :: gone[d].file in files
    requires ReturnsRows(rows, order, gone, files) && rows != []
    ensures ReturnsRows(rows[..|rows| - 1], order[..|rows| - 1], gone - {order[|rows| - 1]}, files)
  {
  }

  function KeyedSize(row: Deleted, drive: Option<Id>): int {
    if row.key.Some? && row.drive == drive then row.size else 0
  }

  lemma CropsOfLast(rows: seq<Deleted>, drive: Option<Id>)
    requires rows != []
    ensures Bytes(CropsOf(rows), drive) ==
            Bytes(CropsOf(rows[..|rows| - 1]), drive) + KeyedSize(rows[|rows| - 1], drive)
  {
    var n := |rows| - 1;
    if rows[n].key.Some? {
      BytesAppend(CropsOf(rows[..n]), Crop(rows[n].key.value, rows[n].size, rows[n].drive), drive);
    } else {
      assert CropsOf(rows) == CropsOf(rows[..n]);
    }
  }

  /** The crops returned for deleted detections weigh what those detections did, drive by drive. */
  lemma {:induction false} CropsWeighRows(rows: seq<Deleted>, order: seq<Id>, gone: map<Id, Detection>,
                                          files: map<Id, Option<Id>>, drive: Option<Id>)
    requires forall d <- gone :: gone[d].file in files
    requires ReturnsRows(rows, order, gone, files)
    ensures Bytes(CropsOf(rows), drive) == Total(CropSizes(gone, files, drive))
    decreases |rows|
  {
    if rows == [] {
      assert CropSizes(gone, files, drive) == map[];
    } else {
      var n := |rows| - 1;
      ReturnsRowsPrefix(rows, order, gone, files);
      CropsWeighRows(rows[..n], order[..n], gone - {order[n]}, files, drive);
      CropSizesRemove(gone, files, order[n], drive);
      CropsOfLast(rows, drive);
    }
  }

  /** On every drive, the crops weigh what the stored crops shrank by. */
  ghost predicate AccountsFor(crops: seq<Crop>, before: map<Id, Detection>, after: map<Id, Detection>,
                              files: map<Id, Option<Id>>)
    requires forall d <- before :: before[d].file in files
    requires forall d <- after :: after[d].file in files
  {
    forall drive: Option<Id> ::
      Bytes(crops, drive) == Total(CropSizes(before, files, drive)) - Total(CropSizes(after, files, drive))
  }

  lemma FreedBytes(detections: map<Id, Detection>, gone: set<Id>, files: map<Id, Option<Id>>,
                   rows: seq<Deleted>, order: seq<Id>)
    requires forall d <- detections :: detections[d].file in files
    requires gone <= detections.Keys && ReturnsRows(rows, order, Only(detections, gone), files)
    ensures AccountsFor(CropsOf(rows), detections, detections - gone, files)
  {
    forall drive: Option<Id> ensures Bytes(CropsOf(rows), drive) ==
      Total(CropSizes(detections, files, drive)) - Total(CropSizes(detections - gone, files, drive))
    {
      CropsWeighRows(rows, order, Only(detections, gone), files, drive);
      CropSizesSplit(detections, files, gone, drive);
    }
  }

  /** The detections of the collection's indexed files that no member refers to. */
  function Orphans(detections: map<Id, Detection>, jobs: set<Indexed>, members: set<Member>, collection: Id): set<Id> {
    set d | d in detections && Indexed(collection, detections[d].file) in jobs
            && forall m <- members :: m.detection != d
  }

  /** Once the collection's groups are gone, the unreferenced detections are the doomed ones. */
  lemma DoomedAfterGroups(before: Catalog, after: Catalog, collection: Id)
    requires before.ForeignKeys()
    requires after.detections == before.detections && after.jobs == before.jobs
    requires after.members == WithoutGroups(before.members, OfCollection(before.groups, collection))
    ensures before.Doomed(collection) == Orphans(after.detections, after.jobs, after.members, collection)
  {
  }

  /** What a merge leaves: only the sources go, and the target gets all their detections. */
  ghost predicate Merges(before: Catalog, after: Catalog, target: Id, sources: set<Id>) {
    && after == before.(groups := before.groups - sources, members := after.members)
    && (forall s <- sources :: after.DetectionsOf(s) == {})
    && (forall g: Id | g !in sources && g != target :: after.DetectionsOf(g) == before.DetectionsOf(g))
    && (target !in sources ==> after.DetectionsOf(target) == before.DetectionsOfAll(sources + {target}))
  }

  /** What a purge leaves. */
  ghost predicate Purges(before: Catalog, after: Catalog, collection: Id)
    requires before.ForeignKeys()
  {
    var doomed := before.Doomed(collection);
    && after.groups == Uncovered(before.groups - OfCollection(before.groups, collection), doomed)
    && after.members == (set m | m in before.members && before.groups[m.group].collection != collection)
    && after.detections == before.detections - doomed
    && after.jobs == WithoutCollection(before.jobs, collection)
    && after.files == before.files
  }

  /** The three deletes of a purge. */
  function Purged(c: Catalog, collection: Id): Catalog
    requires c.ForeignKeys()
  {
    var gone := OfCollection(c.groups, collection);
    var doomed := c.Doomed(collection);
    Catalog(Uncovered(c.groups - gone, doomed), WithoutDetections(WithoutGroups(c.members, gone), doomed),
            c.detections - doomed, WithoutCollection(c.jobs, collection), c.files)
  }

  lemma PurgeOutcome(before: Catalog, collection: Id)
    requires before.ForeignKeys()
    ensures Purges(before, Purged(before, collection), collection) && Purged(before, collection).ForeignKeys()
  {
  }

  /** The UPDATE and the DELETE of a merge. */
  function Merged(c: Catalog, target: Id, sources: set<Id>): Catalog {
    c.(groups := c.groups - sources,
       members := WithoutGroups(
         (c.members - c.Moved(target, sources)) + Repointed(c.Moved(target, sources), target), sources))
  }

  function Repointed(moved: set<Member>, target: Id): set<Member> { set m | m in moved :: Member(target, m.detection) }

  lemma MergedKeepsForeignKeys(c: Catalog, target: Id, sources: set<Id>)
    requires c.ForeignKeys() && c.Mergeable(target, sources)
    ensures Merged(c, target, sources).ForeignKeys()
  {
  }

  lemma MergeOutcome(c: Catalog, target: Id, sources: set<Id>)
    ensures Merges(c, Merged(c, target, sources), target, sources)
  {
  }

  function OfCollection(groups: map<Id, Group>, collection: Id): set<Id> {
    set g | g in groups && groups[g].collection == collection
  }

  class Recognition {
    var groups: map<Id, Group>
    var members: set<Member>
    var detections: map<Id, Detection>
    var jobs: set<Indexed>
    const files: map<Id, Option<Id>>

    constructor (catalog: Catalog)
      ensures View() == catalog
    {
      groups, members, detections := catalog.groups, catalog.members, catalog.detections;
      jobs, files := catalog.jobs, catalog.files;
    }

    ghost function View(): Catalog reads this { Catalog(groups, members, detections, jobs, files) }

    /** Deleting groups takes their members with them. */
    method DeleteGroups(gone: set<Id>)
      modifies this`groups, this`members
      ensures groups == old(groups) - gone
      ensures members == WithoutGroups(old(members), gone)
    {
      groups := groups - gone;
      members := WithoutGroups(members, gone);
    }

    /** Deleting detections takes their members with them and clears covers; the rows come back in any order. */
    method DeleteDetections(gone: set<Id>) returns (rows: seq<Deleted>, ghost order: seq<Id>)
      requires gone <= detections.Keys && forall d <- detections :: detections[d].file in files
      modifies this`groups, this`members, this`detections
      ensures detections == old(detections) - gone
      ensures members == WithoutDetections(old(members), gone)
      ensures groups == Uncovered(old(groups), gone)
      ensures members <= old(members) && forall m <- old(members) :: m in members <==> m.detection !in gone
      ensures forall g <- old(groups) ::
        && g in groups && groups[g].collection == old(groups)[g].collection
        && groups[g].cover == (if old(groups)[g].cover.Some? && old(groups)[g].cover.value in gone then None
                               else old(groups)[g].cover)
      ensures ReturnsRows(rows, order, Only(old(detections), gone), files)
    {
      rows, order := [], [];
      var left := gone;
      while left != {}
        invariant left <= gone
        invariant ReturnsRows(rows, order, Only(detections, gone - left), files)
        decreases |left|
      {
        var d: Id :| d in left;
        rows, order := rows + [Returned(detections[d], files)], order + [d];
        left := left - {d};
      }
      assert gone - left == gone;
      detections := detections - gone;
      members := WithoutDetections(members, gone);
      groups := Uncovered(groups, gone);
    }

    /** A refused statement aborts the caller's transaction, so nothing changes. */
    method MergeRecognitionGroups(target: Id, sources: set<Id>) returns (merged: bool)
      requires View().ForeignKeys()
      modifies this`groups, this`members
      ensures View().ForeignKeys()
      ensures merged <==> old(View()).Mergeable(target, sources)
      ensures if merged then Merges(old(View()), View(), target, sources) else View() == old(View())
    {
      ghost var before := View();
      var moved := set m | m in members && m.group in sources && Member(target, m.detection) !in members;
      var clash := exists m <- moved, n <- moved :: m.detection == n.detection && m != n;
      if clash || (moved != {} && target !in groups) {
        return false;
      }
      members := (members - moved) + Repointed(moved, target);
      DeleteGroups(sources);
      assert View() == Merged(before, target, sources);
      MergeOutcome(before, target, sources);
      MergedKeepsForeignKeys(before, target, sources);
      return true;
    }

    /** Deletes the collection's groups, its orphaned detections and its ledger, and reports the freed crops. */
    method PurgeRecognitionData(collection: Id)
      returns (crops: seq<Crop>, ghost rows: seq<Deleted>, ghost order: seq<Id>)
      requires View().ForeignKeys()
      modifies this
      ensures View().ForeignKeys() && Purges(old(View()), View(), collection)
      ensures ReturnsRows(rows, order, Only(old(detections), old(View()).Doomed(collection)), files)
      ensures crops == CropsOf(rows)
      ensures AccountsFor(crops, old(detections), detections, files)
    {
      ghost var before := View();
      DeleteGroups(OfCollection(groups, collection));
      var doomed := Orphans(detections, jobs, members, collection);
      DoomedAfterGroups(before, View(), collection);
      var deleted;
      deleted, order := DeleteDetections(doomed);
      rows := deleted;
      crops := ScanCrops(deleted);
      jobs := WithoutCollection(jobs, collection);
      assert View() == Purged(before, collection);
      PurgeOutcome(before, collection);
      FreedBytes(before.detections, doomed, files, deleted, order);
    }
  }

  /**
   * A merge can be done exactly when every detection that two sources share is in the target already,
   * and the target exists unless the sources bring it nothing.
   */
  lemma MergeableIff(c: Catalog, target: Id, sources: set<Id>)
    ensures c.Mergeable(target, sources) <==>
      && (forall m <- c.members, n <- c.members
            | m.group in sources && n.group in sources && m.group != n.group && m.detection == n.detection ::
            Member(target, m.detection) in c.members)
      && (target in c.groups
          || forall m <- c.members | m.group in sources :: Member(target, m.detection) in c.members)
  {
    if c.Mergeable(target, sources) {
      forall m <- c.members, n <- c.members
        | m.group in sources && n.group in sources && m.group != n.group && m.detection == n.detection
        ensures Member(target, m.detection) in c.members
      {
        assert Member(target, m.detection) in c.members || m in c.Moved(target, sources);
        assert Member(target, m.detection) in c.members || n in c.Moved(target, sources);
      }
      forall m <- c.members | m.group in sources && target !in c.groups
        ensures Member(target, m.detection) in c.members
      {
        assert m !in c.Moved(target, sources);
      }
    }
  }

  // ── What merging and purging conserve ──────────────────────────────────────

  /** Disjoint sources merge into an existing target. */
  lemma DisjointSourcesMerge(c: Catalog, target: Id, sources: set<Id>)
    requires target in c.groups
    requires forall s <- sources, s' <- sources | s != s' :: c.DetectionsOf(s) !! c.DetectionsOf(s')
    ensures c.Mergeable(target, sources)
  {
    forall m <- c.Moved(target, sources), n <- c.Moved(target, sources) | m.detection == n.detection ensures m == n {
      assert m.detection in c.DetectionsOf(m.group) && n.detection in c.DetectionsOf(n.group);
    }
  }

  lemma MergedMember(before: Catalog, after: Catalog, target: Id, sources: set<Id>, g: Id, d: Id)
    requires Merges(before, after, target, sources)
    ensures Member(g, d) in after.members <==>
            (g !in sources && (Member(g, d) in before.members || (g == target && d in before.DetectionsOfAll(sources))))
  {
    assert Member(g, d) in after.members <==> d in after.DetectionsOf(g);
    assert Member(g, d) in before.members <==> d in before.DetectionsOf(g);
    if g == target && g !in sources {
      assert d in before.DetectionsOfAll(sources + {target}) <==>
        (d in before.DetectionsOfAll(sources) || d in before.DetectionsOf(target));
    }
  }

  /** A merge leaves every grouped detection grouped unless the target is among the sources. */
  lemma MergeKeepsGroupedIff(before: Catalog, after: Catalog, target: Id, sources: set<Id>)
    requires before.ForeignKeys() && Merges(before, after, target, sources)
    ensures after.Grouped() == before.Grouped() <==>
            (target !in sources
             || before.DetectionsOfAll(sources) <= before.DetectionsOfAll(before.groups.Keys - sources))
  {
    var others := before.groups.Keys - sources;
    forall g: Id, d: Id { MergedMember(before, after, target, sources, g, d); }
    assert before.Grouped() == before.DetectionsOfAll(sources) + before.DetectionsOfAll(others);
    if target in sources {
      assert after.Grouped() == before.DetectionsOfAll(others);
    } else {
      forall d <- before.Grouped() ensures d in after.Grouped() {
        var m: Member :| m in before.members && m.detection == d;
        assert Member(if m.group in sources then target else m.group, d) in after.members;
      }
      forall d <- after.Grouped() ensures d in before.Grouped() {
        var m: Member :| m in after.members && m.detection == d;
        assert Member(m.group, d) in after.members;
      }
    }
  }

  // ── Which operations keep the ledger complete ──────────────────────────────

  /** The detections' file is indexed in the collection. */
  ghost predicate IndexedIn(c: Catalog, collection: Id, d: Id) {
    d in c.detections && Indexed(collection, c.detections[d].file) in c.jobs
  }

  /** A purge drops a collection's ledger together with its groups. */
  lemma PurgeKeepsLedger(before: Catalog, after: Catalog, collection: Id)
    requires before.ForeignKeys() && after.ForeignKeys() && Purges(before, after, collection)
    requires before.LedgerComplete()
    ensures after.LedgerComplete()
  {
    forall m <- after.members
      ensures Indexed(after.groups[m.group].collection, after.detections[m.detection].file) in after.jobs
    {
      assert m in before.members && after.groups[m.group].collection == before.groups[m.group].collection;
    }
  }

  /** A merge keeps it exactly when what the target is given is indexed in the target's collection. */
  lemma MergeKeepsLedgerIff(before: Catalog, after: Catalog, target: Id, sources: set<Id>)
    requires before.ForeignKeys() && after.ForeignKeys() && before.LedgerComplete()
    requires before.Mergeable(target, sources) && Merges(before, after, target, sources)
    ensures after.LedgerComplete() <==>
      (target in sources || target !in before.groups
       || forall d <- before.DetectionsOfAll(sources) :: IndexedIn(before, before.groups[target].collection, d))
  {
    forall g: Id, d: Id { MergedMember(before, after, target, sources, g, d); }
    if target !in sources && target in before.groups {
      forall d <- before.DetectionsOfAll(sources) ensures Member(target, d) in after.members {
      }
      forall m <- after.members
        ensures m in before.members || (m.group == target && m.detection in before.DetectionsOfAll(sources))
      {
        assert m == Member(m.group, m.detection);
      }
      if after.LedgerComplete() {
        forall d <- before.DetectionsOfAll(sources) ensures IndexedIn(before, before.groups[target].collection, d) {
          assert Member(target, d) in after.members;
        }
      }
    } else {
      MergeMovesNothing(before, after, target, sources);
    }
  }

  lemma MergeMovesNothing(before: Catalog, after: Catalog, target: Id, sources: set<Id>)
    requires before.ForeignKeys() && before.Mergeable(target, sources) && Merges(before, after, target, sources)
    requires target in sources || target !in before.groups
    ensures after.members <= before.members
  {
    if target !in before.groups {
      assert forall n <- before.members :: Member(target, n.detection) !in before.members;
      assert forall n <- before.members | n.group in sources :: n in before.Moved(target, sources);
      assert before.DetectionsOfAll(sources) == {};
    }
    forall m <- after.members ensures m in before.members {
      MergedMember(before, after, target, sources, m.group, m.detection);
      assert m == Member(m.group, m.detection);
    }
  }

  /** So a merge within one collection always does. */
  lemma MergeWithinCollectionKeepsLedger(before: Catalog, after: Catalog, target: Id, sources: set<Id>)
    requires before.ForeignKeys() && after.ForeignKeys() && before.LedgerComplete()
    requires before.Mergeable(target, sources) && Merges(before, after, target, sources)
    requires target in before.groups
    requires forall s <- sources * before.groups.Keys :: before.groups[s].collection == before.groups[target].collection
    ensures after.LedgerComplete()
  {
    MergeKeepsLedgerIff(before, after, target, sources);
    forall d <- before.DetectionsOfAll(sources) ensures IndexedIn(before, before.groups[target].collection, d) {
      var m: Member :| m in before.members && m.group in sources && m.detection == d;
    }
  }

  /** AddRecognitionGroupMember keeps it exactly when the detection's file is indexed there. */
  lemma AddMemberKeepsLedgerIff(before: Catalog, after: Catalog, m: Member)
    requires before.ForeignKeys() && before.LedgerComplete()
    requires m.group in before.groups && m.detection in before.detections
    requires after == before.(members := before.members + {m})
    ensures after.ForeignKeys()
    ensures after.LedgerComplete() <==> IndexedIn(before, before.groups[m.group].collection, m.detection)
  {
    assert m in after.members;
  }

  /** Dropping jobs, as turning recognition off drops the pending ones, must spare every member's file. */
  lemma DropJobsKeepsLedgerIff(before: Catalog, after: Catalog, gone: set<Indexed>)
    requires before.ForeignKeys() && before.LedgerComplete() && after == before.(jobs := before.jobs - gone)
    ensures after.ForeignKeys()
    ensures after.LedgerComplete() <==>
      forall m <- before.members ::
        Indexed(before.groups[m.group].collection, before.detections[m.detection].file) !in gone
  {
  }

  /** A group that survives a purge keeps its cover exactly when the detection on it survives. */
  lemma PurgeKeepsCovers(before: Catalog, after: Catalog, collection: Id, g: Id)
    requires before.ForeignKeys() && Purges(before, after, collection)
    ensures g in after.groups <==> g in before.groups && before.groups[g].collection != collection
    ensures g in after.groups ==>
      && after.groups[g].collection == before.groups[g].collection
      && after.groups[g].cover ==
           if before.groups[g].cover.Some? && before.groups[g].cover.value in after.detections
           then before.groups[g].cover else None
  {
  }

  /** Purging again frees nothing more. */
  lemma PurgeTwice(before: Catalog, after: Catalog, again: Catalog, collection: Id)
    requires before.ForeignKeys() && after.ForeignKeys()
    requires Purges(before, after, collection) && Purges(after, again, collection)
    ensures again == after
  {
  }

  /** After a purge, detections of its files survive only in other collections' groups. */
  lemma PurgeLeavesNoOrphans(before: Catalog, after: Catalog, collection: Id, d: Id)
    requires before.ForeignKeys() && after.ForeignKeys() && Purges(before, after, collection)
    requires d in after.detections && Indexed(collection, after.detections[d].file) in before.jobs
    ensures exists m <- after.members :: m.detection == d && after.groups[m.group].collection != collection
  {
  }

  /** A group of the collection holds the detection. */
  ghost predicate Holds(c: Catalog, collection: Id, d: Id)
    requires c.ForeignKeys()
  {
    exists m <- c.members :: m.detection == d && c.groups[m.group].collection == collection
  }

  ghost predicate HeldWithin(c: Catalog, collections: set<Id>, d: Id)
    requires c.ForeignKeys()
  {
    forall m <- c.members | m.detection == d :: c.groups[m.group].collection in collections
  }

  /** What purging a and then b deletes: a takes what it alone holds, b then also what a held with it. */
  lemma PurgeBoth(c: Catalog, mid: Catalog, a: Id, b: Id, d: Id)
    requires c.ForeignKeys() && mid.ForeignKeys() && a != b && Purges(c, mid, a) && d in c.detections
    ensures d in c.Doomed(a) + mid.Doomed(b) <==>
      (IndexedIn(c, a, d) && HeldWithin(c, {a}, d)) || (IndexedIn(c, b, d) && HeldWithin(c, {a, b}, d))
  {
    assert d in c.Doomed(a) <==> IndexedIn(c, a, d) && HeldWithin(c, {a}, d);
    if d !in c.Doomed(a) {
      assert forall m <- mid.members ::
          m in c.members && mid.groups[m.group].collection == c.groups[m.group].collection;
      assert forall m <- c.members | m !in mid.members :: c.groups[m.group].collection == a;
      assert d in mid.Doomed(b) <==> IndexedIn(c, b, d) && HeldWithin(c, {a, b}, d);
    }
  }

  /** Of what only the two collections hold, neither indexes a detection that the other holds unindexed. */
  ghost predicate Covered(c: Catalog, a: Id, b: Id)
    requires c.ForeignKeys()
  {
    forall d <- c.detections | HeldWithin(c, {a, b}, d) ::
      && (Holds(c, a, d) && IndexedIn(c, b, d) ==> IndexedIn(c, a, d))
      && (Holds(c, b, d) && IndexedIn(c, a, d) ==> IndexedIn(c, b, d))
  }

  /** Both orders delete one detection, or neither does, exactly when the holders' ledgers cover it. */
  lemma SameFateIff(c: Catalog, viaA: Catalog, viaB: Catalog, a: Id, b: Id, d: Id)
    requires c.ForeignKeys() && viaA.ForeignKeys() && viaB.ForeignKeys() && a != b
    requires Purges(c, viaA, a) && Purges(c, viaB, b) && d in c.detections
    ensures (d in c.Doomed(a) + viaA.Doomed(b) <==> d in c.Doomed(b) + viaB.Doomed(a)) <==>
      (HeldWithin(c, {a, b}, d) ==>
         && (Holds(c, a, d) && IndexedIn(c, b, d) ==> IndexedIn(c, a, d))
         && (Holds(c, b, d) && IndexedIn(c, a, d) ==> IndexedIn(c, b, d)))
  {
    PurgeBoth(c, viaA, a, b, d);
    PurgeBoth(c, viaB, b, a, d);
    assert {a, b} == {b, a};
    assert HeldWithin(c, {a, b}, d) ==> (HeldWithin(c, {a}, d) <==> !Holds(c, b, d));
    assert HeldWithin(c, {a, b}, d) ==> (HeldWithin(c, {b}, d) <==> !Holds(c, a, d));
    assert HeldWithin(c, {a}, d) || HeldWithin(c, {b}, d) ==> HeldWithin(c, {a, b}, d);
  }

  /** Purging two collections ends the same in either order exactly when the ledgers cover what only they hold. */
  lemma PurgesCommuteIff(c: Catalog, viaA: Catalog, ab: Catalog, viaB: Catalog, ba: Catalog, a: Id, b: Id)
    requires c.ForeignKeys() && viaA.ForeignKeys() && viaB.ForeignKeys() && a != b
    requires Purges(c, viaA, a) && Purges(viaA, ab, b)
    requires Purges(c, viaB, b) && Purges(viaB, ba, a)
    ensures ab == ba <==> Covered(c, a, b)
  {
    var first, second := c.Doomed(a) + viaA.Doomed(b), c.Doomed(b) + viaB.Doomed(a);
    assert first <= c.detections.Keys && second <= c.detections.Keys;
    forall d <- c.detections { SameFateIff(c, viaA, viaB, a, b, d); }
    assert first == second <==> Covered(c, a, b);
    EndsWithDoomed(c, viaA, ab, viaB, ba, a, b);
  }

  /** What is deleted decides the rest. */
  lemma EndsWithDoomed(c: Catalog, viaA: Catalog, ab: Catalog, viaB: Catalog, ba: Catalog, a: Id, b: Id)
    requires c.ForeignKeys() && viaA.ForeignKeys() && viaB.ForeignKeys() && a != b
    requires Purges(c, viaA, a) && Purges(viaA, ab, b)
    requires Purges(c, viaB, b) && Purges(viaB, ba, a)
    ensures ab == ba <==> c.Doomed(a) + viaA.Doomed(b) == c.Doomed(b) + viaB.Doomed(a)
  {
    var first, second := c.Doomed(a) + viaA.Doomed(b), c.Doomed(b) + viaB.Doomed(a);
    PurgedCatalog(c, viaA, ab, a, b);
    PurgedCatalog(c, viaB, ba, b, a);
    var ofA, ofB := OfCollection(c.groups, a), OfCollection(c.groups, b);
    assert ofA + ofB == ofB + ofA;
    assert first == c.detections.Keys - ab.detections.Keys && second == c.detections.Keys - ba.detections.Keys;
  }

  /** While the ledger covers every member, purging two collections frees the same in either order. */
  lemma PurgesCommute(c: Catalog, viaA: Catalog, ab: Catalog, viaB: Catalog, ba: Catalog, a: Id, b: Id)
    requires c.ForeignKeys() && c.LedgerComplete() && viaA.ForeignKeys() && viaB.ForeignKeys() && a != b
    requires Purges(c, viaA, a) && Purges(viaA, ab, b)
    requires Purges(c, viaB, b) && Purges(viaB, ba, a)
    ensures ab == ba
  {
    PurgesCommuteIff(c, viaA, ab, viaB, ba, a, b);
  }

  lemma PurgedCatalog(c: Catalog, mid: Catalog, last: Catalog, a: Id, b: Id)
    requires c.ForeignKeys() && mid.ForeignKeys() && a != b
    requires Purges(c, mid, a) && Purges(mid, last, b)
    ensures last.detections == c.detections - (c.Doomed(a) + mid.Doomed(b))
    ensures last.members == set m | m in c.members && c.groups[m.group].collection !in {a, b}
    ensures last.jobs == (set j | j in c.jobs && j.collection !in {a, b}) && last.files == c.files
    ensures last.groups == Uncovered(c.groups - (OfCollection(c.groups, a) + OfCollection(c.groups, b)),
                                     c.Doomed(a) + mid.Doomed(b))
  {
    UncoveredTwice(c.groups, a, b, c.Doomed(a), mid.Doomed(b));
    assert forall m <- mid.members :: mid.groups[m.group].collection == c.groups[m.group].collection;
  }

  lemma UncoveredTwice(groups: map<Id, Group>, a: Id, b: Id, first: set<Id>, second: set<Id>)
    ensures var mid := Uncovered(groups - OfCollection(groups, a), first);
            Uncovered(mid - OfCollection(mid, b), second) ==
            Uncovered(groups - (OfCollection(groups, a) + OfCollection(groups, b)), first + second)
  {
  }

  /** With an unindexed member, the order of two purges decides whether its crop is ever freed. */
  lemma UnindexedMemberLeaks(c: Catalog, viaA: Catalog, ab: Catalog, viaB: Catalog, ba: Catalog)
    requires c == Catalog(map[1 := Group(8, None)], {Member(1, 5)}, map[5 := Detection(3, None, 0)],
                          {Indexed(7, 3)}, map[3 := None])
    requires viaA.ForeignKeys() && Purges(c, viaA, 7) && Purges(viaA, ab, 8)
    requires viaB.ForeignKeys() && Purges(c, viaB, 8) && Purges(viaB, ba, 7)
    ensures 5 in ab.detections && 5 !in ba.detections
  {
  }
}
