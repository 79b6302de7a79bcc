/**
 * Compiling a media filter to a WHERE fragment with numbered placeholders, and the two
 * listings that use it (api/db/files.go).
 */
module MediaFilter {
  import opened Prelude
  import opened Where
  import Paging

  const MEDIA_TYPE_IMAGE := "image"
  const MEDIA_TYPE_VIDEO := "video"
  const MEDIA_TYPE_OTHER := "other"

  const MAX_MEDIA_SELECTION_IDS := 20000

  datatype Sort = TakenAt | Created | Name | Source

  datatype Hidden = HiddenExclude | HiddenInclude | HiddenOnly

  datatype Filter = Filter(takenAfter: Option<Time>, takenBefore: Option<Time>,
                           uploadedAfter: Option<Time>, uploadedBefore: Option<Time>,
                           sources: seq<Id>, mediaTypes: seq<string>, groups: seq<Id>)
  {
    predicate IsZero() {
      && takenAfter.None? && takenBefore.None? && uploadedAfter.None? && uploadedBefore.None?
      && sources == [] && mediaTypes == [] && groups == []
    }

    /** The files the filter describes: every field narrows, a list by any of its entries. */
    predicate Accepts(f: File) {
      && (takenAfter.Some? ==> takenAfter.value <= f.CapturedAt())
      && (takenBefore.Some? ==> f.CapturedAt() <= takenBefore.value)
      && (uploadedAfter.Some? ==> uploadedAfter.value <= f.createdAt)
      && (uploadedBefore.Some? ==> f.createdAt <= uploadedBefore.value)
      && (sources != [] ==> f.source in sources)
      && AcceptsType(f.mimeType)
      && (groups != [] ==> exists g <- f.groups :: g in groups)
    }

    /** Unknown media types are dropped, so a list of only those does not narrow. */
    predicate AcceptsType(mimeType: string) {
      (exists t <- mediaTypes :: IsKnown(t)) ==> Bucket(mimeType) in mediaTypes
    }
  }

  predicate IsKnown(t: string) { t == MEDIA_TYPE_IMAGE || t == MEDIA_TYPE_VIDEO || t == MEDIA_TYPE_OTHER }

  /** The media type of a file. */
  function Bucket(mimeType: string): string {
    if "image/" <= mimeType then MEDIA_TYPE_IMAGE
    else if "video/" <= mimeType then MEDIA_TYPE_VIDEO
    else MEDIA_TYPE_OTHER
  }

  function HiddenClause(hidden: Hidden): Tokens {
    match hidden
    case HiddenInclude => []
    case HiddenOnly => [And, Cond(HiddenIs(true))]
    case HiddenExclude => [And, Cond(HiddenIs(false))]
  }

  function TypePart(t: string): Tokens
    requires IsKnown(t)
  {
    if t == MEDIA_TYPE_IMAGE then [Cond(LikeImage)]
    else if t == MEDIA_TYPE_VIDEO then [Cond(LikeVideo)]
    else [Open, Cond(NotLikeImage), And, Cond(NotLikeVideo), Close]
  }

  /** strings.Join(parts, " OR "). */
  function JoinOr(parts: seq<Tokens>): Tokens
    requires parts != []
  {
    if |parts| == 1 then parts[0] else parts[0] + [Or] + JoinOr(parts[1..])
  }

  class Args {
    var list: seq<Arg>

    constructor (list: seq<Arg>)
      ensures this.list == list
    {
      this.list := list;
    }

    method Bind(value: Arg) returns (p: nat)
      modifies this
      ensures list == old(list) + [value] && p == |list|
    {
      list := list + [value];
      p := |list|;
    }
  }

  /** The numbers of the placeholders in a fragment, left to right. */
  function Placeholders(ts: Tokens): seq<nat> {
    if ts == [] then [] else PlaceholderOf(ts[0]) + Placeholders(ts[1..])
  }

  function PlaceholderOf(t: Token): seq<nat> {
    if !t.Cond? then [] else
    match t.condition
    case CapturedFrom(p) => [p]
    case CapturedUntil(p) => [p]
    case CreatedFrom(p) => [p]
    case CreatedUntil(p) => [p]
    case SourceAmong(p) => [p]
    case MemberOfAny(p) => [p]
    case InFolder(p) => [p]
    case PointedIntoBy(p) => [p]
    case _ => []
  }

  lemma PlaceholdersCons(t: Token, ts: Tokens)
    ensures Placeholders([t] + ts) == PlaceholderOf(t) + Placeholders(ts)
  {
    assert ([t] + ts)[1..] == ts;
  }

  lemma {:induction false} PlaceholdersJoin(a: Tokens, b: Tokens)
    ensures Placeholders(a + b) == Placeholders(a) + Placeholders(b)
    decreases |a|
  {
    if a == [] {
      assert a + b == b;
    } else {
      var first, rest := a[0], a[1..];
      calc {
        Placeholders(a + b);
        { assert a + b == [first] + (rest + b); PlaceholdersCons(first, rest + b); }
        PlaceholderOf(first) + Placeholders(rest + b);
        { PlaceholdersJoin(rest, b); }
        PlaceholderOf(first) + (Placeholders(rest) + Placeholders(b));
        (PlaceholderOf(first) + Placeholders(rest)) + Placeholders(b);
        Placeholders(a) + Placeholders(b);
      }
    }
  }

  /** from + 1, from + 2, …, to. */
  function Numbers(from: nat, to: nat): seq<nat>
    requires from <= to
  {
    seq(to - from, i requires 0 <= i < to - from => from + 1 + i)
  }

  /**
   * Under the arguments bound so far the fragment narrows to what the filter describes; it uses
   * each newly bound argument once, in order, and the caller's own arguments stand as they were.
   */
  ghost predicate Compiles(sql: Tokens, before: seq<Arg>, after: seq<Arg>, filter: Filter) {
    && before <= after
    && Placeholders(sql) == Numbers(|before|, |after|)
    && forall f: File :: Narrows(sql, f, after, filter.Accepts(f))
  }

  const ZERO := Filter(None, None, None, None, [], [], [])

  lemma NothingCompiles(args: seq<Arg>)
    ensures Compiles([], args, args, ZERO)
  {
  }

  lemma ConditionMeans(c: Condition, f: File, args: seq<Arg>)
    requires Bound(c, args)
    ensures ReadAnd([Cond(c)], f, args) == Some((Holds(c, f, args), []))
  {
  }

  lemma ConditionNarrows(sql: Tokens, args: seq<Arg>, arg: Arg, c: Condition, f: File, value: bool)
    requires Narrows(sql, f, args, value) && Bound(c, args + [arg])
    ensures Narrows(sql + [And, Cond(c)], f, args + [arg], value && Holds(c, f, args + [arg]))
  {
    NarrowsMoreArgs(sql, f, args, [arg], value);
    ConditionMeans(c, f, args + [arg]);
    assert [And, Cond(c)][1..] == [Cond(c)];
    NarrowsJoin(sql, [And, Cond(c)], f, args + [arg], value, Holds(c, f, args + [arg]));
  }

  lemma ConditionPlaceholder(sql: Tokens, c: Condition, before: nat, p: nat)
    requires before <= p && Placeholders(sql) == Numbers(before, p) && PlaceholderOf(Cond(c)) == [p + 1]
    ensures Placeholders(sql + [And, Cond(c)]) == Numbers(before, p + 1)
  {
    PlaceholdersJoin(sql, [And, Cond(c)]);
    ConjunctPlaceholder(c);
  }

  lemma ConjunctPlaceholder(c: Condition)
    ensures Placeholders([And, Cond(c)]) == PlaceholderOf(Cond(c))
  {
    PlaceholdersJoin([And], [Cond(c)]);
    assert [And] + [Cond(c)] == [And, Cond(c)];
    assert [And][1..] == [] && [Cond(c)][1..] == [];
  }

  /** One more bound comparison, for a filter that asks for one thing more. */
  lemma AddCondition(sql: Tokens, before: seq<Arg>, after: seq<Arg>, arg: Arg, c: Condition,
                     filter: Filter, narrower: Filter)
    requires Compiles(sql, before, after, filter)
    requires PlaceholderOf(Cond(c)) == [|after| + 1] && Bound(c, after + [arg])
    requires forall f: File :: narrower.Accepts(f) == (filter.Accepts(f) && Holds(c, f, after + [arg]))
    ensures Compiles(sql + [And, Cond(c)], before, after + [arg], narrower)
  {
    forall f: File ensures Narrows(sql + [And, Cond(c)], f, after + [arg], narrower.Accepts(f)) {
      ConditionNarrows(sql, after, arg, c, f, filter.Accepts(f));
    }
    ConditionPlaceholder(sql, c, |before|, |after|);
  }

  lemma AddTakenAfter(sql: Tokens, before: seq<Arg>, after: seq<Arg>, filter: Filter, t: Time)
    requires Compiles(sql, before, after, filter) && filter.takenAfter.None?
    ensures Compiles(
      sql + [And, Cond(CapturedFrom(|after| + 1))], before, after + [TimeArg(t)], filter.(takenAfter := Some(t)))
  {
    AddCondition(sql, before, after, TimeArg(t), CapturedFrom(|after| + 1), filter, filter.(takenAfter := Some(t)));
  }

  lemma AddTakenBefore(sql: Tokens, before: seq<Arg>, after: seq<Arg>, filter: Filter, t: Time)
    requires Compiles(sql, before, after, filter) && filter.takenBefore.None?
    ensures Compiles(
      sql + [And, Cond(CapturedUntil(|after| + 1))], before, after + [TimeArg(t)], filter.(takenBefore := Some(t)))
  {
    AddCondition(sql, before, after, TimeArg(t), CapturedUntil(|after| + 1), filter, filter.(takenBefore := Some(t)));
  }

  lemma AddUploadedAfter(sql: Tokens, before: seq<Arg>, after: seq<Arg>, filter: Filter, t: Time)
    requires Compiles(sql, before, after, filter) && filter.uploadedAfter.None?
    ensures Compiles(
      sql + [And, Cond(CreatedFrom(|after| + 1))], before, after + [TimeArg(t)], filter.(uploadedAfter := Some(t)))
  {
    AddCondition(sql, before, after, TimeArg(t), CreatedFrom(|after| + 1), filter, filter.(uploadedAfter := Some(t)));
  }

  lemma AddUploadedBefore(sql: Tokens, before: seq<Arg>, after: seq<Arg>, filter: Filter, t: Time)
    requires Compiles(sql, before, after, filter) && filter.uploadedBefore.None?
    ensures Compiles(
      sql + [And, Cond(CreatedUntil(|after| + 1))], before, after + [TimeArg(t)], filter.(uploadedBefore := Some(t)))
  {
    AddCondition(sql, before, after, TimeArg(t), CreatedUntil(|after| + 1), filter, filter.(uploadedBefore := Some(t)));
  }

  lemma AddSources(sql: Tokens, before: seq<Arg>, after: seq<Arg>, filter: Filter, names: seq<Id>)
    requires Compiles(sql, before, after, filter) && filter.sources == [] && names != []
    ensures Compiles(
      sql + [And, Cond(SourceAmong(|after| + 1))], before, after + [NamesArg(names)], filter.(sources := names))
  {
    AddCondition(sql, before, after, NamesArg(names), SourceAmong(|after| + 1), filter, filter.(sources := names));
  }

  lemma AddGroups(sql: Tokens, before: seq<Arg>, after: seq<Arg>, filter: Filter, names: seq<Id>)
    requires Compiles(sql, before, after, filter) && filter.groups == [] && names != []
    ensures Compiles(
      sql + [And, Cond(MemberOfAny(|after| + 1))], before, after + [NamesArg(names)], filter.(groups := names))
  {
    AddCondition(sql, before, after, NamesArg(names), MemberOfAny(|after| + 1), filter, filter.(groups := names));
  }

  /** The known media types among the listed ones, in order. */
  function Known(types: seq<string>): (known: seq<string>)
    ensures forall t <- known :: IsKnown(t) && t in types
    ensures forall t <- types :: IsKnown(t) ==> t in known
  {
    if types == [] then [] else
      var last := types[|types| - 1];
      Known(types[..|types| - 1]) + if IsKnown(last) then [last] else []
  }

  predicate AllKnown(types: seq<string>) { forall t <- types :: IsKnown(t) }

  function TypeParts(types: seq<string>): (parts: seq<Tokens>)
    requires AllKnown(types)
    ensures |parts| == |types|
  {
    seq(|types|, i requires 0 <= i < |types| => TypePart(types[i]))
  }

  lemma TypePartMeans(t: string, f: File, args: seq<Arg>)
    requires IsKnown(t)
    ensures ReadAnd(TypePart(t), f, args) == Some((Bucket(f.mimeType) == t, []))
  {
    if t == MEDIA_TYPE_IMAGE {
      ConditionMeans(LikeImage, f, args);
    } else if t == MEDIA_TYPE_VIDEO {
      ConditionMeans(LikeVideo, f, args);
      ImageIsNotVideo(f.mimeType);
    } else {
      var image, video := [Cond(NotLikeImage)], [Cond(NotLikeVideo)];
      ConditionMeans(NotLikeImage, f, args);
      ConditionMeans(NotLikeVideo, f, args);
      AndJoin(image, video, f, args, !("image/" <= f.mimeType), !("video/" <= f.mimeType));
      Parenthesize(image + [And] + video, f, args, Bucket(f.mimeType) == t);
      assert TypePart(t) == [Open] + (image + [And] + video) + [Close];
    }
  }

  lemma ImageIsNotVideo(mimeType: string)
    ensures "image/" <= mimeType ==> !("video/" <= mimeType)
  {
    if "image/" <= mimeType {
      assert mimeType[0] == 'i';
    }
  }

  lemma {:induction false} NoPlaceholders(ts: Tokens)
    requires forall t <- ts :: PlaceholderOf(t) == []
    ensures Placeholders(ts) == []
  {
    if ts != [] {
      NoPlaceholders(ts[1..]);
    }
  }

  lemma {:induction false} JoinedTypesMean(types: seq<string>, f: File, args: seq<Arg>)
    requires types != [] && AllKnown(types)
    ensures Means(JoinOr(TypeParts(types)), f, args, Bucket(f.mimeType) in types)
  {
    var first, rest := TypePart(types[0]), types[1..];
    TypePartMeans(types[0], f, args);
    if rest != [] {
      JoinedTypesMean(rest, f, args);
      assert TypeParts(types)[1..] == TypeParts(rest);
      OrJoin(first, JoinOr(TypeParts(rest)), f, args, Bucket(f.mimeType) == types[0], Bucket(f.mimeType) in rest);
    }
  }

  lemma {:induction false} JoinedTypesBindNothing(parts: seq<Tokens>)
    requires parts != [] && forall part <- parts, t <- part :: PlaceholderOf(t) == []
    ensures forall t <- JoinOr(parts) :: PlaceholderOf(t) == []
  {
    if |parts| > 1 {
      JoinedTypesBindNothing(parts[1..]);
    }
  }

  function TypesClause(known: seq<string>): Tokens
    requires known != [] && AllKnown(known)
  {
    [And, Open] + JoinOr(TypeParts(known)) + [Close]
  }

  lemma TypesClauseNarrows(known: seq<string>, f: File, args: seq<Arg>)
    requires known != [] && AllKnown(known)
    ensures Narrows(TypesClause(known), f, args, Bucket(f.mimeType) in known)
  {
    var joined := JoinOr(TypeParts(known));
    assert TypesClause(known)[1..] == [Open] + joined + [Close];
    JoinedTypesMean(known, f, args);
    Parenthesize(joined, f, args, Bucket(f.mimeType) in known);
  }

  lemma TypesClauseBindsNothing(known: seq<string>)
    requires known != [] && AllKnown(known)
    ensures Placeholders(TypesClause(known)) == []
  {
    JoinedTypesBindNothing(TypeParts(known));
    NoPlaceholders(TypesClause(known));
  }

  lemma AddTypes(sql: Tokens, before: seq<Arg>, after: seq<Arg>, filter: Filter, types: seq<string>)
    requires Compiles(sql, before, after, filter) && filter.mediaTypes == []
    ensures var known := Known(types);
      Compiles(if known == [] then sql else sql + TypesClause(known), before, after, filter.(mediaTypes := types))
  {
    var known := Known(types);
    var narrower := filter.(mediaTypes := types);
    assert forall f: File :: narrower.Accepts(f) == (filter.Accepts(f) && narrower.AcceptsType(f.mimeType));
    if known != [] {
      forall f: File ensures Narrows(sql + TypesClause(known), f, after, narrower.Accepts(f)) {
        TypesClauseNarrows(known, f, after);
        KnownDecides(narrower, f.mimeType);
        NarrowsJoin(sql, TypesClause(known), f, after, filter.Accepts(f), Bucket(f.mimeType) in known);
      }
      TypesClauseBindsNothing(known);
      PlaceholdersJoin(sql, TypesClause(known));
    }
  }

  lemma KnownDecides(filter: Filter, mimeType: string)
    ensures var known := Known(filter.mediaTypes);
      filter.AcceptsType(mimeType) <==> (known == [] || Bucket(mimeType) in known)
  {
    if Known(filter.mediaTypes) != [] {
      assert Known(filter.mediaTypes)[0] in Known(filter.mediaTypes);
    }
  }

  /** The loop over the listed media types; unknown ones add no part. */
  method MediaTypeParts(types: seq<string>) returns (parts: seq<Tokens>)
    ensures parts == TypeParts(Known(types))
  {
    parts := [];
    for i := 0 to |types|
      invariant parts == TypeParts(Known(types[..i]))
    {
      assert types[..i + 1][..i] == types[..i];
      if IsKnown(types[i]) {
        parts := parts + [TypePart(types[i])];
      }
    }
    assert types[..|types|] == types;
  }

  /** MediaFilter.clauses. */
  method Clauses(filter: Filter, args: Args) returns (sql: Tokens)
    modifies args
    ensures Compiles(sql, old(args.list), args.list, filter)
  {
    NothingCompiles(args.list);
    ghost var before := args.list;
    sql := TakenClauses(filter, args, [], before);
    sql := UploadedClauses(filter, args, sql, before);
    sql := ListClauses(filter, args, sql, before);
    sql := GroupClauses(filter, args, sql, before);
  }

  method TakenClauses(filter: Filter, args: Args, fragment: Tokens, ghost before: seq<Arg>) returns (sql: Tokens)
    requires Compiles(fragment, before, args.list, ZERO)
    modifies args
    ensures Compiles(sql, before, args.list, Filter(filter.takenAfter, filter.takenBefore, None, None, [], [], []))
  {
    ghost var so := ZERO;
    sql := fragment;
    if filter.takenAfter.Some? {
      AddTakenAfter(sql, before, args.list, so, filter.takenAfter.value);
      var p := args.Bind(TimeArg(filter.takenAfter.value));
      sql := sql + [And, Cond(CapturedFrom(p))];
    }
    so := so.(takenAfter := filter.takenAfter);
    if filter.takenBefore.Some? {
      AddTakenBefore(sql, before, args.list, so, filter.takenBefore.value);
      var p := args.Bind(TimeArg(filter.takenBefore.value));
      sql := sql + [And, Cond(CapturedUntil(p))];
    }
  }

  method UploadedClauses(filter: Filter, args: Args, fragment: Tokens, ghost before: seq<Arg>) returns (sql: Tokens)
    requires Compiles(
      fragment, before, args.list, Filter(filter.takenAfter, filter.takenBefore, None, None, [], [], []))
    modifies args
    ensures Compiles(sql, before, args.list, filter.(sources := [], mediaTypes := [], groups := []))
  {
    ghost var so := Filter(filter.takenAfter, filter.takenBefore, None, None, [], [], []);
    sql := fragment;
    if filter.uploadedAfter.Some? {
      AddUploadedAfter(sql, before, args.list, so, filter.uploadedAfter.value);
      var p := args.Bind(TimeArg(filter.uploadedAfter.value));
      sql := sql + [And, Cond(CreatedFrom(p))];
    }
    so := so.(uploadedAfter := filter.uploadedAfter);
    if filter.uploadedBefore.Some? {
      AddUploadedBefore(sql, before, args.list, so, filter.uploadedBefore.value);
      var p := args.Bind(TimeArg(filter.uploadedBefore.value));
      sql := sql + [And, Cond(CreatedUntil(p))];
    }
  }

  method ListClauses(filter: Filter, args: Args, fragment: Tokens, ghost before: seq<Arg>) returns (sql: Tokens)
    requires Compiles(fragment, before, args.list, filter.(sources := [], mediaTypes := [], groups := []))
    modifies args
    ensures Compiles(sql, before, args.list, filter.(groups := []))
  {
    ghost var so := filter.(sources := [], mediaTypes := [], groups := []);
    sql := fragment;
    if filter.sources != [] {
      AddSources(sql, before, args.list, so, filter.sources);
      var p := args.Bind(NamesArg(filter.sources));
      sql := sql + [And, Cond(SourceAmong(p))];
    }
    so := so.(sources := filter.sources);
    if filter.mediaTypes != [] {
      var parts := MediaTypeParts(filter.mediaTypes);
      AddTypes(sql, before, args.list, so, filter.mediaTypes);
      if parts != [] {
        sql := sql + ([And, Open] + JoinOr(parts) + [Close]);
      }
    }
  }

  method GroupClauses(filter: Filter, args: Args, fragment: Tokens, ghost before: seq<Arg>) returns (sql: Tokens)
    requires Compiles(fragment, before, args.list, filter.(groups := []))
    modifies args
    ensures Compiles(sql, before, args.list, filter)
  {
    sql := fragment;
    if filter.groups != [] {
      AddGroups(sql, before, args.list, filter.(groups := []), filter.groups);
      var p := args.Bind(NamesArg(filter.groups));
      sql := sql + [And, Cond(MemberOfAny(p))];
    }
  }

  /**
   * The files a compiled fragment passes, by their columns: the taken bounds apply to the capture
   * date where there is one and to the upload date where there is none, the uploaded bounds to the
   * upload date whatever the capture date; listed sources, known media types and groups each admit
   * the files that have one of them.
   */
  lemma CompiledMeaning(sql: Tokens, before: seq<Arg>, after: seq<Arg>, filter: Filter, f: File)
    requires Compiles(sql, before, after, filter)
    ensures Narrows(sql, f, after,
      && (f.takenAt.Some? ==> InBounds(filter.takenAfter, f.takenAt.value, filter.takenBefore))
      && (f.takenAt.None? ==> InBounds(filter.takenAfter, f.createdAt, filter.takenBefore))
      && InBounds(filter.uploadedAfter, f.createdAt, filter.uploadedBefore)
      && (filter.sources == [] || f.source in filter.sources)
      && (("image" !in filter.mediaTypes && "video" !in filter.mediaTypes && "other" !in filter.mediaTypes)
          || ("image" in filter.mediaTypes && "image/" <= f.mimeType)
          || ("video" in filter.mediaTypes && "video/" <= f.mimeType)
          || ("other" in filter.mediaTypes && !("image/" <= f.mimeType) && !("video/" <= f.mimeType)))
      && (filter.groups == [] || exists g <- filter.groups :: g in f.groups))
  {
    assert Narrows(sql, f, after, filter.Accepts(f));
    TypesByName(filter.mediaTypes, f.mimeType);
    assert filter.AcceptsType(f.mimeType) <==>
      (("image" !in filter.mediaTypes && "video" !in filter.mediaTypes && "other" !in filter.mediaTypes)
       || Bucket(f.mimeType) in filter.mediaTypes);
    assert (exists g <- f.groups :: g in filter.groups) <==> (exists g <- filter.groups :: g in f.groups);
  }

  predicate InBounds(from: Option<Time>, t: Time, until: Option<Time>) {
    (from.Some? ==> from.value <= t) && (until.Some? ==> t <= until.value)
  }

  lemma TypesByName(types: seq<string>, mimeType: string)
    ensures (exists t <- types :: IsKnown(t)) <==> "image" in types || "video" in types || "other" in types
    ensures Bucket(mimeType) in types <==>
      (("image" in types && "image/" <= mimeType)
       || ("video" in types && "video/" <= mimeType)
       || ("other" in types && !("image/" <= mimeType) && !("video/" <= mimeType)))
  {
    ImageIsNotVideo(mimeType);
    if "image" in types { assert IsKnown("image"); }
    if "video" in types { assert IsKnown("video"); }
    if "other" in types { assert IsKnown("other"); }
  }

  // ── The two listings ───────────────────────────────────────────────────────

  predicate InCollection(f: File, collection: Id) { f.folder == Some(collection) || collection in f.collections }

  predicate Shown(f: File, hidden: Hidden) {
    match hidden
    case HiddenInclude => true
    case HiddenOnly => f.hidden
    case HiddenExclude => !f.hidden
  }

  /** A query: its WHERE, and the placeholders of its LIMIT and OFFSET. */
  datatype Query = Query(condition: Tokens, sort: Sort, limit: nat, offset: Option<nat>, args: seq<Arg>)

  const MEDIA_SCOPE_CLAUSE: Tokens := [Open, Cond(InFolder(1)), Or, Cond(PointedIntoBy(1)), Close]

  /** The query accepts exactly the collection's files that are shown and that the filter describes. */
  ghost predicate Selects(q: Query, collection: Id, hidden: Hidden, filter: Filter) {
    forall f: File ::
      Means(q.condition, f, q.args, InCollection(f, collection) && Shown(f, hidden) && filter.Accepts(f))
  }

  /** Which files a listing returns, by their columns. */
  lemma SelectedFiles(q: Query, collection: Id, hidden: Hidden, filter: Filter, f: File)
    requires Selects(q, collection, hidden, filter)
    ensures Means(q.condition, f, q.args,
      && (f.folder == Some(collection) || collection in f.collections)
      && (hidden.HiddenOnly? ==> f.hidden) && (hidden.HiddenExclude? ==> !f.hidden)
      && filter.Accepts(f))
  {
    assert Means(q.condition, f, q.args, InCollection(f, collection) && Shown(f, hidden) && filter.Accepts(f));
  }

  lemma ScopeMeans(f: File, collection: Id, args: seq<Arg>)
    requires |args| > 0 && args[0] == IdArg(collection)
    ensures ReadAnd(MEDIA_SCOPE_CLAUSE, f, args) == Some((InCollection(f, collection), []))
  {
    var folder, pointed := [Cond(InFolder(1))], [Cond(PointedIntoBy(1))];
    ConditionMeans(InFolder(1), f, args);
    ConditionMeans(PointedIntoBy(1), f, args);
    OrJoin(folder, pointed, f, args, f.folder == Some(collection), collection in f.collections);
    Parenthesize(folder + [Or] + pointed, f, args, InCollection(f, collection));
    assert MEDIA_SCOPE_CLAUSE == [Open] + (folder + [Or] + pointed) + [Close];
  }

  lemma HiddenNarrows(f: File, hidden: Hidden, args: seq<Arg>)
    ensures Narrows(HiddenClause(hidden), f, args, Shown(f, hidden))
  {
  }

  lemma ConditionSelects(
    sql: Tokens, collection: Id, hidden: Hidden, filter: Filter, bound: seq<Arg>, more: seq<Arg>, q: Query)
    requires Compiles(sql, [IdArg(collection)], bound, filter)
    requires q.condition == MEDIA_SCOPE_CLAUSE + (HiddenClause(hidden) + sql) && q.args == bound + more
    ensures Selects(q, collection, hidden, filter)
  {
    forall f: File ensures
      Means(q.condition, f, q.args, InCollection(f, collection) && Shown(f, hidden) && filter.Accepts(f))
    {
      assert q.args[0] == bound[0] == IdArg(collection);
      ScopeMeans(f, collection, q.args);
      HiddenNarrows(f, hidden, q.args);
      NarrowsMoreArgs(sql, f, bound, more, filter.Accepts(f));
      NarrowsJoin(HiddenClause(hidden), sql, f, q.args, Shown(f, hidden), filter.Accepts(f));
      NarrowsMeans(MEDIA_SCOPE_CLAUSE, HiddenClause(hidden) + sql, f, q.args,
                   InCollection(f, collection), Shown(f, hidden) && filter.Accepts(f));
    }
  }

  /** The query ListMediaFiles sends for one page. */
  method ListMediaFilesQuery(
    collection: Id, sort: Sort, hidden: Hidden, filter: Filter, requested: int, token: Paging.Token)
    returns (q: Query)
    ensures Selects(q, collection, hidden, filter) && q.sort == sort
    ensures 1 <= q.limit <= |q.args| && q.args[q.limit - 1] == IntArg(Paging.ClampLimit(requested))
    ensures q.offset.Some? && 1 <= q.offset.value <= |q.args|
    ensures q.args[q.offset.value - 1] == IntArg(Paging.DecodeOffset(token))
  {
    var args := new Args([IdArg(collection)]);
    var filterSql := Clauses(filter, args);
    ghost var bound := args.list;
    args.list := args.list + [IntArg(Paging.ClampLimit(requested)), IntArg(Paging.DecodeOffset(token))];
    var sql := MEDIA_SCOPE_CLAUSE + (HiddenClause(hidden) + filterSql);
    q := Query(sql, sort, |args.list| - 1, Some(|args.list|), args.list);
    ConditionSelects(filterSql, collection, hidden, filter, bound,
                     [IntArg(Paging.ClampLimit(requested)), IntArg(Paging.DecodeOffset(token))], q);
  }

  /** The query ListMediaFileIDs sends. */
  method ListMediaFileIDsQuery(collection: Id, sort: Sort, hidden: Hidden, filter: Filter) returns (q: Query)
    ensures Selects(q, collection, hidden, filter) && q.sort == sort && q.offset.None?
    ensures 1 <= q.limit <= |q.args| && q.args[q.limit - 1] == IntArg(MAX_MEDIA_SELECTION_IDS)
  {
    var args := new Args([IdArg(collection)]);
    var filterSql := Clauses(filter, args);
    ghost var bound := args.list;
    args.list := args.list + [IntArg(MAX_MEDIA_SELECTION_IDS)];
    q := Query(MEDIA_SCOPE_CLAUSE + (HiddenClause(hidden) + filterSql), sort, |args.list|, None, args.list);
    ConditionSelects(filterSql, collection, hidden, filter, bound, [IntArg(MAX_MEDIA_SELECTION_IDS)], q);
  }

  /** What ORDER BY compares; a descending column is negated. */
  function SortKey(sort: Sort, f: File): seq<int> {
    match sort
    case Created => [-f.createdAt, f.name]
    case Name => [f.name]
    case Source => [f.source, -f.CapturedAt(), f.name]
    case TakenAt => [-f.CapturedAt(), f.name]
  }

  predicate Less(a: seq<int>, b: seq<int>) {
    a != [] && b != [] && (a[0] < b[0] || (a[0] == b[0] && Less(a[1..], b[1..])))
  }

  lemma {:induction false} LessIsTotal(a: seq<int>, b: seq<int>)
    requires |a| == |b| && a != b
    ensures Less(a, b) || Less(b, a)
  {
    if a[0] == b[0] {
      assert a == [a[0]] + a[1..] && b == [b[0]] + b[1..];
      LessIsTotal(a[1..], b[1..]);
    }
  }

  /** One order in which the database may return the matching files. */
  ghost predicate Arranges(rows: seq<File>, matching: set<File>, sort: Sort) {
    && (forall f: File :: f in rows <==> f in matching)
    && (forall i, j | 0 <= i < j < |rows| :: rows[i] != rows[j])
    && (forall i, j | 0 <= i < j < |rows| :: !Less(SortKey(sort, rows[j]), SortKey(sort, rows[i])))
  }

  /**
   * The order by columns: by name the first is never later in the alphabet; by upload or capture
   * date it is never older, and of files of one date never later in the alphabet; by source the
   * sources are in order, and within one the capture dates.
   */
  lemma ArrangedByColumns(rows: seq<File>, matching: set<File>, sort: Sort, i: nat, j: nat)
    requires Arranges(rows, matching, sort) && i < j < |rows|
    ensures var (f, g) := (rows[i], rows[j]);
      var (taken, takenNext) := (if f.takenAt.Some? then f.takenAt.value else f.createdAt,
                                 if g.takenAt.Some? then g.takenAt.value else g.createdAt);
      match sort
      case Name => f.name <= g.name
      case Created => f.createdAt > g.createdAt || (f.createdAt == g.createdAt && f.name <= g.name)
      case TakenAt => taken > takenNext || (taken == takenNext && f.name <= g.name)
      case Source =>
        || f.source < g.source
        || (f.source == g.source && (taken > takenNext || (taken == takenNext && f.name <= g.name)))
  {
    var a, b := SortKey(sort, rows[i]), SortKey(sort, rows[j]);
    assert !Less(b, a);
    LessUnfolds(b, a);
  }

  lemma {:induction false} LessUnfolds(a: seq<int>, b: seq<int>)
    requires 1 <= |a| == |b| <= 3
    ensures Less(a, b) <==>
      || a[0] < b[0]
      || (1 < |a| && a[0] == b[0] && a[1] < b[1])
      || (2 < |a| && a[0] == b[0] && a[1] == b[1] && a[2] < b[2])
  {
    if |a| > 1 {
      LessUnfolds(a[1..], b[1..]);
    }
  }

  predicate NoTies(matching: set<File>, sort: Sort) {
    forall f <- matching, g <- matching :: f != g ==> SortKey(sort, f) != SortKey(sort, g)
  }

  lemma SameFirst(rows: seq<File>, others: seq<File>, matching: set<File>, sort: Sort)
    requires Arranges(rows, matching, sort) && Arranges(others, matching, sort) && NoTies(matching, sort)
    requires rows != [] && others != []
    ensures rows[0] == others[0]
  {
    if rows[0] != others[0] {
      assert rows[0] in rows && others[0] in others;
      var j :| 0 <= j < |others| && others[j] == rows[0];
      var i :| 0 <= i < |rows| && rows[i] == others[0];
      assert SortKey(sort, rows[0]) != SortKey(sort, others[0]);
      LessIsTotal(SortKey(sort, rows[0]), SortKey(sort, others[0]));
      assert false;
    }
  }

  lemma RestArranges(rows: seq<File>, matching: set<File>, sort: Sort)
    requires Arranges(rows, matching, sort) && rows != []
    ensures Arranges(rows[1..], matching - {rows[0]}, sort)
  {
  }

  /** Without ties there is only one order. */
  lemma {:induction false} OneArrangement(rows: seq<File>, others: seq<File>, matching: set<File>, sort: Sort)
    requires Arranges(rows, matching, sort) && Arranges(others, matching, sort) && NoTies(matching, sort)
    ensures rows == others
    decreases |rows|
  {
    if rows == [] {
      assert forall f: File :: f !in others;
      assert forall k | 0 <= k < |others| :: others[k] in others;
    } else {
      assert rows[0] in matching && others != [];
      SameFirst(rows, others, matching, sort);
      RestArranges(rows, matching, sort);
      RestArranges(others, matching, sort);
      OneArrangement(rows[1..], others[1..], matching - {rows[0]}, sort);
      assert rows == [rows[0]] + rows[1..] && others == [others[0]] + others[1..];
    }
  }

  /** Following next tokens through ListMediaFiles, each query seeing an order of its own. */
  function MediaWalk(orders: nat -> seq<File>, limits: nat -> int, pages: nat): Paging.Walk<File> {
    if pages == 0 then Paging.Walk([], Paging.Empty, false) else
    Paging.NextOffsetWalk(orders(pages - 1), MediaWalk(orders, limits, pages - 1), limits(pages - 1))
  }

  lemma {:induction false} MediaWalkOfOneOrder(
    orders: nat -> seq<File>, rows: seq<File>, limits: nat -> int, pages: nat)
    requires forall k: nat :: orders(k) == rows
    ensures MediaWalk(orders, limits, pages) == Paging.OffsetWalk(rows, limits, pages)
  {
    if pages > 0 {
      MediaWalkOfOneOrder(orders, rows, limits, pages - 1);
    }
  }

  function Ids(rows: seq<File>): seq<Id> { seq(|rows|, i requires 0 <= i < |rows| => rows[i].id) }

  /** Without ties, selecting all ids is walking all pages, cut at the cap. */
  lemma SelectionIsWalk(
    matching: set<File>, sort: Sort, selected: seq<File>, orders: nat -> seq<File>, limits: nat -> int)
    requires NoTies(matching, sort) && Arranges(selected, matching, sort)
    requires forall k: nat :: Arranges(orders(k), matching, sort)
    ensures var walk := MediaWalk(orders, limits, |selected| + 1);
      && walk.done
      && Ids(Paging.Take(selected, MAX_MEDIA_SELECTION_IDS)) == Paging.Take(Ids(walk.seen), MAX_MEDIA_SELECTION_IDS)
  {
    UntiedWalk(matching, sort, selected, orders, limits);
  }

  // ── When paging is right ───────────────────────────────────────────────────

  lemma {:induction false} LessIsIrreflexive(a: seq<int>)
    ensures !Less(a, a)
  {
    if a != [] {
      LessIsIrreflexive(a[1..]);
    }
  }

  lemma {:induction false} LessIsTransitive(a: seq<int>, b: seq<int>, c: seq<int>)
    requires Less(a, b) && Less(b, c)
    ensures Less(a, c)
  {
    if a[0] == b[0] == c[0] {
      LessIsTransitive(a[1..], b[1..], c[1..]);
    }
  }

  /** A file that may come first. */
  lemma {:induction false} FirstOf(matching: set<File>, sort: Sort) returns (first: File)
    requires matching != {}
    ensures first in matching && forall f <- matching :: !Less(SortKey(sort, f), SortKey(sort, first))
    decreases |matching|
  {
    first :| first in matching;
    LessIsIrreflexive(SortKey(sort, first));
    var others := matching - {first};
    assert forall f <- matching :: f == first || f in others;
    if others != {} {
      var rest := FirstOf(others, sort);
      if !Less(SortKey(sort, first), SortKey(sort, rest)) {
        first := rest;
      } else {
        forall f <- others ensures !Less(SortKey(sort, f), SortKey(sort, first)) {
          if Less(SortKey(sort, f), SortKey(sort, first)) {
            LessIsTransitive(SortKey(sort, f), SortKey(sort, first), SortKey(sort, rest));
          }
        }
      }
    }
  }

  /** The database has some order to return. */
  lemma {:induction false} ArrangementExists(matching: set<File>, sort: Sort) returns (rows: seq<File>)
    ensures Arranges(rows, matching, sort)
    decreases |matching|
  {
    if matching == {} {
      rows := [];
    } else {
      var first := FirstOf(matching, sort);
      var rest := ArrangementExists(matching - {first}, sort);
      rows := [first] + rest;
      forall k | 0 <= k < |rest| ensures rest[k] in matching && rest[k] != first {
        assert rest[k] in rest;
      }
    }
  }

  function Swapped(rows: seq<File>, i: nat): seq<File>
    requires i + 1 < |rows|
  {
    rows[i := rows[i + 1]][i + 1 := rows[i]]
  }

  /** Neighbours that tie may come in either order. */
  lemma SwappedArranges(rows: seq<File>, matching: set<File>, sort: Sort, i: nat)
    requires Arranges(rows, matching, sort) && i + 1 < |rows|
    requires SortKey(sort, rows[i]) == SortKey(sort, rows[i + 1])
    ensures Arranges(Swapped(rows, i), matching, sort)
  {
    var swapped := Swapped(rows, i);
    forall f: File ensures f in swapped <==> f in rows {
      if k :| 0 <= k < |rows| && rows[k] == f {
        assert swapped[if k == i then i + 1 else if k == i + 1 then i else k] == f;
      }
    }
    forall j, k | 0 <= j < k < |swapped| ensures !Less(SortKey(sort, swapped[k]), SortKey(sort, swapped[j])) {
      assert SortKey(sort, swapped[j]) == SortKey(sort, rows[j]) && SortKey(sort, swapped[k]) == SortKey(sort, rows[k]);
    }
  }

  /** Where two files tie, two neighbours do. */
  lemma TiedNeighbours(rows: seq<File>, matching: set<File>, sort: Sort) returns (i: nat)
    requires Arranges(rows, matching, sort) && !NoTies(matching, sort)
    ensures i + 1 < |rows| && SortKey(sort, rows[i]) == SortKey(sort, rows[i + 1])
  {
    var f, g :| f in matching && g in matching && f != g && SortKey(sort, f) == SortKey(sort, g);
    assert f in rows && g in rows;
    var j: nat :| j < |rows| && rows[j] == f;
    var k: nat :| k < |rows| && rows[k] == g;
    i := if j < k then j else k;
    var last := if j < k then k else j;
    assert SortKey(sort, rows[last]) == SortKey(sort, rows[i]);
    assert last == i + 1 || !Less(SortKey(sort, rows[last]), SortKey(sort, rows[i + 1]));
    if SortKey(sort, rows[i]) != SortKey(sort, rows[i + 1]) {
      LessIsTotal(SortKey(sort, rows[i]), SortKey(sort, rows[i + 1]));
    }
  }

  /** The rows that one-row pages show: the first of the first order, the second of the second, and so on. */
  function Diagonal(orders: nat -> seq<File>, size: nat, n: nat): seq<File>
    requires n <= size && forall k: nat :: |orders(k)| == size
  {
    if n == 0 then [] else Diagonal(orders, size, n - 1) + [orders(n - 1)[n - 1]]
  }

  /** The walk has shown n rows, one a page, and has not found the end. */
  ghost predicate AfterRows(walk: Paging.Walk<File>, seen: seq<File>, n: nat) {
    walk.seen == seen && !walk.done && Paging.DecodeOffset(walk.token) == n
  }

  lemma NextRow(walk: Paging.Walk<File>, seen: seq<File>, rows: seq<File>, n: nat)
    requires AfterRows(walk, seen, n) && n <= |rows|
    ensures var next := Paging.NextOffsetWalk(rows, walk, 1);
      if n < |rows| then AfterRows(next, seen + [rows[n]], n + 1) else next.seen == seen && next.done
  {
    Paging.NextOffsetPage(rows, walk.token, 1, n);
    assert n < |rows| ==> rows[n..n + 1] == [rows[n]];
  }

  lemma {:induction false} OneRowWalk(orders: nat -> seq<File>, size: nat, pages: nat)
    requires forall k: nat :: |orders(k)| == size
    ensures pages <= size ==> AfterRows(MediaWalk(orders, Paging.OneRow, pages), Diagonal(orders, size, pages), pages)
    ensures size < pages ==>
      var walk := MediaWalk(orders, Paging.OneRow, pages); walk.done && walk.seen == Diagonal(orders, size, size)
  {
    if pages > 0 {
      OneRowWalk(orders, size, pages - 1);
      if pages <= size + 1 {
        NextRow(MediaWalk(orders, Paging.OneRow, pages - 1), Diagonal(orders, size, pages - 1),
                orders(pages - 1), pages - 1);
      }
    }
  }

  lemma {:induction false} DiagonalMisses(orders: nat -> seq<File>, size: nat, n: nat, f: File)
    requires n <= size && forall k: nat :: |orders(k)| == size
    requires forall k: nat | k < n :: orders(k)[k] != f
    ensures f !in Diagonal(orders, size, n)
  {
    if n > 0 {
      DiagonalMisses(orders, size, n - 1, f);
    }
  }

  /** The first i + 1 queries see the rows as they are, every later one sees rows i and i + 1 swapped. */
  function Swapping(rows: seq<File>, i: nat): nat -> seq<File>
    requires i + 1 < |rows|
  {
    k => if k <= i then rows else Swapped(rows, i)
  }

  /** Tied neighbours that swap as the walk passes between them: the second is never shown. */
  lemma TiedNeighbourIsLost(rows: seq<File>, i: nat, pages: nat)
    requires i + 1 < |rows| && forall j, k | 0 <= j < k < |rows| :: rows[j] != rows[k]
    ensures rows[i + 1] !in MediaWalk(Swapping(rows, i), Paging.OneRow, pages).seen
  {
    var orders, n := Swapping(rows, i), if pages <= |rows| then pages else |rows|;
    forall k: nat ensures |orders(k)| == |rows| && (k < |rows| ==> orders(k)[k] != rows[i + 1]) {
      assert orders(k) == if k <= i then rows else Swapped(rows, i);
    }
    OneRowWalk(orders, |rows|, pages);
    DiagonalMisses(orders, |rows|, n, rows[i + 1]);
  }

  lemma PairArranges(f: File, g: File, sort: Sort)
    requires f != g && SortKey(sort, f) == SortKey(sort, g)
    ensures Arranges([f, g], {f, g}, sort)
  {
    LessIsIrreflexive(SortKey(sort, f));
  }

  /** Of two tied files, a walk may show one twice and the other never. */
  lemma TiedFilesMayRepeat(f: File, g: File, sort: Sort)
    requires f != g && SortKey(sort, f) == SortKey(sort, g)
    ensures Arranges([f, g], {f, g}, sort) && Arranges([g, f], {f, g}, sort)
    ensures MediaWalk(Swapping([f, g], 0), Paging.OneRow, 2).seen == [f, f]
  {
    PairArranges(f, g, sort);
    PairArranges(g, f, sort);
    assert {f, g} == {g, f};
    SwappedWalk(f, g);
  }

  lemma SwappedWalk(f: File, g: File)
    ensures MediaWalk(Swapping([f, g], 0), Paging.OneRow, 2).seen == [f, f]
  {
    var orders := Swapping([f, g], 0);
    assert Swapped([f, g], 0) == [g, f];
    assert orders(0) == [f, g] && orders(1) == [g, f];
    OneRowWalk(orders, 2, 2);
    assert Diagonal(orders, 2, 1) == [f] && Diagonal(orders, 2, 2) == [f] + [orders(1)[1]];
  }

  ghost predicate AllArrange(orders: nat -> seq<File>, matching: set<File>, sort: Sort) {
    forall k: nat :: Arranges(orders(k), matching, sort)
  }

  /** Some number of pages ends the walk with every matching file shown. */
  ghost predicate ShowsAll(orders: nat -> seq<File>, limits: nat -> int, matching: set<File>) {
    exists pages: nat ::
      var walk := MediaWalk(orders, limits, pages); walk.done && forall f <- matching :: f in walk.seen
  }

  /** Some number of pages ends the walk with the selection shown. */
  ghost predicate ShowsSelection(orders: nat -> seq<File>, limits: nat -> int, selected: seq<File>) {
    exists pages: nat :: MediaWalk(orders, limits, pages) == Paging.Walk(selected, Paging.Empty, true)
  }

  /** Every walk, for whatever orders and limits, ends with every file shown, exactly when no two files tie. */
  lemma WalksShowAllIff(matching: set<File>, sort: Sort)
    ensures (forall orders: nat -> seq<File>, limits: nat -> int | AllArrange(orders, matching, sort) ::
               ShowsAll(orders, limits, matching))
       <==> NoTies(matching, sort)
  {
    if NoTies(matching, sort) {
      forall orders: nat -> seq<File>, limits: nat -> int | AllArrange(orders, matching, sort)
        ensures ShowsAll(orders, limits, matching)
      {
        UntiedWalk(matching, sort, orders(0), orders, limits);
      }
    } else {
      var orders := TiesLoseFile(matching, sort);
      assert !ShowsAll(orders, Paging.OneRow, matching);
    }
  }

  lemma TiesLoseFile(matching: set<File>, sort: Sort) returns (orders: nat -> seq<File>)
    requires !NoTies(matching, sort)
    ensures AllArrange(orders, matching, sort) && !ShowsAll(orders, Paging.OneRow, matching)
  {
    var rows := ArrangementExists(matching, sort);
    var i := TiedNeighbours(rows, matching, sort);
    orders := Swapping(rows, i);
    SwappedArranges(rows, matching, sort, i);
    assert rows[i + 1] in rows && rows[i + 1] in matching;
    forall pages: nat ensures rows[i + 1] !in MediaWalk(orders, Paging.OneRow, pages).seen {
      TiedNeighbourIsLost(rows, i, pages);
    }
  }

  lemma OrdersAgree(matching: set<File>, sort: Sort, selected: seq<File>, orders: nat -> seq<File>)
    requires NoTies(matching, sort) && Arranges(selected, matching, sort) && AllArrange(orders, matching, sort)
    ensures forall k: nat :: orders(k) == selected
  {
    forall k: nat ensures orders(k) == selected {
      OneArrangement(orders(k), selected, matching, sort);
    }
  }

  lemma UntiedWalk(
    matching: set<File>, sort: Sort, selected: seq<File>, orders: nat -> seq<File>, limits: nat -> int)
    requires NoTies(matching, sort) && Arranges(selected, matching, sort) && AllArrange(orders, matching, sort)
    ensures MediaWalk(orders, limits, |selected| + 1) == Paging.Walk(selected, Paging.Empty, true)
    ensures ShowsAll(orders, limits, matching) && ShowsSelection(orders, limits, selected)
  {
    OrdersAgree(matching, sort, selected, orders);
    MediaWalkOfOneOrder(orders, selected, limits, |selected| + 1);
    Paging.OffsetWalkIsComplete(selected, limits);
    assert forall f <- matching :: f in selected;
    EndedWalkShows(orders, limits, selected, matching, |selected| + 1);
  }

  lemma EndedWalkShows(
    orders: nat -> seq<File>, limits: nat -> int, selected: seq<File>, matching: set<File>, pages: nat)
    requires MediaWalk(orders, limits, pages) == Paging.Walk(selected, Paging.Empty, true)
    requires forall f <- matching :: f in selected
    ensures ShowsAll(orders, limits, matching) && ShowsSelection(orders, limits, selected)
  {
  }

  /** Every walk shows what every selection does, in its order, exactly when no two files tie. */
  lemma WalksShowSelectionIff(matching: set<File>, sort: Sort)
    ensures (forall orders: nat -> seq<File>, limits: nat -> int, selected: seq<File>
               | AllArrange(orders, matching, sort) && Arranges(selected, matching, sort) ::
               ShowsSelection(orders, limits, selected))
       <==> NoTies(matching, sort)
  {
    if NoTies(matching, sort) {
      forall orders: nat -> seq<File>, limits: nat -> int, selected: seq<File>
        | AllArrange(orders, matching, sort) && Arranges(selected, matching, sort)
        ensures ShowsSelection(orders, limits, selected)
      {
        UntiedWalk(matching, sort, selected, orders, limits);
      }
    } else {
      var orders := TiesLoseFile(matching, sort);
      var selected := ArrangementExists(matching, sort);
      assert forall f <- matching :: f in selected;
      assert !ShowsSelection(orders, Paging.OneRow, selected);
    }
  }

  // ── Filters that narrow nothing ────────────────────────────────────────────

  lemma IdBeyond(ids: seq<Id>) returns (id: Id)
    ensures id !in ids
  {
    id := 0;
    for i := 0 to |ids|
      invariant forall k | 0 <= k < i :: ids[k] < id
    {
      id := if id <= ids[i] then ids[i] + 1 else id;
    }
  }

  function Sample(at: Time, source: Id, mimeType: string): File {
    File(0, 0, None, at, source, mimeType, false, None, {}, {})
  }

  /** A file the filter turns away, when it narrows anything. */
  lemma TurnedAway(filter: Filter) returns (f: File)
    requires !NarrowsNothing(filter)
    ensures !filter.Accepts(f)
  {
    if filter.takenAfter.Some? {
      f := Sample(filter.takenAfter.value - 1, 0, "");
    } else if filter.takenBefore.Some? {
      f := Sample(filter.takenBefore.value + 1, 0, "");
    } else if filter.uploadedAfter.Some? {
      f := Sample(filter.uploadedAfter.value - 1, 0, "");
    } else if filter.uploadedBefore.Some? {
      f := Sample(filter.uploadedBefore.value + 1, 0, "");
    } else if filter.sources != [] {
      var source := IdBeyond(filter.sources);
      f := Sample(0, source, "");
    } else if filter.groups != [] {
      f := Sample(0, 0, "");
    } else {
      f := Sample(0, 0, MissingType(filter.mediaTypes));
      KnownDecides(filter, f.mimeType);
    }
  }

  /** A MIME type of a bucket that is not listed, if there is one. */
  function MissingType(types: seq<string>): (mimeType: string)
    ensures !AllListed(types) ==> Bucket(mimeType) !in types
  {
    if MEDIA_TYPE_IMAGE !in types then "image/"
    else if MEDIA_TYPE_VIDEO !in types then
      var video := "video/";
      assert video[0] == 'v';
      video
    else ""
  }

  predicate AllListed(types: seq<string>) {
    MEDIA_TYPE_IMAGE in types && MEDIA_TYPE_VIDEO in types && MEDIA_TYPE_OTHER in types
  }

  predicate NarrowsNothing(filter: Filter) {
    filter.(mediaTypes := []).IsZero() && (Known(filter.mediaTypes) == [] || AllListed(filter.mediaTypes))
  }

  /**
   * A filter accepts every file exactly when it has no bound, source or group, and its media types
   * name no bucket or all three. IsZero asks for no media types at all, so it is not this test.
   */
  lemma NarrowsNothingIff(filter: Filter)
    ensures (forall f: File :: filter.Accepts(f)) <==> NarrowsNothing(filter)
  {
    if NarrowsNothing(filter) {
      forall f: File ensures filter.Accepts(f) {
        KnownDecides(filter, f.mimeType);
      }
    } else {
      var f := TurnedAway(filter);
    }
  }

  /**
   * IsZero is the right test exactly for filters that name no media type, narrow otherwise, or
   * name a known type without naming all three.
   */
  lemma IsZeroIsExactIff(filter: Filter)
    ensures (filter.IsZero() <==> forall f: File :: filter.Accepts(f)) <==>
      (filter.mediaTypes == [] || !filter.(mediaTypes := []).IsZero()
       || (Known(filter.mediaTypes) != [] && !AllListed(filter.mediaTypes)))
  {
    NarrowsNothingIff(filter);
  }

  /** The loop of parseMediaFilter over the request's media types: unknown ones are dropped. */
  method ParseMediaTypes(raw: seq<string>) returns (types: seq<string>)
    ensures types == Known(raw)
  {
    types := [];
    for i := 0 to |raw|
      invariant types == Known(raw[..i])
    {
      assert raw[..i + 1][..i] == raw[..i];
      if IsKnown(raw[i]) {
        types := types + [raw[i]];
      }
    }
    assert raw[..|raw|] == raw;
  }

  lemma {:induction false} AllKnownStay(types: seq<string>)
    requires AllKnown(types)
    ensures Known(types) == types
  {
    if types != [] {
      var rest := types[..|types| - 1];
      assert types == rest + [types[|types| - 1]];
      assert forall t <- rest :: t in types;
      AllKnownStay(rest);
    }
  }

  /** For a filter read from a request: unless it names all three types and narrows nothing else. */
  lemma RequestIsZeroIsExactIff(raw: seq<string>, filter: Filter)
    requires filter.mediaTypes == Known(raw)
    ensures (filter.IsZero() <==> forall f: File :: filter.Accepts(f)) <==>
      !(AllListed(raw) && filter.(mediaTypes := []).IsZero())
  {
    IsZeroIsExactIff(filter);
    AllKnownStay(Known(raw));
  }

  /** A request can ask for all three types: its filter is not zero and narrows nothing. */
  lemma IsZeroIsNotExact()
    ensures var types := [MEDIA_TYPE_IMAGE, MEDIA_TYPE_VIDEO, MEDIA_TYPE_OTHER];
      var filter := ZERO.(mediaTypes := types);
      Known(types) == types && !filter.IsZero() && forall f: File :: filter.Accepts(f)
  {
    var types := [MEDIA_TYPE_IMAGE, MEDIA_TYPE_VIDEO, MEDIA_TYPE_OTHER];
    AllKnownStay(types);
    NarrowsNothingIff(ZERO.(mediaTypes := types));
  }
}
