/**
 * The WHERE fragments of the media queries as token lists, and what the database makes of
 * them: AND binds tighter than OR, and parentheses group.
 */
module Where {
  import opened Prelude

  /** A file as the media queries see it; `groups` and `collections` are the rows that point at it. */
  datatype File = File(id: Id, name: Id, takenAt: Option<Time>, createdAt: Time, source: Id, mimeType: string,
                       hidden: bool, folder: Option<Id>, groups: set<Id>, collections: set<Id>)
  {
    /** COALESCE(taken_at, created_at). */
    function CapturedAt(): Time { if takenAt.Some? then takenAt.value else createdAt }
  }

  /** A bound argument. */
  datatype Arg = TimeArg(t: Time) | NamesArg(names: seq<Id>) | IdArg(id: Id) | IntArg(n: int)

  /** One comparison. `p` is the number of the placeholder it uses, counted from one. */
  datatype Condition =
    | CapturedFrom(p: nat) | CapturedUntil(p: nat) | CreatedFrom(p: nat) | CreatedUntil(p: nat)
    | SourceAmong(p: nat) | LikeImage | LikeVideo | NotLikeImage | NotLikeVideo
    | MemberOfAny(p: nat) | InFolder(p: nat) | PointedIntoBy(p: nat) | HiddenIs(hidden: bool)

  datatype Token = And | Or | Open | Close | Cond(condition: Condition)

  type Tokens = seq<Token>

  predicate IsTime(args: seq<Arg>, p: nat) { 1 <= p <= |args| && args[p - 1].TimeArg? }

  predicate IsNames(args: seq<Arg>, p: nat) { 1 <= p <= |args| && args[p - 1].NamesArg? }

  predicate IsId(args: seq<Arg>, p: nat) { 1 <= p <= |args| && args[p - 1].IdArg? }

  /** The placeholder has a bound value of the type the comparison needs. */
  predicate Bound(c: Condition, args: seq<Arg>) {
    match c
    case CapturedFrom(p) => IsTime(args, p)
    case CapturedUntil(p) => IsTime(args, p)
    case CreatedFrom(p) => IsTime(args, p)
    case CreatedUntil(p) => IsTime(args, p)
    case SourceAmong(p) => IsNames(args, p)
    case MemberOfAny(p) => IsNames(args, p)
    case InFolder(p) => IsId(args, p)
    case PointedIntoBy(p) => IsId(args, p)
    case _ => true
  }

  predicate Holds(c: Condition, f: File, args: seq<Arg>)
    requires Bound(c, args)
  {
    match c
    case CapturedFrom(p) => args[p - 1].t <= f.CapturedAt()
    case CapturedUntil(p) => f.CapturedAt() <= args[p - 1].t
    case CreatedFrom(p) => args[p - 1].t <= f.createdAt
    case CreatedUntil(p) => f.createdAt <= args[p - 1].t
    case SourceAmong(p) => f.source in args[p - 1].names
    case LikeImage => "image/" <= f.mimeType
    case LikeVideo => "video/" <= f.mimeType
    case NotLikeImage => !("image/" <= f.mimeType)
    case NotLikeVideo => !("video/" <= f.mimeType)
    case MemberOfAny(p) => exists g <- f.groups :: g in args[p - 1].names
    case InFolder(p) => f.folder == Some(args[p - 1].id)
    case PointedIntoBy(p) => args[p - 1].id in f.collections
    case HiddenIs(hidden) => f.hidden == hidden
  }

  // ── Reading a fragment ─────────────────────────────────────────────────────

  /** A truth value and the tokens after it; None is a query the database refuses. */
  type Reading = Option<(bool, Tokens)>

  function ReadFactor(ts: Tokens, f: File, args: seq<Arg>): (r: Reading)
    ensures r.Some? ==> |r.value.1| < |ts|
    decreases |ts|, 0
  {
    if ts == [] then None
    else if ts[0].Cond? then
      if Bound(ts[0].condition, args) then Some((Holds(ts[0].condition, f, args), ts[1..])) else None
    else if ts[0].Open? then
      match ReadOr(ts[1..], f, args)
      case None => None
      case Some((value, rest)) => if rest != [] && rest[0].Close? then Some((value, rest[1..])) else None
    else None
  }

  function ReadAnd(ts: Tokens, f: File, args: seq<Arg>): (r: Reading)
    ensures r.Some? ==> |r.value.1| < |ts|
    decreases |ts|, 1
  {
    match ReadFactor(ts, f, args)
    case None => None
    case Some((value, rest)) =>
      if rest == [] || !rest[0].And? then Some((value, rest)) else
      match ReadAnd(rest[1..], f, args)
      case None => None
      case Some((others, end)) => Some((value && others, end))
  }

  function ReadOr(ts: Tokens, f: File, args: seq<Arg>): (r: Reading)
    ensures r.Some? ==> |r.value.1| < |ts|
    decreases |ts|, 2
  {
    match ReadAnd(ts, f, args)
    case None => None
    case Some((value, rest)) =>
      if rest == [] || !rest[0].Or? then Some((value, rest)) else
      match ReadOr(rest[1..], f, args)
      case None => None
      case Some((others, end)) => Some((value || others, end))
  }

  /** The fragment, read to its end, has this value. */
  predicate Means(ts: Tokens, f: File, args: seq<Arg>, value: bool) { ReadOr(ts, f, args) == Some((value, [])) }

  // ── Readings compose ───────────────────────────────────────────────────────

  lemma {:induction false} FactorContinues(ts: Tokens, more: Tokens, f: File, args: seq<Arg>)
    requires ReadFactor(ts, f, args).Some?
    ensures var (value, rest) := ReadFactor(ts, f, args).value;
      ReadFactor(ts + more, f, args) == Some((value, rest + more))
    decreases |ts|, 0
  {
    assert (ts + more)[1..] == ts[1..] + more;
    if ts[0].Open? {
      OrContinues(ts[1..], more, f, args);
      var rest := ReadOr(ts[1..], f, args).value.1;
      assert (rest + more)[1..] == rest[1..] + more;
    }
  }

  lemma {:induction false} AndContinues(ts: Tokens, more: Tokens, f: File, args: seq<Arg>)
    requires ReadAnd(ts, f, args).Some?
    requires ReadAnd(ts, f, args).value.1 != [] || more == [] || !more[0].And?
    ensures var (value, rest) := ReadAnd(ts, f, args).value; ReadAnd(ts + more, f, args) == Some((value, rest + more))
    decreases |ts|, 1
  {
    FactorContinues(ts, more, f, args);
    var rest := ReadFactor(ts, f, args).value.1;
    if rest != [] && rest[0].And? {
      AndContinues(rest[1..], more, f, args);
      assert (rest + more)[1..] == rest[1..] + more;
    }
  }

  lemma {:induction false} OrContinues(ts: Tokens, more: Tokens, f: File, args: seq<Arg>)
    requires ReadOr(ts, f, args).Some?
    requires ReadOr(ts, f, args).value.1 != [] || more == [] || !(more[0].And? || more[0].Or?)
    ensures var (value, rest) := ReadOr(ts, f, args).value; ReadOr(ts + more, f, args) == Some((value, rest + more))
    decreases |ts|, 2
  {
    AndContinues(ts, more, f, args);
    var rest := ReadAnd(ts, f, args).value.1;
    if rest != [] && rest[0].Or? {
      OrContinues(rest[1..], more, f, args);
      assert (rest + more)[1..] == rest[1..] + more;
    }
  }

  lemma {:induction false} AndJoin(x: Tokens, y: Tokens, f: File, args: seq<Arg>, v: bool, w: bool)
    requires ReadAnd(x, f, args) == Some((v, [])) && ReadAnd(y, f, args) == Some((w, []))
    ensures ReadAnd(x + [And] + y, f, args) == Some((v && w, []))
    decreases |x|
  {
    FactorContinues(x, [And] + y, f, args);
    assert x + [And] + y == x + ([And] + y);
    var (first, rest) := ReadFactor(x, f, args).value;
    if rest == [] {
      assert ([] + ([And] + y))[1..] == y;
    } else {
      var others := ReadAnd(rest[1..], f, args).value.0;
      AndJoin(rest[1..], y, f, args, others, w);
      assert (rest + ([And] + y))[1..] == rest[1..] + [And] + y;
    }
  }

  lemma OrJoin(x: Tokens, y: Tokens, f: File, args: seq<Arg>, v: bool, w: bool)
    requires ReadAnd(x, f, args) == Some((v, [])) && Means(y, f, args, w)
    ensures Means(x + [Or] + y, f, args, v || w)
  {
    AndContinues(x, [Or] + y, f, args);
    assert x + [Or] + y == x + ([Or] + y);
    assert ([] + ([Or] + y))[1..] == y;
  }

  lemma Parenthesize(x: Tokens, f: File, args: seq<Arg>, v: bool)
    requires Means(x, f, args, v)
    ensures ReadAnd([Open] + x + [Close], f, args) == Some((v, []))
  {
    OrContinues(x, [Close], f, args);
    assert ([Open] + x + [Close])[1..] == x + [Close];
    assert [] + [Close] == [Close];
  }

  /** A fragment of clauses, each starting with AND, that narrows what comes before it to `value`. */
  predicate Narrows(tail: Tokens, f: File, args: seq<Arg>, value: bool) {
    if tail == [] then value else tail[0].And? && ReadAnd(tail[1..], f, args) == Some((value, []))
  }

  lemma NarrowsJoin(a: Tokens, b: Tokens, f: File, args: seq<Arg>, v: bool, w: bool)
    requires Narrows(a, f, args, v) && Narrows(b, f, args, w)
    ensures Narrows(a + b, f, args, v && w)
  {
    if a == [] {
      assert a + b == b;
    } else if b == [] {
      assert a + b == a;
    } else {
      AndJoin(a[1..], b[1..], f, args, v, w);
      assert (a + b)[1..] == a[1..] + [And] + b[1..];
    }
  }

  lemma NarrowsMeans(head: Tokens, tail: Tokens, f: File, args: seq<Arg>, v: bool, w: bool)
    requires ReadAnd(head, f, args) == Some((v, [])) && Narrows(tail, f, args, w)
    ensures Means(head + tail, f, args, v && w)
  {
    if tail == [] {
      assert head + tail == head;
    } else {
      AndJoin(head, tail[1..], f, args, v, w);
      assert head + tail == head + [And] + tail[1..];
    }
  }

  // ── Later arguments change nothing ─────────────────────────────────────────

  lemma {:induction false} ReadFactorMoreArgs(ts: Tokens, f: File, args: seq<Arg>, more: seq<Arg>)
    requires ReadFactor(ts, f, args).Some?
    ensures ReadFactor(ts, f, args + more) == ReadFactor(ts, f, args)
    decreases |ts|, 0
  {
    if ts[0].Open? {
      ReadOrMoreArgs(ts[1..], f, args, more);
    }
  }

  lemma {:induction false} ReadAndMoreArgs(ts: Tokens, f: File, args: seq<Arg>, more: seq<Arg>)
    requires ReadAnd(ts, f, args).Some?
    ensures ReadAnd(ts, f, args + more) == ReadAnd(ts, f, args)
    decreases |ts|, 1
  {
    ReadFactorMoreArgs(ts, f, args, more);
    var rest := ReadFactor(ts, f, args).value.1;
    if rest != [] && rest[0].And? {
      ReadAndMoreArgs(rest[1..], f, args, more);
    }
  }

  lemma {:induction false} ReadOrMoreArgs(ts: Tokens, f: File, args: seq<Arg>, more: seq<Arg>)
    requires ReadOr(ts, f, args).Some?
    ensures ReadOr(ts, f, args + more) == ReadOr(ts, f, args)
    decreases |ts|, 2
  {
    ReadAndMoreArgs(ts, f, args, more);
    var rest := ReadAnd(ts, f, args).value.1;
    if rest != [] && rest[0].Or? {
      ReadOrMoreArgs(rest[1..], f, args, more);
    }
  }

  lemma NarrowsMoreArgs(tail: Tokens, f: File, args: seq<Arg>, more: seq<Arg>, value: bool)
    requires Narrows(tail, f, args, value)
    ensures Narrows(tail, f, args + more, value)
  {
    if tail != [] {
      ReadAndMoreArgs(tail[1..], f, args, more);
    }
  }
}
