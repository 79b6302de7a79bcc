/**
 * Cursor paging: limits, offset tokens and time tokens (api/db/queries.go), and the
 * snapshot list that uses time tokens (api/db/metrics.go). A walk follows next tokens
 * from the empty cursor, each page asking for its own limit.
 */
module Paging {
  import opened Prelude

  const DEFAULT_PAGE_LIMIT := 50
  const MAX_PAGE_LIMIT := 128

  /** Unix nanoseconds, the range in which a timestamp has them. */
  type Nanos = t: int | -0x8000_0000_0000_0000 <= t < 0x8000_0000_0000_0000

  /** A page token: empty, or one integer under an injective encoding. */
  datatype Token = Empty | Encoded(value: int)

  datatype Page<+T> = Page(items: seq<T>, next: Token)

  datatype Snapshot = Snapshot(at: Nanos, sample: Id)

  function ClampLimit(limit: int): (clamped: int)
    ensures 1 <= clamped <= MAX_PAGE_LIMIT
    ensures 1 <= limit <= MAX_PAGE_LIMIT ==> clamped == limit
  {
    if limit <= 0 then DEFAULT_PAGE_LIMIT else if limit > MAX_PAGE_LIMIT then MAX_PAGE_LIMIT else limit
  }

  function DecodeOffset(token: Token): int {
    match token
    case Empty => 0
    case Encoded(offset) => offset
  }

  function OffsetNextToken(results: nat, limit: int, offset: int): Token {
    if results < limit then Empty else Encoded(offset + limit)
  }

  /** None stands for the zero time, which asks for the newest rows. */
  function DecodeTime(token: Token): Option<int> {
    match token
    case Empty => None
    case Encoded(before) => if before == 0 then None else Some(before)
  }

  function EncodeTime(t: Nanos): Token { Encoded(t) }

  function Take<T>(rows: seq<T>, limit: nat): seq<T> { if limit < |rows| then rows[..limit] else rows }

  /** OFFSET … LIMIT …; the database refuses a negative offset. */
  function OffsetPage<T>(rows: seq<T>, token: Token, requested: int): Option<Page<T>> {
    var limit := ClampLimit(requested);
    var offset := DecodeOffset(token);
    if offset < 0 then None else
    var items := if offset < |rows| then Take(rows[offset..], limit) else [];
    Some(Page(items, OffsetNextToken(|items|, limit, offset)))
  }

  /** WHERE sampled_at < before. */
  function Older(rows: seq<Snapshot>, before: int): seq<Snapshot> {
    if rows == [] then [] else (if rows[0].at < before then [rows[0]] else []) + Older(rows[1..], before)
  }

  /** The page of rows, given newest first, that ListSnapshots returns. */
  function ListSnapshots(rows: seq<Snapshot>, token: Token, requested: int): Page<Snapshot> {
    var limit := ClampLimit(requested);
    var items := match DecodeTime(token)
      case None => Take(rows, limit)
      case Some(before) => Take(Older(rows, before), limit);
    Page(items, if |items| == limit then EncodeTime(items[|items| - 1].at) else Empty)
  }

  /** A walk in progress: the rows seen, the token to send, whether the last page said it was last. */
  datatype Walk<+T> = Walk(seen: seq<T>, token: Token, done: bool)

  function OffsetWalk<T>(rows: seq<T>, limits: nat -> int, pages: nat): Walk<T> {
    if pages == 0 then Walk([], Empty, false) else
    NextOffsetWalk(rows, OffsetWalk(rows, limits, pages - 1), limits(pages - 1))
  }

  function NextOffsetWalk<T>(rows: seq<T>, walk: Walk<T>, requested: int): Walk<T> {
    if walk.done then walk else
    match OffsetPage(rows, walk.token, requested)
    case None => walk
    case Some(page) => Walk(walk.seen + page.items, page.next, page.next.Empty?)
  }

  function TimeWalk(rows: seq<Snapshot>, limits: nat -> int, pages: nat): Walk<Snapshot> {
    if pages == 0 then Walk([], Empty, false) else
    NextSnapshots(rows, TimeWalk(rows, limits, pages - 1), limits(pages - 1))
  }

  function NextSnapshots(rows: seq<Snapshot>, walk: Walk<Snapshot>, requested: int): (next: Walk<Snapshot>)
    ensures walk.seen <= next.seen && (walk.done ==> next == walk)
  {
    if walk.done then walk else
    var page := ListSnapshots(rows, walk.token, requested);
    Walk(walk.seen + page.items, page.next, page.next.Empty?)
  }

  // ── Offset walks ───────────────────────────────────────────────────────────

  /** A walk that has finished, or has seen a prefix and knows where it ends. */
  ghost predicate AtOffset<T>(rows: seq<T>, walk: Walk<T>, pages: nat) {
    if walk.done then walk == Walk(rows, Empty, true)
    else pages <= |walk.seen| <= |rows| && walk.seen == rows[..|walk.seen|] && DecodeOffset(walk.token) == |walk.seen|
  }

  lemma NextOffsetPage<T>(rows: seq<T>, token: Token, requested: int, n: nat)
    requires DecodeOffset(token) == n <= |rows|
    ensures OffsetPage(rows, token, requested).Some?
    ensures var page := OffsetPage(rows, token, requested).value;
      if n + ClampLimit(requested) <= |rows|
      then page == Page(rows[n..n + ClampLimit(requested)], Encoded(n + ClampLimit(requested)))
      else page == Page(rows[n..], Empty)
  {
  }

  lemma {:induction false} OffsetWalkSoFar<T>(rows: seq<T>, limits: nat -> int, pages: nat)
    ensures AtOffset(rows, OffsetWalk(rows, limits, pages), pages)
  {
    if pages > 0 {
      OffsetWalkSoFar(rows, limits, pages - 1);
      var walk := OffsetWalk(rows, limits, pages - 1);
      if !walk.done {
        NextOffsetPage(rows, walk.token, limits(pages - 1), |walk.seen|);
      }
    }
  }

  /** Whatever limits are asked for, the walk ends and has seen every row once, in order. */
  lemma OffsetWalkIsComplete<T>(rows: seq<T>, limits: nat -> int)
    ensures OffsetWalk(rows, limits, |rows| + 1) == Walk(rows, Empty, true)
  {
    OffsetWalkSoFar(rows, limits, |rows| + 1);
  }

  // ── Time walks ─────────────────────────────────────────────────────────────

  /** ORDER BY sampled_at DESC. */
  predicate NewestFirst(rows: seq<Snapshot>) {
    forall i, j | 0 <= i < j < |rows| :: rows[j].at <= rows[i].at
  }

  predicate StrictlyNewestFirst(rows: seq<Snapshot>) {
    forall i, j | 0 <= i < j < |rows| :: rows[j].at < rows[i].at
  }

  predicate NoneAtEpoch(rows: seq<Snapshot>) { forall i | 0 <= i < |rows| :: rows[i].at != 0 }

  lemma {:induction false} OlderIsSuffix(rows: seq<Snapshot>, before: int, n: nat)
    requires n <= |rows|
    requires forall i | 0 <= i < n :: before <= rows[i].at
    requires forall i | n <= i < |rows| :: rows[i].at < before
    ensures Older(rows, before) == rows[n..]
    decreases |rows|
  {
    if rows != [] {
      OlderIsSuffix(rows[1..], before, if n == 0 then 0 else n - 1);
    }
  }

  /** Up to row n the timestamps are distinct and none is the epoch. */
  predicate CleanBefore(rows: seq<Snapshot>, n: nat)
    requires n <= |rows|
  {
    forall i | 0 <= i < n :: rows[i].at != 0 && (i + 1 < |rows| ==> rows[i + 1].at < rows[i].at)
  }

  /** The page after a clean row starts at the next row. */
  lemma PageAfterCleanRow(rows: seq<Snapshot>, n: nat, requested: int)
    requires NewestFirst(rows) && 0 < n <= |rows| && CleanBefore(rows, n)
    ensures ListSnapshots(rows, Encoded(rows[n - 1].at), requested).items == Take(rows[n..], ClampLimit(requested))
  {
    forall i | n <= i < |rows| ensures rows[i].at < rows[n - 1].at {
      assert i == n || rows[i].at <= rows[n].at;
    }
    OlderIsSuffix(rows, rows[n - 1].at, n);
  }

  lemma {:induction false} TimeWalkSoFar(rows: seq<Snapshot>, limits: nat -> int, pages: nat)
    requires NewestFirst(rows) && CleanBefore(rows, |rows|)
    ensures OnTrack(rows, TimeWalk(rows, limits, pages), pages)
  {
    if pages > 0 {
      TimeWalkSoFar(rows, limits, pages - 1);
      var walk := TimeWalk(rows, limits, pages - 1);
      if !walk.done {
        NextPageOnTrack(rows, walk, limits(pages - 1), pages - 1);
      }
    }
  }

  /** A walk that has finished, or has seen a prefix and remembers its last row's time. */
  ghost predicate OnTrack(rows: seq<Snapshot>, walk: Walk<Snapshot>, pages: nat) {
    if walk.done then walk == Walk(rows, Empty, true)
    else pages <= |walk.seen| <= |rows| && walk == Walk(rows[..|walk.seen|], TokenAfter(rows, |walk.seen|), false)
  }

  function TokenAfter(rows: seq<Snapshot>, n: nat): Token
    requires n <= |rows|
  {
    if n == 0 then Empty else EncodeTime(rows[n - 1].at)
  }

  lemma NextPageOnTrack(rows: seq<Snapshot>, walk: Walk<Snapshot>, requested: int, pages: nat)
    requires NewestFirst(rows) && CleanBefore(rows, |rows|) && !walk.done && OnTrack(rows, walk, pages)
    ensures var page := ListSnapshots(rows, walk.token, requested);
      OnTrack(rows, Walk(walk.seen + page.items, page.next, page.next.Empty?), pages + 1)
  {
    var n := |walk.seen|;
    var page := ListSnapshots(rows, walk.token, requested);
    if n > 0 {
      PageAfterCleanRow(rows, n, requested);
    }
    assert page.items == Take(rows[n..], ClampLimit(requested));
    assert walk.seen + page.items == rows[..n + |page.items|];
  }

  /** Some number of pages sees every row once, in order, and says it is the last. */
  ghost predicate Completes(rows: seq<Snapshot>, limits: nat -> int) {
    exists pages: nat :: TimeWalk(rows, limits, pages) == Walk(rows, Empty, true)
  }

  lemma CleanWalkCompletes(rows: seq<Snapshot>, limits: nat -> int)
    requires NewestFirst(rows) && CleanBefore(rows, |rows|)
    ensures TimeWalk(rows, limits, |rows| + 1) == Walk(rows, Empty, true)
  {
    TimeWalkSoFar(rows, limits, |rows| + 1);
  }

  function OneRow(k: nat): int { 1 }

  /** Asking for one row at a time walks the clean rows one by one. */
  lemma {:induction false} SingleSteps(rows: seq<Snapshot>, n: nat)
    requires NewestFirst(rows) && n <= |rows| && (0 < n ==> CleanBefore(rows, n - 1))
    ensures TimeWalk(rows, OneRow, n) == Walk(rows[..n], TokenAfter(rows, n), false)
  {
    if n > 0 {
      SingleSteps(rows, n - 1);
      if n > 1 {
        PageAfterCleanRow(rows, n - 1, 1);
      }
    }
  }

  /** One row at a time, the page after row n of a list whose first unclean row is at the epoch. */
  lemma EpochStep(rows: seq<Snapshot>, bad: nat, n: nat) returns (next: nat)
    requires NewestFirst(rows) && bad < |rows| && CleanBefore(rows, bad) && rows[bad].at == 0 && n <= bad + 1
    ensures 0 < next <= bad + 1 && ListSnapshots(rows, TokenAfter(rows, n), 1).next == EncodeTime(rows[next - 1].at)
  {
    if 0 < n <= bad {
      PageAfterCleanRow(rows, n, 1);
      next := n + 1;
    } else {
      next := 1;
    }
  }

  /** A page that ends on the epoch sends the walk back to the start, so it never ends. */
  lemma {:induction false} EpochLoops(rows: seq<Snapshot>, bad: nat, pages: nat) returns (n: nat)
    requires NewestFirst(rows) && bad < |rows| && CleanBefore(rows, bad) && rows[bad].at == 0
    ensures n <= bad + 1
    ensures TimeWalk(rows, OneRow, pages).token == TokenAfter(rows, n) && !TimeWalk(rows, OneRow, pages).done
  {
    n := 0;
    if pages > 0 {
      var before := EpochLoops(rows, bad, pages - 1);
      n := EpochStep(rows, bad, before);
    }
  }

  lemma {:induction false} OlderAreOlder(rows: seq<Snapshot>, before: int)
    ensures forall row <- Older(rows, before) :: row.at < before
  {
    if rows != [] {
      OlderAreOlder(rows[1..], before);
    }
  }

  /** The walk has ended without row bad + 1, or has an older row in its place. */
  predicate Astray(rows: seq<Snapshot>, bad: nat, walk: Walk<Snapshot>)
    requires bad + 1 < |rows|
  {
    if |walk.seen| > bad + 1 then walk.seen[bad + 1].at < rows[bad + 1].at else walk.done && |walk.seen| == bad + 1
  }

  /** Of two rows with one timestamp, the second is not on the page after the first. */
  lemma TiedPage(rows: seq<Snapshot>, bad: nat)
    requires bad + 1 < |rows| && rows[bad].at == rows[bad + 1].at != 0
    ensures Astray(rows, bad, NextSnapshots(rows, Walk(rows[..bad + 1], TokenAfter(rows, bad + 1), false), 1))
  {
    OlderAreOlder(rows, rows[bad].at);
    var page := ListSnapshots(rows, TokenAfter(rows, bad + 1), 1);
    assert page.items == Take(Older(rows, rows[bad].at), 1);
    assert page.next.Empty? <==> page.items == [];
  }

  lemma NextStaysAstray(rows: seq<Snapshot>, bad: nat, walk: Walk<Snapshot>, requested: int)
    requires bad + 1 < |rows| && Astray(rows, bad, walk)
    ensures Astray(rows, bad, NextSnapshots(rows, walk, requested))
  {
    var next := NextSnapshots(rows, walk, requested);
    assert |walk.seen| > bad + 1 ==> next.seen[bad + 1] == walk.seen[bad + 1];
  }

  lemma {:induction false} WalkGoesAstray(rows: seq<Snapshot>, bad: nat, pages: nat)
    requires NewestFirst(rows) && bad + 1 < |rows| && CleanBefore(rows, bad) && bad + 1 < pages
    requires rows[bad].at == rows[bad + 1].at != 0
    ensures Astray(rows, bad, TimeWalk(rows, OneRow, pages))
  {
    if pages == bad + 2 {
      SingleSteps(rows, bad + 1);
      TiedPage(rows, bad);
    } else {
      WalkGoesAstray(rows, bad, pages - 1);
      NextStaysAstray(rows, bad, TimeWalk(rows, OneRow, pages - 1), 1);
    }
  }

  /** So a walk that ends a page between them never completes. */
  lemma TieSkips(rows: seq<Snapshot>, bad: nat, pages: nat)
    requires NewestFirst(rows) && bad + 1 < |rows| && CleanBefore(rows, bad)
    requires rows[bad].at == rows[bad + 1].at != 0
    ensures TimeWalk(rows, OneRow, pages) != Walk(rows, Empty, true)
  {
    if pages <= bad + 1 {
      SingleStepsOpen(rows, bad, pages);
    } else {
      WalkGoesAstray(rows, bad, pages);
    }
  }

  lemma SingleStepsOpen(rows: seq<Snapshot>, bad: nat, pages: nat)
    requires NewestFirst(rows) && bad < |rows| && CleanBefore(rows, bad) && pages <= bad + 1
    ensures !TimeWalk(rows, OneRow, pages).done
  {
    assert 0 < pages ==> CleanBefore(rows, pages - 1);
    SingleSteps(rows, pages);
  }

  lemma {:induction false} FirstBad(rows: seq<Snapshot>, n: nat) returns (bad: nat)
    requires n <= |rows| && !CleanBefore(rows, n)
    ensures bad < n && CleanBefore(rows, bad) && !CleanBefore(rows, bad + 1)
  {
    if CleanBefore(rows, n - 1) {
      bad := n - 1;
    } else {
      bad := FirstBad(rows, n - 1);
    }
  }

  /** Time paging is complete for all limits exactly when timestamps are distinct and none is the epoch. */
  lemma TimeWalksCompleteIff(rows: seq<Snapshot>)
    requires NewestFirst(rows)
    ensures (forall limits: nat -> int :: Completes(rows, limits)) <==> (StrictlyNewestFirst(rows) && NoneAtEpoch(rows))
  {
    assert StrictlyNewestFirst(rows) && NoneAtEpoch(rows) <==> CleanBefore(rows, |rows|) by { CleanMeansStrict(rows); }
    if CleanBefore(rows, |rows|) {
      forall limits: nat -> int ensures Completes(rows, limits) {
        CleanWalkCompletes(rows, limits);
      }
    } else {
      var bad := FirstBad(rows, |rows|);
      forall pages: nat ensures TimeWalk(rows, OneRow, pages) != Walk(rows, Empty, true) {
        if rows[bad].at == 0 {
          var n := EpochLoops(rows, bad, pages);
        } else {
          TieSkips(rows, bad, pages);
        }
      }
      assert !Completes(rows, OneRow);
    }
  }

  lemma CleanMeansStrict(rows: seq<Snapshot>)
    requires NewestFirst(rows)
    ensures StrictlyNewestFirst(rows) && NoneAtEpoch(rows) <==> CleanBefore(rows, |rows|)
  {
    if CleanBefore(rows, |rows|) {
      forall i, j | 0 <= i < j < |rows| ensures rows[j].at < rows[i].at {
        assert rows[i + 1].at < rows[i].at && (j == i + 1 || rows[j].at <= rows[i + 1].at);
      }
    }
  }
}
