/**
 * Range requests on chunked files: parsing the header and widening the span
 * (api/routes/files.go), against sections 14.1.2 and 14.4 of RFC 9110.
 */
module ByteRange {
  import opened Prelude

  const MIN_INT64 := -0x8000_0000_0000_0000
  const MAX_INT64 := 0x7FFF_FFFF_FFFF_FFFF

  /** Four chunks of one MiB. */
  const MIN_RANGE_RESPONSE := 0x40_0000

  type Int64 = n: int | MIN_INT64 <= n <= MAX_INT64

  /** The inclusive span of bytes to send. */
  datatype Span = Span(start: Int64, end: Int64)

  function Wrap64(n: int): Int64 { (n - MIN_INT64) % 0x1_0000_0000_0000_0000 + MIN_INT64 }

  // ── Decimal numbers ────────────────────────────────────────────────────────

  predicate IsDigit(c: char) { '0' <= c <= '9' }

  function Digit(d: nat): char
    requires d < 10
  {
    '0' + d as char
  }

  /** The decimal rendering of n. */
  function Decimal(n: nat): (text: string)
    ensures text != "" && forall c <- text :: IsDigit(c)
  {
    if n < 10 then [Digit(n)] else Decimal(n / 10) + [Digit(n % 10)]
  }

  /** The value of a run of digits. */
  function ParseDigits(text: string): Option<nat> {
    if text == "" || !IsDigit(text[|text| - 1]) then None else
    var low := (text[|text| - 1] - '0') as nat;
    if |text| == 1 then Some(low) else
    match ParseDigits(text[..|text| - 1])
    case None => None
    case Some(high) => Some(10 * high + low)
  }

  /** strconv.ParseInt in base 10 for 64 bits: an optional sign, digits, and a value in range. */
  function ParseInt(text: string): Option<Int64> {
    var signed := text != "" && (text[0] == '+' || text[0] == '-');
    match ParseDigits(if signed then text[1..] else text)
    case None => None
    case Some(magnitude) =>
      var value: int := if signed && text[0] == '-' then 0 - magnitude else magnitude;
      if MIN_INT64 <= value <= MAX_INT64 then Some(value) else None
  }

  // ── parseRange ─────────────────────────────────────────────────────────────

  /** strings.IndexByte, with None for -1. */
  function IndexOf(text: string, c: char): (at: Option<nat>)
    ensures at.None? ==> c !in text
    ensures at.Some? ==> at.value < |text| && text[at.value] == c && c !in text[..at.value]
  {
    if text == "" then None
    else if text[0] == c then Some(0)
    else match IndexOf(text[1..], c)
      case None => None
      case Some(k) => assert text[..k + 1] == [text[0]] + text[1..][..k]; Some(k + 1)
  }

  const UNIT := "bytes="

  function ParseRange(header: string, size: Int64): Option<Span>
    requires 0 <= size
  {
    if !(UNIT <= header) then None else
    var spec := header[|UNIT|..];
    if ',' in spec then None else
    match IndexOf(spec, '-')
    case None => None
    case Some(dash) =>
      var first, last := spec[..dash], spec[dash + 1..];
      if first == "" then
        match ParseInt(last)
        case None => None
        case Some(n) => if n <= 0 then None else Some(Span(if size - n < 0 then 0 else size - n, size - 1))
      else
        match ParseInt(first)
        case None => None
        case Some(s) =>
          if s < 0 || s >= size then None
          else if last == "" then Some(Span(s, size - 1))
          else match ParseInt(last)
            case None => None
            case Some(e) => if e < s then None else Some(Span(s, if e >= size then size - 1 else e))
  }

  /** Nothing overflows: the span is wide enough already, or its widened end still fits 64 bits. */
  predicate WidensSafely(span: Span) {
    span.end - span.start + 1 >= MIN_RANGE_RESPONSE || span.start + MIN_RANGE_RESPONSE - 1 <= MAX_INT64
  }

  predicate InFile(span: Span, size: int) { 0 <= span.start <= span.end < size }

  function Min(a: int, b: int): int { if a <= b then a else b }

  /** The answer to a range request: status 416, or status 206 with its Content-Range. */
  datatype Response = NotSatisfiable(size: Int64) | Partial(span: Span, size: Int64)

  /** StreamFile's reply on a chunked file, in wrapping 64-bit arithmetic. */
  method StreamFile(header: string, size: Int64) returns (response: Response)
    requires 0 <= size
    ensures response.NotSatisfiable? <==> ParseRange(header, size).None?
    ensures response.size == size
    ensures response.Partial? ==>
      var asked := ParseRange(header, size).value;
      Widens(asked, response.span, size) && (InFile(response.span, size) <==> 0 < size && WidensSafely(asked))
  {
    var parsed := ParseRange(header, size);
    if parsed.None? {
      return NotSatisfiable(size);
    }
    AcceptedInBoundsIff(header, size);
    var Span(rangeStart, rangeEnd) := parsed.value;
    if Wrap64(rangeEnd - rangeStart + 1) < MIN_RANGE_RESPONSE {
      var expanded := Wrap64(rangeStart + MIN_RANGE_RESPONSE - 1);
      if expanded > size - 1 {
        expanded := size - 1;
      }
      rangeEnd := expanded;
    }
    return Partial(Span(rangeStart, rangeEnd), size);
  }

  /**
   * The sent span starts where asked and, exactly when nothing overflows, covers what was asked,
   * ends before the file does and is as long as the minimum or the rest of the file allows.
   */
  predicate Widens(asked: Span, sent: Span, size: Int64) {
    && sent.start == asked.start
    && (WidensSafely(asked) ==> asked.end <= sent.end < size)
    && (WidensSafely(asked) ==>
          sent.end == asked.end || sent.end - sent.start + 1 == Min(MIN_RANGE_RESPONSE, size - sent.start))
    && (WidensSafely(asked) ==> sent.end - sent.start + 1 >= Min(MIN_RANGE_RESPONSE, size - sent.start))
    && (!WidensSafely(asked) ==> sent.end < sent.start)
  }

  /** Accepted headers give a span inside the file exactly when the file has a byte. */
  lemma AcceptedInBoundsIff(header: string, size: Int64)
    requires 0 <= size && ParseRange(header, size).Some?
    ensures InFile(ParseRange(header, size).value, size) <==> 0 < size
  {
  }

  /** On an empty file a suffix range is accepted, with an end before its start. */
  lemma EmptyFileSuffix()
    ensures ParseRange("bytes=-1", 0) == Some(Span(0, -1))
  {
    assert "bytes=-1"[|UNIT|..] == "-1";
    assert ParseDigits("1") == Some(1);
  }

  // ── The standard's reading of a range ──────────────────────────────────────

  /** One range of section 14.1.2 of RFC 9110: first-last, first-, or -suffix. */
  datatype RangeSpec = FirstLast(first: nat, last: nat) | From(first: nat) | Suffix(length: nat)

  function Render(spec: RangeSpec): string {
    UNIT + match spec
      case FirstLast(first, last) => Decimal(first) + "-" + Decimal(last)
      case From(first) => Decimal(first) + "-"
      case Suffix(length) => "-" + Decimal(length)
  }

  /** The bytes the standard says a valid, satisfiable range selects. */
  function Selected(spec: RangeSpec, size: nat): Option<(int, int)> {
    match spec
    case FirstLast(first, last) => if first <= last && first < size then Some((first, Min(last, size - 1))) else None
    case From(first) => if first < size then Some((first, size - 1)) else None
    case Suffix(length) => if 0 < length && 0 < size then Some((size - Min(length, size), size - 1)) else None
  }

  /** Every number the range names fits a 64-bit integer. */
  predicate Fits(spec: RangeSpec) {
    match spec
    case FirstLast(first, last) => first <= MAX_INT64 && last <= MAX_INT64
    case From(first) => first <= MAX_INT64
    case Suffix(length) => length <= MAX_INT64
  }

  function AsPair(span: Option<Span>): Option<(int, int)> {
    match span
    case None => None
    case Some(s) => Some((s.start, s.end))
  }

  // ── Written ranges ─────────────────────────────────────────────────────────

  predicate Digits(text: string) { forall c <- text :: IsDigit(c) }

  /** One byte range as section 14.1.2 writes it: digits around a dash, on one side at least. */
  ghost predicate Conforms(header: string) {
    exists first: string, last: string ::
      Digits(first) && Digits(last) && (first != "" || last != "") && header == UNIT + first + "-" + last
  }

  function Zeros(k: nat): (text: string)
    ensures Digits(text)
  {
    if k == 0 then "" else Zeros(k - 1) + "0"
  }

  /** The text is the number's decimal rendering, after any number of leading zeros. */
  ghost predicate Names(text: string, n: nat) { exists k: nat :: text == Zeros(k) + Decimal(n) }

  /** The header is a way to write the range. */
  ghost predicate Written(header: string, spec: RangeSpec) {
    match spec
    case FirstLast(first, last) =>
      exists a: string, b: string :: Names(a, first) && Names(b, last) && header == UNIT + a + "-" + b
    case From(first) => exists a: string :: Names(a, first) && header == UNIT + a + "-"
    case Suffix(length) => exists b: string :: Names(b, length) && header == UNIT + "-" + b
  }

  /** Reading a digit more. */
  lemma ParseMore(text: string, low: nat)
    requires low < 10
    ensures ParseDigits(text + [Digit(low)]) ==
      if text == "" then Some(low)
      else if ParseDigits(text).None? then None
      else Some(10 * ParseDigits(text).value + low)
  {
    var more := text + [Digit(low)];
    assert more[|more| - 1] == Digit(low) && more[..|more| - 1] == text;
  }

  lemma {:induction false} ZerosParse(k: nat)
    ensures ParseDigits(Zeros(k)) == if k == 0 then None else Some(0)
  {
    if k > 0 {
      ZerosParse(k - 1);
      ParseMore(Zeros(k - 1), 0);
    }
  }

  lemma {:induction false} PaddedParses(k: nat, n: nat)
    ensures ParseDigits(Zeros(k) + Decimal(n)) == Some(n)
  {
    if n < 10 {
      ZerosParse(k);
      ParseMore(Zeros(k), n);
    } else {
      PaddedParses(k, n / 10);
      ParseMore(Zeros(k) + Decimal(n / 10), n % 10);
      assert Zeros(k) + Decimal(n) == (Zeros(k) + Decimal(n / 10)) + [Digit(n % 10)];
    }
  }

  /** A digit more, behind a named number. */
  lemma NamesMore(text: string, high: nat, low: nat)
    requires Names(text, high) && low < 10
    ensures Names(text + [Digit(low)], 10 * high + low)
  {
    var k: nat :| text == Zeros(k) + Decimal(high);
    if high == 0 {
      assert Zeros(k + 1) == text;
      assert text + [Digit(low)] == Zeros(k + 1) + Decimal(low);
    } else {
      assert Decimal(10 * high + low) == Decimal(high) + [Digit(low)];
      assert text + [Digit(low)] == Zeros(k) + Decimal(10 * high + low);
    }
  }

  /** A run of digits names one number, the one read from it. */
  lemma {:induction false} RunNames(text: string)
    requires text != "" && Digits(text)
    ensures ParseDigits(text).Some? && Names(text, ParseDigits(text).value)
  {
    assert IsDigit(text[|text| - 1]);
    var low, rest := (text[|text| - 1] - '0') as nat, text[..|text| - 1];
    assert text == rest + [Digit(low)];
    ParseMore(rest, low);
    if rest == "" {
      assert text == Zeros(0) + Decimal(low);
    } else {
      assert forall c <- rest :: c in text;
      RunNames(rest);
      NamesMore(rest, ParseDigits(rest).value, low);
    }
  }

  lemma {:induction false} ParsedIsRun(text: string)
    requires ParseDigits(text).Some?
    ensures text != "" && Digits(text)
  {
    if |text| > 1 {
      ParsedIsRun(text[..|text| - 1]);
      assert text == text[..|text| - 1] + [text[|text| - 1]];
    }
  }

  lemma NamedParses(text: string, n: nat)
    requires Names(text, n)
    ensures text != "" && Digits(text) && ParseDigits(text) == Some(n)
    ensures ParseInt(text) == if n <= MAX_INT64 then Some(n) else None
  {
    var k: nat :| text == Zeros(k) + Decimal(n);
    PaddedParses(k, n);
    ParsedIsRun(text);
    assert IsDigit(text[0]);
  }

  lemma NamesItself(n: nat)
    ensures Names(Decimal(n), n)
  {
    assert Decimal(n) == Zeros(0) + Decimal(n);
  }

  lemma DigitsRoundTrip(n: nat)
    ensures ParseDigits(Decimal(n)) == Some(n)
  {
    NamesItself(n);
    NamedParses(Decimal(n), n);
  }

  lemma {:induction false} IndexOfFirst(text: string, c: char, k: nat)
    requires k < |text| && text[k] == c && c !in text[..k]
    ensures IndexOf(text, c) == Some(k)
  {
  }

  lemma SplitAtDash(first: string, last: string)
    requires '-' !in first
    ensures var header := UNIT + first + "-" + last; var spec := header[|UNIT|..];
      && UNIT <= header && (',' in spec <==> ',' in first || ',' in last) && IndexOf(spec, '-') == Some(|first|)
      && spec[..|first|] == first && spec[|first| + 1..] == last
  {
    var spec := (UNIT + first + "-" + last)[|UNIT|..];
    assert spec == first + "-" + last;
    assert spec[..|first|] == first;
    IndexOfFirst(spec, '-', |first|);
  }

  lemma FirstLastSelects(a: string, b: string, first: nat, last: nat, size: Int64)
    requires 0 <= size && Names(a, first) && Names(b, last)
    ensures AsPair(ParseRange(UNIT + a + "-" + b, size)) ==
            if Fits(FirstLast(first, last)) then Selected(FirstLast(first, last), size) else None
  {
    NamedParses(a, first);
    NamedParses(b, last);
    SplitAtDash(a, b);
  }

  lemma FromSelects(a: string, first: nat, size: Int64)
    requires 0 <= size && Names(a, first)
    ensures AsPair(ParseRange(UNIT + a + "-", size)) ==
            if Fits(From(first)) then Selected(From(first), size) else None
  {
    NamedParses(a, first);
    SplitAtDash(a, "");
    assert UNIT + a + "-" == UNIT + a + "-" + "";
  }

  lemma SuffixSelects(b: string, length: nat, size: Int64)
    requires 0 <= size && Names(b, length)
    ensures AsPair(ParseRange(UNIT + "-" + b, size)) ==
      if !Fits(Suffix(length)) then None
      else if size == 0 && 0 < length then Some((0, -1))
      else Selected(Suffix(length), size)
  {
    NamedParses(b, length);
    SplitAtDash("", b);
    assert UNIT + "-" + b == UNIT + "" + "-" + b;
  }

  /**
   * A header that writes a range is served as the standard says, leading zeros or not, as long
   * as its numbers fit 64 bits; on an empty file a suffix is accepted too.
   */
  lemma WrittenSelects(header: string, spec: RangeSpec, size: Int64)
    requires 0 <= size && Written(header, spec)
    ensures AsPair(ParseRange(header, size)) ==
      if !Fits(spec) then None
      else if size == 0 && spec.Suffix? && 0 < spec.length then Some((0, -1))
      else Selected(spec, size)
  {
    match spec
    case FirstLast(first, last) =>
      var a: string, b: string :| Names(a, first) && Names(b, last) && header == UNIT + a + "-" + b;
      FirstLastSelects(a, b, first, last, size);
    case From(first) =>
      var a: string :| Names(a, first) && header == UNIT + a + "-";
      FromSelects(a, first, size);
    case Suffix(length) =>
      var b: string :| Names(b, length) && header == UNIT + "-" + b;
      SuffixSelects(b, length, size);
  }

  /** A rendered range selects what the standard says, as long as its numbers fit 64 bits. */
  lemma ParseRendered(spec: RangeSpec, size: Int64)
    requires 0 < size
    ensures AsPair(ParseRange(Render(spec), size)) == if Fits(spec) then Selected(spec, size) else None
  {
    RenderWrites(spec);
    WrittenSelects(Render(spec), spec, size);
  }

  lemma RenderWrites(spec: RangeSpec)
    ensures Written(Render(spec), spec)
  {
    match spec
    case FirstLast(first, last) =>
      NamesItself(first);
      NamesItself(last);
      assert Render(spec) == UNIT + Decimal(first) + "-" + Decimal(last);
    case From(first) =>
      NamesItself(first);
      assert Render(spec) == UNIT + Decimal(first) + "-";
    case Suffix(length) =>
      NamesItself(length);
      assert Render(spec) == UNIT + "-" + Decimal(length);
  }

  /** The range that two digit runs name, one of which may be missing. */
  function SpecOf(first: string, last: string): RangeSpec
    requires Digits(first) && Digits(last) && (first != "" || last != "")
  {
    var a, b := ParseDigits(first), ParseDigits(last);
    if a.None? then Suffix(if b.Some? then b.value else 0)
    else if b.None? then From(a.value)
    else FirstLast(a.value, b.value)
  }

  lemma PartsWrite(first: string, last: string)
    requires Digits(first) && Digits(last) && (first != "" || last != "")
    ensures Written(UNIT + first + "-" + last, SpecOf(first, last))
  {
    if first != "" { RunNames(first); }
    if last != "" { RunNames(last); }
    if first == "" {
      assert UNIT + first + "-" + last == UNIT + "-" + last;
    } else if last == "" {
      assert UNIT + first + "-" + last == UNIT + first + "-";
    }
  }

  lemma WrittenConforms(header: string, spec: RangeSpec)
    requires Written(header, spec)
    ensures Conforms(header)
  {
    match spec
    case FirstLast(first, last) =>
      var a: string, b: string :| Names(a, first) && Names(b, last) && header == UNIT + a + "-" + b;
      NamedParses(a, first);
      NamedParses(b, last);
    case From(first) =>
      var a: string :| Names(a, first) && header == UNIT + a + "-";
      NamedParses(a, first);
      assert Digits("") && header == UNIT + a + "-" + "";
    case Suffix(length) =>
      var b: string :| Names(b, length) && header == UNIT + "-" + b;
      NamedParses(b, length);
      assert Digits("") && header == UNIT + "" + "-" + b;
  }

  /** The grammar's headers are the ways to write a range. */
  lemma ConformsIffWritten(header: string)
    ensures Conforms(header) <==> exists spec :: Written(header, spec)
  {
    if Conforms(header) {
      var first: string, last: string :|
        Digits(first) && Digits(last) && (first != "" || last != "") && header == UNIT + first + "-" + last;
      PartsWrite(first, last);
    }
    if spec :| Written(header, spec) {
      WrittenConforms(header, spec);
    }
  }

  // ── Signs ──────────────────────────────────────────────────────────────────

  predicate Signed(text: string) { text != "" && (text[0] == '+' || text[0] == '-') }

  function Unsigned(text: string): string { if Signed(text) then text[1..] else text }

  /** What is accepted as a non-negative number is a run of digits after its sign, and keeps its value without. */
  lemma UnsignedParses(text: string)
    requires ParseInt(text).Some? && 0 <= ParseInt(text).value
    ensures Unsigned(text) != "" && Digits(Unsigned(text)) && ParseInt(Unsigned(text)) == ParseInt(text)
    ensures ParseDigits(Unsigned(text)) == Some(ParseInt(text).value as nat)
    ensures Digits(text) <==> !Signed(text)
  {
    ParsedIsRun(Unsigned(text));
    assert IsDigit(Unsigned(text)[0]);
    if Signed(text) { assert text[0] in text; }
  }

  /** The text before the first dash and the text after it. */
  lemma AcceptedHasParts(header: string, size: Int64) returns (first: string, last: string)
    requires 0 <= size && ParseRange(header, size).Some?
    ensures header == UNIT + first + "-" + last && '-' !in first && (first != "" || last != "")
    ensures first != "" ==> ParseInt(first).Some? && 0 <= ParseInt(first).value
    ensures last != "" ==> ParseInt(last).Some? && 0 <= ParseInt(last).value
  {
    var text := header[|UNIT|..];
    var dash := IndexOf(text, '-').value;
    first, last := text[..dash], text[dash + 1..];
    assert text == first + "-" + last;
  }

  lemma ConformingParts(first: string, last: string)
    requires '-' !in first && Conforms(UNIT + first + "-" + last)
    ensures Digits(first) && Digits(last)
  {
    var header := UNIT + first + "-" + last;
    var a: string, b: string :| Digits(a) && Digits(b) && (a != "" || b != "") && header == UNIT + a + "-" + b;
    SplitAtDash(first, last);
    SplitAtDash(a, b);
  }

  /** An accepted header is in the grammar exactly when neither of its parts starts with a sign. */
  lemma AcceptedConformsIff(header: string, size: Int64) returns (first: string, last: string)
    requires 0 <= size && ParseRange(header, size).Some?
    ensures header == UNIT + first + "-" + last && '-' !in first
    ensures Conforms(header) <==> !Signed(first) && !Signed(last)
  {
    first, last := AcceptedHasParts(header, size);
    if first != "" { UnsignedParses(first); }
    if last != "" { UnsignedParses(last); }
    if Conforms(header) { ConformingParts(first, last); }
    assert Digits("");
    assert !Signed(first) && !Signed(last) ==> Digits(first) && Digits(last);
  }

  /** What is accepted as a number without its sign, when there is one. */
  lemma PartUnsigned(text: string)
    requires text != "" ==> ParseInt(text).Some? && 0 <= ParseInt(text).value
    ensures Digits(Unsigned(text)) && (Unsigned(text) == "" <==> text == "")
    ensures text != "" ==> ParseDigits(Unsigned(text)) == Some(ParseInt(text).value as nat)
  {
    if text != "" { UnsignedParses(text); }
  }

  /** An accepted pair of parts is served as the range its unsigned parts name. */
  lemma PartsSelect(first: string, last: string, size: Int64)
    requires 0 < size && '-' !in first && (first != "" || last != "")
    requires ParseRange(UNIT + first + "-" + last, size).Some?
    requires first != "" ==> ParseInt(first).Some? && 0 <= ParseInt(first).value
    requires last != "" ==> ParseInt(last).Some? && 0 <= ParseInt(last).value
    ensures Digits(Unsigned(first)) && Digits(Unsigned(last)) && (Unsigned(first) != "" || Unsigned(last) != "")
    ensures var spec := SpecOf(Unsigned(first), Unsigned(last));
      Fits(spec) && AsPair(ParseRange(UNIT + first + "-" + last, size)) == Selected(spec, size)
  {
    PartUnsigned(first);
    PartUnsigned(last);
    SplitAtDash(first, last);
    assert ParseDigits("").None?;
  }

  /** Every accepted header is served as the range that its digits write, whatever their signs. */
  lemma AcceptedMeansRange(header: string, size: Int64) returns (first: string, last: string, spec: RangeSpec)
    requires 0 < size && ParseRange(header, size).Some?
    ensures header == UNIT + first + "-" + last && '-' !in first
    ensures Written(UNIT + Unsigned(first) + "-" + Unsigned(last), spec)
    ensures Fits(spec) && AsPair(ParseRange(header, size)) == Selected(spec, size)
  {
    first, last := AcceptedHasParts(header, size);
    PartsSelect(first, last, size);
    spec := SpecOf(Unsigned(first), Unsigned(last));
    PartsWrite(Unsigned(first), Unsigned(last));
  }

  /** Signs that the grammar does not have are accepted. */
  lemma PlusIsAccepted()
    ensures ParseRange("bytes=+1-+2", 10) == Some(Span(1, 2)) && !Conforms("bytes=+1-+2")
  {
    SplitAtDash("+1", "+2");
    assert "bytes=+1-+2" == UNIT + "+1" + "-" + "+2";
    assert ParseDigits("1") == Some(1) && ParseDigits("2") == Some(2);
    assert "+1"[1..] == "1" && "+2"[1..] == "2";
    assert "+1"[0] in "+1" && !IsDigit("+1"[0]);
    if Conforms("bytes=+1-+2") { ConformingParts("+1", "+2"); }
  }

  /** The minus sign only before zero. */
  lemma MinusZeroIsAccepted()
    ensures ParseRange("bytes=0--0", 10) == Some(Span(0, 0)) && !Conforms("bytes=0--0")
  {
    SplitAtDash("0", "-0");
    assert "bytes=0--0" == UNIT + "0" + "-" + "-0";
    assert ParseDigits("0") == Some(0) && "-0"[1..] == "0";
    assert "-0"[0] in "-0" && !IsDigit("-0"[0]);
    if Conforms("bytes=0--0") { ConformingParts("0", "-0"); }
  }
}
