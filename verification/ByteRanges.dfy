/**
 Range requests: the single-range subset of sections 2.1 and 4.4 of RFC 7233, parsed from header text and resolved
 against a body length. Numbers are 64-bit.
 */
module ByteRanges {
  import opened Text
  import opened Wrappers

  const WORD: nat := 0x1_0000_0000_0000_0000

  datatype ByteRange =
    | Bounded(start: nat, end: nat)
    | OpenEnd(start: nat)
    | Suffix(length: nat)

  // ---- Decimals ----

  predicate IsDigit(c: char) { '0' <= c <= '9' }

  predicate AllDigits(s: string) {
    forall i :: 0 <= i < |s| ==> IsDigit(s[i])
  }

  function DigitValue(c: char): nat
    requires IsDigit(c)
  {
    (c as int) - ('0' as int)
  }

  function DecimalValue(s: string): nat
    requires AllDigits(s)
  {
    if s == "" then 0 else 10 * DecimalValue(s[..|s| - 1]) + DigitValue(s[|s| - 1])
  }

  function Digit(d: nat): (c: char)
    requires d < 10
    ensures IsDigit(c) && DigitValue(c) == d
  {
    "0123456789"[d]
  }

  function ToDecimal(n: nat): string {
    if n < 10 then [Digit(n)] else ToDecimal(n / 10) + [Digit(n % 10)]
  }

  function ParseU64Strict(s: string): Option<nat> {
    if s == "" || !AllDigits(s) then None
    else if DecimalValue(s) < WORD then Some(DecimalValue(s)) else None
  }

  function ParseByteRange(header: string): Option<ByteRange> {
    var trimmed := Trim(header);
    if !("bytes=" <= trimmed) then None else
    var spec := trimmed[6..];
    if ',' in spec then None else
    match SplitOnce(spec, '-')
    case None => None
    case Some((first, second)) =>
      if first == "" && second == "" then None
      else if first == "" then
        match ParseU64Strict(second)
        case None => None
        case Some(length) => if length == 0 then None else Some(Suffix(length))
      else if second == "" then
        match ParseU64Strict(first)
        case None => None
        case Some(start) => Some(OpenEnd(start))
      else
        match (ParseU64Strict(first), ParseU64Strict(second))
        case (Some(start), Some(end)) => if end < start then None else Some(Bounded(start, end))
        case _ => None
  }

  /** The ranges the syntax can express. */
  predicate WellFormed(r: ByteRange) {
    match r
    case Bounded(start, end) => start <= end < WORD
    case OpenEnd(start) => start < WORD
    case Suffix(length) => 0 < length < WORD
  }

  /** `s` is a decimal numeral for `n`, leading zeros allowed. */
  predicate Numeral(s: string, n: nat) {
    s != "" && AllDigits(s) && DecimalValue(s) == n
  }

  /** `spec` spells out `r`, split at position `i`. */
  predicate SpellsAt(spec: string, r: ByteRange, i: nat) {
    && i < |spec| && spec[i] == '-'
    && match r
       case Bounded(start, end) => Numeral(spec[..i], start) && Numeral(spec[i + 1..], end)
       case OpenEnd(start) => Numeral(spec[..i], start) && spec[i + 1..] == ""
       case Suffix(length) => spec[..i] == "" && Numeral(spec[i + 1..], length)
  }

  lemma SpelledHasNoComma(spec: string, r: ByteRange, i: nat)
    requires SpellsAt(spec, r, i)
    ensures ',' !in spec && '-' !in spec[..i]
  {
    forall j | 0 <= j < |spec| ensures spec[j] != ',' && (j < i ==> spec[j] != '-') {
      if j < i { assert spec[..i][j] == spec[j]; }
      if j > i { assert spec[i + 1..][j - i - 1] == spec[j]; }
    }
  }

  /** The parser accepts exactly the texts that, trimmed, spell a well-formed range after `bytes=`, and yields it. */
  lemma ParseAcceptsExactlySpelledRanges(header: string, r: ByteRange)
    ensures ParseByteRange(header) == Some(r) <==>
            && "bytes=" <= Trim(header) && WellFormed(r)
            && exists i: nat :: SpellsAt(Trim(header)[6..], r, i)
  {
    var t := Trim(header);
    if "bytes=" <= t {
      var spec := t[6..];
      SplitOnceFindsFirst(spec, '-');
      if ParseByteRange(header) == Some(r) {
        var (a, b) := SplitOnce(spec, '-').value;
        assert SpellsAt(spec, r, |a|);
      }
      if i: nat :| SpellsAt(spec, r, i) {
        SpelledHasNoComma(spec, r, i);
        SplitOnceAt(spec, '-', i);
      }
    }
  }

  // ---- Round trip ----

  lemma {:induction false} DecimalRoundTrip(n: nat)
    ensures Numeral(ToDecimal(n), n)
  {
    if n >= 10 {
      DecimalRoundTrip(n / 10);
      var s := ToDecimal(n);
      assert s[..|s| - 1] == ToDecimal(n / 10);
    }
  }

  function Spec(r: ByteRange): string {
    match r
    case Bounded(start, end) => ToDecimal(start) + ['-'] + ToDecimal(end)
    case OpenEnd(start) => ToDecimal(start) + ['-'] + ""
    case Suffix(length) => "" + ['-'] + ToDecimal(length)
  }

  function Print(r: ByteRange): string {
    "bytes=" + Spec(r)
  }

  lemma JoinParts(a: string, c: char, b: string)
    ensures var s := a + [c] + b; s[..|a|] == a && s[|a|] == c && s[|a| + 1..] == b
  {}

  lemma SpecSpells(r: ByteRange) returns (i: nat)
    ensures SpellsAt(Spec(r), r, i)
    ensures Spec(r) != "" && !IsWhite(Spec(r)[|Spec(r)| - 1])
  {
    match r {
      case Bounded(start, end) =>
        DecimalRoundTrip(start);
        DecimalRoundTrip(end);
        JoinParts(ToDecimal(start), '-', ToDecimal(end));
        i := |ToDecimal(start)|;
      case OpenEnd(start) =>
        DecimalRoundTrip(start);
        JoinParts(ToDecimal(start), '-', "");
        i := |ToDecimal(start)|;
      case Suffix(length) =>
        DecimalRoundTrip(length);
        JoinParts("", '-', ToDecimal(length));
        i := 0;
    }
  }

  /** Printing a well-formed range and parsing it, even with white space around, gives the range back. */
  lemma RangeTextRoundTrips(r: ByteRange, pre: string, post: string)
    requires WellFormed(r)
    requires forall c :: c in pre + post ==> IsWhite(c)
    ensures ParseByteRange(pre + Print(r) + post) == Some(r)
  {
    var i := SpecSpells(r);
    var s := Print(r);
    assert s[6..] == Spec(r) && s[|s| - 1] == Spec(r)[|Spec(r)| - 1];
    assert pre + s + post == pre + (s + post) && (s + post)[0] == 'b';
    forall c | c in pre || c in post ensures IsWhite(c) { assert c in pre + post; }
    TrimStartSkips(pre, s + post);
    TrimEndSkips(s, post);
    ParseAcceptsExactlySpelledRanges(pre + s + post, r);
  }

  // ---- Resolution ----

  function ResolveRange(range: ByteRange, total: nat): Option<(nat, nat)> {
    if total == 0 then None else
    var last := total - 1;
    match range
    case Bounded(start, end) => if start > last then None else Some((start, if end < last then end else last))
    case OpenEnd(start) => if start > last then None else Some((start, last))
    case Suffix(length) => Some((if total > length then total - length else 0, last))
  }

  /** The byte positions a range asks for. */
  predicate Requested(range: ByteRange, total: nat, p: nat) {
    && p < total
    && match range
       case Bounded(start, end) => start <= p <= end
       case OpenEnd(start) => start <= p
       case Suffix(length) => total <= p + length
  }

  /** A resolution covers exactly the requested positions: an interval of them, or nothing when there are none. */
  ghost predicate Exact(range: ByteRange, total: nat) {
    match ResolveRange(range, total)
    case None => forall p: nat :: !Requested(range, total, p)
    case Some((start, end)) =>
      start <= end < total && forall p: nat :: Requested(range, total, p) <==> start <= p <= end
  }

  /** Resolution is exact for every range the parser can produce; for hand-made ones it is exact if and only if they
      are not an empty suffix of a non-empty body or an inverted range that begins inside it. */
  lemma ResolutionIsExact(range: ByteRange, total: nat)
    ensures Exact(range, total) <==>
            !(total > 0 && match range
                           case Bounded(start, end) => end < start < total
                           case OpenEnd(_) => false
                           case Suffix(length) => length == 0)
    ensures WellFormed(range) ==> Exact(range, total)
  {
    match ResolveRange(range, total) {
      case None =>
      case Some((start, end)) =>
        if start <= end { assert Requested(range, total, start) <==> total > 0 && start < total; }
    }
  }

  /** What a header asks of a body is what it gets: the parsed range resolves to exactly the requested positions. */
  lemma ParsedRangeResolvesExactly(header: string, total: nat)
    ensures ParseByteRange(header).Some? ==> Exact(ParseByteRange(header).value, total)
  {
    if ParseByteRange(header).Some? {
      ParseAcceptsExactlySpelledRanges(header, ParseByteRange(header).value);
      ResolutionIsExact(ParseByteRange(header).value, total);
    }
  }

  // ---- Content-Range ----

  function FormatContentRange(start: nat, end: nat, total: nat): string {
    "bytes " + (ToDecimal(start) + ['-'] + (ToDecimal(end) + ['/'] + ToDecimal(total)))
  }

  function FormatContentRangeUnsatisfied(total: nat): string {
    "bytes */" + ToDecimal(total)
  }

  /** `text` reads `bytes start-end/total`, the dash at `i` and the slash at `j`. */
  predicate SpellsSlice(text: string, start: nat, end: nat, total: nat, i: nat, j: nat) {
    && 6 <= i < j < |text| && text[..6] == "bytes " && text[i] == '-' && text[j] == '/'
    && Numeral(text[6..i], start) && Numeral(text[i + 1..j], end) && Numeral(text[j + 1..], total)
  }

  /** `text` is the Content-Range of positions `start` to `end` of `total`: section 4.2 of RFC 7233. */
  ghost predicate NamesSlice(text: string, start: nat, end: nat, total: nat) {
    exists i, j :: SpellsSlice(text, start, end, total, i, j)
  }

  /** `text` is the Content-Range of a response that satisfies no range of `total`. */
  predicate NamesNoSlice(text: string, total: nat) {
    |text| > 8 && text[..8] == "bytes */" && Numeral(text[8..], total)
  }

  lemma FormattedNamesNoSlice(total: nat)
    ensures NamesNoSlice(FormatContentRangeUnsatisfied(total), total)
  {
    DecimalRoundTrip(total);
    assert FormatContentRangeUnsatisfied(total)[8..] == ToDecimal(total);
  }

  /** What is formatted spells the slice. */
  lemma FormattedNamesSlice(start: nat, end: nat, total: nat)
    ensures NamesSlice(FormatContentRange(start, end, total), start, end, total)
  {
    DecimalRoundTrip(start);
    DecimalRoundTrip(end);
    DecimalRoundTrip(total);
    var a, b, t := ToDecimal(start), ToDecimal(end), FormatContentRange(start, end, total);
    var i, j := 6 + |a|, 7 + |a| + |b|;
    assert t[6..i] == a && t[i + 1..j] == b && t[j + 1..] == ToDecimal(total);
    assert SpellsSlice(t, start, end, total, i, j);
  }

  lemma DecimalHasOnlyDigits(n: nat, c: char)
    requires !IsDigit(c)
    ensures c !in ToDecimal(n)
  {
    DecimalRoundTrip(n);
  }

  lemma ContentRangeSplits(s: nat, e: nat, t: nat)
    ensures var tail := ToDecimal(e) + ['/'] + ToDecimal(t);
            && SplitOnce(FormatContentRange(s, e, t)[6..], '-') == Some((ToDecimal(s), tail))
            && SplitOnce(tail, '/') == Some((ToDecimal(e), ToDecimal(t)))
  {
    var tail := ToDecimal(e) + ['/'] + ToDecimal(t);
    DecimalHasOnlyDigits(s, '-');
    DecimalHasOnlyDigits(e, '/');
    JoinSplits(ToDecimal(s), '-', tail);
    JoinSplits(ToDecimal(e), '/', ToDecimal(t));
    assert FormatContentRange(s, e, t)[6..] == ToDecimal(s) + ['-'] + tail;
  }

  /** A Content-Range value names one slice: its text determines start, end and total. */
  lemma ContentRangeNamesOneSlice(s: nat, e: nat, t: nat, s': nat, e': nat, t': nat)
    requires FormatContentRange(s, e, t) == FormatContentRange(s', e', t')
    ensures s == s' && e == e' && t == t'
  {
    ContentRangeSplits(s, e, t);
    ContentRangeSplits(s', e', t');
    DecimalRoundTrip(s); DecimalRoundTrip(s');
    DecimalRoundTrip(e); DecimalRoundTrip(e');
    DecimalRoundTrip(t); DecimalRoundTrip(t');
  }
}
