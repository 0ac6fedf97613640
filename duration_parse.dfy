/** The duration-string parser: finds the first substring of the form
    `digits[.digits]` followed by a unit letter `s`, `m` or `h` (the regular
    expression `(\d\d*(?:\.\d\d*)??)([smh])`, searched unanchored with
    leftmost-first semantics) and scales the number to whole microseconds.

    The regular expression is replaced by a hand-written scanner (`MatchAt`,
    `FirstMatch`) and proved equal to the language the expression denotes
    (`IsToken`). The floating-point arithmetic is replaced by exact decimals. */
module DurationParse {
  import opened Primitives
  import opened RunConfig

  /** The parser's only error. */
  datatype ParseError = DurationParseError

  datatype ParseResult = Ok(value: Duration) | Err(error: ParseError)

  // ---------------------------------------------------------------------
  // Character classes

  predicate IsAsciiDigit(c: char) {
    '0' <= c <= '9'
  }

  /** The blocks of decimal digits other than `0`-`9` (Unicode general
      category Nd, as of Unicode 15.0), each as its first and last code
      point: ten consecutive digits per block, except the fifty mathematical
      digits at U+1D7CE. No block starts below U+0660. The table is kept
      in four parts so that a lookup does not walk one long display. */
  const DIGIT_BLOCKS_0: seq<(int, int)> := [
    (0x0660, 0x0669), (0x06F0, 0x06F9), (0x07C0, 0x07C9), (0x0966, 0x096F),
    (0x09E6, 0x09EF), (0x0A66, 0x0A6F), (0x0AE6, 0x0AEF), (0x0B66, 0x0B6F),
    (0x0BE6, 0x0BEF), (0x0C66, 0x0C6F), (0x0CE6, 0x0CEF), (0x0D66, 0x0D6F),
    (0x0DE6, 0x0DEF), (0x0E50, 0x0E59), (0x0ED0, 0x0ED9), (0x0F20, 0x0F29)
  ]
  const DIGIT_BLOCKS_1: seq<(int, int)> := [
    (0x1040, 0x1049), (0x1090, 0x1099), (0x17E0, 0x17E9), (0x1810, 0x1819),
    (0x1946, 0x194F), (0x19D0, 0x19D9), (0x1A80, 0x1A89), (0x1A90, 0x1A99),
    (0x1B50, 0x1B59), (0x1BB0, 0x1BB9), (0x1C40, 0x1C49), (0x1C50, 0x1C59),
    (0xA620, 0xA629), (0xA8D0, 0xA8D9), (0xA900, 0xA909), (0xA9D0, 0xA9D9)
  ]
  const DIGIT_BLOCKS_2: seq<(int, int)> := [
    (0xA9F0, 0xA9F9), (0xAA50, 0xAA59), (0xABF0, 0xABF9), (0xFF10, 0xFF19),
    (0x104A0, 0x104A9), (0x10D30, 0x10D39), (0x11066, 0x1106F), (0x110F0, 0x110F9),
    (0x11136, 0x1113F), (0x111D0, 0x111D9), (0x112F0, 0x112F9), (0x11450, 0x11459),
    (0x114D0, 0x114D9), (0x11650, 0x11659), (0x116C0, 0x116C9), (0x11730, 0x11739)
  ]
  const DIGIT_BLOCKS_3: seq<(int, int)> := [
    (0x118E0, 0x118E9), (0x11950, 0x11959), (0x11C50, 0x11C59), (0x11D50, 0x11D59),
    (0x11DA0, 0x11DA9), (0x11F50, 0x11F59), (0x16A60, 0x16A69), (0x16AC0, 0x16AC9),
    (0x16B50, 0x16B59), (0x1D7CE, 0x1D7FF), (0x1E140, 0x1E149), (0x1E2F0, 0x1E2F9),
    (0x1E4F0, 0x1E4F9), (0x1E950, 0x1E959), (0x1FBF0, 0x1FBF9)
  ]
  const OTHER_DIGIT_BLOCKS: seq<(int, int)> :=
    DIGIT_BLOCKS_0 + DIGIT_BLOCKS_1 + DIGIT_BLOCKS_2 + DIGIT_BLOCKS_3

  /** Code point `n` lies in one of the blocks from index `i` on. */
  predicate InDigitBlocks(n: int, i: nat)
    decreases |OTHER_DIGIT_BLOCKS| - i
  {
    i < |OTHER_DIGIT_BLOCKS|
    && (OTHER_DIGIT_BLOCKS[i].0 <= n <= OTHER_DIGIT_BLOCKS[i].1 || InDigitBlocks(n, i + 1))
  }

  /** A decimal digit other than `0`-`9`. */
  predicate IsOtherDecimalDigit(c: char) {
    0x0660 <= c as int && InDigitBlocks(c as int, 0)
  }

  /** `\d` of the regular expression: a Unicode decimal digit. It includes
      the ASCII digits and excludes the point and the unit letters, so the
      three parts of a token never overlap. */
  function IsRegexDigit(c: char): (r: bool)
    ensures r ==> c != '.' && !IsUnit(c)
  {
    IsAsciiDigit(c) || IsOtherDecimalDigit(c)
  }

  /** `[smh]` */
  predicate IsUnit(c: char) {
    c == 's' || c == 'm' || c == 'h'
  }

  // ---------------------------------------------------------------------
  // The language of the regular expression, as a reference definition

  ghost predicate AllRegexDigits(t: string) {
    forall k :: 0 <= k < |t| ==> IsRegexDigit(t[k])
  }

  /** `\d\d*(?:\.\d\d*)?` matches exactly `n`. */
  ghost predicate IsNumber(n: string) {
    || (n != [] && AllRegexDigits(n))
    || (exists d :: 0 < d < |n| - 1 && n[d] == '.' && AllRegexDigits(n[..d]) && AllRegexDigits(n[d + 1..]))
  }

  /** The whole expression matches exactly `t`. */
  ghost predicate IsToken(t: string) {
    |t| >= 2 && IsUnit(t[|t| - 1]) && IsNumber(t[..|t| - 1])
  }

  /** `s` contains no substring the expression matches. */
  ghost predicate NoToken(s: string) {
    forall p, q :: 0 <= p <= q <= |s| ==> !IsToken(s[p..q])
  }

  // ---------------------------------------------------------------------
  // The scanner

  /** Where a match was found: the number starts at `start`, has its decimal
      point at `dot` (if any) and is followed by the unit letter at `unitAt`. */
  datatype Capture = Capture(start: nat, dot: Option<nat>, unitAt: nat)

  /** End of the maximal run of digits starting at `i`. */
  function DigitRunEnd(s: string, i: nat): (j: nat)
    requires i <= |s|
    ensures i <= j <= |s|
    ensures forall k :: i <= k < j ==> IsRegexDigit(s[k])
    ensures j == |s| || !IsRegexDigit(s[j])
    decreases |s| - i
  {
    if i < |s| && IsRegexDigit(s[i]) then DigitRunEnd(s, i + 1) else i
  }

  /** The expression anchored at position `p`: the greedy digit run, then
      either a unit letter or (the lazy optional group) a point, a second
      greedy digit run and a unit letter. */
  function MatchAt(s: string, p: nat): (c: Option<Capture>)
    requires p <= |s|
    ensures c.Some? ==> c.value.start == p < c.value.unitAt < |s| && IsUnit(s[c.value.unitAt])
    ensures c.Some? && c.value.dot.Some? ==> p < c.value.dot.value < c.value.unitAt - 1
    ensures c.Some? ==> forall k :: p <= k < c.value.unitAt && Some(k) != c.value.dot ==> IsRegexDigit(s[k])
  {
    if p < |s| && IsRegexDigit(s[p]) then
      var i := DigitRunEnd(s, p);
      if i < |s| && IsUnit(s[i]) then Some(Capture(p, None, i))
      else if i + 1 < |s| && s[i] == '.' && IsRegexDigit(s[i + 1]) then
        var k := DigitRunEnd(s, i + 1);
        if k < |s| && IsUnit(s[k]) then Some(Capture(p, Some(i), k)) else None
      else None
    else None
  }

  /** Unanchored leftmost search from position `from`. */
  function FirstMatch(s: string, from: nat): (c: Option<Capture>)
    requires from <= |s|
    ensures c.Some? ==> from <= c.value.start < c.value.unitAt < |s| && IsUnit(s[c.value.unitAt])
    ensures c.Some? && c.value.dot.Some? ==> c.value.start < c.value.dot.value < c.value.unitAt - 1
    ensures c.Some? ==>
              forall k :: c.value.start <= k < c.value.unitAt && Some(k) != c.value.dot ==> IsRegexDigit(s[k])
    decreases |s| - from
  {
    if from == |s| then None
    else
      match MatchAt(s, from)
      case Some(c) => Some(c)
      case None => FirstMatch(s, from + 1)
  }

  // ---------------------------------------------------------------------
  // Scanner against the reference definition

  lemma RunEndIs(s: string, i: nat, j: nat)
    requires i <= j < |s|
    requires forall k :: i <= k < j ==> IsRegexDigit(s[k])
    requires !IsRegexDigit(s[j])
    ensures DigitRunEnd(s, i) == j
  {
  }

  /** The digits of a slice are digits of the string. */
  lemma SliceDigits(s: string, a: nat, b: nat)
    requires a <= b <= |s|
    ensures AllRegexDigits(s[a..b]) <==> forall k :: a <= k < b ==> IsRegexDigit(s[k])
  {
    if AllRegexDigits(s[a..b]) {
      forall k | a <= k < b ensures IsRegexDigit(s[k]) { assert s[k] == s[a..b][k - a]; }
    }
  }

  /** A match at `p` ending at `q` is found by the scanner. */
  lemma TokenIsScanned(s: string, p: nat, q: nat)
    requires p <= q <= |s|
    requires IsToken(s[p..q])
    ensures MatchAt(s, p).Some? && MatchAt(s, p).value.unitAt == q - 1
  {
    var t := s[p..q];
    var n := t[..|t| - 1];
    assert n == s[p..q - 1];
    assert IsUnit(s[q - 1]);
    if n != [] && AllRegexDigits(n) {
      IntegerTokenIsScanned(s, p, q);
    } else {
      var d :| 0 < d < |n| - 1 && n[d] == '.' && AllRegexDigits(n[..d]) && AllRegexDigits(n[d + 1..]);
      PointSplit(s, p, q, d);
      PointTokenIsScanned(s, p, p + d, q);
    }
  }

  /** A point at offset `d` of the number `s[p..q - 1]` splits it into two
      digit runs of `s`. */
  lemma PointSplit(s: string, p: nat, q: nat, d: nat)
    requires p < q <= |s| && 0 < d < q - 1 - p - 1
    requires s[p..q - 1][d] == '.'
    requires AllRegexDigits(s[p..q - 1][..d]) && AllRegexDigits(s[p..q - 1][d + 1..])
    ensures AllRegexDigits(s[p..p + d]) && s[p + d] == '.' && AllRegexDigits(s[p + d + 1..q - 1])
  {
    var n := s[p..q - 1];
    assert n[..d] == s[p..p + d];
    assert n[d + 1..] == s[p + d + 1..q - 1];
    assert n[d] == s[p + d];
  }

  lemma IntegerTokenIsScanned(s: string, p: nat, q: nat)
    requires p < q - 1 && q <= |s|
    requires AllRegexDigits(s[p..q - 1]) && IsUnit(s[q - 1])
    ensures MatchAt(s, p).Some? && MatchAt(s, p).value.unitAt == q - 1
  {
    SliceDigits(s, p, q - 1);
    RunEndIs(s, p, q - 1);
  }

  lemma PointTokenIsScanned(s: string, p: nat, i: nat, q: nat)
    requires p < i < q - 2 && q <= |s|
    requires AllRegexDigits(s[p..i]) && s[i] == '.' && AllRegexDigits(s[i + 1..q - 1]) && IsUnit(s[q - 1])
    ensures MatchAt(s, p).Some? && MatchAt(s, p).value.unitAt == q - 1
  {
    SliceDigits(s, p, i);
    SliceDigits(s, i + 1, q - 1);
    RunEndIs(s, p, i);
    RunEndIs(s, i + 1, q - 1);
  }

  /** What the scanner finds at `p` is a match. */
  lemma ScannedIsToken(s: string, p: nat)
    requires p <= |s|
    requires MatchAt(s, p).Some?
    ensures IsToken(s[p..MatchAt(s, p).value.unitAt + 1])
  {
    var c := MatchAt(s, p).value;
    var q := c.unitAt + 1;
    var t := s[p..q];
    var n := s[p..q - 1];
    assert t[..|t| - 1] == n;
    assert t[|t| - 1] == s[q - 1];
    match c.dot
    case None =>
      SliceDigits(s, p, q - 1);
    case Some(i) =>
      var d := i - p;
      assert n[d] == '.';
      assert n[..d] == s[p..i];
      assert n[d + 1..] == s[i + 1..q - 1];
      SliceDigits(s, p, i);
      SliceDigits(s, i + 1, q - 1);
  }

  /** A match of the expression at `p` ends at `q` exactly when the scanner,
      started at `p`, reports the unit letter at `q - 1`. In particular at most
      one match starts at any position, so the leftmost-first choice between
      the two alternatives of the lazy group never matters. */
  lemma MatchAtExact(s: string, p: nat, q: nat)
    requires p <= q <= |s|
    ensures IsToken(s[p..q]) <==> (q >= 1 && MatchAt(s, p).Some? && MatchAt(s, p).value.unitAt == q - 1)
  {
    if IsToken(s[p..q]) {
      TokenIsScanned(s, p, q);
    }
    if q >= 1 && MatchAt(s, p).Some? && MatchAt(s, p).value.unitAt == q - 1 {
      ScannedIsToken(s, p);
    }
  }

  /** `FirstMatch` implements the unanchored leftmost search: it finds nothing
      exactly when no substring from `from` on matches, and otherwise what it
      finds is a match and no match starts earlier. */
  lemma FirstMatchIsLeftmost(s: string, from: nat)
    requires from <= |s|
    ensures FirstMatch(s, from).None? <==>
              forall p, q :: from <= p <= q <= |s| ==> !IsToken(s[p..q])
    ensures FirstMatch(s, from).Some? ==>
              var c := FirstMatch(s, from).value;
              && IsToken(s[c.start..c.unitAt + 1])
              && forall p, q :: from <= p < c.start && p <= q <= |s| ==> !IsToken(s[p..q])
  {
    if FirstMatch(s, from).Some? {
      FirstMatchFound(s, from);
    } else {
      FirstMatchNone(s, from);
    }
  }

  /** What the search finds is a match, and no match starts earlier. */
  lemma {:induction false} FirstMatchFound(s: string, from: nat)
    requires from <= |s| && FirstMatch(s, from).Some?
    ensures var c := FirstMatch(s, from).value;
            && IsToken(s[c.start..c.unitAt + 1])
            && forall p, q :: from <= p < c.start && p <= q <= |s| ==> !IsToken(s[p..q])
    decreases |s| - from
  {
    if MatchAt(s, from).Some? {
      MatchHere(s, from);
    } else {
      NoMatchAt(s, from);
      FirstMatchFound(s, from + 1);
      NoTokenBefore(s, from, FirstMatch(s, from + 1).value.start);
    }
  }

  /** A match found at the search's starting point is the search's result,
      and it matches. */
  lemma MatchHere(s: string, from: nat)
    requires from <= |s| && MatchAt(s, from).Some?
    ensures FirstMatch(s, from) == MatchAt(s, from)
    ensures IsToken(s[from..MatchAt(s, from).value.unitAt + 1])
  {
    MatchAtExact(s, from, MatchAt(s, from).value.unitAt + 1);
  }

  /** No match starting at `from`, and none starting in `(from, to)`, is no
      match starting in `[from, to)`. */
  lemma NoTokenBefore(s: string, from: nat, to: nat)
    requires from < to <= |s|
    requires forall q :: from <= q <= |s| ==> !IsToken(s[from..q])
    requires forall p, q :: from + 1 <= p < to && p <= q <= |s| ==> !IsToken(s[p..q])
    ensures forall p, q :: from <= p < to && p <= q <= |s| ==> !IsToken(s[p..q])
  {
  }

  /** When the search finds nothing, nothing from `from` on matches. */
  lemma {:induction false} FirstMatchNone(s: string, from: nat)
    requires from <= |s| && FirstMatch(s, from).None?
    ensures forall p, q :: from <= p <= q <= |s| ==> !IsToken(s[p..q])
    decreases |s| - from
  {
    if from == |s| {
      assert forall p, q :: from <= p <= q <= |s| ==> |s[p..q]| == 0;
    } else {
      NoMatchAt(s, from);
      FirstMatchNone(s, from + 1);
    }
  }

  /** When the scanner finds nothing at `p`, no substring starting at `p`
      matches. */
  lemma NoMatchAt(s: string, p: nat)
    requires p <= |s| && MatchAt(s, p).None?
    ensures forall q :: p <= q <= |s| ==> !IsToken(s[p..q])
  {
    forall q | p <= q <= |s|
      ensures !IsToken(s[p..q])
    {
      MatchAtExact(s, p, q);
    }
  }

  // ---------------------------------------------------------------------
  // Exact decimal numbers

  ghost predicate AllAsciiDigits(t: string) {
    forall k :: 0 <= k < |t| ==> IsAsciiDigit(t[k])
  }

  function Pow10(n: nat): (r: nat)
    ensures r >= 1
  {
    if n == 0 then 1 else 10 * Pow10(n - 1)
  }

  /** The value of a string of ASCII digits read in base ten. */
  function DecimalValue(t: string): (v: nat)
    requires AllAsciiDigits(t)
    ensures v < Pow10(|t|)
  {
    if t == [] then 0
    else DecimalValue(t[..|t| - 1]) * 10 + (t[|t| - 1] as int - '0' as int)
  }

  lemma AsciiConcat(a: string, b: string)
    requires AllAsciiDigits(a) && AllAsciiDigits(b)
    ensures AllAsciiDigits(a + b)
  {
    var ab := a + b;
    forall k | 0 <= k < |ab| ensures IsAsciiDigit(ab[k]) {
      if k < |a| { assert ab[k] == a[k]; } else { assert ab[k] == b[k - |a|]; }
    }
  }

  /** Reading `a` followed by `b` is reading `a`, shifting it by the length of
      `b`, and adding `b`. */
  lemma {:induction false} DecimalValueAppend(a: string, b: string)
    requires AllAsciiDigits(a) && AllAsciiDigits(b)
    ensures AllAsciiDigits(a + b)
    ensures DecimalValue(a + b) == DecimalValue(a) * Pow10(|b|) + DecimalValue(b)
    decreases |b|
  {
    AsciiConcat(a, b);
    if b == [] {
      assert a + b == a;
    } else {
      var b' := b[..|b| - 1];
      var last := b[|b| - 1] as int - '0' as int;
      assert AllAsciiDigits(b');
      AsciiConcat(a, b');
      assert DecimalValue(a + b) == DecimalValue(a + b') * 10 + last by {
        var ab := a + b;
        assert ab[..|ab| - 1] == a + b';
        assert ab[|ab| - 1] == b[|b| - 1];
      }
      DecimalValueAppend(a, b');
      ShiftDigit(DecimalValue(a), Pow10(|b'|), DecimalValue(b'), last);
    }
  }

  lemma ShiftDigit(x: nat, p: nat, y: nat, last: int)
    ensures (x * p + y) * 10 + last == x * (p * 10) + (y * 10 + last)
  {
  }

  /** A non-negative decimal number: `mantissa / 10^scale`. */
  datatype Decimal = Decimal(mantissa: nat, scale: nat)

  /** `str::parse::<f64>` applied to the number group, split at its point:
      it succeeds exactly when every digit is an ASCII digit (the regular
      expression's `\d` also admits other decimal digits, which the float
      parser rejects), and then the value is `integer digits` plus
      `fraction digits / 10^(number of fraction digits)`, exactly. */
  function ParseNumber(intDigits: string, fracDigits: string): (r: Option<Decimal>)
    ensures r.Some? <==> AllAsciiDigits(intDigits) && AllAsciiDigits(fracDigits)
    ensures r.Some? ==> r.value.scale == |fracDigits|
    ensures r.Some? ==>
              r.value.mantissa == DecimalValue(intDigits) * Pow10(|fracDigits|) + DecimalValue(fracDigits)
  {
    if (forall k | 0 <= k < |intDigits| :: IsAsciiDigit(intDigits[k]))
       && (forall k | 0 <= k < |fracDigits| :: IsAsciiDigit(fracDigits[k])) then
      DecimalValueAppend(intDigits, fracDigits);
      Some(Decimal(DecimalValue(intDigits + fracDigits), |fracDigits|))
    else None
  }

  // ---------------------------------------------------------------------
  // Units and the result

  const MICROS_PER_SECOND: nat := 1_000_000
  const MICROS_PER_MINUTE: nat := 60 * 1_000_000
  const MICROS_PER_HOUR: nat := 60 * 60 * 1_000_000

  /** Microseconds per unit letter. The source's match on the letter has a
      fourth, unreachable arm; here the `requires` rules it out, and
      `FirstMatch` guarantees it for every caller. */
  function Multiplier(unit: char): (m: nat)
    requires IsUnit(unit)
    ensures unit == 's' ==> m == 1_000_000
    ensures unit == 'm' ==> m == 60_000_000
    ensures unit == 'h' ==> m == 3_600_000_000
  {
    if unit == 's' then MICROS_PER_SECOND
    else if unit == 'm' then MICROS_PER_MINUTE
    else MICROS_PER_HOUR
  }

  /** `x / d` computed exactly and cast with `as u64`: truncated toward zero,
      saturating at `u64::MAX`. */
  function TruncatedQuotient(x: nat, d: nat): (m: nat)
    requires d > 0
    ensures m <= U64_MAX
    ensures m < U64_MAX ==> m * d <= x < (m + 1) * d
    ensures m == U64_MAX ==> U64_MAX * d <= x
  {
    var q := x / d;
    QuotientBounds(x, d);
    if q >= U64_MAX then MulLeftMonotone(d, U64_MAX, q); U64_MAX else q
  }

  lemma QuotientBounds(x: nat, d: nat)
    requires d > 0
    ensures (x / d) * d <= x < (x / d + 1) * d
  {
  }

  lemma MulLeftMonotone(d: nat, a: nat, b: nat)
    requires a <= b
    ensures a * d <= b * d
  {
  }

  /** `(base * mul) as u64`: the product truncated toward zero to whole
      microseconds, saturating at `u64::MAX`. */
  function ScaledMicros(base: Decimal, mul: nat): (m: nat)
    ensures m <= U64_MAX
    ensures m < U64_MAX ==>
              m * Pow10(base.scale) <= base.mantissa * mul < (m + 1) * Pow10(base.scale)
    ensures m == U64_MAX ==> U64_MAX * Pow10(base.scale) <= base.mantissa * mul
  {
    TruncatedQuotient(base.mantissa * mul, Pow10(base.scale))
  }

  function IntegerDigits(s: string, c: Capture): string
    requires c.start <= c.unitAt <= |s|
    requires c.dot.Some? ==> c.start <= c.dot.value < c.unitAt
  {
    if c.dot.Some? then s[c.start..c.dot.value] else s[c.start..c.unitAt]
  }

  function FractionDigits(s: string, c: Capture): string
    requires c.start <= c.unitAt <= |s|
    requires c.dot.Some? ==> c.start <= c.dot.value < c.unitAt
  {
    if c.dot.Some? then s[c.dot.value + 1..c.unitAt] else []
  }

  /** `parse_duration`: the first match, its number parsed and scaled by its
      unit to whole microseconds. */
  function ParseDuration(s: string): (r: ParseResult)
    ensures r.Ok? ==> r.value.Valid() && r.value.AsMicros() <= U64_MAX
    ensures r.Ok? ==> FirstMatch(s, 0).Some?
  {
    match FirstMatch(s, 0)
    case None => Err(DurationParseError)
    case Some(c) =>
      match ParseNumber(IntegerDigits(s, c), FractionDigits(s, c))
      case None => Err(DurationParseError)
      case Some(base) => Ok(FromMicros(ScaledMicros(base, Multiplier(s[c.unitAt]))))
  }

  // ---------------------------------------------------------------------
  // Properties of the parser

  /** The first match's digits are all ASCII (always the case when the
      input has no non-ASCII decimal digit). */
  ghost predicate AsciiCapture(s: string, c: Capture)
    requires c.start <= c.unitAt <= |s|
    requires c.dot.Some? ==> c.start <= c.dot.value < c.unitAt
  {
    AllAsciiDigits(IntegerDigits(s, c)) && AllAsciiDigits(FractionDigits(s, c))
  }

  /** The parser fails exactly when the input holds no substring of the form
      digits, optional point and digits, unit letter; or when the first such
      substring uses a decimal digit the float parser does not accept. */
  lemma ParseFailsIff(s: string)
    ensures ParseDuration(s).Err? <==>
              NoToken(s) || (FirstMatch(s, 0).Some? && !AsciiCapture(s, FirstMatch(s, 0).value))
  {
    FirstMatchIsLeftmost(s, 0);
  }

  /** On input without non-ASCII decimal digits the parser fails exactly when
      there is no match. */
  lemma AsciiParseFailsIffNoMatch(s: string)
    requires forall k :: 0 <= k < |s| ==> !IsOtherDecimalDigit(s[k])
    ensures ParseDuration(s).Err? <==> NoToken(s)
  {
    ParseFailsIff(s);
    if FirstMatch(s, 0).Some? {
      AsciiInputCapture(s, FirstMatch(s, 0).value);
    }
  }

  /** Without non-ASCII decimal digits in the input, a capture's digits are
      all ASCII. */
  lemma AsciiInputCapture(s: string, c: Capture)
    requires forall k :: 0 <= k < |s| ==> !IsOtherDecimalDigit(s[k])
    requires c.start < c.unitAt < |s|
    requires c.dot.Some? ==> c.start < c.dot.value < c.unitAt - 1
    requires forall k :: c.start <= k < c.unitAt && Some(k) != c.dot ==> IsRegexDigit(s[k])
    ensures AsciiCapture(s, c)
  {
    var i, f := IntegerDigits(s, c), FractionDigits(s, c);
    forall k | 0 <= k < |i| ensures IsAsciiDigit(i[k]) {
      assert i[k] == s[c.start + k];
    }
    forall k | 0 <= k < |f| ensures IsAsciiDigit(f[k]) {
      assert f[k] == s[c.dot.value + 1 + k];
    }
  }

  /** The result is the number times the unit's multiplier, truncated toward
      zero to whole microseconds (saturating at `u64::MAX`). */
  lemma ParseScales(s: string)
    requires ParseDuration(s).Ok?
    ensures var c := FirstMatch(s, 0).value;
            var base := ParseNumber(IntegerDigits(s, c), FractionDigits(s, c)).value;
            var m := ParseDuration(s).value.AsMicros();
            && base.scale == |FractionDigits(s, c)|
            && (m < U64_MAX ==>
                  m * Pow10(base.scale) <= base.mantissa * Multiplier(s[c.unitAt]) < (m + 1) * Pow10(base.scale))
  {
  }

  // ---------------------------------------------------------------------
  // Worked examples, as documented for the `--duration` option

  lemma TenSeconds()
    ensures ParseDuration("10s") == Ok(FromMicros(10_000_000))
  {
    var s := "10s";
    assert DigitRunEnd(s, 0) == 2 by { RunEndIs(s, 0, 2); }
    assert MatchAt(s, 0) == Some(Capture(0, None, 2));
    assert IntegerDigits(s, Capture(0, None, 2)) == "10";
    assert DecimalValue("10") == 10 by { assert "10"[..1] == "1"; }
  }

  lemma OneAndAHalfMinutes()
    ensures ParseDuration("1.5m") == Ok(FromMicros(90_000_000))
  {
    var s := "1.5m";
    assert DigitRunEnd(s, 0) == 1 by { RunEndIs(s, 0, 1); }
    assert DigitRunEnd(s, 2) == 3 by { RunEndIs(s, 2, 3); }
    assert MatchAt(s, 0) == Some(Capture(0, Some(1), 3));
    assert IntegerDigits(s, Capture(0, Some(1), 3)) == "1";
    assert FractionDigits(s, Capture(0, Some(1), 3)) == "5";
    assert DecimalValue("1") == 1 by { assert "1"[..0] == ""; }
    assert DecimalValue("5") == 5 by { assert "5"[..0] == ""; }
  }

  lemma TwentyHours()
    ensures ParseDuration("20h") == Ok(FromMicros(72_000_000_000))
  {
    var s := "20h";
    assert DigitRunEnd(s, 0) == 2 by { RunEndIs(s, 0, 2); }
    assert MatchAt(s, 0) == Some(Capture(0, None, 2));
    assert IntegerDigits(s, Capture(0, None, 2)) == "20";
    assert DecimalValue("20") == 20 by { assert "20"[..1] == "2"; }
    assert ParseNumber("20", "") == Some(Decimal(20, 0));
  }

  /** Surrounding text is skipped: a leading point or sign is not part of
      the match, so ".5s" and "-5s" both read as five seconds. */
  lemma LeadingTextIgnored()
    ensures ParseDuration(".5s") == Ok(FromMicros(5_000_000))
    ensures ParseDuration("-5s") == Ok(FromMicros(5_000_000))
  {
    var a := ".5s";
    assert DigitRunEnd(a, 1) == 2 by { RunEndIs(a, 1, 2); }
    assert MatchAt(a, 0) == None;
    assert MatchAt(a, 1) == Some(Capture(1, None, 2));
    assert IntegerDigits(a, Capture(1, None, 2)) == "5";
    assert DecimalValue("5") == 5 by { assert "5"[..0] == ""; }
    var b := "-5s";
    assert DigitRunEnd(b, 1) == 2 by { RunEndIs(b, 1, 2); }
    assert MatchAt(b, 0) == None;
    assert MatchAt(b, 1) == Some(Capture(1, None, 2));
    assert IntegerDigits(b, Capture(1, None, 2)) == "5";
  }

  /** A point must be followed by a digit: "5.s" has no match at all. */
  lemma PointWithoutFraction()
    ensures ParseDuration("5.s").Err?
  {
    var s := "5.s";
    assert DigitRunEnd(s, 0) == 1 by { RunEndIs(s, 0, 1); }
    assert MatchAt(s, 0) == None;
    assert MatchAt(s, 1) == None;
    assert MatchAt(s, 2) == None;
  }

  /** U+0665 ARABIC-INDIC DIGIT FIVE is a digit to the regular expression,
      so "\u0665s" holds a match, but the float parser rejects it and the
      parser fails. */
  lemma NonAsciiDigitRejected()
    ensures !NoToken("\U{0665}s")
    ensures ParseDuration("\U{0665}s").Err?
  {
    var s := "\U{0665}s";
    assert s[0] as int == 0x0665;
    assert InDigitBlocks(0x0665, 0) by {
      assert OTHER_DIGIT_BLOCKS[0] == DIGIT_BLOCKS_0[0] == (0x0660, 0x0669);
    }
    assert IsRegexDigit(s[0]);
    assert IsToken(s[0..2]) by {
      assert s[0..2][..1] == [s[0]];
    }
    assert DigitRunEnd(s, 0) == 1 by { RunEndIs(s, 0, 1); }
    assert MatchAt(s, 0) == Some(Capture(0, None, 1));
    assert !IsAsciiDigit(IntegerDigits(s, Capture(0, None, 1))[0]);
  }

  /** The default run duration equals what the parser makes of "20s". */
  lemma DefaultIsTwentySeconds()
    ensures ParseDuration("20s").Ok?
    ensures ParseDuration("20s").value.AsMicros() == DEFAULT_DURATION_SECS * MICROS_PER_SEC
  {
    var s := "20s";
    assert DigitRunEnd(s, 0) == 2 by { RunEndIs(s, 0, 2); }
    assert MatchAt(s, 0) == Some(Capture(0, None, 2));
    assert IntegerDigits(s, Capture(0, None, 2)) == "20";
    assert DecimalValue("20") == 20 by { assert "20"[..1] == "2"; }
  }
}
