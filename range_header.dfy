/**
 * parseRangeHeader of request-handlers.go: the Range header text and the
 * object's size give a Range or one of three errors, checked in the order
 * format, out-of-bounds, start-after-end. Only the `bytes=<first>-<last>`
 * form is understood.
 */
module RangeHeader {
  import opened Common
  import opened RangeReading

  /** The three failures of parseRangeHeader; their message text is not modelled. */
  datatype RangeError = FormatError | OutOfBounds | StartAfterEnd

  /** Go's pair of results (Range, error). */
  datatype Parsed = Parsed(rng: Range, err: Option<RangeError>)

  /** The Range{} zero value: disabled, start and end 0. */
  const NoRange: Range := Range(false, 0, 0)

  predicate IsDigit(c: char)
  {
    '0' <= c <= '9'
  }

  /** What `\d+` matches: one or more ASCII digits. */
  predicate IsNumeral(s: string)
  {
    |s| > 0 && forall i :: 0 <= i < |s| ==> IsDigit(s[i])
  }

  /** The length of the longest run of digits that ends `s`. */
  function TrailingDigits(s: string): (k: nat)
    ensures k <= |s|
    ensures forall i :: |s| - k <= i < |s| ==> IsDigit(s[i])
    ensures k < |s| ==> !IsDigit(s[|s| - k - 1])
  {
    if |s| > 0 && IsDigit(s[|s| - 1]) then 1 + TrailingDigits(s[..|s| - 1]) else 0
  }

  /**
   * The pattern `bytes=(?P<start>\d+?)-(?P<end>\d+?)$`, unanchored at the
   * front, with `$` matching only at the end of the text: the two captures
   * when the text ends with `bytes=`, digits, `-`, digits; None otherwise.
   */
  function MatchRange(h: string): (m: Option<(string, string)>)
    ensures m.Some? ==> IsNumeral(m.value.0) && IsNumeral(m.value.1)
  {
    var k := TrailingDigits(h);
    if k == 0 || k == |h| || h[|h| - k - 1] != '-' then None
    else
      var pre := h[..|h| - k - 1];
      var j := TrailingDigits(pre);
      var lead := pre[..|pre| - j];
      if j == 0 || |lead| < 6 || lead[|lead| - 6..] != "bytes=" then None
      else Some((pre[|pre| - j..], h[|h| - k..]))
  }

  function DigitValue(c: char): nat
    requires IsDigit(c)
  {
    c as int - '0' as int
  }

  /** The base-10 value of a string of digits. */
  function NumeralValue(s: string): nat
    requires forall i :: 0 <= i < |s| ==> IsDigit(s[i])
  {
    if s == [] then 0 else 10 * NumeralValue(s[..|s| - 1]) + DigitValue(s[|s| - 1])
  }

  /**
   * strconv.ParseInt(s, 10, 64) with its error dropped: a positive value that
   * overflows gives MaxInt64, and text that is not a numeral gives 0.
   */
  function ParseInt64(s: string): (v: int)
    ensures 0 <= v <= MaxInt64
    ensures IsNumeral(s) && NumeralValue(s) <= MaxInt64 ==> v == NumeralValue(s)
    ensures IsNumeral(s) && NumeralValue(s) > MaxInt64 ==> v == MaxInt64
  {
    if !IsNumeral(s) then 0
    else if NumeralValue(s) > MaxInt64 then MaxInt64
    else NumeralValue(s)
  }

  function DigitChar(d: nat): (c: char)
    requires d < 10
    ensures IsDigit(c) && DigitValue(c) == d
  {
    ('0' as int + d) as char
  }

  /** The decimal representation of n, as fmt's %d writes it. */
  function Decimal(n: nat): (s: string)
    ensures IsNumeral(s)
  {
    if n < 10 then [DigitChar(n)] else Decimal(n / 10) + [DigitChar(n % 10)]
  }

  /** parseRangeHeader(header, dSize). */
  function ParseRangeHeader(header: string, size: int): (r: Parsed)
    // an empty header asks for the whole object
    ensures header == "" ==> r == Parsed(NoRange, None)
    // a non-empty header that does not end in bytes=<digits>-<digits> is a format error
    ensures r.err == Some(FormatError) <==> header != "" && MatchRange(header).None?
    ensures r.err == Some(FormatError) ==> r.rng == NoRange
    // success with a header: an enabled range inside the object
    ensures header != "" && r.err.None? ==> r.rng.enabled && 0 <= r.rng.start <= r.rng.end < size
    // the bounds check comes first, the order check second
    ensures r.err == Some(OutOfBounds) <==> r.rng.enabled && (r.rng.start >= size || r.rng.end >= size)
    ensures r.err == Some(StartAfterEnd) <==> r.rng.enabled && r.rng.start < size && r.rng.end < size && r.rng.start > r.rng.end
  {
    if header == "" then Parsed(NoRange, None)
    else match MatchRange(header)
      case None => Parsed(NoRange, Some(FormatError))
      case Some((first, last)) =>
        var start0 := if first != "" then ParseInt64(first) else -1;
        var end0 := if last != "" then ParseInt64(last) else -1;
        var start := if start0 == -1 then 0 else start0;
        var end := if end0 == -1 then size - 1 else end0;
        var r := Range(true, start, end);
        if start >= size || end >= size then Parsed(r, Some(OutOfBounds))
        else if start > end then Parsed(r, Some(StartAfterEnd))
        else Parsed(r, None)
  }

  /** Reading back what %d writes gives the number. */
  lemma {:induction false} DecimalValue(n: nat)
    ensures NumeralValue(Decimal(n)) == n
  {
    if n >= 10 {
      var s := Decimal(n);
      assert s[..|s| - 1] == Decimal(n / 10);
      DecimalValue(n / 10);
    }
  }

  /** Digits appended after a non-digit are exactly the trailing run. */
  lemma TrailingDigitsAfter(x: string, d: string)
    requires forall i :: 0 <= i < |d| ==> IsDigit(d[i])
    requires x != [] && !IsDigit(x[|x| - 1])
    ensures TrailingDigits(x + d) == |d|
  {
    var s := x + d;
    assert !IsDigit(s[|x| - 1]);
    forall i | |x| <= i < |s|
      ensures IsDigit(s[i])
    {
      assert s[i] == d[i - |x|];
    }
  }

  /** What the recogniser accepts: leading text, `bytes=`, digits, `-`, digits, end. */
  lemma MatchSound(h: string)
    requires MatchRange(h).Some?
    ensures var (a, b) := MatchRange(h).value;
      IsNumeral(a) && IsNumeral(b) && |a| + |b| + 7 <= |h| &&
      h == h[..|h| - |a| - |b| - 7] + "bytes=" + a + "-" + b
  {
    var k := TrailingDigits(h);
    var pre := h[..|h| - k - 1];
    var j := TrailingDigits(pre);
    var lead := pre[..|pre| - j];
    var (a, b) := MatchRange(h).value;
    assert a == pre[|pre| - j..] && b == h[|h| - k..];
    assert pre == lead + a;
    assert h == pre + "-" + b;
    assert lead == lead[..|lead| - 6] + "bytes=";
    assert h[..|h| - |a| - |b| - 7] == lead[..|lead| - 6];
  }

  /** Every text of that shape is accepted, with the two numerals as captures. */
  lemma MatchComplete(p: string, a: string, b: string)
    requires IsNumeral(a) && IsNumeral(b)
    ensures MatchRange(p + "bytes=" + a + "-" + b) == Some((a, b))
  {
    var h := p + "bytes=" + a + "-" + b;
    var x := p + "bytes=" + a + "-";
    assert h == x + b;
    TrailingDigitsAfter(x, b);
    var pre := h[..|h| - |b| - 1];
    assert pre == (p + "bytes=") + a;
    TrailingDigitsAfter(p + "bytes=", a);
    assert pre[..|pre| - |a|] == p + "bytes=";
  }

  /**
   * Any header ending in bytes=<a>-<b> parses to the enabled range of the two
   * numerals, whatever precedes it; the bounds check decides before the order
   * check, so a bound outside the object is out-of-bounds even when start > end.
   */
  lemma ParseNumerals(p: string, a: string, b: string, size: int)
    requires IsNumeral(a) && IsNumeral(b)
    ensures var s, e := ParseInt64(a), ParseInt64(b);
      ParseRangeHeader(p + "bytes=" + a + "-" + b, size) ==
        Parsed(Range(true, s, e),
               if s >= size || e >= size then Some(OutOfBounds)
               else if s > e then Some(StartAfterEnd)
               else None)
  {
    var h := p + "bytes=" + a + "-" + b;
    assert h[|p|] == 'b';
    MatchComplete(p, a, b);
  }

  /**
   * The defaults of parseRangeHeader (start 0, end size - 1) never apply: both
   * captures hold at least one digit, so both bounds come from the header.
   */
  lemma ParseCaptures(h: string, size: int)
    requires h != "" && MatchRange(h).Some?
    ensures var (a, b) := MatchRange(h).value;
      a != "" && b != "" &&
      ParseRangeHeader(h, size).rng == Range(true, ParseInt64(a), ParseInt64(b))
  {
    MatchSound(h);
  }

  /** Round trip: the header %d writes for a range inside the object parses back to it. */
  lemma ParseRoundTrip(p: string, s: nat, e: nat, size: int)
    requires s <= e < size <= MaxInt64
    ensures ParseRangeHeader(p + "bytes=" + Decimal(s) + "-" + Decimal(e), size) ==
            Parsed(Range(true, s, e), None)
  {
    DecimalValue(s);
    DecimalValue(e);
    ParseNumerals(p, Decimal(s), Decimal(e), size);
  }

  /** Classification of bytes=<s>-<e> for any bounds up to MaxInt64. */
  lemma ParseDecimal(p: string, s: nat, e: nat, size: int)
    requires s <= MaxInt64 && e <= MaxInt64
    ensures var r := ParseRangeHeader(p + "bytes=" + Decimal(s) + "-" + Decimal(e), size);
      r.rng == Range(true, s, e) &&
      (s >= size || e >= size ==> r.err == Some(OutOfBounds)) &&
      (s < size && e < size && s > e ==> r.err == Some(StartAfterEnd)) &&
      (s < size && e < size && s <= e ==> r.err == None)
  {
    DecimalValue(s);
    DecimalValue(e);
    ParseNumerals(p, Decimal(s), Decimal(e), size);
  }

  /**
   * Dropping strconv.ParseInt's overflow error is harmless: a bound too large
   * for int64 becomes MaxInt64, which no object size reaches, so the header is
   * out-of-bounds as the unbounded value would make it.
   */
  lemma OverflowIsOutOfBounds(p: string, a: string, b: string, size: int)
    requires IsNumeral(a) && IsNumeral(b) && size <= MaxInt64
    requires NumeralValue(a) > MaxInt64 || NumeralValue(b) > MaxInt64
    ensures ParseRangeHeader(p + "bytes=" + a + "-" + b, size).err == Some(OutOfBounds)
  {
    ParseNumerals(p, a, b, size);
  }

  /** Two numerals joined by `-` match only when the text before them ends in `bytes=`. */
  lemma NoMatchWithoutPrefix(y: string, c: string, d: string)
    requires IsNumeral(c) && IsNumeral(d)
    requires |y| > 0 && !IsDigit(y[|y| - 1])
    requires |y| < 6 || y[|y| - 6..] != "bytes="
    ensures MatchRange(y + c + "-" + d) == None
  {
    var x := y + c + "-";
    var h := x + d;
    TrailingDigitsAfter(x, d);
    var pre := h[..|h| - |d| - 1];
    assert pre == y + c;
    TrailingDigitsAfter(y, c);
    assert pre[..|pre| - |c|] == y;
  }

  /** A multi-range header `bytes=a-b,c-d` is a format error. */
  lemma MultiRangeRejected(p: string, a: string, b: string, c: string, d: string, size: int)
    requires IsNumeral(a) && IsNumeral(b) && IsNumeral(c) && IsNumeral(d)
    ensures ParseRangeHeader(p + "bytes=" + a + "-" + b + "," + c + "-" + d, size) ==
            Parsed(NoRange, Some(FormatError))
  {
    var y := p + "bytes=" + a + "-" + b + ",";
    assert y[|y| - 6..][5] == ',';
    NoMatchWithoutPrefix(y, c, d);
    var h := y + c + "-" + d;
    assert h == p + "bytes=" + a + "-" + b + "," + c + "-" + d;
    assert h[|p|] == 'b';
  }

  /** A suffix range `bytes=-n` (the last n bytes) is not supported: a format error. */
  lemma SuffixRangeRejected(p: string, b: string, size: int)
    requires IsNumeral(b)
    ensures ParseRangeHeader(p + "bytes=-" + b, size) == Parsed(NoRange, Some(FormatError))
  {
    var x := p + "bytes=-";
    var h := x + b;
    assert h[|p|] == 'b';
    TrailingDigitsAfter(x, b);
    var pre := h[..|h| - |b| - 1];
    assert pre == p + "bytes=" && pre[|pre| - 1] == '=';
  }

  /** An open-ended range `bytes=n-` is not supported either: a format error. */
  lemma OpenEndedRejected(p: string, a: string, size: int)
    requires IsNumeral(a)
    ensures ParseRangeHeader(p + "bytes=" + a + "-", size) == Parsed(NoRange, Some(FormatError))
  {
    var h := p + "bytes=" + a + "-";
    assert h[|p|] == 'b' && h[|h| - 1] == '-';
  }

  /** `bytes=0-999` against a 100-byte object: out-of-bounds. */
  lemma ExampleOutOfBounds()
    ensures ParseRangeHeader("bytes=0-999", 100) == Parsed(Range(true, 0, 999), Some(OutOfBounds))
  {
    assert "bytes=0-999" == "" + "bytes=" + "0" + "-" + "999";
    assert NumeralValue("0") == 0;
    assert "999"[..2] == "99" && "99"[..1] == "9" && NumeralValue("999") == 999;
    ParseNumerals("", "0", "999", 100);
  }

  /** `bytes=5-2` against any object of six bytes or more: start after end. */
  lemma ExampleStartAfterEnd(size: int)
    requires 6 <= size
    ensures ParseRangeHeader("bytes=5-2", size) == Parsed(Range(true, 5, 2), Some(StartAfterEnd))
  {
    assert "bytes=5-2" == "" + "bytes=" + "5" + "-" + "2";
    assert NumeralValue("5") == 5 && NumeralValue("2") == 2;
    ParseNumerals("", "5", "2", size);
  }
}
