/** Printing numbers into a buffer, and parsing them back. */
module Numbers {
  import opened Util

  /** `-1UL`, the largest `unsigned long`. */
  const MAX: nat := 0xFFFF_FFFF_FFFF_FFFF

  // ----- Numerals -----

  /** The number that digits stand for, most significant first. */
  function Value(ds: seq<nat>, base: nat): nat {
    if ds == [] then 0 else Value(ds[..|ds| - 1], base) * base + ds[|ds| - 1]
  }

  function Pow(b: nat, k: nat): nat {
    if k == 0 then 1 else b * Pow(b, k - 1)
  }

  /** `val / base` and `val % base`, for the printer. */
  function Quotient(v: nat, base: nat): (q: nat)
    requires base >= 2
    ensures (v < base <==> q == 0) && (v > 0 ==> q < v)
  {
    v / base
  }

  function Last(v: nat, base: nat): (d: nat)
    requires base >= 2
    ensures d < base && (v < base ==> d == v)
  {
    v % base
  }

  /** The shortest numeral of a number. */
  function Digits(v: nat, base: nat): (ds: seq<nat>)
    requires base >= 2
    ensures ds != [] && forall k :: 0 <= k < |ds| ==> ds[k] < base
  {
    if v < base then [v] else Digits(Quotient(v, base), base) + [Last(v, base)]
  }

  lemma {:induction false} ValueOfDigits(v: nat, base: nat)
    requires base >= 2
    ensures Value(Digits(v, base), base) == v
  {
    if v < base {
      assert [v][..0] == [];
    } else {
      var q, d := Quotient(v, base), Last(v, base);
      assert v == q * base + d;
      hide Quotient, Last;
      ValueOfDigits(q, base);
      ValueOfLast(Digits(q, base), d, base);
    }
  }

  lemma ValueOfLast(ds: seq<nat>, d: nat, base: nat)
    ensures Value(ds + [d], base) == Value(ds, base) * base + d
  {
    assert (ds + [d])[..|ds|] == ds;
  }

  lemma QuotientBelow(v: nat, base: nat, p: nat)
    requires base >= 2 && v < base * p
    ensures Quotient(v, base) < p
  {
    if Quotient(v, base) >= p {
      Times(base, p, v / base);
    }
  }

  lemma Times(k: nat, a: nat, b: nat)
    requires a <= b
    ensures k * a <= k * b && a * k <= b * k && (a < b && k > 0 ==> k * a < k * b)
  {
  }

  lemma PowOne(b: nat)
    ensures Pow(b, 1) == b
  {
    assert Pow(b, 0) == 1;
  }

  lemma {:induction false} DigitsLength(v: nat, base: nat, k: nat)
    requires base >= 2 && k > 0 && v < Pow(base, k)
    ensures |Digits(v, base)| <= k
  {
    if v >= base {
      PowOne(base);
      QuotientBelow(v, base, Pow(base, k - 1));
      hide Quotient, Last;
      DigitsLength(Quotient(v, base), base, k - 1);
    }
  }

  /** Larger digits make a larger number. */
  lemma {:induction false} ValueMonotone(ds: seq<nat>, es: seq<nat>, base: nat)
    requires base >= 1 && |ds| == |es| && forall k :: 0 <= k < |ds| ==> ds[k] <= es[k]
    ensures Value(ds, base) <= Value(es, base)
    ensures ds != es ==> Value(ds, base) < Value(es, base)
  {
    if ds != [] {
      var n := |ds| - 1;
      ValueMonotone(ds[..n], es[..n], base);
      var x, y := Value(ds[..n], base), Value(es[..n], base);
      Times(base, x, y);
      if ds[n] == es[n] {
        assert ds == ds[..n] + [ds[n]] && es == es[..n] + [es[n]];
      }
    }
  }

  // ----- Printing -----

  /** The character for a digit, in upper or lower case. */
  function Glyph(d: nat, lower: bool): (c: char)
    requires d < 16
  {
    if lower then "0123456789abcdef"[d] else "0123456789ABCDEF"[d]
  }

  function Glyphs(ds: seq<nat>, lower: bool): (s: string)
    requires forall k :: 0 <= k < |ds| ==> ds[k] < 16
  {
    seq(|ds|, k requires 0 <= k < |ds| => Glyph(ds[k], lower))
  }

  /** What a number looks like in base `|base|`; a negative base asks for lower case. */
  function Text(v: nat, base: int): (s: string)
    requires 2 <= Abs(base) <= 16
  {
    Glyphs(Digits(v, Abs(base)), base < 0)
  }

  function Abs(x: int): nat { if x < 0 then -x else x }

  /** What is still to be printed once the digits below `v` are. */
  function Rest(v: nat, base: nat, lower: bool): string
    requires 2 <= base <= 16
  {
    if v == 0 then "" else Glyphs(Digits(v, base), lower)
  }

  lemma LastGlyph(v: nat, base: nat, lower: bool)
    requires 2 <= base <= 16
    ensures Glyphs(Digits(v, base), lower) == Rest(Quotient(v, base), base, lower) + [Glyph(Last(v, base), lower)]
  {
    hide Quotient, Last, Glyph;
  }

  lemma Regroup(a: string, c: char, b: string)
    ensures (a + [c]) + b == a + ([c] + b)
  {
  }

  /** `fill_numbuf`, which writes backwards from the end of the buffer. */
  method FillNumbuf(buf: array<char>, val: nat, base: int) returns (start: nat)
    requires 2 <= Abs(base) <= 16 && |Text(val, base)| < buf.Length
    modifies buf
    ensures start + |Text(val, base)| + 1 == buf.Length
    ensures buf[start..] == Text(val, base) + ['\0'] && buf[..start] == old(buf[..start])
  {
    var lower, b, v := base < 0, Abs(base), val;
    ghost var was, text := buf[..], Text(val, base);
    LastGlyph(val, b, lower);
    assert Rest(0, b, lower) == "";
    hide Text, Rest, Digits, Glyphs, Glyph, Quotient, Last;
    start := buf.Length - 1;
    buf[start] := '\0';
    assert buf[start..] == ['\0'];
    start, v := PutDigit(buf, start, v, b, lower);
    while v != 0
      invariant |Rest(v, b, lower)| <= start <= buf.Length && Rest(v, b, lower) + buf[start..] == text + ['\0']
      invariant buf[..start] == was[..start]
      decreases v
    {
      LastGlyph(v, b, lower);
      Regroup(Rest(Quotient(v, b), b, lower), Glyph(Last(v, b), lower), buf[start..]);
      assert was[..start][..start - 1] == was[..start - 1] && buf[..start][..start - 1] == buf[..start - 1];
      start, v := PutDigit(buf, start, v, b, lower);
    }
  }

  /** One turn of the loop. */
  method PutDigit(buf: array<char>, start: nat, v: nat, base: nat, lower: bool) returns (start': nat, v': nat)
    requires 2 <= base <= 16 && 0 < start <= buf.Length
    modifies buf
    ensures start' == start - 1 && v' == Quotient(v, base)
    ensures buf[start'..] == [Glyph(Last(v, base), lower)] + old(buf[start..]) && buf[..start'] == old(buf[..start'])
  {
    start' := start - 1;
    buf[start'] := Glyph(v % base, lower);
    v' := v / base;
  }

  /** The printer's buffer of 24 bytes holds every 64-bit number in base 10 and 16, with its terminator. */
  lemma NumbufSuffices(val: nat, base: int)
    requires val <= MAX && (base == 10 || base == 16 || base == -16)
    ensures |Text(val, base)| + 1 <= 21
  {
    if base == 10 {
      assert Pow(10, 5) == 100_000;
      PowAdd(10, 5, 5);
      PowAdd(10, 10, 10);
      DigitsLength(val, 10, 20);
    } else {
      assert Pow(16, 4) == 0x1_0000;
      PowAdd(16, 4, 4);
      PowAdd(16, 8, 8);
      DigitsLength(val, 16, 16);
    }
  }

  lemma {:induction false} PowAdd(b: nat, i: nat, j: nat)
    ensures Pow(b, i + j) == Pow(b, i) * Pow(b, j)
  {
    if i > 0 {
      PowAdd(b, i - 1, j);
      assert b * (Pow(b, i - 1) * Pow(b, j)) == (b * Pow(b, i - 1)) * Pow(b, j);
    }
  }

  // ----- Parsing -----

  /** A string in memory is followed by a terminator. */
  function At(s: string, i: nat): char {
    if i < |s| then s[i] else '\0'
  }

  predicate IsSpace(c: char) {
    '\t' <= c <= '\r' || c == ' '
  }

  /** The digit the parser takes a character for. */
  function Digit(c: char, base: nat): (d: Option<nat>)
    ensures d.Some? && base >= 2 ==> d.value < base
  {
    var k := c as int;
    if k >= 48 && k < 48 + base then Some(k - 48)
    else if base > 10 && k >= 97 && k < 97 + base - 10 then Some(k - 97 + 10)
    else if base > 10 && k >= 65 && k < 65 + base - 10 then Some(k - 65 + 10)
    else None
  }

  /** The digit a character is, by section 7.22.1.4 of C11. */
  function StandardDigit(c: char, base: nat): Option<nat> {
    var d := if '0' <= c <= '9' then Some(c as int - 48)
             else if 'a' <= c <= 'z' then Some(c as int - 97 + 10)
             else if 'A' <= c <= 'Z' then Some(c as int - 65 + 10)
             else None;
    if d.Some? && d.value < base then d else None
  }

  /** The characters between '9' and '0' + base are misread, and no others. */
  predicate Misread(c: char, base: nat) {
    base > 10 && '9' < c && c as int < 48 + base
  }

  lemma DigitIsStandard(c: char, base: nat)
    requires 2 <= base <= 36
    ensures Digit(c, base) == StandardDigit(c, base) <==> !Misread(c, base)
    ensures StandardDigit(c, base).Some? && Misread(c, base) ==>
            Digit(c, base) == Some(StandardDigit(c, base).value + 7)
    ensures StandardDigit(c, base).Some? && base <= 17 ==> !Misread(c, base)
  {
  }

  /** The longest run of digits from place `i` on. */
  function Run(s: string, i: nat, base: nat): (ds: seq<nat>)
    requires i <= |s|
    ensures i + |ds| <= |s|
    ensures forall k :: 0 <= k < |ds| ==> Digit(s[i + k], base) == Some(ds[k])
    ensures Digit(At(s, i + |ds|), base).None?
    decreases |s| - i
  {
    match Digit(At(s, i), base)
    case None => []
    case Some(d) => if i == |s| then [] else [d] + Run(s, i + 1, base)
  }

  /** A number read from digits, as the parser returns it. */
  function Result(v: nat, negative: bool): (x: nat)
    ensures x <= MAX
  {
    var x := if v > MAX then MAX else v;
    if negative then Negated(x) else x
  }

  /** `-x`, as an `unsigned long`. */
  function Negated(x: nat): (y: nat)
    requires x <= MAX
    ensures y <= MAX && (x + y == MAX + 1 || x == y == 0)
  {
    (MAX + 1 - x) % (MAX + 1)
  }

  function SkipSpaces(s: string, i: nat): (j: nat)
    requires i <= |s|
    ensures i <= j <= |s| && !IsSpace(At(s, j)) && forall k :: i <= k < j ==> IsSpace(s[k])
    decreases |s| - i
  {
    if i < |s| && IsSpace(s[i]) then SkipSpaces(s, i + 1) else i
  }

  predicate HexPrefix(s: string, i: nat) {
    At(s, i) == '0' && (At(s, i + 1) == 'x' || At(s, i + 1) == 'X')
  }

  /** What a string is before its digits: its sign, the base it selects, and where the digits start. */
  function Header(s: string, base: nat): (h: (bool, nat, nat))
    ensures h.2 <= |s|
  {
    var i := SkipSpaces(s, 0);
    var j := if At(s, i) == '-' || At(s, i) == '+' then i + 1 else i;
    var hex := (base == 0 || base == 16) && HexPrefix(s, j);
    (At(s, i) == '-',
     if base != 0 then base else if hex then 16 else if At(s, j) == '0' then 8 else 10,
     if hex then j + 2 else j)
  }

  /** What the parser returns: the number, and where it ends. */
  function Parsed(s: string, base: nat): (nat, nat) {
    var (negative, b, i) := Header(s, base);
    var ds := Run(s, i, b);
    (Result(Value(ds, b), negative), i + |ds|)
  }

  /** `strtoul`. */
  method Strtoul(s: string, base0: nat) returns (x: nat, end: nat)
    requires base0 == 0 || 2 <= base0 <= 36
    ensures (x, end) == Parsed(s, base0)
  {
    var negative, base, start := ReadHeader(s, base0);
    hide Header, Value, Digit, Run, Negated;
    x, end := ReadDigits(s, start, base);
    if negative {
      x := Negated(x);
    }
  }

  /** The part of `strtoul` before the digits. */
  method ReadHeader(s: string, base0: nat) returns (negative: bool, base: nat, end: nat)
    requires base0 == 0 || 2 <= base0 <= 36
    ensures (negative, base, end) == Header(s, base0) && 2 <= base <= 36
  {
    base, end := base0, 0;
    while IsSpace(At(s, end))
      invariant end <= |s| && SkipSpaces(s, end) == SkipSpaces(s, 0)
      decreases |s| - end
    {
      end := end + 1;
    }
    negative := At(s, end) == '-';
    end := end + if negative || At(s, end) == '+' then 1 else 0;
    hide SkipSpaces, IsSpace;
    if base == 0 {
      if HexPrefix(s, end) {
        base, end := 16, end + 2;
      } else if At(s, end) == '0' {
        base := 8;
      } else {
        base := 10;
      }
    } else if base == 16 && HexPrefix(s, end) {
      end := end + 2;
    }
  }

  /** The number that the first `k` digits stand for. */
  ghost function SoFar(ds: seq<nat>, k: nat, base: nat): nat
    requires k <= |ds|
  {
    Value(ds[..k], base)
  }

  /** The part of `strtoul` that reads digits, whose value is the largest number if it does not fit. */
  method ReadDigits(s: string, start: nat, base: nat) returns (x: nat, end: nat)
    requires start <= |s| && 2 <= base <= 36
    ensures end == start + |Run(s, start, base)| && x == Result(Value(Run(s, start, base), base), false)
  {
    var overflow := false;
    x, end := 0, start;
    ghost var ds := Run(s, start, base);
    RunAt(s, start, base, 0);
    assert ds[..|ds|] == ds;
    assert SoFar(ds, 0, base) == 0 && SoFar(ds, |ds|, base) == Value(ds, base);
    hide Digit, Run, Value, SoFar;
    while Digit(At(s, end), base).Some?
      invariant start <= end <= start + |ds| && (Digit(At(s, end), base).Some? <==> end < start + |ds|)
      invariant overflow == (SoFar(ds, end - start, base) > MAX) && (!overflow ==> x == SoFar(ds, end - start, base))
      decreases start + |ds| - end
    {
      var digit := Digit(At(s, end), base).value;
      ReadStep(s, start, base, end - start);
      overflow, x := TakeDigit(overflow, x, digit, base, SoFar(ds, end - start, base));
      end := end + 1;
    }
    if overflow {
      x := MAX;
    }
  }

  /** One turn of the loop. */
  method TakeDigit(overflow: bool, x: nat, digit: nat, base: nat, ghost v: nat) returns (overflow': bool, x': nat)
    requires digit < base && 2 <= base <= 36 && overflow == (v > MAX) && (!overflow ==> x == v)
    ensures overflow' == (v * base + digit > MAX) && (!overflow' ==> x' == v * base + digit)
  {
    overflow', x' := overflow, x;
    Grows(v, digit, base);
    if !overflow { Fits(x, digit, base); }
    if x > (MAX - digit) / base {
      overflow' := true;
    } else {
      x' := x * base + digit;
    }
  }

  lemma ReadStep(s: string, start: nat, base: nat, k: nat)
    requires start <= |s| && k < |Run(s, start, base)|
    ensures var ds := Run(s, start, base);
            && Digit(At(s, start + k), base) == Some(ds[k])
            && SoFar(ds, k + 1, base) == SoFar(ds, k, base) * base + ds[k]
            && (Digit(At(s, start + k + 1), base).Some? <==> k + 1 < |ds|)
  {
    var ds := Run(s, start, base);
    RunAt(s, start, base, k);
    RunAt(s, start, base, k + 1);
    ValueOfLast(ds[..k], ds[k], base);
    assert ds[..k + 1] == ds[..k] + [ds[k]];
    assert start + (k + 1) == start + k + 1;
  }

  lemma Grows(v: nat, digit: nat, base: nat)
    requires base >= 1
    ensures v * base + digit >= v
  {
  }

  lemma {:induction false} RunAt(s: string, i: nat, base: nat, k: nat)
    requires i <= |s| && k <= |Run(s, i, base)|
    ensures Digit(At(s, i + k), base).Some? <==> k < |Run(s, i, base)|
    ensures k < |Run(s, i, base)| ==> Digit(At(s, i + k), base) == Some(Run(s, i, base)[k])
    decreases k
  {
    if k > 0 {
      RunAt(s, i + 1, base, k - 1);
      assert i + k == i + 1 + (k - 1);
    }
  }

  /** The test for overflow is exact. */
  lemma Fits(v: nat, digit: nat, base: nat)
    requires base >= 2 && digit < base <= 36
    ensures v > (MAX - digit) / base <==> v * base + digit > MAX
  {
    var q := (MAX - digit) / base;
    if v > q {
      assert v * base >= (q + 1) * base;
    } else {
      assert v * base <= q * base;
    }
  }

  // ----- What parsing promises -----

  /** Printing and parsing a 64-bit number gives it back, in every base the printer has, in either case. */
  lemma RoundTrip(val: nat, base: int)
    requires val <= MAX && 2 <= Abs(base) <= 16
    ensures Parsed(Text(val, base), Abs(base)) == (val, |Text(val, base)|)
  {
    var b, s, ds := Abs(base), Text(val, base), Digits(val, Abs(base));
    ValueOfDigits(val, b);
    hide Digits, Digit;
    forall k | 0 <= k < |ds| ensures Digit(s[k], b) == Some(ds[k]) { GlyphIsDigit(ds[k], b, base < 0); }
    ParsedDigits(s, b, ds);
  }

  lemma GlyphIsDigit(d: nat, base: nat, lower: bool)
    requires d < base <= 16
    ensures Digit(Glyph(d, lower), base) == Some(d) && StandardDigit(Glyph(d, lower), base) == Some(d)
  {
  }

  lemma {:induction false} RunIs(s: string, i: nat, base: nat, ds: seq<nat>)
    requires i + |ds| == |s| && forall k :: 0 <= k < |ds| ==> Digit(s[i + k], base) == Some(ds[k])
    ensures Run(s, i, base) == ds
    decreases |ds|
  {
    if ds != [] {
      assert s[i] == s[i + 0] && Digit(At(s, i), base) == Some(ds[0]) && ds == [ds[0]] + ds[1..];
      forall k | 0 <= k < |ds| - 1 ensures Digit(s[i + 1 + k], base) == Some(ds[1..][k]) {
        assert s[i + 1 + k] == s[i + (k + 1)];
      }
      RunIs(s, i + 1, base, ds[1..]);
    }
  }

  /** A string of digits has no header. */
  lemma ParsedDigits(s: string, base: nat, ds: seq<nat>)
    requires base >= 2 && s != "" && |ds| == |s| && forall k :: 0 <= k < |s| ==> Digit(s[k], base) == Some(ds[k])
    ensures Parsed(s, base) == (Result(Value(ds, base), false), |s|)
  {
    DigitsHaveNoHeader(s, base);
    assert forall k :: 0 <= k < |s| ==> Digit(s[0 + k], base) == Some(ds[k]);
    hide Digit, Header, Value, Run;
    RunIs(s, 0, base, ds);
  }

  lemma DigitsHaveNoHeader(s: string, base: nat)
    requires base >= 2 && s != "" && forall k :: 0 <= k < |s| ==> Digit(s[k], base).Some?
    ensures Header(s, base) == (false, base, 0)
  {
    assert Digit(s[0], base).Some? && !IsSpace(s[0]) && s[0] != '-' && s[0] != '+';
    assert SkipSpaces(s, 0) == 0;
    if |s| > 1 { assert Digit(s[1], base).Some?; }
    hide SkipSpaces;
  }

  /** A non-empty string of digits of a base, by the standard. */
  predicate Numeral(s: string, base: nat) {
    s != "" && forall k :: 0 <= k < |s| ==> StandardDigit(s[k], base).Some?
  }

  function StandardValue(s: string, base: nat): nat
    requires Numeral(s, base)
  {
    Value(seq(|s|, k requires 0 <= k < |s| => StandardDigit(s[k], base).value), base)
  }

  /** A numeral is parsed to its value, or to the largest number if that is less, unless it has a misread character
      and a value below the largest. */
  lemma NumeralSaturates(s: string, base: nat)
    requires 2 <= base <= 36 && Numeral(s, base)
    ensures Parsed(s, base).1 == |s|
    ensures Parsed(s, base).0 == Min(StandardValue(s, base), MAX)
            <==> StandardValue(s, base) >= MAX || forall k :: 0 <= k < |s| ==> !Misread(s[k], base)
  {
    var es := seq(|s|, k requires 0 <= k < |s| => StandardDigit(s[k], base).value);
    forall k | 0 <= k < |s| ensures Digit(s[k], base).Some? { DigitIsStandard(s[k], base); }
    var ds := seq(|s|, k requires 0 <= k < |s| => Digit(s[k], base).value);
    ParsedDigits(s, base, ds);
    hide Parsed, Digit, Value;
    forall k | 0 <= k < |s| ensures es[k] <= ds[k] &&
        (es[k] == ds[k] <==> !Misread(s[k], base)) { DigitIsStandard(s[k], base); }
    hide StandardDigit, Misread;
    ValueMonotone(es, ds, base);
    if forall k :: 0 <= k < |s| ==> !Misread(s[k], base) {
      assert es == ds;
    } else {
      var k :| 0 <= k < |s| && Misread(s[k], base);
      assert es[k] != ds[k];
    }
  }

  /** Up to base 17, that is every numeral. */
  lemma SmallBasesSaturate(s: string, base: nat)
    requires 2 <= base <= 17 && Numeral(s, base)
    ensures Parsed(s, base) == (Min(StandardValue(s, base), MAX), |s|)
  {
    NumeralSaturates(s, base);
    forall k | 0 <= k < |s| ensures !Misread(s[k], base) { DigitIsStandard(s[k], base); }
  }

  /** In base 16, "1:" is no numeral beyond its first character, but reads as 26. */
  lemma ColonIsADigit()
    ensures StandardDigit(':', 16) == None && Parsed("1:", 16) == (26, 2)
  {
    assert Digit('1', 16) == Some(1) && Digit(':', 16) == Some(10);
    ParsedDigits("1:", 16, [1, 10]);
    assert [1, 10][..1] == [1] && [1][..0] == [];
  }

  // ----- White space, signs and prefixes -----

  /** White space, by section 7.4.1.10 of C11. */
  predicate White(c: char) {
    c == ' ' || c == '\t' || c == '\n' || c == 11 as char || c == 12 as char || c == '\r'
  }

  /** A numeral `s` of base `b` with its prefix, as it may stand when base `base` is asked for. */
  predicate Form(prefix: string, s: string, base: nat, b: nat)
    requires s != ""
  {
    || ((prefix == "0x" || prefix == "0X") && b == 16 && (base == 16 || base == 0))
    || (prefix == "" && b == if base == 0 then (if s[0] == '0' then 8 else 10) else base)
  }

  lemma SkipsWhite(ws: string, r: string)
    requires (forall k :: 0 <= k < |ws| ==> White(ws[k])) && r != "" && !IsSpace(r[0])
    ensures SkipSpaces(ws + r, 0) == |ws|
  {
    var t := ws + r;
    assert t[|ws|] == r[0];
    assert forall k :: 0 <= k < |ws| ==> t[k] == ws[k];
    hide SkipSpaces;
  }

  lemma FormHeader(ws: string, sign: string, prefix: string, s: string, base: nat, b: nat)
    requires (forall k :: 0 <= k < |ws| ==> White(ws[k])) && (sign == "" || sign == "+" || sign == "-")
    requires 2 <= b <= 17 && Numeral(s, b) && Form(prefix, s, base, b)
    ensures var t := ws + (sign + (prefix + s));
            Header(t, base) == (sign == "-", b, |ws| + |sign| + |prefix|)
  {
    hide SkipSpaces, IsSpace, White, Numeral;
    var u, i := prefix + s, |ws| + |sign|;
    FirstDigits(s, b);
    FirstOf(prefix, s, base, b);
    assert sign == "" ==> sign + u == u;
    assert sign != "" ==> (sign + u)[0] == sign[0];
    NoSpaces();
    SkipsWhite(ws, sign + u);
    CharsAt(ws, sign, u);
    hide At;
  }

  lemma FirstOf(prefix: string, s: string, base: nat, b: nat)
    requires s != "" && Form(prefix, s, base, b)
    ensures var u := prefix + s;
            if prefix == "" then u == s else |u| > 1 && u[0] == '0' && u[1] == prefix[1]
  {
  }

  lemma NoSpaces()
    ensures !IsSpace('+') && !IsSpace('-') && !IsSpace('0')
  {
  }

  /** The characters that the header depends on. */
  lemma CharsAt(ws: string, sign: string, u: string)
    requires u != "" && |sign| <= 1
    ensures var t, i := ws + (sign + u), |ws| + |sign|;
            && At(t, |ws|) == (if sign == "" then u[0] else sign[0])
            && At(t, i) == u[0] && At(t, i + 1) == (if |u| > 1 then u[1] else '\0')
  {
  }

  lemma FirstDigits(s: string, b: nat)
    requires 2 <= b <= 17 && Numeral(s, b)
    ensures s != "" && !IsSpace(s[0]) && s[0] != '-' && s[0] != '+' && (|s| > 1 ==> s[1] != 'x' && s[1] != 'X')
  {
    assert StandardDigit(s[0], b).Some? && (|s| > 1 ==> StandardDigit(s[1], b).Some?);
  }

  /** A numeral is read in the base that its prefix, or the caller, says, after any white space and a sign: its value,
      or the largest number if that is less, and with a minus sign negated. */
  lemma ReadsForm(ws: string, sign: string, prefix: string, s: string, base: nat, b: nat)
    requires (forall k :: 0 <= k < |ws| ==> White(ws[k])) && (sign == "" || sign == "+" || sign == "-")
    requires 2 <= b <= 17 && Numeral(s, b) && Form(prefix, s, base, b)
    ensures var t, v := ws + (sign + (prefix + s)), Min(StandardValue(s, b), MAX);
            Parsed(t, base) == (if sign == "-" then Negated(v) else v, |t|)
  {
    hide Header, Negated, Form, White;
    FormHeader(ws, sign, prefix, s, base, b);
    var t, i := ws + (sign + (prefix + s)), |ws| + |sign| + |prefix|;
    var ds := seq(|s|, k requires 0 <= k < |s| => StandardDigit(s[k], b).value);
    forall k | 0 <= k < |ds| ensures Digit(t[i + k], b) == Some(ds[k]) {
      assert t[i + k] == s[k];
      DigitIsStandard(s[k], b);
    }
    hide Digit, StandardDigit, Numeral;
    RunIs(t, i, b, ds);
  }

  /** A numeral with a minus sign, in the bases that read every numeral: the negated value, once saturated. */
  lemma NegativeNumeral(s: string, base: nat)
    requires 2 <= base <= 17 && Numeral(s, base)
    ensures Parsed("-" + s, base) == (Negated(Min(StandardValue(s, base), MAX)), |s| + 1)
  {
    ReadsForm("", "-", "", s, base, base);
    assert "" + ("-" + ("" + s)) == "-" + s;
    hide Parsed, Negated, StandardValue, Numeral;
  }

  /** For a value out of range the standard asks for the largest number, whatever the sign. The code gives it exactly
      if there is no minus sign; with one it gives 1. */
  lemma OutOfRange(s: string, base: nat, negative: bool)
    requires 2 <= base <= 17 && Numeral(s, base) && StandardValue(s, base) > MAX
    ensures Parsed((if negative then "-" else "") + s, base).0 == (if negative then 1 else MAX)
    ensures Parsed((if negative then "-" else "") + s, base).0 == MAX <==> !negative
  {
    if negative {
      NegativeNumeral(s, base);
    } else {
      assert "" + s == s;
      SmallBasesSaturate(s, base);
    }
  }

  /** Such a numeral: 2^64 in base 16. */
  lemma OutOfRangeExample()
    ensures var s := "10000000000000000"; Numeral(s, 16) && StandardValue(s, 16) > MAX && Parsed("-" + s, 16).0 == 1
  {
    var s := "10000000000000000";
    var ds := seq(|s|, k requires 0 <= k < |s| => StandardDigit(s[k], 16).value);
    assert ds == [1] + Zeros(16);
    ShiftedValue(16);
    PowAdd(16, 4, 4);
    PowAdd(16, 8, 8);
    assert Pow(16, 4) == 0x1_0000;
    assert "-" + s == (if true then "-" else "") + s;
    OutOfRange(s, 16, true);
  }

  function Zeros(k: nat): seq<nat> { seq(k, i => 0) }

  lemma {:induction false} ShiftedValue(k: nat)
    ensures Value([1] + Zeros(k), 16) == Pow(16, k)
  {
    if k == 0 {
      assert [1] + Zeros(0) == [1] && [1][..0] == [];
    } else {
      assert [1] + Zeros(k) == ([1] + Zeros(k - 1)) + [0];
      ShiftedValue(k - 1);
      ValueOfLast([1] + Zeros(k - 1), 0, 16);
    }
  }

  // ----- What a printed number looks like -----

  /** The character printed for a digit stands for it, and is a letter, of the case asked for, exactly from 10 on. */
  lemma GlyphMeans(d: nat, lower: bool)
    requires d < 16
    ensures var c := Glyph(d, lower);
            && StandardDigit(c, 16) == Some(d)
            && ('0' <= c <= '9' <==> d < 10)
            && ('a' <= c <= 'f' <==> lower && d >= 10)
            && ('A' <= c <= 'F' <==> !lower && d >= 10)
  {
  }

  /** No other digits without a leading zero have the value of a number: the ones printed are the shortest. */
  lemma {:induction false} DigitsUnique(ds: seq<nat>, base: nat)
    requires base >= 2 && ds != [] && (forall k :: 0 <= k < |ds| ==> ds[k] < base) && (|ds| == 1 || ds[0] != 0)
    ensures Digits(Value(ds, base), base) == ds
    decreases |ds|
  {
    hide Quotient, Last, Value, Digits;
    var front, d := ds[..|ds| - 1], ds[|ds| - 1];
    assert ds == front + [d];
    if front == [] {
      OneDigit(d, base);
    } else {
      DigitsUnique(front, base);
      assert front[0] == ds[0];
      NotZero(front, base);
      ValueOfLast(front, d, base);
      PutDown(Value(front, base), d, base);
    }
  }

  lemma OneDigit(d: nat, base: nat)
    requires base >= 2 && d < base
    ensures Digits(Value([d], base), base) == [d]
  {
    ValueOfLast([], d, base);
    assert [] + [d] == [d] && Value([], base) == 0;
    hide Value;
  }

  lemma NotZero(ds: seq<nat>, base: nat)
    requires base >= 2 && ds != [] && ds[0] != 0 && Digits(Value(ds, base), base) == ds
    ensures Value(ds, base) > 0
  {
    hide Value;
  }

  lemma PutDown(q: nat, d: nat, base: nat)
    requires base >= 2 && d < base && q > 0
    ensures Digits(q * base + d, base) == Digits(q, base) + [d]
  {
    var v := q * base + d;
    assert v == Quotient(v, base) * base + Last(v, base);
    hide Quotient, Last;
    SameParts(q, d, Quotient(v, base), Last(v, base), base);
    AtLeastOnce(q, base);
  }
}
