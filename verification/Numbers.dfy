/** Printing and reading decimal numbers the JavaScript way: the layout rules of
    Number::toString (section 6.1.6.1.20 of ECMA-262) and the prefix scan of parseFloat
    (section 19.2.4). Values are exact decimals. */
module Numbers {
  import opened Schema

  predicate IsDigit(c: char) {
    '0' <= c <= '9'
  }

  predicate AllDigits(s: string) {
    forall i :: 0 <= i < |s| ==> IsDigit(s[i])
  }

  datatype Sign = Unsigned | Plus | Minus
  {
    function Text(): string {
      match this
      case Unsigned => ""
      case Plus => "+"
      case Minus => "-"
    }
  }

  // ---------------------------------------------------------------------
  // The grammar of decimal literals
  // ---------------------------------------------------------------------

  datatype Exponent = NoExponent | Exponent(mark: char, sign: Sign, digits: string)
  {
    predicate Valid() {
      Exponent? ==> (mark == 'e' || mark == 'E') && |digits| > 0 && AllDigits(digits)
    }

    function Text(): string {
      if NoExponent? then "" else [mark] + (sign.Text() + digits)
    }

    function Value(): int {
      if NoExponent? then 0 else if sign.Minus? then -(IntOf(digits) as int) else IntOf(digits) as int
    }
  }

  /** What follows the sign and the exponent's start: `12`, `12.`, `12.5` or `.5`. */
  datatype Mantissa = Mantissa(whole: string, dot: bool, frac: string)
  {
    predicate Valid() {
      && AllDigits(whole) && AllDigits(frac)
      && (!dot ==> |frac| == 0)
      && (|whole| == 0 ==> |frac| > 0)
    }

    function Text(): string {
      whole + (if dot then "." + frac else "")
    }
  }

  datatype Literal = Literal(sign: Sign, mantissa: Mantissa, exponent: Exponent)
  {
    predicate Valid() {
      mantissa.Valid() && exponent.Valid()
    }

    function Text(): string {
      sign.Text() + (mantissa.Text() + exponent.Text())
    }

    /** The number denoted, exactly. */
    function Value(): real {
      Signed(sign.Minus?,
             Scale(IntOf(mantissa.whole + mantissa.frac), exponent.Value() - |mantissa.frac|))
    }
  }

  function Signed(negative: bool, r: real): real {
    if negative then 0.0 - r else r
  }

  function DigitValue(c: char): nat {
    if IsDigit(c) then c as nat - '0' as nat else 0
  }

  function IntOf(s: string): nat {
    if |s| == 0 then 0 else 10 * IntOf(s[..|s| - 1]) + DigitValue(s[|s| - 1])
  }

  /** m times ten to e. */
  function Scale(m: nat, e: int): real
    decreases if e < 0 then -e else e
  {
    if e == 0 then m as real
    else if e > 0 then Scale(10 * m, e - 1)
    else Scale(m, e + 1) / 10.0
  }

  /** One more power of ten is ten times as much, on either side of the point. */
  lemma {:induction false} ScaleByTen(m: nat, e: int)
    ensures Scale(m, e + 1) == 10.0 * Scale(m, e) && Scale(m, 0) == m as real
    decreases if e < 0 then -e else e
  {
    if e > 0 {
      ScaleByTen(10 * m, e - 1);
    } else if e == 0 {
      assert Scale(10 * m, 0) == (10 * m) as real;
    }
  }

  /** A minus sign negates, and without one no literal is negative. */
  lemma SignOfValue(m: Mantissa, e: Exponent)
    ensures Literal(Minus, m, e).Value() == -Literal(Unsigned, m, e).Value()
    ensures Literal(Plus, m, e).Value() == Literal(Unsigned, m, e).Value() >= 0.0
  {
    ScaleIsNotNegative(IntOf(m.whole + m.frac), e.Value() - |m.frac|);
  }

  lemma {:induction false} ScaleIsNotNegative(m: nat, e: int)
    ensures Scale(m, e) >= 0.0
    decreases if e < 0 then -e else e
  {
    if e > 0 {
      ScaleIsNotNegative(10 * m, e - 1);
    } else if e < 0 {
      ScaleIsNotNegative(m, e + 1);
    }
  }

  // ---------------------------------------------------------------------
  // The scan, as a function
  // ---------------------------------------------------------------------

  function DigitRun(s: string): (n: nat)
    ensures n <= |s| && AllDigits(s[..n])
    ensures n < |s| ==> !IsDigit(s[n])
  {
    if |s| == 0 || !IsDigit(s[0]) then 0
    else
      assert s[..1 + DigitRun(s[1..])] == [s[0]] + s[1..][..DigitRun(s[1..])];
      1 + DigitRun(s[1..])
  }

  predicate StartsWith(s: string, c: char) {
    |s| > 0 && s[0] == c
  }

  function ScanSign(s: string): (sign: Sign)
    ensures |sign.Text()| <= |s|
  {
    if StartsWith(s, '+') then Plus else if StartsWith(s, '-') then Minus else Unsigned
  }

  function ScanMantissa(s: string): Option<Mantissa> {
    if StartsWith(s, '.') then
      var n := DigitRun(s[1..]);
      if n == 0 then None else Some(Mantissa("", true, s[1..][..n]))
    else
      var k := DigitRun(s);
      if k == 0 then None
      else if StartsWith(s[k..], '.') then
        var rest := s[k..][1..];
        Some(Mantissa(s[..k], true, rest[..DigitRun(rest)]))
      else Some(Mantissa(s[..k], false, ""))
  }

  function ScanExponent(s: string): Exponent {
    if StartsWith(s, 'e') || StartsWith(s, 'E') then
      var sign := ScanSign(s[1..]);
      var rest := s[1..][|sign.Text()|..];
      var n := DigitRun(rest);
      if n == 0 then NoExponent else Exponent(s[0], sign, rest[..n])
    else NoExponent
  }

  function Scan(s: string): Option<Literal> {
    var sign := ScanSign(s);
    var t := s[|sign.Text()|..];
    var m := ScanMantissa(t);
    if m.None? then None
    else
      MantissaIsPrefix(t);
      Some(Literal(sign, m.value, ScanExponent(t[|m.value.Text()|..])))
  }

  lemma MantissaIsPrefix(s: string)
    ensures ScanMantissa(s).Some? ==> ScanMantissa(s).value.Valid() && ScanMantissa(s).value.Text() <= s
  {
    if StartsWith(s, '.') {
      assert s == "." + s[1..];
    } else {
      var rest := s[DigitRun(s)..];
      assert s == s[..DigitRun(s)] + rest;
      if StartsWith(rest, '.') {
        assert rest == "." + rest[1..];
      }
    }
  }

  lemma SignIsPrefix(s: string)
    ensures s == ScanSign(s).Text() + s[|ScanSign(s).Text()|..]
  {
  }

  lemma ExponentIsPrefix(s: string)
    ensures ScanExponent(s).Valid() && ScanExponent(s).Text() <= s
  {
    if ScanExponent(s).Exponent? {
      var e := ScanExponent(s);
      var t := s[1..];
      SignIsPrefix(t);
      Joined([e.mark], e.sign.Text(), e.digits, t, s);
    }
  }

  lemma ScanIsPrefix(s: string)
    ensures Scan(s).Some? ==> Scan(s).value.Valid() && Scan(s).value.Text() <= s
  {
    var sign := ScanSign(s).Text();
    var t := s[|sign|..];
    SignIsPrefix(s);
    MantissaIsPrefix(t);
    if Scan(s).Some? {
      var m := Scan(s).value.mantissa.Text();
      var u := t[|m|..];
      ExponentIsPrefix(u);
      Joined(sign, m, ScanExponent(u).Text(), t, s);
    }
  }

  lemma Joined(a: string, m: string, e: string, t: string, s: string)
    requires s == a + t && m <= t && e <= t[|m|..]
    ensures a + (m + e) <= s
  {
    assert t == m + t[|m|..];
    assert t == (m + e) + t[|m|..][|e|..];
    assert s == (a + (m + e)) + t[|m|..][|e|..];
  }

  // ---------------------------------------------------------------------
  // The scan finds the longest literal
  // ---------------------------------------------------------------------

  lemma PrefixParts(a: string, b: string, s: string)
    requires a + b <= s
    ensures a <= s && b <= s[|a|..]
  {
    assert (a + b)[..|a|] == a;
    assert (a + b)[|a|..] == b;
    assert s[..|a + b|][|a|..] == s[|a|..][..|b|];
  }

  lemma {:induction false} DigitsWithinRun(d: string, s: string)
    requires AllDigits(d) && d <= s
    ensures |d| <= DigitRun(s) && d == s[..|d|]
  {
    if |d| > 0 {
      assert s[0] == d[0];
      DigitsWithinRun(d[1..], s[1..]);
    }
  }

  lemma SignIsForced(sign: Sign, rest: string, s: string)
    requires sign.Text() + rest <= s && |rest| > 0 && rest[0] != '+' && rest[0] != '-'
    ensures sign == ScanSign(s)
  {
    assert (sign.Text() + rest)[0] == s[0];
  }

  lemma MantissaStart(m: Mantissa)
    requires m.Valid()
    ensures |m.Text()| > 0 && (IsDigit(m.Text()[0]) || m.Text()[0] == '.')
  {
  }

  lemma LongestExponent(e: Exponent, s: string)
    requires e.Valid() && e.Text() <= s
    ensures |e.Text()| <= |ScanExponent(s).Text()|
  {
    if e.Exponent? {
      var sign := e.sign.Text();
      PrefixParts([e.mark], sign + e.digits, s);
      SignIsForced(e.sign, e.digits, s[1..]);
      PrefixParts(sign, e.digits, s[1..]);
      DigitsWithinRun(e.digits, s[1..][|sign|..]);
    }
  }

  /** What follows the digits before the point. */
  function AfterWhole(m: Mantissa, e: Exponent): string {
    (if m.dot then "." + m.frac else "") + e.Text()
  }

  lemma ExponentStart(e: Exponent)
    requires e.Valid()
    ensures |e.Text()| > 0 ==> !IsDigit(e.Text()[0]) && e.Text()[0] != '.'
  {
  }

  lemma Associates(a: string, b: string, c: string)
    ensures (a + b) + c == a + (b + c)
  {
  }

  lemma AfterWholeIsNoDigit(m: Mantissa, e: Exponent)
    requires m.Valid() && e.Valid()
    ensures m.Text() + e.Text() == m.whole + AfterWhole(m, e)
    ensures m.dot ==> AfterWhole(m, e) == "." + (m.frac + e.Text())
    ensures |AfterWhole(m, e)| > 0 ==> !IsDigit(AfterWhole(m, e)[0])
    ensures |e.Text()| > 0 ==> !IsDigit(e.Text()[0]) && e.Text()[0] != '.'
    ensures StartsWith(AfterWhole(m, e), '.') <==> m.dot
  {
    ExponentStart(e);
    hide Exponent.Text, Exponent.Valid;
    if m.dot {
      Associates(m.whole, "." + m.frac, e.Text());
      Associates(".", m.frac, e.Text());
    } else {
      AppendNothing(m.whole);
      PrependNothing(e.Text());
    }
  }

  lemma PrependNothing(s: string)
    ensures "" + s == s
  {
  }

  /** Digits that end where something else begins are the whole run. */
  lemma RunIsForced(d: string, rest: string, s: string)
    requires AllDigits(d) && d + rest <= s && |rest| > 0 && !IsDigit(rest[0])
    ensures DigitRun(s) == |d| && d == s[..|d|]
  {
    PrefixParts(d, rest, s);
    DigitsWithinRun(d, s);
    assert s[|d|] == rest[0];
  }

  /** A literal's mantissa is the scanned one, or the literal stops inside it. */
  lemma MantissaIsForced(m: Mantissa, e: Exponent, s: string)
    requires m.Valid() && e.Valid() && m.Text() + e.Text() <= s
    ensures ScanMantissa(s).Some?
    ensures m == ScanMantissa(s).value || |m.Text() + e.Text()| <= |ScanMantissa(s).value.Text()|
  {
    var tail := AfterWhole(m, e);
    AfterWholeIsNoDigit(m, e);
    PrefixParts(m.whole, tail, s);
    DigitsWithinRun(m.whole, s);
    if |tail| > 0 {
      RunIsForced(m.whole, tail, s);
    }
    if m.dot {
      var rest := s[|m.whole|..][1..];
      PrefixParts(".", m.frac + e.Text(), s[|m.whole|..]);
      FractionIsForced(m, e, rest);
      assert |m.whole| == 0 ==> s[1..] == rest;
    }
  }

  lemma FractionIsForced(m: Mantissa, e: Exponent, rest: string)
    requires m.Valid() && e.Valid() && m.frac + e.Text() <= rest
    ensures |m.frac| <= DigitRun(rest)
    ensures |e.Text()| > 0 ==> m.frac == rest[..DigitRun(rest)]
    ensures |m.frac| == DigitRun(rest) ==> m.frac == rest[..DigitRun(rest)]
  {
    PrefixParts(m.frac, e.Text(), rest);
    DigitsWithinRun(m.frac, rest);
    if |e.Text()| > 0 {
      AfterWholeIsNoDigit(m, e);
      RunIsForced(m.frac, e.Text(), rest);
    }
  }

  lemma ScanIsLongest(l: Literal, s: string)
    requires l.Valid() && l.Text() <= s
    ensures Scan(s).Some? && |l.Text()| <= |Scan(s).value.Text()|
  {
    var sign, m, e := l.sign.Text(), l.mantissa.Text(), l.exponent.Text();
    assert l.Text() == sign + (m + e);
    MantissaStart(l.mantissa);
    SignIsForced(l.sign, m + e, s);
    PrefixParts(sign, m + e, s);
    var t := s[|sign|..];
    MantissaIsForced(l.mantissa, l.exponent, t);
    MantissaIsPrefix(t);
    if l.mantissa == ScanMantissa(t).value {
      PrefixParts(m, e, t);
      LongestExponent(l.exponent, t[|m|..]);
    }
  }

  lemma {:induction false} RunOver(d: string, rest: string)
    requires AllDigits(d) && (|rest| > 0 ==> !IsDigit(rest[0]))
    ensures DigitRun(d + rest) == |d|
  {
    if |d| == 0 {
      assert d + rest == rest;
    } else {
      assert (d + rest)[1..] == d[1..] + rest;
      RunOver(d[1..], rest);
    }
  }

  lemma ScanExponentText(e: Exponent)
    requires e.Valid()
    ensures ScanExponent(e.Text()) == e
  {
    if e.Exponent? {
      var sign := e.sign.Text();
      var t := e.Text()[1..];
      assert t == sign + e.digits;
      SignIsForced(e.sign, e.digits, t);
      assert t[|sign|..] == e.digits;
      RunOver(e.digits, "");
      assert e.digits + "" == e.digits;
    }
  }

  lemma ScanMantissaText(m: Mantissa, e: Exponent)
    requires m.Valid() && e.Valid()
    ensures ScanMantissa(m.Text() + e.Text()) == Some(m)
  {
    var tail := AfterWhole(m, e);
    var s := m.Text() + e.Text();
    AfterWholeIsNoDigit(m, e);
    RunOver(m.whole, tail);
    assert s[..|m.whole|] == m.whole && s[|m.whole|..] == tail;
    if m.dot {
      assert tail[1..] == m.frac + e.Text();
      RunOver(m.frac, e.Text());
      assert tail[1..][..|m.frac|] == m.frac;
      assert |m.whole| == 0 ==> s == tail;
    }
  }

  /** Every literal is scanned in full, and comes back as itself: the grammar is unambiguous. */
  lemma ScanText(l: Literal)
    requires l.Valid()
    ensures Scan(l.Text()) == Some(l)
  {
    var sign, m, e := l.sign.Text(), l.mantissa.Text(), l.exponent.Text();
    assert l.Text() == sign + (m + e);
    MantissaStart(l.mantissa);
    SignIsForced(l.sign, m + e, l.Text());
    assert l.Text()[|sign|..] == m + e;
    ScanMantissaText(l.mantissa, l.exponent);
    assert (m + e)[|m|..] == e;
    ScanExponentText(l.exponent);
  }

  // ---------------------------------------------------------------------
  // parseFloat
  // ---------------------------------------------------------------------

  datatype Parsed = NaN | Infinite(negative: bool) | Finite(literal: Literal)

  /** The five characters that the code strips: U+000B is not among them. */
  predicate IsAsciiWhitespace(c: char) {
    c == ' ' || c == '\t' || c == '\n' || c == '\r' || c == '\U{0C}'
  }

  function SkipWhitespace(s: string): string {
    if |s| > 0 && IsAsciiWhitespace(s[0]) then SkipWhitespace(s[1..]) else s
  }

  /** The number at the start of a text whose leading whitespace has been skipped. */
  function ParseSkipped(t: string): Parsed {
    if "Infinity" <= t then Infinite(false)
    else if "-Infinity" <= t then Infinite(true)
    else if "+Infinity" <= t then Infinite(false)
    else
      var l := Scan(t);
      if l.None? then NaN else Finite(l.value)
  }

  function ParseFloat(s: string): Parsed {
    ParseSkipped(SkipWhitespace(s))
  }

  method SkipDigits(s: string, start: nat) returns (i: nat)
    requires start <= |s|
    ensures i == start + DigitRun(s[start..])
  {
    i := start;
    while i < |s| && IsDigit(s[i])
      invariant start <= i <= |s|
      invariant start + DigitRun(s[start..]) == i + DigitRun(s[i..])
    {
      assert s[i..][1..] == s[i + 1..];
      i := i + 1;
    }
  }

  /** The part of the scan before the exponent; `None` where the code returns NaN. */
  method ReadMantissa(t: string, start: nat) returns (m: Option<Mantissa>, i: nat)
    requires start <= |t|
    ensures m == ScanMantissa(t[start..]) && start <= i <= |t|
    ensures m.Some? ==> i == start + |m.value.Text()|
  {
    hide DigitRun, AllDigits;
    i := start;
    if i < |t| && t[i] == '.' {
      var frac;
      frac, i := ReadDigits(t, i + 1);
      SliceSlice(t, start, 1);
      m := if |frac| == 0 then None else Some(Mantissa("", true, frac));
    } else {
      var whole;
      whole, i := ReadDigits(t, i);
      if i == start {
        return None, i;
      }
      SliceSlice(t, start, |whole|);
      if i < |t| && t[i] == '.' {
        SliceSlice(t, i, 1);
        var frac;
        frac, i := ReadDigits(t, i + 1);
        m := Some(Mantissa(whole, true, frac));
      } else {
        AppendNothing(whole);
        m := Some(Mantissa(whole, false, ""));
      }
    }
  }

  method ReadDigits(t: string, start: nat) returns (digits: string, i: nat)
    requires start <= |t|
    ensures digits == t[start..][..DigitRun(t[start..])] && i == start + |digits| <= |t|
  {
    i := SkipDigits(t, start);
    digits := t[start..i];
    SliceSlice(t, start, i - start);
  }

  method ReadSign(t: string, start: nat) returns (sign: Sign, i: nat)
    requires start <= |t|
    ensures sign == ScanSign(t[start..]) && i == start + |sign.Text()| <= |t|
  {
    i := start;
    sign := Unsigned;
    if i < |t| && (t[i] == '+' || t[i] == '-') {
      sign := if t[i] == '+' then Plus else Minus;
      i := i + 1;
    }
  }

  lemma SliceSlice(t: string, a: nat, b: nat)
    requires a + b <= |t|
    ensures t[a..][b..] == t[a + b..] && t[a..][..b] == t[a..a + b]
  {
  }

  /** The optional exponent, rolled back when no digit follows its mark. */
  method ReadExponent(t: string, start: nat) returns (e: Exponent, i: nat)
    requires start <= |t|
    ensures e == ScanExponent(t[start..]) && i == start + |e.Text()| <= |t|
  {
    i := start;
    e := NoExponent;
    if start < |t| && (t[start] == 'e' || t[start] == 'E') {
      var sign, digits;
      i, sign, digits := ReadSignedDigits(t, start + 1);
      SliceSlice(t, start, 1);
      if digits == "" {
        i := start;
      } else {
        e := Exponent(t[start], sign, digits);
      }
    }
  }

  method ReadSignedDigits(t: string, start: nat) returns (i: nat, sign: Sign, digits: string)
    requires start <= |t|
    ensures sign == ScanSign(t[start..])
    ensures var rest := t[start..][|sign.Text()|..]; digits == rest[..DigitRun(rest)]
    ensures i == start + |sign.Text()| + |digits| <= |t|
  {
    hide DigitRun, AllDigits, ScanSign;
    sign, i := ReadSign(t, start);
    SliceSlice(t, start, |sign.Text()|);
    var digitsStart := i;
    i := SkipDigits(t, i);
    SliceSlice(t, digitsStart, i - digitsStart);
    digits := t[digitsStart..i];
  }

  /** What the result of parseFloat is, without the scan: NaN exactly when nothing at the start
      of the text is a number, and otherwise the longest literal found there. */
  ghost predicate Meets(s: string, r: Parsed) {
    var t := SkipWhitespace(s);
    && (r.NaN? <==> !("Infinity" <= t) && !("-Infinity" <= t) && !("+Infinity" <= t) &&
                    forall l: Literal :: l.Valid() ==> !(l.Text() <= t))
    && (r.Infinite? && !r.negative <==> "Infinity" <= t || "+Infinity" <= t)
    && (r.Infinite? && r.negative <==> "-Infinity" <= t)
    && (r.Finite? ==>
          && r.literal.Valid() && r.literal.Text() <= t
          && forall l: Literal :: l.Valid() && l.Text() <= t ==> |l.Text()| <= |r.literal.Text()|)
  }

  /** The index scan of the code. */
  method ParseFloatJs(s: string) returns (r: Parsed)
    ensures r == ParseFloat(s) && Meets(s, r)
  {
    var t := SkipWhitespace(s);
    ParseFloatMeets(s);
    if |t| == 0 {
      return NaN;
    }
    if "Infinity" <= t {
      return Infinite(false);
    }
    if "-Infinity" <= t {
      return Infinite(true);
    }
    if "+Infinity" <= t {
      return Infinite(false);
    }
    r := ReadNumber(t);
  }

  method ReadNumber(t: string) returns (r: Parsed)
    ensures r == if Scan(t).None? then NaN else Finite(Scan(t).value)
  {
    assert t[0..] == t;
    var sign, i := ReadSign(t, 0);
    var signEnd := i;
    var mantissa;
    mantissa, i := ReadMantissa(t, i);
    if mantissa.None? {
      return NaN;
    }
    SliceSlice(t, signEnd, i - signEnd);
    var exponent;
    exponent, i := ReadExponent(t, i);
    r := Finite(Literal(sign, mantissa.value, exponent));
  }

  lemma ParseFloatMeets(s: string)
    ensures Meets(s, ParseFloat(s))
  {
    var t := SkipWhitespace(s);
    ScanIsPrefix(t);
    forall l: Literal | l.Valid() && l.Text() <= t
      ensures Scan(t).Some? && |l.Text()| <= |Scan(t).value.Text()|
    {
      ScanIsLongest(l, t);
    }
    InfinitiesDiffer(t);
  }

  /** And it is nothing else. */
  lemma MeetsDetermines(s: string, r: Parsed)
    ensures Meets(s, r) <==> r == ParseFloat(s)
  {
    ParseFloatMeets(s);
    var q := ParseFloat(s);
    if Meets(s, r) {
      hide ParseFloat;
      SameKind(s, r, q);
      if r.Finite? && q.Finite? {
        SameText(SkipWhitespace(s), r.literal, q.literal);
      }
    }
  }

  lemma SameKind(s: string, r: Parsed, q: Parsed)
    requires Meets(s, r) && Meets(s, q)
    ensures r == q || (r.Finite? && q.Finite?)
  {
    InfinitiesDiffer(SkipWhitespace(s));
  }

  lemma SameText(t: string, l: Literal, k: Literal)
    requires l.Valid() && k.Valid() && l.Text() <= t && k.Text() <= t && |l.Text()| == |k.Text()|
    ensures l == k
  {
    assert l.Text() == t[..|l.Text()|] == k.Text();
    ScanText(l);
    ScanText(k);
  }

  lemma InfinitiesDiffer(t: string)
    ensures "-Infinity" <= t ==> !("Infinity" <= t) && !("+Infinity" <= t)
  {
    assert "-Infinity"[0] == '-' && "Infinity"[0] == 'I' && "+Infinity"[0] == '+';
  }

  // ---------------------------------------------------------------------
  // Whitespace as documented
  // ---------------------------------------------------------------------

  const VERTICAL_TAB := '\U{0B}'

  /** The whitespace that the documentation lists. */
  function SkipDocumented(s: string): string {
    if |s| > 0 && (IsAsciiWhitespace(s[0]) || s[0] == VERTICAL_TAB) then SkipDocumented(s[1..]) else s
  }

  function ParseDocumented(s: string): Parsed {
    ParseSkipped(SkipDocumented(s))
  }

  lemma {:induction false} SkipsAlike(s: string)
    requires !StartsWith(SkipWhitespace(s), VERTICAL_TAB)
    ensures SkipDocumented(s) == SkipWhitespace(s)
  {
    if |s| > 0 && IsAsciiWhitespace(s[0]) {
      SkipsAlike(s[1..]);
    }
  }

  lemma NothingAtVerticalTab(t: string)
    requires StartsWith(t, VERTICAL_TAB)
    ensures ParseSkipped(t) == NaN
  {
    assert "Infinity"[0] == 'I' && "-Infinity"[0] == '-' && "+Infinity"[0] == '+';
    assert t[|""|..] == t;
  }

  /** The code does what its documentation says exactly if the text behind the whitespace that it skips
      does not start with a vertical tab, or no number follows all the documented whitespace anyway. */
  lemma WhenWhitespaceIsAsDocumented(s: string)
    ensures ParseFloat(s) == ParseDocumented(s) <==>
              !StartsWith(SkipWhitespace(s), VERTICAL_TAB) || ParseDocumented(s).NaN?
  {
    hide ParseSkipped;
    if StartsWith(SkipWhitespace(s), VERTICAL_TAB) {
      NothingAtVerticalTab(SkipWhitespace(s));
    } else {
      SkipsAlike(s);
    }
  }

  /** A text that is a number by the documentation and none by the code. */
  lemma VerticalTabIsNotSkipped()
    ensures ParseFloat([VERTICAL_TAB, '5']) == NaN
    ensures ParseDocumented([VERTICAL_TAB, '5']) == Finite(Literal(Unsigned, Mantissa("5", false, ""), NoExponent))
  {
    NothingAtVerticalTab([VERTICAL_TAB, '5']);
    assert SkipDocumented([VERTICAL_TAB, '5']) == "5" by {
      assert [VERTICAL_TAB, '5'][1..] == "5";
    }
    hide SkipDocumented, ParseSkipped;
    FiveIsRead();
  }

  lemma FiveIsRead()
    ensures ParseSkipped("5") == Finite(Literal(Unsigned, Mantissa("5", false, ""), NoExponent))
  {
    var five := Literal(Unsigned, Mantissa("5", false, ""), NoExponent);
    assert five.Text() == "5";
    ScanText(five);
    hide Scan;
    assert "Infinity"[0] == 'I' && "-Infinity"[0] == '-' && "+Infinity"[0] == '+';
  }

  // ---------------------------------------------------------------------
  // Number::toString
  // ---------------------------------------------------------------------

  /** A double by its shortest digits: `digits` with the point after the first one, times
      ten to `exp`. */
  datatype Double =
    | NotANumber
    | Zero(negative: bool)
    | Infinity(negative: bool)
    | Digits(negative: bool, digits: string, exp: int)
  {
    predicate Valid() {
      Digits? ==> |digits| > 0 && AllDigits(digits)
    }

    ghost function Value(): real
      requires Zero? || Digits?
    {
      if Zero? then 0.0
      else Signed(negative, Scale(IntOf(digits), exp + 1 - |digits|))
    }
  }

  function Zeros(k: nat): string {
    seq(k, i => '0')
  }

  function DigitChar(d: nat): char
    requires d < 10
  {
    ('0' as int + d) as char
  }

  function Decimal(n: nat): string {
    if n < 10 then [DigitChar(n)] else Decimal(n / 10) + [DigitChar(n % 10)]
  }

  /** The layout regimes, for a digit string of length k and n = exp + 1. */
  function FormatBody(s: string, exp: int): string
    requires |s| > 0
  {
    var k := |s|;
    var n := exp + 1;
    if k <= n <= 21 then
      s + Zeros(n - k)
    else if 0 < n <= 21 then
      s[..n] + ("." + s[n..])
    else if -6 < n <= 0 then
      "0" + ("." + (Zeros(-n) + s))
    else
      var e := n - 1;
      var eSign := if e >= 0 then "+" else "-";
      var eAbs := Decimal(if e >= 0 then e else -e);
      if k == 1 then s + ("e" + (eSign + eAbs))
      else (s[..1] + ("." + s[1..])) + ("e" + (eSign + eAbs))
  }

  lemma {:induction false} DecimalStart(n: nat)
    ensures |Decimal(n)| > 0 && AllDigits(Decimal(n)) && (n > 0 ==> Decimal(n)[0] != '0')
  {
    if n >= 10 {
      DecimalStart(n / 10);
    }
  }

  lemma ExponentForm(s: string, exp: int)
    requires |s| > 0 && AllDigits(s) && (exp + 1 > 21 || exp + 1 <= -6)
    ensures var text, i := FormatBody(s, exp), if |s| == 1 then 1 else |s| + 1;
            && i + 2 < |text| && text[i] == 'e' && text[i + 1] == (if exp >= 0 then '+' else '-')
            && text[i + 2] != '0' && AllDigits(text[i + 2..])
            && text[..i] == if |s| == 1 then s else s[..1] + "." + s[1..]
  {
    var eAbs := Decimal(if exp >= 0 then exp else -exp);
    var front := if |s| == 1 then s else s[..1] + ("." + s[1..]);
    DecimalStart(if exp >= 0 then exp else -exp);
    assert FormatBody(s, exp) == front + ("e" + ((if exp >= 0 then "+" else "-") + eAbs));
    hide Decimal, FormatBody;
    BehindFront(front, if exp >= 0 then '+' else '-', eAbs);
    assert |s| > 1 ==> front == s[..1] + "." + s[1..];
  }

  lemma BehindFront(front: string, sign: char, digits: string)
    ensures var text := front + ("e" + ([sign] + digits));
            && |text| == |front| + 2 + |digits| && text[..|front|] == front
            && text[|front|] == 'e' && text[|front| + 1] == sign && text[|front| + 2..] == digits
  {
  }

  lemma PaddedForm(s: string, exp: int)
    requires |s| > 0 && AllDigits(s) && |s| <= exp + 1 <= 21
    ensures var text := FormatBody(s, exp);
            AllDigits(text) && |text| == exp + 1 && s <= text
  {
  }

  lemma PointForm(s: string, exp: int)
    requires |s| > 0 && 0 < exp + 1 < |s| && exp + 1 <= 21
    ensures var text, n := FormatBody(s, exp), exp + 1;
            |text| == |s| + 1 && text[n] == '.' && text[..n] + text[n + 1..] == s
  {
    var text, n := FormatBody(s, exp), exp + 1;
    assert text == s[..n] + ("." + s[n..]);
    assert text[..n] == s[..n] && text[n + 1..] == s[n..];
  }

  lemma FractionForm(s: string, exp: int)
    requires |s| > 0 && -6 < exp + 1 <= 0
    ensures var text, n := FormatBody(s, exp), exp + 1;
            && |text| == |s| + 2 - n && text[1] == '.' && text[2 - n..] == s
            && forall i :: 0 <= i < 2 - n && i != 1 ==> text[i] == '0'
  {
    var text, n := FormatBody(s, exp), exp + 1;
    assert text == "0" + ("." + (Zeros(-n) + s));
    assert text[2 - n..] == s;
  }

  /** The form in which a number is printed: with an exponent exactly if the point would stand more than 21
      digits to the right or more than 5 zeros in front, and then behind one digit, with a sign and without
      leading zeros; and otherwise as digits filled up with zeros in front of the point or behind it. */
  lemma PrintedForm(s: string, exp: int)
    requires |s| > 0 && AllDigits(s)
    ensures var text, n := FormatBody(s, exp), exp + 1;
            if n > 21 || n <= -6 then
              var i := if |s| == 1 then 1 else |s| + 1;
              && i + 2 < |text| && text[i] == 'e' && text[i + 1] == (if exp >= 0 then '+' else '-')
              && text[i + 2] != '0' && AllDigits(text[i + 2..])
              && text[..i] == if |s| == 1 then s else s[..1] + "." + s[1..]
            else if n >= |s| then AllDigits(text) && |text| == n && s <= text
            else if n > 0 then |text| == |s| + 1 && text[n] == '.' && text[..n] + text[n + 1..] == s
            else |text| == |s| + 2 - n && text[1] == '.' && text[2 - n..] == s
                 && forall i :: 0 <= i < 2 - n && i != 1 ==> text[i] == '0'
  {
    hide FormatBody;
    var n := exp + 1;
    if n > 21 || n <= -6 {
      ExponentForm(s, exp);
    } else if n >= |s| {
      PaddedForm(s, exp);
    } else if n > 0 {
      PointForm(s, exp);
    } else {
      FractionForm(s, exp);
    }
  }

  function FormatJsNumber(x: Double): string
    requires x.Valid()
  {
    match x
    case NotANumber => "NaN"
    case Zero(_) => "0"
    case Infinity(negative) => if negative then "-Infinity" else "Infinity"
    case Digits(negative, digits, exp) =>
      if negative then "-" + FormatBody(digits, exp) else FormatBody(digits, exp)
  }

  // ---------------------------------------------------------------------
  // Reading back what was printed
  // ---------------------------------------------------------------------

  lemma {:induction false} IntOfAppend(s: string, c: char)
    ensures IntOf(s + [c]) == 10 * IntOf(s) + DigitValue(c)
  {
    assert (s + [c])[..|s|] == s;
  }

  lemma {:induction false} LeadingZeros(k: nat, s: string)
    ensures IntOf(Zeros(k) + s) == IntOf(s)
    decreases k + |s|
  {
    if |s| > 0 {
      var front := s[..|s| - 1];
      LeadingZeros(k, front);
      assert Zeros(k) + s == (Zeros(k) + front) + [s[|s| - 1]];
      IntOfAppend(Zeros(k) + front, s[|s| - 1]);
    } else if k > 0 {
      assert Zeros(k) + s == (Zeros(k - 1) + s) + ['0'];
      IntOfAppend(Zeros(k - 1) + s, '0');
      LeadingZeros(k - 1, s);
    }
  }

  lemma {:induction false} DecimalReadsBack(n: nat)
    ensures |Decimal(n)| > 0 && AllDigits(Decimal(n)) && IntOf(Decimal(n)) == n
  {
    if n < 10 {
      IntOfAppend("", DigitChar(n));
      assert "" + [DigitChar(n)] == [DigitChar(n)];
    } else {
      DecimalReadsBack(n / 10);
      IntOfAppend(Decimal(n / 10), DigitChar(n % 10));
    }
  }

  /** The exponent that the exponential regime spells out. */
  ghost function LayoutExponent(e: int): Exponent {
    Exponent('e', if e >= 0 then Plus else Minus, Decimal(if e >= 0 then e else -e))
  }

  /** The literal that the four layout regimes spell out. */
  ghost function Layout(negative: bool, s: string, exp: int): Literal
    requires |s| > 0
  {
    var k := |s|;
    var n := exp + 1;
    var sign := if negative then Minus else Unsigned;
    if k <= n <= 21 then
      Literal(sign, Mantissa(s + Zeros(n - k), false, ""), NoExponent)
    else if 0 < n <= 21 then
      Literal(sign, Mantissa(s[..n], true, s[n..]), NoExponent)
    else if -6 < n <= 0 then
      Literal(sign, Mantissa("0", true, Zeros(-n) + s), NoExponent)
    else if k == 1 then
      Literal(sign, Mantissa(s, false, ""), LayoutExponent(n - 1))
    else
      Literal(sign, Mantissa(s[..1], true, s[1..]), LayoutExponent(n - 1))
  }

  lemma LayoutValid(negative: bool, s: string, exp: int)
    requires |s| > 0 && AllDigits(s)
    ensures Layout(negative, s, exp).Valid()
  {
    var n := exp + 1;
    if !(-6 < n <= 21) {
      DecimalReadsBack(if n - 1 >= 0 then n - 1 else 1 - n);
    }
  }

  lemma AppendNothing(s: string)
    ensures s + "" == s && "" + s == s
  {
  }

  lemma LayoutText(negative: bool, s: string, exp: int)
    requires |s| > 0
    ensures Layout(negative, s, exp).mantissa.Text() + Layout(negative, s, exp).exponent.Text() == FormatBody(s, exp)
  {
    var m := Layout(negative, s, exp).mantissa;
    AppendNothing(m.whole);
    AppendNothing(m.Text());
  }

  /** Writing k zeros behind the digits multiplies by ten to k. */
  lemma {:induction false} TrailingZeros(s: string, k: nat)
    ensures Scale(IntOf(s + Zeros(k)), 0) == Scale(IntOf(s), k)
    decreases k
  {
    if k == 0 {
      assert s + Zeros(0) == s;
    } else {
      assert s + Zeros(k) == (s + ['0']) + Zeros(k - 1);
      IntOfAppend(s, '0');
      TrailingZeros(s + ['0'], k - 1);
    }
  }

  lemma SplitDigits(s: string, n: nat)
    requires n <= |s|
    ensures s[..n] + s[n..] == s
  {
  }

  lemma ZeroInFront(k: nat, s: string)
    ensures IntOf("0" + (Zeros(k) + s)) == IntOf(s)
  {
    LeadingZeros(k + 1, s);
    assert "0" + (Zeros(k) + s) == Zeros(k + 1) + s;
  }

  /** Where the digits go changes nothing but the exponent. */
  lemma LayoutDigits(negative: bool, s: string, exp: int)
    requires |s| > 0
    ensures var m := Layout(negative, s, exp).mantissa;
            IntOf(m.whole + m.frac) ==
            if |s| <= exp + 1 <= 21 then IntOf(s + Zeros(exp + 1 - |s|)) else IntOf(s)
  {
    hide IntOf, Zeros;
    var n := exp + 1;
    var m := Layout(negative, s, exp).mantissa;
    AppendNothing(m.whole);
    if |s| <= n <= 21 {
    } else if 0 < n <= 21 {
      SplitDigits(s, n);
    } else if -6 < n <= 0 {
      ZeroInFront(-n, s);
    } else {
      SplitDigits(s, 1);
    }
  }

  lemma LayoutScale(negative: bool, s: string, exp: int)
    requires |s| > 0
    ensures var l := Layout(negative, s, exp);
            l.exponent.Value() - |l.mantissa.frac| == if |s| <= exp + 1 <= 21 then 0 else exp + 1 - |s|
  {
    var n := exp + 1;
    if !(-6 < n <= 21) {
      DecimalReadsBack(if n - 1 >= 0 then n - 1 else 1 - n);
    }
  }

  lemma LayoutValue(negative: bool, s: string, exp: int)
    requires |s| > 0
    ensures Layout(negative, s, exp).Value() == Signed(negative, Scale(IntOf(s), exp + 1 - |s|))
  {
    LayoutDigits(negative, s, exp);
    LayoutScale(negative, s, exp);
    if |s| <= exp + 1 <= 21 {
      TrailingZeros(s, exp + 1 - |s|);
    }
  }

  lemma LeadingCharacter(l: Literal)
    requires l.Valid() && !l.sign.Plus?
    ensures SkipWhitespace(l.Text()) == l.Text()
    ensures !("Infinity" <= l.Text()) && !("-Infinity" <= l.Text()) && !("+Infinity" <= l.Text())
  {
    MantissaStart(l.mantissa);
    var t := l.Text();
    assert t[|l.sign.Text()|] == l.mantissa.Text()[0];
    NotInfinity(t, |l.sign.Text()|);
  }

  lemma NotInfinity(t: string, i: nat)
    requires i < |t| && (IsDigit(t[i]) || t[i] == '.') && (i == 0 || (i == 1 && t[0] == '-'))
    ensures !("Infinity" <= t) && !("-Infinity" <= t) && !("+Infinity" <= t)
  {
    assert "Infinity"[0] == 'I';
    assert "-Infinity"[0] == '-' && "-Infinity"[1] == 'I';
    assert "+Infinity"[0] == '+';
  }

  lemma PrintParseFinite(l: Literal, text: string)
    requires l.Valid() && !l.sign.Plus? && text == l.Text()
    ensures ParseFloat(text) == Finite(l)
  {
    ScanText(l);
    LeadingCharacter(l);
  }

  lemma PrintParseOther()
    ensures ParseFloat("NaN") == NaN
    ensures ParseFloat("Infinity") == Infinite(false) && ParseFloat("-Infinity") == Infinite(true)
  {
    assert "NaN"[0] == 'N' && "Infinity"[0] == 'I' && "-Infinity"[0] == '-' && "+Infinity"[0] == '+';
  }

  lemma PrintParseZero()
    ensures ParseFloat("0").Finite? && ParseFloat("0").literal.Text() == "0" && ParseFloat("0").literal.Value() == 0.0
  {
    var l := Literal(Unsigned, Mantissa("0", false, ""), NoExponent);
    AppendNothing("0");
    PrintParseFinite(l, "0");
    assert IntOf("0") == 0;
  }

  lemma PrintParseDigits(negative: bool, s: string, exp: int)
    requires |s| > 0 && AllDigits(s)
    ensures var text := FormatJsNumber(Digits(negative, s, exp));
            ParseFloat(text) == Finite(Layout(negative, s, exp)) && Layout(negative, s, exp).Text() == text
  {
    LayoutValid(negative, s, exp);
    LayoutText(negative, s, exp);
    AppendNothing(FormatBody(s, exp));
    PrintParseFinite(Layout(negative, s, exp), FormatJsNumber(Digits(negative, s, exp)));
  }

  /** Printing then parsing: every finite double is consumed in full and denotes the same
      decimal value; the other doubles come back as themselves. A zero has no sign. */
  lemma PrintParse(x: Double)
    requires x.Valid()
    ensures x.NotANumber? ==> FormatJsNumber(x) == "NaN"
    ensures x.Zero? ==> FormatJsNumber(x) == "0"
    ensures x.NotANumber? ==> ParseFloat(FormatJsNumber(x)) == NaN
    ensures x.Infinity? ==> ParseFloat(FormatJsNumber(x)) == Infinite(x.negative)
    ensures x.Zero? || x.Digits? ==>
              && ParseFloat(FormatJsNumber(x)).Finite?
              && ParseFloat(FormatJsNumber(x)).literal.Text() == FormatJsNumber(x)
              && ParseFloat(FormatJsNumber(x)).literal.Value() == x.Value()
  {
    hide ParseFloat, Layout, FormatBody;
    match x
    case NotANumber => PrintParseOther();
    case Infinity(negative) => PrintParseOther();
    case Zero(_) => PrintParseZero();
    case Digits(negative, s, exp) =>
      PrintParseDigits(negative, s, exp);
      LayoutValue(negative, s, exp);
  }
}
