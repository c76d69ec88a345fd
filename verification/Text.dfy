/** Trimming, splitting and joining of text. */
module Text {

  /** The characters with the Unicode property White_Space. */
  predicate IsWhitespace(c: char) {
    var u := c as int;
    || 0x09 <= u <= 0x0D || u == 0x20 || u == 0x85 || u == 0xA0 || u == 0x1680
    || 0x2000 <= u <= 0x200A || u == 0x2028 || u == 0x2029 || u == 0x202F || u == 0x205F || u == 0x3000
  }

  function TrimStart(s: string): string {
    if |s| > 0 && IsWhitespace(s[0]) then TrimStart(s[1..]) else s
  }

  function TrimEnd(s: string): string {
    if |s| > 0 && IsWhitespace(s[|s| - 1]) then TrimEnd(s[..|s| - 1]) else s
  }

  function Trim(s: string): string {
    TrimEnd(TrimStart(s))
  }

  /** No whitespace at either end. */
  predicate Trimmed(s: string) {
    |s| > 0 ==> !IsWhitespace(s[0]) && !IsWhitespace(s[|s| - 1])
  }

  predicate AllWhitespace(s: string) {
    forall i :: 0 <= i < |s| ==> IsWhitespace(s[i])
  }

  lemma {:induction false} TrimStartSpec(s: string)
    ensures |TrimStart(s)| > 0 ==> !IsWhitespace(TrimStart(s)[0])
    ensures |TrimStart(s)| <= |s| && TrimStart(s) == s[|s| - |TrimStart(s)|..]
  {
    if |s| > 0 && IsWhitespace(s[0]) {
      TrimStartSpec(s[1..]);
    }
  }

  lemma {:induction false} TrimEndSpec(s: string)
    ensures |TrimEnd(s)| > 0 ==> !IsWhitespace(TrimEnd(s)[|TrimEnd(s)| - 1])
    ensures TrimEnd(s) <= s
  {
    if |s| > 0 && IsWhitespace(s[|s| - 1]) {
      TrimEndSpec(s[..|s| - 1]);
    }
  }

  /** Trimming yields a stretch of the text that begins and ends in no whitespace. */
  lemma TrimSpec(s: string) returns (from: nat)
    ensures Trimmed(Trim(s))
    ensures from + |Trim(s)| <= |s| && Trim(s) == s[from..from + |Trim(s)|]
  {
    TrimStartSpec(s);
    TrimEndSpec(TrimStart(s));
    from := |s| - |TrimStart(s)|;
  }

  /** Where trimming leaves nothing there was nothing but whitespace. */
  lemma TrimmedAway(s: string)
    requires Trim(s) == ""
    ensures AllWhitespace(s)
  {
    OutsideTrimStart(s);
    OutsideTrimEnd(TrimStart(s));
    TrimStartSpec(s);
  }

  lemma {:induction false} OutsideTrimStart(s: string)
    ensures |TrimStart(s)| <= |s|
    ensures forall i :: 0 <= i < |s| - |TrimStart(s)| ==> IsWhitespace(s[i])
  {
    if |s| > 0 && IsWhitespace(s[0]) {
      OutsideTrimStart(s[1..]);
      assert forall i :: 1 <= i < |s| ==> s[i] == s[1..][i - 1];
    }
  }

  lemma {:induction false} OutsideTrimEnd(s: string)
    ensures |TrimEnd(s)| <= |s|
    ensures forall i :: |TrimEnd(s)| <= i < |s| ==> IsWhitespace(s[i])
  {
    if |s| > 0 && IsWhitespace(s[|s| - 1]) {
      OutsideTrimEnd(s[..|s| - 1]);
    }
  }

  lemma PaddingInFront(s: string) returns (padding: string)
    ensures AllWhitespace(padding) && s == padding + TrimStart(s)
  {
    OutsideTrimStart(s);
    TrimStartSpec(s);
    padding := s[..|s| - |TrimStart(s)|];
  }

  lemma PaddingAround(s: string) returns (before: string, after: string)
    ensures AllWhitespace(before) && AllWhitespace(after) && s == before + Trim(s) + after
  {
    before := PaddingInFront(s);
    var t := TrimStart(s);
    OutsideTrimEnd(t);
    TrimEndSpec(t);
    after := t[|Trim(s)|..];
    assert t == Trim(s) + after;
  }

  lemma TrimOfTrimmed(s: string)
    requires Trimmed(s)
    ensures Trim(s) == s
  {
  }

  lemma {:induction false} TrimStartPadded(a: string, s: string)
    requires AllWhitespace(a)
    ensures TrimStart(a + s) == TrimStart(s)
  {
    if |a| == 0 {
      assert a + s == s;
    } else {
      assert (a + s)[1..] == a[1..] + s;
      TrimStartPadded(a[1..], s);
    }
  }

  /** Trimming takes the padding off and nothing else. */
  lemma TrimStartOver(a: string, s: string)
    requires AllWhitespace(a) && |s| > 0 && !IsWhitespace(s[0])
    ensures TrimStart(a + s) == s
  {
    TrimStartPadded(a, s);
  }

  lemma {:induction false} TrimEndPadded(s: string, b: string)
    requires AllWhitespace(b)
    ensures TrimEnd(s + b) == TrimEnd(s)
  {
    if |b| == 0 {
      assert s + b == s;
    } else {
      assert (s + b)[..|s + b| - 1] == s + b[..|b| - 1];
      TrimEndPadded(s, b[..|b| - 1]);
    }
  }

  /** Padding a trimmed text with whitespace and trimming it again gives it back. */
  lemma TrimPadded(a: string, s: string, b: string)
    requires AllWhitespace(a) && AllWhitespace(b) && Trimmed(s)
    ensures Trim(a + s + b) == s
  {
    assert a + s + b == a + (s + b);
    TrimStartPadded(a, s + b);
    if |s| > 0 {
      assert (s + b)[0] == s[0];
      TrimEndPadded(s, b);
    } else {
      assert s + b == b + "";
      TrimStartPadded(b, "");
    }
  }

  // ---------------------------------------------------------------------
  // Splitting and joining
  // ---------------------------------------------------------------------

  /** The pieces of `s` between the leftmost non-overlapping occurrences of `sep`. */
  function Split(s: string, sep: string): (r: seq<string>)
    requires |sep| > 0
    ensures |r| > 0
  {
    if |s| == 0 then [""]
    else if sep <= s then [""] + Split(s[|sep|..], sep)
    else
      var r := Split(s[1..], sep);
      [[s[0]] + r[0]] + r[1..]
  }

  function Join(pieces: seq<string>, sep: string): string {
    if |pieces| == 0 then ""
    else if |pieces| == 1 then pieces[0]
    else pieces[0] + (sep + Join(pieces[1..], sep))
  }

  predicate OccursAt(sep: string, s: string, i: int) {
    0 <= i <= |s| && sep <= s[i..]
  }

  predicate Free(s: string, sep: string) {
    forall i :: 0 <= i < |s| ==> !OccursAt(sep, s, i)
  }

  /** The first piece reaches up to the first separator, or to the end if there is none. */
  lemma {:induction false} FirstPiece(s: string, sep: string)
    requires |sep| > 0
    ensures var p := Split(s, sep)[0];
            && p <= s && (p == s || sep <= s[|p|..])
            && forall i :: 0 <= i < |p| ==> !OccursAt(sep, s, i)
  {
    if |s| > 0 {
      assert s[0..] == s;
      if !(sep <= s) {
        FirstPiece(s[1..], sep);
        var q := Split(s[1..], sep)[0];
        var p := Split(s, sep)[0];
        assert p == [s[0]] + q && s[|p|..] == s[1..][|q|..];
        forall i | 0 <= i < |p|
          ensures !OccursAt(sep, s, i)
        {
          if i > 0 {
            assert !OccursAt(sep, s[1..], i - 1);
            assert s[1..][i - 1..] == s[i..];
          }
        }
      }
    }
  }

  lemma {:induction false} SplitFree(s: string, sep: string)
    requires |sep| > 0 && Free(s, sep)
    ensures Split(s, sep) == [s]
  {
    if |s| > 0 {
      assert s[0..] == s;
      assert !OccursAt(sep, s, 0);
      FreeTail(s, sep);
      SplitFree(s[1..], sep);
      assert [s[0]] + s[1..] == s;
    }
  }

  lemma FreeTail(s: string, sep: string)
    requires |s| > 0 && Free(s, sep)
    ensures Free(s[1..], sep)
  {
    forall i | 0 <= i < |s[1..]|
      ensures !OccursAt(sep, s[1..], i)
    {
      assert s[1..][i..] == s[i + 1..];
      assert !OccursAt(sep, s, i + 1);
    }
  }

  /** A piece is cut off where the separator first occurs behind it. */
  lemma {:induction false} SplitAt(piece: string, sep: string, rest: string)
    requires |sep| > 0
    requires forall i :: 0 <= i < |piece| ==> !OccursAt(sep, piece + (sep + rest), i)
    ensures Split(piece + (sep + rest), sep) == [piece] + Split(rest, sep)
  {
    var s := piece + (sep + rest);
    if |piece| == 0 {
      assert s == sep + rest;
      assert s[|sep|..] == rest;
    } else {
      assert s[0..] == s;
      assert !OccursAt(sep, s, 0);
      assert s[1..] == piece[1..] + (sep + rest);
      forall i | 0 <= i < |piece[1..]|
        ensures !OccursAt(sep, piece[1..] + (sep + rest), i)
      {
        assert s[1..][i..] == s[i + 1..];
        assert !OccursAt(sep, s, i + 1);
      }
      SplitAt(piece[1..], sep, rest);
      assert [piece[0]] + piece[1..] == piece;
    }
  }

  // ---------------------------------------------------------------------
  // Identifiers
  // ---------------------------------------------------------------------

  predicate IsIdentStart(c: char) {
    'a' <= c <= 'z' || 'A' <= c <= 'Z' || c == '_'
  }

  predicate IsIdentChar(c: char, hyphen: bool) {
    IsIdentStart(c) || '0' <= c <= '9' || (hyphen && c == '-')
  }

  /** How far identifier characters reach. */
  function IdentRun(s: string, hyphen: bool): (n: nat)
    ensures n <= |s|
  {
    if |s| > 0 && IsIdentChar(s[0], hyphen) then 1 + IdentRun(s[1..], hyphen) else 0
  }

  function IdentLength(s: string, hyphen: bool): (n: nat)
    ensures n <= |s|
  {
    if |s| > 0 && IsIdentStart(s[0]) then IdentRun(s, hyphen) else 0
  }

  predicate IsIdent(s: string, hyphen: bool) {
    |s| > 0 && IsIdentStart(s[0]) && forall i :: 0 <= i < |s| ==> IsIdentChar(s[i], hyphen)
  }

  /** Identifiers: letters, digits and underscores, and hyphens where they are allowed, but neither a digit nor
      a hyphen in front. */
  lemma IdentifiersAre(s: string, hyphen: bool)
    ensures IsIdent(s, hyphen) <==>
              |s| > 0 && forall i :: 0 <= i < |s| ==>
                || 'a' <= s[i] <= 'z' || 'A' <= s[i] <= 'Z' || s[i] == '_'
                || (i > 0 && ('0' <= s[i] <= '9' || (hyphen && s[i] == '-')))
  {
    if |s| > 0 && (forall i :: 0 <= i < |s| ==> IsIdentChar(s[i], hyphen)) {
      assert IsIdentChar(s[0], hyphen);
    }
  }

  lemma {:induction false} IdentRunOver(s: string, hyphen: bool, rest: string)
    requires forall i :: 0 <= i < |s| ==> IsIdentChar(s[i], hyphen)
    requires |rest| > 0 ==> !IsIdentChar(rest[0], hyphen)
    ensures IdentRun(s + rest, hyphen) == |s|
  {
    if |s| == 0 {
      assert s + rest == rest;
    } else {
      assert (s + rest)[1..] == s[1..] + rest;
      IdentRunOver(s[1..], hyphen, rest);
    }
  }

  lemma {:induction false} RunIsIdent(s: string, hyphen: bool)
    ensures forall i :: 0 <= i < IdentRun(s, hyphen) ==> IsIdentChar(s[i], hyphen)
  {
    if |s| > 0 && IsIdentChar(s[0], hyphen) {
      RunIsIdent(s[1..], hyphen);
      assert forall i :: 1 <= i < |s| ==> s[i] == s[1..][i - 1];
    }
  }

  lemma LengthIsIdent(s: string, hyphen: bool)
    requires IdentLength(s, hyphen) > 0
    ensures IsIdent(s[..IdentLength(s, hyphen)], hyphen)
  {
    RunIsIdent(s, hyphen);
  }

  lemma IdentOver(s: string, hyphen: bool, rest: string)
    requires IsIdent(s, hyphen) && (|rest| > 0 ==> !IsIdentChar(rest[0], hyphen))
    ensures IdentLength(s + rest, hyphen) == |s| && (s + rest)[..|s|] == s && (s + rest)[|s|..] == rest
  {
    IdentRunOver(s, hyphen, rest);
  }
}
