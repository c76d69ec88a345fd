/** Context variables in prompts: a dollar sign, one of a few names, and a word boundary that is
    looked at but not consumed. */
module ContextVariables {
  predicate IsWord(c: char) {
    'a' <= c <= 'z' || 'A' <= c <= 'Z' || '0' <= c <= '9' || c == '_'
  }

  const CONTEXT_BODIES := ["CONTEXT", "EXTERNAL_CONTEXT", "ISSUE_CONTEXT"]

  /** The length of the first listed text that `s` starts with, or 0. */
  function BodyAt(s: string, bodies: seq<string>): (n: nat)
    ensures n <= |s|
  {
    if |bodies| == 0 then 0 else if bodies[0] <= s then |bodies[0]| else BodyAt(s, bodies[1..])
  }

  /** The length of the context variable's name that the text starts with, or 0. */
  function NameAt(s: string, names: seq<string>): (n: nat)
    ensures n <= |s|
  {
    if |s| == 0 || s[0] != '$' then 0
    else
      var n := BodyAt(s[1..], names);
      if n == 0 then 0 else n + 1
  }

  predicate AtBoundary(s: string) {
    |s| == 0 || !IsWord(s[0])
  }

  /** A context variable starts here and is not the start of a longer word. */
  predicate VariableAt(s: string, names: seq<string>) {
    NameAt(s, names) > 0 && AtBoundary(s[NameAt(s, names)..])
  }

  function Clear(s: string, value: string, names: seq<string>): string {
    if |s| == 0 then ""
    else
      var n := NameAt(s, names);
      if n == 0 then [s[0]] + Clear(s[1..], value, names)
      else (if AtBoundary(s[n..]) then value else s[..n]) + Clear(s[n..], value, names)
  }

  /** Whether the scan accepts some match. */
  predicate Matches(s: string, names: seq<string>) {
    |s| > 0 &&
    var n := NameAt(s, names);
    if n == 0 then Matches(s[1..], names) else AtBoundary(s[n..]) || Matches(s[n..], names)
  }

  predicate HasVariable(s: string, names: seq<string>) {
    exists i :: 0 <= i <= |s| && VariableAt(s[i..], names)
  }

  /** The next place where a name starts. */
  method FindName(s: string, from: nat, names: seq<string>) returns (start: nat)
    requires from <= |s|
    ensures from <= start <= |s| && (start == |s| || NameAt(s[start..], names) > 0)
    ensures forall j :: from <= j < start ==> NameAt(s[j..], names) == 0
  {
    start := from;
    while start < |s| && NameAt(s[start..], names) == 0
      invariant from <= start <= |s|
      invariant forall j :: from <= j < start ==> NameAt(s[j..], names) == 0
    {
      start := start + 1;
    }
  }

  lemma {:induction false} SkipPlain(s: string, from: nat, start: nat, value: string, names: seq<string>)
    requires from <= start <= |s|
    requires forall j :: from <= j < start ==> NameAt(s[j..], names) == 0
    ensures Clear(s[from..], value, names) == s[from..start] + Clear(s[start..], value, names)
    ensures Matches(s[from..], names) == Matches(s[start..], names)
    decreases start - from
  {
    if from == start {
      assert s[from..start] + Clear(s[start..], value, names) == Clear(s[start..], value, names);
    } else {
      SkipPlain(s, from + 1, start, value, names);
      NameStretch(s, from, 1);
      Regroup([s[from]], s[from + 1..start], Clear(s[start..], value, names));
      assert [s[from]] + s[from + 1..start] == s[from..start];
    }
  }

  lemma ClearName(t: string, head: string, rest: string, value: string, names: seq<string>)
    requires NameAt(t, names) > 0
    requires head == t[..NameAt(t, names)] && rest == t[NameAt(t, names)..]
    ensures Clear(t, value, names) == (if AtBoundary(rest) then value else head) + Clear(rest, value, names)
    ensures Matches(t, names) == (AtBoundary(rest) || Matches(rest, names))
  {
  }

  lemma BoundaryAt(s: string, end: nat)
    requires end <= |s|
    ensures AtBoundary(s[end..]) <==> !(end < |s| && IsWord(s[end]))
  {
  }

  /** One step of the scan, at a name behind `start` characters of the text. */
  lemma NameStep(s: string, start: nat, end: nat, value: string, names: seq<string>)
    requires start <= |s| && NameAt(s[start..], names) > 0 && end == start + NameAt(s[start..], names)
    ensures end <= |s|
    ensures Clear(s[start..], value, names) ==
            (if AtBoundary(s[end..]) then value else s[start..end]) + Clear(s[end..], value, names)
    ensures Matches(s[start..], names) == (AtBoundary(s[end..]) || Matches(s[end..], names))
  {
    NameStretch(s, start, NameAt(s[start..], names));
    ClearName(s[start..], s[start..end], s[end..], value, names);
  }

  lemma Regroup(a: string, b: string, c: string)
    ensures a + (b + c) == (a + b) + c
  {
  }

  /** The scan has come to `pos`; the text from `last` on has not been copied yet. */
  ghost predicate Scanned(s: string, out: string, matched: bool, last: nat, pos: nat, value: string,
                          names: seq<string>)
  {
    && last <= pos <= |s|
    && out + s[last..pos] + Clear(s[pos..], value, names) == Clear(s, value, names)
    && Matches(s, names) == (matched || Matches(s[pos..], names))
  }

  lemma ScanStarts(s: string, value: string, names: seq<string>)
    ensures Scanned(s, "", false, 0, 0, value, names)
  {
    assert s[0..] == s;
    assert "" + s[0..0] + Clear(s, value, names) == Clear(s, value, names);
  }

  lemma ScanSkips(s: string, out: string, matched: bool, last: nat, pos: nat, start: nat, value: string,
                  names: seq<string>)
    requires Scanned(s, out, matched, last, pos, value, names)
    requires pos <= start <= |s|
    requires Clear(s[pos..], value, names) == s[pos..start] + Clear(s[start..], value, names)
    requires Matches(s[pos..], names) == Matches(s[start..], names)
    ensures Scanned(s, out, matched, last, start, value, names)
  {
    Regroup(out + s[last..pos], s[pos..start], Clear(s[start..], value, names));
    Skipped(out, s, last, pos, start);
  }

  lemma ScanReplaces(s: string, out: string, matched: bool, last: nat, start: nat, end: nat, value: string,
                     names: seq<string>)
    requires Scanned(s, out, matched, last, start, value, names)
    requires start <= end <= |s|
    requires Clear(s[start..], value, names) == value + Clear(s[end..], value, names)
    requires Matches(s[start..], names)
    ensures Scanned(s, out + s[last..start] + value, true, end, end, value, names)
  {
    var now := out + s[last..start];
    Regroup(now, value, Clear(s[end..], value, names));
    assert now + value + s[end..end] == now + value;
  }

  lemma ScanEnds(s: string, out: string, matched: bool, last: nat, value: string, names: seq<string>)
    requires Scanned(s, out, matched, last, |s|, value, names)
    ensures out + s[last..] == Clear(s, value, names) && matched == Matches(s, names)
  {
    assert s[|s|..] == "" && s[last..|s|] == s[last..];
    assert out + s[last..] + "" == out + s[last..];
  }

  method SubstituteContextVars(input: string, replacement: string, names: seq<string>)
    returns (out: string, matchedAny: bool)
    ensures out == Clear(input, replacement, names) && matchedAny == Matches(input, names)
  {
    out, matchedAny := "", false;
    var last, pos := 0, 0;
    ScanStarts(input, replacement, names);
    while true
      invariant 0 <= last <= pos <= |input|
      invariant Scanned(input, out, matchedAny, last, pos, replacement, names)
      decreases |input| - pos
    {
      var start := FindName(input, pos, names);
      SkipPlain(input, pos, start, replacement, names);
      ScanSkips(input, out, matchedAny, last, pos, start, replacement, names);
      if start == |input| {
        break;
      }
      var end := start + NameAt(input[start..], names);
      NameStep(input, start, end, replacement, names);
      BoundaryAt(input, end);
      if end < |input| && IsWord(input[end]) {
        ScanSkips(input, out, matchedAny, last, start, end, replacement, names);
      } else {
        ScanReplaces(input, out, matchedAny, last, start, end, replacement, names);
        out := out + input[last..start] + replacement;
        last := end;
        matchedAny := true;
      }
      pos := end;
    }
    ScanEnds(input, out, matchedAny, last, replacement, names);
    out := out + input[last..];
  }

  lemma Skipped(out: string, input: string, last: nat, pos: nat, start: nat)
    requires last <= pos <= start <= |input|
    ensures out + input[last..pos] + input[pos..start] == out + input[last..start]
  {
  }

  lemma NameStretch(s: string, start: nat, n: nat)
    requires start + n <= |s|
    ensures s[start..][n..] == s[start + n..] && s[start..][..n] == s[start..start + n]
  {
  }

  /** The scan misses no variable: matches cannot overlap. */
  lemma {:induction false} MatchesIffVariable(s: string, names: seq<string>)
    requires WellNamed(names)
    ensures Matches(s, names) <==> HasVariable(s, names)
  {
    if |s| == 0 {
      assert forall i :: 0 <= i <= |s| ==> s[i..] == "";
    } else {
      var n := NameAt(s, names);
      assert s[0..] == s;
      if n == 0 {
        MatchesIffVariable(s[1..], names);
        HasVariableFrom(s, 1, names);
      } else {
        MatchesIffVariable(s[n..], names);
        InsideName(s, names);
        HasVariableFrom(s, n, names);
      }
    }
  }

  ghost predicate Words(w: string) {
    forall i :: 0 <= i < |w| ==> IsWord(w[i])
  }

  /** No listed text is a prefix of a different one. */
  ghost predicate PrefixFree(bodies: seq<string>) {
    forall b, c :: b in bodies && c in bodies && b <= c ==> b == c
  }

  /** What the scan needs of the names behind the dollar sign. */
  ghost predicate WellNamed(names: seq<string>) {
    PrefixFree(names) && forall b :: b in names ==> |b| > 0 && Words(b)
  }

  lemma ContextBodies()
    ensures WellNamed(CONTEXT_BODIES)
  {
    forall b | b in CONTEXT_BODIES
      ensures |b| > 0 && Words(b)
      ensures b == "CONTEXT" || b == "EXTERNAL_CONTEXT" || b == "ISSUE_CONTEXT"
    {
    }
    assert "CONTEXT"[0] == 'C' && "EXTERNAL_CONTEXT"[0] == 'E' && "ISSUE_CONTEXT"[0] == 'I';
  }

  lemma {:induction false} BodyIsListed(s: string, bodies: seq<string>)
    requires BodyAt(s, bodies) > 0
    ensures s[..BodyAt(s, bodies)] in bodies
  {
    if bodies[0] <= s {
      assert s[..|bodies[0]|] == bodies[0];
    } else {
      BodyIsListed(s, bodies[1..]);
    }
  }

  lemma {:induction false} NoBody(s: string, bodies: seq<string>)
    requires forall b :: b in bodies ==> |b| > 0
    ensures BodyAt(s, bodies) == 0 <==> forall b :: b in bodies ==> !(b <= s)
  {
    if |bodies| > 0 {
      assert forall b :: b in bodies <==> b == bodies[0] || b in bodies[1..];
      assert bodies[0] in bodies && |bodies[0]| > 0;
      NoBody(s, bodies[1..]);
    }
  }

  /** The body found at the start of a text is found at the start of every text that shares it. */
  lemma {:induction false} SameBody(s: string, t: string, bodies: seq<string>, w: string)
    requires PrefixFree(bodies) && w in bodies && w <= s && w <= t
    ensures BodyAt(s, bodies) == |w| && BodyAt(t, bodies) == |w|
  {
    var b := bodies[0];
    assert b in bodies;
    if b <= s {
      SharedPrefix(b, w, s);
    }
    if b <= t {
      SharedPrefix(b, w, t);
    }
    if b != w {
      assert forall c :: c in bodies[1..] ==> c in bodies;
      SameBody(s, t, bodies[1..], w);
    }
  }

  lemma SharedPrefix(b: string, w: string, s: string)
    requires b <= s && w <= s
    ensures b <= w || w <= b
  {
  }

  /** Inside a name there is no further dollar sign. */
  lemma InsideName(s: string, names: seq<string>)
    requires WellNamed(names)
    requires NameAt(s, names) > 0
    ensures forall i :: 1 <= i < NameAt(s, names) ==> IsWord(s[i])
  {
    var w := s[1..][..NameAt(s, names) - 1];
    BodyIsListed(s[1..], names);
    assert forall i :: 1 <= i < NameAt(s, names) ==> s[i] == w[i - 1];
  }

  lemma HasVariableFrom(s: string, n: nat, names: seq<string>)
    requires 0 < n <= |s|
    requires forall i :: 1 <= i < n ==> s[i] != '$'
    ensures HasVariable(s, names) <==> VariableAt(s, names) || HasVariable(s[n..], names)
  {
    assert s[0..] == s;
    if i :| 0 <= i <= |s[n..]| && VariableAt(s[n..][i..], names) {
      assert s[n..][i..] == s[n + i..];
    }
    if i :| 0 <= i <= |s| && VariableAt(s[i..], names) {
      assert i > 0 ==> s[i..][0] == s[i];
      if i >= n {
        assert s[n..][i - n..] == s[i..];
      }
    }
  }

  // ---------------------------------------------------------------------
  // What is replaced
  // ---------------------------------------------------------------------

  /** A prompt, cut into context variables and the characters that belong to none. */
  datatype Stretch = Plain(c: char) | Context(name: string)

  function Written(parts: seq<Stretch>): string {
    if |parts| == 0 then ""
    else (if parts[0].Plain? then [parts[0].c] else parts[0].name) + Written(parts[1..])
  }

  function Replaced(parts: seq<Stretch>, value: string): string {
    if |parts| == 0 then ""
    else (if parts[0].Plain? then [parts[0].c] else value) + Replaced(parts[1..], value)
  }

  /** A dollar sign, a listed name, and no letter, digit or underscore behind them. */
  ghost predicate StartsWith(s: string, name: string, names: seq<string>) {
    && name <= s && |name| > 0 && name[0] == '$' && name[1..] in names
    && (|s| > |name| ==>
          var c := s[|name|];
          c != '_' && !('a' <= c <= 'z') && !('A' <= c <= 'Z') && !('0' <= c <= '9'))
  }

  /** Where a context variable is cut out one starts, and where a plain character stands none does. */
  ghost predicate WellCut(parts: seq<Stretch>, names: seq<string>) {
    |parts| > 0 ==>
      && WellCut(parts[1..], names)
      && if parts[0].Context? then StartsWith(Written(parts), parts[0].name, names)
         else forall name :: !StartsWith(Written(parts), name, names)
  }

  lemma NoneStarts(s: string, names: seq<string>)
    requires WellNamed(names)
    requires NameAt(s, names) == 0 || !AtBoundary(s[NameAt(s, names)..])
    ensures forall name :: !StartsWith(s, name, names)
  {
    forall name
      ensures !StartsWith(s, name, names)
    {
      if StartsWith(s, name, names) {
        var body := name[1..];
        assert name == ['$'] + body && body <= s[1..];
        SameBody(s[1..], s[1..], names, body);
      }
    }
  }

  lemma OneStarts(s: string, names: seq<string>)
    requires NameAt(s, names) > 0 && AtBoundary(s[NameAt(s, names)..])
    ensures StartsWith(s, s[..NameAt(s, names)], names)
  {
    var n := NameAt(s, names);
    BodyIsListed(s[1..], names);
    assert s[..n][1..] == s[1..][..n - 1];
    assert |s| > n ==> s[n..][0] == s[n];
  }

  /** A variable stands where a name starts that no letter, digit or underscore carries on. */
  lemma VariableIsName(s: string, names: seq<string>)
    requires WellNamed(names)
    ensures VariableAt(s, names) <==> exists name :: StartsWith(s, name, names)
  {
    if VariableAt(s, names) {
      OneStarts(s, names);
    } else {
      NoneStarts(s, names);
    }
  }

  /** A name that runs on into a longer word stays. */
  lemma RejectedIsKept(s: string, value: string, names: seq<string>)
    requires WellNamed(names)
    requires NameAt(s, names) > 0 && !AtBoundary(s[NameAt(s, names)..])
    ensures Clear(s, value, names) == [s[0]] + Clear(s[1..], value, names)
  {
    var n := NameAt(s, names);
    InsideName(s, names);
    forall j | 1 <= j < n
      ensures NameAt(s[j..], names) == 0
    {
      assert s[j..][0] == s[j];
    }
    SkipPlain(s, 1, n, value, names);
    assert s[..n] == [s[0]] + s[1..n];
    Regroup([s[0]], s[1..n], Clear(s[n..], value, names));
  }

  /** The stretch that a text starts with. */
  function First(s: string, names: seq<string>): Stretch
    requires |s| > 0
  {
    if VariableAt(s, names) then Context(s[..NameAt(s, names)]) else Plain(s[0])
  }

  lemma ClearFirst(s: string, value: string, names: seq<string>)
    requires WellNamed(names) && |s| > 0
    ensures var first := First(s, names);
            var text := if first.Plain? then [first.c] else first.name;
            && |text| > 0 && text <= s
            && Clear(s, value, names) ==
               (if first.Plain? then [first.c] else value) + Clear(s[|text|..], value, names)
  {
    var n := NameAt(s, names);
    if n > 0 && !AtBoundary(s[n..]) {
      RejectedIsKept(s, value, names);
    }
  }

  lemma FirstIsCut(s: string, names: seq<string>)
    requires WellNamed(names) && |s| > 0
    ensures var first := First(s, names);
            if first.Context? then StartsWith(s, first.name, names)
            else forall name :: !StartsWith(s, name, names)
  {
    if VariableAt(s, names) {
      OneStarts(s, names);
    } else {
      NoneStarts(s, names);
    }
  }

  /** What is put in place of the context variables goes there and nowhere else, whatever the value is. */
  lemma {:induction false} ExactlyVariablesAreReplaced(s: string, value: string, names: seq<string>)
    returns (parts: seq<Stretch>)
    requires WellNamed(names)
    ensures WellCut(parts, names) && Written(parts) == s && Replaced(parts, value) == Clear(s, value, names)
  {
    if |s| == 0 {
      parts := [];
    } else {
      var first := First(s, names);
      var text := if first.Plain? then [first.c] else first.name;
      ClearFirst(s, value, names);
      FirstIsCut(s, names);
      hide Clear, First, StartsWith, WellNamed;
      var rest := ExactlyVariablesAreReplaced(s[|text|..], value, names);
      parts := [first] + rest;
      assert parts[1..] == rest;
      assert Written(parts) == text + s[|text|..] == s;
    }
  }

  /** Where the text starts with a dollar sign, the cleared text does not start with a word. */
  lemma {:induction false} ClearedStart(s: string, names: seq<string>)
    requires |s| > 0 && !IsWord(s[0])
    ensures AtBoundary(Clear(s, "", names))
  {
    var n := NameAt(s, names);
    if n > 0 && AtBoundary(s[n..]) {
      assert "" + Clear(s[n..], "", names) == Clear(s[n..], "", names);
      if |s[n..]| > 0 {
        ClearedStart(s[n..], names);
      }
    }
  }

  /** A word that the cleared text starts with was there before. */
  lemma {:induction false} ClearedWord(s: string, w: string, names: seq<string>)
    requires w <= Clear(s, "", names) && forall i :: 0 <= i < |w| ==> IsWord(w[i])
    ensures w <= s
  {
    if |w| > 0 && |s| > 0 {
      assert Clear(s, "", names)[0] == w[0];
      if !IsWord(s[0]) {
        ClearedStart(s, names);
      } else {
        assert NameAt(s, names) == 0;
        assert Clear(s, "", names)[1..] == Clear(s[1..], "", names);
        assert w[1..] <= Clear(s[1..], "", names);
        ClearedWord(s[1..], w[1..], names);
      }
    }
  }

  /** Clearing turns no dollar sign into the start of a variable. */
  lemma NoNewName(s: string, names: seq<string>)
    requires WellNamed(names)
    requires |s| > 0 && s[0] == '$' && NameAt(s, names) == 0
    ensures NameAt(['$'] + Clear(s[1..], "", names), names) == 0
  {
    var t := Clear(s[1..], "", names);
    assert (['$'] + t)[1..] == t;
    NoBody(s[1..], names);
    NoBody(t, names);
    forall b | b in names
      ensures !(b <= t)
    {
      if b <= t {
        ClearedWord(s[1..], b, names);
      }
    }
  }

  lemma SameName(s: string, t: string, n: nat, names: seq<string>)
    requires WellNamed(names)
    requires n == NameAt(s, names) > 0 && n <= |t| && s[..n] == t[..n]
    ensures NameAt(t, names) == n
  {
    var w := s[1..][..n - 1];
    BodyIsListed(s[1..], names);
    assert w == s[..n][1..] == t[1..][..n - 1];
    assert t[0] == t[..n][0] == s[..n][0];
    SameBody(s[1..], t[1..], names, w);
  }

  /** After the context variables have been cleared, none is left: a second pass finds nothing,
      adjacent variables and the zero-width boundary notwithstanding. */
  lemma {:induction false} ClearLeavesNone(s: string, names: seq<string>)
    requires WellNamed(names)
    ensures !HasVariable(Clear(s, "", names), names)
  {
    if |s| == 0 {
      MatchesIffVariable("", names);
    } else {
      var n := NameAt(s, names);
      if n == 0 {
        var t := Clear(s[1..], "", names);
        ClearLeavesNone(s[1..], names);
        assert ([s[0]] + t)[1..] == t;
        if s[0] == '$' {
          NoNewName(s, names);
        }
        HasVariableFrom([s[0]] + t, 1, names);
      } else if AtBoundary(s[n..]) {
        ClearLeavesNone(s[n..], names);
        assert "" + Clear(s[n..], "", names) == Clear(s[n..], "", names);
      } else {
        ClearLeavesNone(s[n..], names);
        RejectedStays(s, names);
      }
    }
  }

  lemma RejectedStays(s: string, names: seq<string>)
    requires WellNamed(names)
    requires NameAt(s, names) > 0 && !AtBoundary(s[NameAt(s, names)..])
    requires !HasVariable(Clear(s[NameAt(s, names)..], "", names), names)
    ensures !HasVariable(Clear(s, "", names), names)
  {
    var n := NameAt(s, names);
    var t := Clear(s[n..], "", names);
    var u := s[..n] + t;
    assert t[0] == s[n..][0] by {
      assert NameAt(s[n..], names) == 0;
    }
    assert u[n..] == t;
    assert u[..n] == s[..n];
    SameName(s, u, n, names);
    InsideName(s, names);
    assert forall i :: 1 <= i < n ==> u[i] == s[i];
    HasVariableFrom(u, n, names);
  }
}
