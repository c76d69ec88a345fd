/** The `when:` language: atoms such as `$node.output == 'X'`, joined by && and || (the former
    binds tighter), without parentheses, with separators inside single quotes left alone. */
module Condition {
  import opened Schema
  import opened Text
  import opened OutputRef
  import Numbers

  // ---------------------------------------------------------------------
  // Splitting outside quotes
  // ---------------------------------------------------------------------

  function Prepend(front: string, pieces: seq<string>): seq<string>
    requires |pieces| > 0
  {
    [front + pieces[0]] + pieces[1..]
  }

  /** The pieces of `s` between separators that stand outside quotes, as they are. */
  function Pieces(s: string, sep: string, inQuote: bool): (r: seq<string>)
    requires |sep| > 0
    ensures |r| > 0
  {
    if |s| == 0 then [""]
    else if s[0] == '\'' then Prepend([s[0]], Pieces(s[1..], sep, !inQuote))
    else if !inQuote && sep <= s then [""] + Pieces(s[|sep|..], sep, inQuote)
    else Prepend([s[0]], Pieces(s[1..], sep, inQuote))
  }

  function TrimAll(pieces: seq<string>): (r: seq<string>)
    ensures |r| == |pieces| && forall i :: 0 <= i < |pieces| ==> r[i] == Trim(pieces[i])
  {
    seq(|pieces|, i requires 0 <= i < |pieces| => Trim(pieces[i]))
  }

  function SplitOutside(s: string, sep: string): (r: seq<string>)
    requires |sep| > 0
    ensures |r| > 0
  {
    TrimAll(Pieces(s, sep, false))
  }

  /** The scan has come to `i`: the pieces so far, and the one being read. */
  ghost predicate Splitting(expr: string, sep: string, raw: seq<string>, current: string, i: nat, inQuote: bool) {
    && |sep| > 0 && i <= |expr|
    && raw + Prepend(current, Pieces(expr[i..], sep, inQuote)) == Pieces(expr, sep, false)
  }

  lemma SplittingStarts(expr: string, sep: string)
    requires |sep| > 0
    ensures Splitting(expr, sep, [], "", 0, false)
  {
    assert expr[0..] == expr && "" + Pieces(expr, sep, false)[0] == Pieces(expr, sep, false)[0];
  }

  predicate SeparatorAt(expr: string, sep: string, i: nat) {
    i + |sep| <= |expr| && expr[i..i + |sep|] == sep
  }

  lemma SplittingReads(expr: string, sep: string, raw: seq<string>, current: string, i: nat, inQuote: bool)
    requires Splitting(expr, sep, raw, current, i, inQuote) && i < |expr|
    requires expr[i] == '\'' || inQuote || !SeparatorAt(expr, sep, i)
    ensures Splitting(expr, sep, raw, current + [expr[i]], i + 1, if expr[i] == '\'' then !inQuote else inQuote)
  {
    var rest := expr[i..];
    assert rest[1..] == expr[i + 1..];
    assert i + |sep| <= |expr| ==> rest[..|sep|] == expr[i..i + |sep|];
    PrependTwice(current, [expr[i]], Pieces(expr[i + 1..], sep, if expr[i] == '\'' then !inQuote else inQuote));
    hide Prepend;
  }

  lemma SplittingCuts(expr: string, sep: string, raw: seq<string>, current: string, i: nat)
    requires Splitting(expr, sep, raw, current, i, false) && i < |expr| && expr[i] != '\'' && SeparatorAt(expr, sep, i)
    ensures Splitting(expr, sep, raw + [current], "", i + |sep|, false)
  {
    var rest := expr[i..];
    assert sep <= rest && rest[|sep|..] == expr[i + |sep|..];
    CloseCurrent(raw, current, Pieces(expr[i + |sep|..], sep, false));
    hide Prepend;
  }

  lemma SplittingEnds(expr: string, sep: string, raw: seq<string>, current: string, inQuote: bool)
    requires Splitting(expr, sep, raw, current, |expr|, inQuote)
    ensures raw + [current] == Pieces(expr, sep, false)
  {
    assert expr[|expr|..] == "" && Pieces("", sep, inQuote) == [""];
    assert current + "" == current;
  }

  lemma TrimAllSnoc(raw: seq<string>, piece: string)
    ensures TrimAll(raw + [piece]) == TrimAll(raw) + [Trim(piece)]
  {
    hide Trim;
  }

  method SplitOutsideQuotes(expr: string, sep: string) returns (parts: seq<string>)
    requires |sep| > 0
    ensures parts == SplitOutside(expr, sep)
  {
    hide Trim, Pieces, Prepend, Splitting;
    parts := [];
    ghost var raw := [];
    var current := "";
    var inQuote := false;
    var i := 0;
    SplittingStarts(expr, sep);
    while i < |expr|
      invariant 0 <= i <= |expr|
      invariant parts == TrimAll(raw)
      invariant Splitting(expr, sep, raw, current, i, inQuote)
    {
      if expr[i] == '\'' {
        SplittingReads(expr, sep, raw, current, i, inQuote);
        inQuote := !inQuote;
        current := current + [expr[i]];
        i := i + 1;
      } else if !inQuote && i + |sep| <= |expr| && expr[i..i + |sep|] == sep {
        SplittingCuts(expr, sep, raw, current, i);
        TrimAllSnoc(raw, current);
        raw := raw + [current];
        parts := parts + [Trim(current)];
        current := "";
        i := i + |sep|;
      } else {
        SplittingReads(expr, sep, raw, current, i, inQuote);
        current := current + [expr[i]];
        i := i + 1;
      }
    }
    SplittingEnds(expr, sep, raw, current, inQuote);
    TrimAllSnoc(raw, current);
    parts := parts + [Trim(current)];
  }

  lemma PrependTwice(a: string, b: string, pieces: seq<string>)
    requires |pieces| > 0
    ensures Prepend(a, Prepend(b, pieces)) == Prepend(a + b, pieces)
  {
    assert a + (b + pieces[0]) == (a + b) + pieces[0];
  }

  lemma CloseCurrent(raw: seq<string>, current: string, pieces: seq<string>)
    requires |pieces| > 0
    ensures raw + Prepend(current, [""] + pieces) == (raw + [current]) + Prepend("", pieces)
  {
    assert current + "" == current;
    assert "" + pieces[0] == pieces[0];
    assert Prepend(current, [""] + pieces) == [current] + pieces;
    assert Prepend("", pieces) == pieces;
  }

  /** Whether all quotes are closed behind `s`, from the given quote state on. */
  predicate ClosedBehind(s: string, inQuote: bool) {
    if |s| == 0 then !inQuote else ClosedBehind(s[1..], if s[0] == '\'' then !inQuote else inQuote)
  }

  /** The pieces are cut at the separators outside quotes: the quotes are closed where a piece ends, and
      nowhere inside a piece does a separator start while they are. */
  ghost predicate CutOutside(pieces: seq<string>, sep: string, inQuote: bool) {
    && |pieces| > 0
    && (forall p :: 0 <= p < |pieces[0]| && ClosedBehind(pieces[0][..p], inQuote) ==>
          !OccursAt(sep, Join(pieces, sep), p))
    && (|pieces| > 1 ==> ClosedBehind(pieces[0], inQuote) && CutOutside(pieces[1..], sep, false))
  }

  /** One character more in front of the first piece. */
  lemma OneInFront(c: char, pieces: seq<string>, sep: string, inQuote: bool)
    requires |pieces| > 0
    ensures Join(Prepend([c], pieces), sep) == [c] + Join(pieces, sep)
    ensures var next := if c == '\'' then !inQuote else inQuote;
            CutOutside(Prepend([c], pieces), sep, inQuote) <==>
              CutOutside(pieces, sep, next) && (inQuote || !OccursAt(sep, [c] + Join(pieces, sep), 0))
  {
    var longer, text, next := Prepend([c], pieces), Join(pieces, sep), if c == '\'' then !inQuote else inQuote;
    assert longer[1..] == pieces[1..];
    assert ([c] + pieces[0])[1..] == pieces[0];
    Regroup(c, pieces[0], sep + Join(pieces[1..], sep));
    forall p | 0 <= p < |pieces[0]|
      ensures ClosedBehind(longer[0][..p + 1], inQuote) <==> ClosedBehind(pieces[0][..p], next)
      ensures OccursAt(sep, [c] + text, p + 1) <==> OccursAt(sep, text, p)
    {
      assert longer[0][..p + 1][1..] == pieces[0][..p];
      assert ([c] + text)[p + 1..] == text[p..];
    }
    assert longer[0][..0] == "";
    assert Join(longer, sep) == [c] + text;
    BehindFirst(longer[0], pieces[0], [c] + text, text, sep, inQuote, next);
  }

  lemma Regroup(c: char, a: string, b: string)
    ensures ([c] + a) + b == [c] + (a + b)
  {
  }

  lemma BehindFirst(a: string, b: string, s: string, t: string, sep: string, inQuote: bool, next: bool)
    requires |a| == |b| + 1 && a[..0] == ""
    requires forall p :: 0 <= p < |b| ==> (ClosedBehind(a[..p + 1], inQuote) <==> ClosedBehind(b[..p], next))
    requires forall p :: 0 <= p < |b| ==> (OccursAt(sep, s, p + 1) <==> OccursAt(sep, t, p))
    ensures (forall p :: 0 <= p < |a| && ClosedBehind(a[..p], inQuote) ==> !OccursAt(sep, s, p)) <==>
            (forall p :: 0 <= p < |b| && ClosedBehind(b[..p], next) ==> !OccursAt(sep, t, p))
            && (inQuote || !OccursAt(sep, s, 0))
  {
    hide OccursAt;
    if forall p :: 0 <= p < |a| && ClosedBehind(a[..p], inQuote) ==> !OccursAt(sep, s, p) {
      forall p | 0 <= p < |b| && ClosedBehind(b[..p], next)
        ensures !OccursAt(sep, t, p)
      {
        assert ClosedBehind(a[..p + 1], inQuote);
      }
    }
    if (forall p :: 0 <= p < |b| && ClosedBehind(b[..p], next) ==> !OccursAt(sep, t, p))
       && (inQuote || !OccursAt(sep, s, 0)) {
      forall p | 0 <= p < |a| && ClosedBehind(a[..p], inQuote)
        ensures !OccursAt(sep, s, p)
      {
        if p > 0 {
          var q := p - 1;
          assert ClosedBehind(a[..q + 1], inQuote) <==> ClosedBehind(b[..q], next);
        }
      }
    }
  }

  /** Splitting cuts a text at exactly the separators that stand outside quotes. */
  lemma {:induction false} PiecesAreCutOutside(s: string, sep: string, inQuote: bool)
    requires |sep| > 0 && sep[0] != '\''
    ensures CutOutside(Pieces(s, sep, inQuote), sep, inQuote) && Join(Pieces(s, sep, inQuote), sep) == s
  {
    if |s| > 0 {
      assert s[0..] == s && [s[0]] + s[1..] == s;
      if s[0] != '\'' && !inQuote && sep <= s {
        var rest := Pieces(s[|sep|..], sep, inQuote);
        PiecesAreCutOutside(s[|sep|..], sep, inQuote);
        assert ([""] + rest)[1..] == rest;
        assert "" + (sep + Join(rest, sep)) == sep + Join(rest, sep) == s;
      } else {
        var next := if s[0] == '\'' then !inQuote else inQuote;
        PiecesAreCutOutside(s[1..], sep, next);
        OneInFront(s[0], Pieces(s[1..], sep, next), sep, inQuote);
      }
    }
  }

  /** There is no other such cut. */
  lemma {:induction false} OnlyPieces(pieces: seq<string>, sep: string, inQuote: bool)
    requires |sep| > 0 && sep[0] != '\'' && CutOutside(pieces, sep, inQuote)
    ensures Pieces(Join(pieces, sep), sep, inQuote) == pieces
    decreases |pieces|, |pieces[0]|
  {
    var text := Join(pieces, sep);
    if |pieces[0]| > 0 {
      var c, rest := pieces[0][0], [pieces[0][1..]] + pieces[1..];
      assert [c] + pieces[0][1..] == pieces[0];
      assert Prepend([c], rest) == pieces;
      OneInFront(c, rest, sep, inQuote);
      var next := if c == '\'' then !inQuote else inQuote;
      OnlyPieces(rest, sep, next);
      assert text[1..] == Join(rest, sep) && text[0..] == text;
    } else if |pieces| > 1 {
      OnlyPieces(pieces[1..], sep, false);
      assert text == sep + Join(pieces[1..], sep);
      assert text[|sep|..] == Join(pieces[1..], sep);
      assert [""] + pieces[1..] == pieces;
    }
  }

  // ---------------------------------------------------------------------
  // Atoms
  // ---------------------------------------------------------------------

  datatype Operator = Eq | Ne | Le | Ge | Lt | Gt
  {
    function Text(): string {
      match this
      case Eq => "=="
      case Ne => "!="
      case Le => "<="
      case Ge => ">="
      case Lt => "<"
      case Gt => ">"
    }
  }

  datatype Rhs = Quoted(text: string) | Bare(text: string)

  datatype Atom = Atom(nodeId: string, segment1: string, segment2: Option<string>, operator: Operator, rhs: Rhs)

  function MatchOperator(s: string): Option<Operator> {
    if "==" <= s then Some(Eq)
    else if "!=" <= s then Some(Ne)
    else if "<=" <= s then Some(Le)
    else if ">=" <= s then Some(Ge)
    else if "<" <= s then Some(Lt)
    else if ">" <= s then Some(Gt)
    else None
  }

  /** How far decimal digits reach. */
  function DecimalRun(s: string, isDecimal: char -> bool): (n: nat)
    ensures n <= |s| && forall i :: 0 <= i < n ==> isDecimal(s[i])
  {
    if |s| > 0 && isDecimal(s[0]) then 1 + DecimalRun(s[1..], isDecimal) else 0
  }

  /** A bare right-hand side: `-?d+(.d+)?`, `true` or `false`. */
  predicate IsBare(s: string, isDecimal: char -> bool) {
    s == "true" || s == "false" || IsUnsigned(if |s| > 0 && s[0] == '-' then s[1..] else s, isDecimal)
  }

  predicate IsUnsigned(s: string, isDecimal: char -> bool) {
    var n := DecimalRun(s, isDecimal);
    n > 0 && (n == |s| || (s[n] == '.' && n + 1 < |s| && DecimalRun(s[n + 1..], isDecimal) == |s| - n - 1))
  }

  function MatchRhs(s: string, isDecimal: char -> bool): Option<Rhs> {
    if |s| >= 2 && s[0] == '\'' && s[|s| - 1] == '\'' && (forall i :: 0 < i < |s| - 1 ==> s[i] != '\'')
    then Some(Quoted(s[1..|s| - 1]))
    else if IsBare(s, isDecimal) then Some(Bare(s))
    else None
  }

  /** The tail of an atom, from the white space before the operator on. */
  function MatchComparison(s: string, isDecimal: char -> bool): Option<(Operator, Rhs)> {
    var t := TrimStart(s);
    var op := MatchOperator(t);
    if op.None? then None
    else
      var rhs := MatchRhs(TrimStart(t[|op.value.Text()|..]), isDecimal);
      if rhs.None? then None else Some((op.value, rhs.value))
  }

  /** What follows the node's dot: a segment, perhaps another, and the comparison. */
  function MatchPath(u: string, nodeId: string, isDecimal: char -> bool): Option<Atom> {
    var k := IdentLength(u, false);
    if k == 0 then None
    else
      var v := u[k..];
      var m := if |v| > 0 && v[0] == '.' then IdentLength(v[1..], false) else 0;
      var c := MatchComparison(if m > 0 then v[1..][m..] else v, isDecimal);
      if c.None? then None
      else Some(Atom(nodeId, u[..k], if m > 0 then Some(v[1..][..m]) else None, c.value.0, c.value.1))
  }

  /** The atom that the whole text spells, if it spells one. */
  function MatchAtom(s: string, isDecimal: char -> bool): Option<Atom> {
    if !(|s| > 0 && s[0] == '$') then None
    else
      var t := s[1..];
      var n := IdentLength(t, true);
      if n == 0 || !(n < |t| && t[n] == '.') then None
      else MatchPath(t[n + 1..], t[..n], isDecimal)
  }

  datatype Evaluation = True | False | Unparsed

  type Outcome = Result<Evaluation, RefError>

  function Render(j: Json, lib: Library): string {
    match j
    case JString(s) => s
    case JNumber(text) => text
    case JBool(b) => if b then "true" else "false"
    case _ => lib.stringify(j)
  }

  /** What a reference reads: nothing for an unknown node, the text, or a field. */
  function ResolveRef(nodeId: string, field: Option<string>, outputs: Outputs, lib: Library): Result<string, RefError> {
    if nodeId !in outputs then Ok("")
    else if field.None? then Ok(outputs[nodeId].output)
    else
      match ResolveField(outputs[nodeId], field.value, lib)
      case Err(e) => Err(e)
      case Ok(Empty) => Ok("")
      case Ok(FieldValue(v)) => Ok(Render(v, lib))
  }

  /** The number a text starts with, if it starts with a finite one. */
  function NumberOf(s: string): Option<real> {
    var p := Numbers.ParseFloat(s);
    if p.Finite? then Some(p.literal.Value()) else None
  }

  function FromBool(b: bool): Evaluation {
    if b then True else False
  }

  function Compare(op: Operator, actual: string, expected: string): Evaluation {
    if op.Eq? then FromBool(actual == expected)
    else if op.Ne? then FromBool(actual != expected)
    else
      var a, e := NumberOf(actual), NumberOf(expected);
      if a.None? || e.None? then Unparsed
      else if op.Lt? then FromBool(a.value < e.value)
      else if op.Gt? then FromBool(a.value > e.value)
      else if op.Le? then FromBool(a.value <= e.value)
      else FromBool(a.value >= e.value)
  }

  function EvaluateMatched(a: Atom, outputs: Outputs, lib: Library): Outcome {
    if a.segment1 != "output" && a.segment2.Some? then Ok(Unparsed)
    else
      var field := if a.segment1 == "output" then a.segment2 else Some(a.segment1);
      match ResolveRef(a.nodeId, field, outputs, lib)
      case Err(e) => Err(e)
      case Ok(actual) => Ok(Compare(a.operator, actual, a.rhs.text))
  }

  function EvaluateAtom(text: string, outputs: Outputs, lib: Library): Outcome {
    match MatchAtom(Trim(text), lib.isDecimal)
    case None => Ok(Unparsed)
    case Some(a) => EvaluateMatched(a, outputs, lib)
  }

  // ---------------------------------------------------------------------
  // Conditions
  // ---------------------------------------------------------------------

  type Evaluator = string -> Outcome

  function Atoms(outputs: Outputs, lib: Library): Evaluator {
    text => EvaluateAtom(text, outputs, lib)
  }

  /** Left to right; the first atom that is not true decides. */
  function EvalClause<T>(atoms: seq<T>, eval: T -> Outcome): Outcome {
    if |atoms| == 0 then Ok(True)
    else
      var e := eval(atoms[0]);
      if e == Ok(True) then EvalClause(atoms[1..], eval) else e
  }

  /** Left to right; the first clause that is not false decides. */
  function EvalTree<T>(clauses: seq<seq<T>>, eval: T -> Outcome): Outcome {
    if |clauses| == 0 then Ok(False)
    else
      var e := EvalClause(clauses[0], eval);
      if e == Ok(False) then EvalTree(clauses[1..], eval) else e
  }

  /** The OR-of-ANDs that an expression's text stands for. */
  function Clauses(expr: string): seq<seq<string>> {
    var ors := SplitOutside(Trim(expr), "||");
    seq(|ors|, i requires 0 <= i < |ors| => SplitOutside(ors[i], "&&"))
  }

  function Evaluate(expr: string, outputs: Outputs, lib: Library): Outcome {
    EvalTree(Clauses(expr), Atoms(outputs, lib))
  }

  /** The inner loop: one clause, up to the first atom that is not true. */
  method EvaluateAndAtoms(andAtoms: seq<string>, outputs: Outputs, lib: Library) returns (r: Outcome)
    ensures r == EvalClause(andAtoms, Atoms(outputs, lib))
  {
    ghost var eval := Atoms(outputs, lib);
    for j := 0 to |andAtoms|
      invariant EvalClause(andAtoms[j..], eval) == EvalClause(andAtoms, eval)
    {
      assert andAtoms[j..][1..] == andAtoms[j + 1..];
      var e := EvaluateAtom(andAtoms[j], outputs, lib);
      assert e == eval(andAtoms[j]);
      if e.Err? {
        return e;
      }
      if e.value.Unparsed? {
        return Ok(Unparsed);
      }
      if e.value.False? {
        return Ok(False);
      }
    }
    r := Ok(True);
  }

  method EvaluateCondition(expr: string, outputs: Outputs, lib: Library) returns (r: Outcome)
    ensures r == Evaluate(expr, outputs, lib)
  {
    var orClauses := SplitOutsideQuotes(Trim(expr), "||");
    ghost var tree, eval := Clauses(expr), Atoms(outputs, lib);
    for k := 0 to |orClauses|
      invariant EvalTree(tree[k..], eval) == EvalTree(tree, eval)
    {
      assert tree[k..][1..] == tree[k + 1..];
      var andAtoms := SplitOutsideQuotes(orClauses[k], "&&");
      var clause := EvaluateAndAtoms(andAtoms, outputs, lib);
      if clause.Err? || clause.value.Unparsed? || clause.value.True? {
        return clause;
      }
    }
    r := Ok(False);
  }

  // ---------------------------------------------------------------------
  // Printing and reading back
  // ---------------------------------------------------------------------

  /** From the given quote state, no `c` outside quotes, and all quotes closed at the end. */
  predicate Quiet(s: string, inQuote: bool, c: char) {
    if |s| == 0 then !inQuote
    else if s[0] == '\'' then Quiet(s[1..], !inQuote, c)
    else (inQuote || s[0] != c) && Quiet(s[1..], inQuote, c)
  }

  /** A text that survives as one atom: separators only inside quotes, no outer white space. */
  predicate AtomShaped(s: string) {
    |s| > 0 && Trimmed(s) && Quiet(s, false, '&') && Quiet(s, false, '|')
  }

  function PrintClause(atoms: seq<string>): string {
    Join(atoms, " && ")
  }

  function PrintClauses(tree: seq<seq<string>>): (r: seq<string>)
    ensures |r| == |tree| && forall i :: 0 <= i < |tree| ==> r[i] == PrintClause(tree[i])
  {
    seq(|tree|, i requires 0 <= i < |tree| => PrintClause(tree[i]))
  }

  function Print(tree: seq<seq<string>>): string {
    Join(PrintClauses(tree), " || ")
  }

  lemma {:induction false} QuietConcat(a: string, b: string, inQuote: bool, c: char)
    requires Quiet(a, inQuote, c) && Quiet(b, false, c)
    ensures Quiet(a + b, inQuote, c)
  {
    if |a| == 0 {
      assert a + b == b;
    } else {
      assert (a + b)[1..] == a[1..] + b;
      QuietConcat(a[1..], b, if a[0] == '\'' then !inQuote else inQuote, c);
    }
  }

  lemma {:induction false} QuietIsOnePiece(s: string, inQuote: bool, c: char)
    requires Quiet(s, inQuote, c) && c != '\''
    ensures Pieces(s, [c, c], inQuote) == [s]
  {
    if |s| > 0 {
      QuietIsOnePiece(s[1..], if s[0] == '\'' then !inQuote else inQuote, c);
      assert [s[0]] + s[1..] == s;
    }
  }

  lemma {:induction false} QuietCutsOff(s: string, inQuote: bool, c: char, rest: string)
    requires Quiet(s, inQuote, c) && c != '\''
    ensures Pieces(s + ([c, c] + rest), [c, c], inQuote) == [s] + Pieces(rest, [c, c], false)
  {
    var t := s + ([c, c] + rest);
    if |s| == 0 {
      assert t == [c, c] + rest;
      assert t[2..] == rest;
    } else {
      assert t[1..] == s[1..] + ([c, c] + rest);
      QuietCutsOff(s[1..], if s[0] == '\'' then !inQuote else inQuote, c, rest);
      assert [s[0]] + s[1..] == s;
    }
  }

  /** Splitting what was joined gives the parts back. */
  lemma {:induction false} SplitJoined(parts: seq<string>, c: char, lead: string)
    requires |parts| > 0 && c != '\'' && c != ' ' && (lead == "" || lead == " ")
    requires forall p :: p in parts ==> Trimmed(p) && Quiet(p, false, c)
    ensures TrimAll(Pieces(lead + Join(parts, [' ', c, c, ' ']), [c, c], false)) == parts
  {
    hide Trim, Trimmed, Quiet, Pieces, AllWhitespace;
    var sep := [' ', c, c, ' '];
    LeadIsSpace(lead, c);
    if |parts| == 1 {
      LastPiece(lead, parts[0], c);
    } else {
      var rest := Join(parts[1..], sep);
      assert lead + Join(parts, sep) == (lead + parts[0] + " ") + ([c, c] + (" " + rest));
      FirstPiece(lead, parts[0], rest, c);
      SplitJoined(parts[1..], c, " ");
      TrimAllCons(lead + parts[0] + " ", Pieces(" " + rest, [c, c], false));
    }
  }

  lemma TrimAllCons(piece: string, pieces: seq<string>)
    ensures TrimAll([piece] + pieces) == [Trim(piece)] + TrimAll(pieces)
  {
    hide Trim;
  }

  lemma LeadIsSpace(lead: string, c: char)
    requires c != '\'' && c != ' ' && (lead == "" || lead == " ")
    ensures Quiet(lead, false, c) && AllWhitespace(lead) && Quiet(" ", false, c) && AllWhitespace(" ")
  {
    assert lead == " " ==> lead[1..] == "";
    assert " "[1..] == "";
  }

  lemma LastPiece(lead: string, p: string, c: char)
    requires c != '\'' && Quiet(lead, false, c) && AllWhitespace(lead) && Quiet(p, false, c) && Trimmed(p)
    ensures TrimAll(Pieces(lead + p, [c, c], false)) == [p]
  {
    hide Quiet, AllWhitespace, Trimmed, Trim, Pieces;
    QuietConcat(lead, p, false, c);
    QuietIsOnePiece(lead + p, false, c);
    assert lead + p + "" == lead + p;
    NothingIsSpace();
    TrimPadded(lead, p, "");
  }

  lemma NothingIsSpace()
    ensures AllWhitespace("")
  {
  }

  lemma FirstPiece(lead: string, p: string, rest: string, c: char)
    requires c != '\'' && c != ' ' && (lead == "" || lead == " ") && Quiet(p, false, c) && Trimmed(p)
    ensures Pieces((lead + p + " ") + ([c, c] + (" " + rest)), [c, c], false) ==
            [lead + p + " "] + Pieces(" " + rest, [c, c], false)
    ensures Trim(lead + p + " ") == p
  {
    LeadIsSpace(lead, c);
    hide Quiet, AllWhitespace, Trimmed, Trim, Pieces;
    QuietConcat(lead, p, false, c);
    QuietConcat(lead + p, " ", false, c);
    QuietCutsOff(lead + p + " ", false, c, " " + rest);
    TrimPadded(lead, p, " ");
  }

  lemma {:induction false} JoinKeepsShape(parts: seq<string>, sep: string)
    requires |parts| > 0 && forall p :: p in parts ==> |p| > 0 && Trimmed(p)
    ensures |Join(parts, sep)| > 0 && Trimmed(Join(parts, sep))
  {
    if |parts| > 1 {
      JoinKeepsShape(parts[1..], sep);
      var rest := sep + Join(parts[1..], sep);
      assert rest[|rest| - 1] == Join(parts[1..], sep)[|Join(parts[1..], sep)| - 1];
    }
  }

  lemma {:induction false} JoinKeepsQuiet(parts: seq<string>, sep: string, c: char)
    requires |parts| > 0 && Quiet(sep, false, c) && forall p :: p in parts ==> Quiet(p, false, c)
    ensures Quiet(Join(parts, sep), false, c)
  {
    if |parts| > 1 {
      JoinKeepsQuiet(parts[1..], sep, c);
      QuietConcat(sep, Join(parts[1..], sep), false, c);
      QuietConcat(parts[0], sep + Join(parts[1..], sep), false, c);
    }
  }

  ghost predicate WellShaped(tree: seq<seq<string>>) {
    |tree| > 0 && forall c :: c in tree ==> |c| > 0 && forall a :: a in c ==> AtomShaped(a)
  }

  lemma ClauseShape(atoms: seq<string>)
    requires |atoms| > 0 && forall a :: a in atoms ==> AtomShaped(a)
    ensures |PrintClause(atoms)| > 0 && Trimmed(PrintClause(atoms)) && Quiet(PrintClause(atoms), false, '|')
    ensures SplitOutside(PrintClause(atoms), "&&") == atoms
  {
    JoinKeepsShape(atoms, " && ");
    assert Quiet(" && ", false, '|') by {
      assert " && "[1..][1..][1..][1..] == "";
    }
    JoinKeepsQuiet(atoms, " && ", '|');
    SplitJoined(atoms, '&', "");
    assert "" + PrintClause(atoms) == PrintClause(atoms);
  }

  lemma PrintClausesShape(tree: seq<seq<string>>)
    requires WellShaped(tree)
    ensures forall i :: 0 <= i < |tree| ==> SplitOutside(PrintClauses(tree)[i], "&&") == tree[i]
    ensures forall p :: p in PrintClauses(tree) ==> |p| > 0 && Trimmed(p) && Quiet(p, false, '|')
  {
    forall i | 0 <= i < |tree|
      ensures SplitOutside(PrintClauses(tree)[i], "&&") == tree[i]
      ensures |PrintClauses(tree)[i]| > 0 && Trimmed(PrintClauses(tree)[i]) && Quiet(PrintClauses(tree)[i], false, '|')
    {
      assert tree[i] in tree;
      ClauseShape(tree[i]);
    }
  }

  /** Reading a printed OR-of-ANDs gives the same OR-of-ANDs, whatever the quoted values hold. */
  lemma PrintRead(tree: seq<seq<string>>)
    requires WellShaped(tree)
    ensures Clauses(Print(tree)) == tree
  {
    PrintClausesShape(tree);
    SplitPrinted(PrintClauses(tree));
  }

  lemma SplitPrinted(ors: seq<string>)
    requires |ors| > 0 && forall p :: p in ors ==> |p| > 0 && Trimmed(p) && Quiet(p, false, '|')
    ensures SplitOutside(Trim(Join(ors, " || ")), "||") == ors
  {
    JoinKeepsShape(ors, " || ");
    TrimOfTrimmed(Join(ors, " || "));
    SplitJoined(ors, '|', "");
    assert "" + Join(ors, " || ") == Join(ors, " || ");
  }

  /** Evaluating a printed tree is evaluating the tree. */
  lemma PrintEvaluate(tree: seq<seq<string>>, outputs: Outputs, lib: Library)
    requires WellShaped(tree)
    ensures Evaluate(Print(tree), outputs, lib) == EvalTree(tree, Atoms(outputs, lib))
  {
    PrintRead(tree);
  }

  // ---------------------------------------------------------------------
  // The plain value, and reordering
  // ---------------------------------------------------------------------

  /** Every atom parses and its reference resolves. */
  ghost predicate AllDecided(tree: seq<seq<string>>, eval: Evaluator) {
    forall c, a :: c in tree && a in c ==> eval(a) == Ok(True) || eval(a) == Ok(False)
  }

  ghost predicate ClauseHolds(atoms: seq<string>, eval: Evaluator) {
    forall a :: a in atoms ==> eval(a) == Ok(True)
  }

  ghost predicate SomeClauseHolds(tree: seq<seq<string>>, eval: Evaluator) {
    exists c :: c in tree && ClauseHolds(c, eval)
  }

  lemma {:induction false} DecidedClause(atoms: seq<string>, eval: Evaluator)
    requires forall a :: a in atoms ==> eval(a) == Ok(True) || eval(a) == Ok(False)
    ensures EvalClause(atoms, eval) == Ok(FromBool(ClauseHolds(atoms, eval)))
  {
    if |atoms| > 0 {
      DecidedClause(atoms[1..], eval);
      assert forall a :: a in atoms <==> a == atoms[0] || a in atoms[1..];
    }
  }

  /** When every atom is decided the value is the plain OR of ANDs. */
  lemma {:induction false} DecidedTree(tree: seq<seq<string>>, eval: Evaluator)
    requires AllDecided(tree, eval)
    ensures EvalTree(tree, eval) == Ok(FromBool(SomeClauseHolds(tree, eval)))
  {
    if |tree| > 0 {
      DecidedClause(tree[0], eval);
      assert forall c :: c in tree <==> c == tree[0] || c in tree[1..];
      DecidedTree(tree[1..], eval);
    }
  }

  ghost predicate SameAtoms(c: seq<string>, d: seq<string>) {
    forall a :: a in c <==> a in d
  }

  /** Every clause of `other` is a clause of `tree`, up to the order of its atoms. */
  ghost predicate Covers(tree: seq<seq<string>>, other: seq<seq<string>>) {
    forall c :: c in other ==> exists d :: d in tree && SameAtoms(c, d)
  }

  /** Clauses and atoms may be reordered (or repeated) when every atom is decided. */
  lemma ReorderKeepsValue(tree: seq<seq<string>>, other: seq<seq<string>>, eval: Evaluator)
    requires AllDecided(tree, eval) && Covers(tree, other) && Covers(other, tree)
    ensures EvalTree(other, eval) == EvalTree(tree, eval)
  {
    CoveredIsDecided(tree, other, eval);
    DecidedTree(tree, eval);
    DecidedTree(other, eval);
    CoveringHolds(tree, other, eval);
    CoveringHolds(other, tree, eval);
    var b, c := SomeClauseHolds(tree, eval), SomeClauseHolds(other, eval);
    assert b == c;
  }

  lemma CoveredIsDecided(tree: seq<seq<string>>, other: seq<seq<string>>, eval: Evaluator)
    requires AllDecided(tree, eval) && Covers(tree, other)
    ensures AllDecided(other, eval)
  {
    forall c, a | c in other && a in c
      ensures eval(a) == Ok(True) || eval(a) == Ok(False)
    {
      var d :| d in tree && SameAtoms(c, d);
      assert a in d;
    }
  }

  lemma CoveringHolds(tree: seq<seq<string>>, other: seq<seq<string>>, eval: Evaluator)
    requires Covers(tree, other)
    ensures SomeClauseHolds(other, eval) ==> SomeClauseHolds(tree, eval)
  {
    if c :| c in other && ClauseHolds(c, eval) {
      var d :| d in tree && SameAtoms(c, d);
      assert ClauseHolds(d, eval);
    }
  }

  // ---------------------------------------------------------------------
  // Well-formed atoms
  // ---------------------------------------------------------------------

  /** The digits of a pattern: all of ASCII's, and beyond ASCII no white space. */
  ghost predicate Decimals(isDecimal: char -> bool) {
    forall c :: (Numbers.IsDigit(c) ==> isDecimal(c)) && (isDecimal(c) ==> Numbers.IsDigit(c) || Foreign(c))
  }

  predicate Foreign(c: char) {
    c as int >= 0x80 && !IsWhitespace(c)
  }

  predicate ValidRhs(r: Rhs, isDecimal: char -> bool) {
    match r
    case Quoted(text) => forall i :: 0 <= i < |text| ==> text[i] != '\''
    case Bare(text) => IsBare(text, isDecimal)
  }

  predicate ValidAtom(a: Atom, isDecimal: char -> bool) {
    && IsIdent(a.nodeId, true) && IsIdent(a.segment1, false)
    && (a.segment2.Some? ==> IsIdent(a.segment2.value, false))
    && ValidRhs(a.rhs, isDecimal)
  }

  function RhsText(r: Rhs): string {
    match r
    case Quoted(text) => "'" + (text + "'")
    case Bare(text) => text
  }

  function ComparisonText(a: Atom, before: string, after: string): string {
    before + (a.operator.Text() + (after + RhsText(a.rhs)))
  }

  /** An atom as an author may write it, with any white space around the operator. */
  function AtomText(a: Atom, before: string, after: string): string {
    "$" + (a.nodeId + ("." + (a.segment1 +
      ((if a.segment2.Some? then "." + a.segment2.value else "") + ComparisonText(a, before, after)))))
  }

  lemma BareStart(s: string, isDecimal: char -> bool)
    requires IsBare(s, isDecimal) && Decimals(isDecimal)
    ensures |s| > 0 && !IsWhitespace(s[0]) && s[0] != '=' && s[0] != '\''
  {
    BareIsPlain(s, isDecimal);
  }

  lemma MatchRhsText(r: Rhs, isDecimal: char -> bool)
    requires ValidRhs(r, isDecimal) && Decimals(isDecimal)
    ensures MatchRhs(RhsText(r), isDecimal) == Some(r)
    ensures |RhsText(r)| > 0 && !IsWhitespace(RhsText(r)[0]) && RhsText(r)[0] != '='
  {
    var s := RhsText(r);
    if r.Quoted? {
      assert s[1..|s| - 1] == r.text;
      assert forall i :: 0 < i < |s| - 1 ==> s[i] == r.text[i - 1];
    } else {
      BareStart(s, isDecimal);
    }
  }

  lemma MatchOperatorText(op: Operator, rest: string)
    requires |rest| > 0 && rest[0] != '='
    ensures MatchOperator(op.Text() + rest) == Some(op)
    ensures (op.Text() + rest)[|op.Text()|..] == rest
    ensures !IsWhitespace((op.Text() + rest)[0])
  {
    var s := op.Text() + rest;
    assert op.Lt? || op.Gt? ==> s[1] == rest[0];
    assert "=="[0] == '=' && "!="[0] == '!' && "<="[0] == '<' && "<="[1] == '=' && ">="[0] == '>' && ">="[1] == '=';
  }

  lemma MatchComparisonText(a: Atom, before: string, after: string, isDecimal: char -> bool)
    requires Decimals(isDecimal) && ValidRhs(a.rhs, isDecimal) && AllWhitespace(before) && AllWhitespace(after)
    ensures MatchComparison(ComparisonText(a, before, after), isDecimal) == Some((a.operator, a.rhs))
  {
    hide MatchRhs, RhsText, ValidRhs, Decimals, MatchOperator, Operator.Text, TrimStart;
    var r := RhsText(a.rhs);
    var tail := after + r;
    MatchRhsText(a.rhs, isDecimal);
    TailStart(after, r);
    MatchOperatorText(a.operator, tail);
    TrimStartOver(before, a.operator.Text() + tail);
    TrimStartOver(after, r);
  }

  lemma TailStart(after: string, r: string)
    requires AllWhitespace(after) && |r| > 0 && r[0] != '='
    ensures |after + r| > 0 && (after + r)[0] != '='
  {
    assert (after + r)[0] == if |after| > 0 then after[0] else r[0];
  }

  lemma ComparisonStart(a: Atom, before: string, after: string)
    requires AllWhitespace(before)
    ensures |ComparisonText(a, before, after)| > 0
    ensures !IsIdentChar(ComparisonText(a, before, after)[0], true) && ComparisonText(a, before, after)[0] != '.'
  {
    assert ComparisonText(a, before, after)[0] == if |before| > 0 then before[0] else a.operator.Text()[0];
  }

  lemma MatchPathText(a: Atom, comparison: string, isDecimal: char -> bool)
    requires ValidAtom(a, isDecimal) && MatchComparison(comparison, isDecimal) == Some((a.operator, a.rhs))
    requires |comparison| > 0 && !IsIdentChar(comparison[0], false) && comparison[0] != '.'
    ensures MatchPath(a.segment1 + ((if a.segment2.Some? then "." + a.segment2.value else "") + comparison),
                      a.nodeId, isDecimal) == Some(a)
  {
    var dotted := (if a.segment2.Some? then "." + a.segment2.value else "") + comparison;
    IdentOver(a.segment1, false, dotted);
    if a.segment2.Some? {
      assert dotted[1..] == a.segment2.value + comparison;
      IdentOver(a.segment2.value, false, comparison);
    } else {
      assert dotted == comparison;
    }
  }

  /** The pattern reads every well-formed atom as itself. */
  lemma MatchAtomText(a: Atom, before: string, after: string, isDecimal: char -> bool)
    requires Decimals(isDecimal) && ValidAtom(a, isDecimal) && AllWhitespace(before) && AllWhitespace(after)
    ensures MatchAtom(AtomText(a, before, after), isDecimal) == Some(a)
  {
    var comparison := ComparisonText(a, before, after);
    ComparisonStart(a, before, after);
    MatchComparisonText(a, before, after, isDecimal);
    var u := a.segment1 + ((if a.segment2.Some? then "." + a.segment2.value else "") + comparison);
    MatchPathText(a, comparison, isDecimal);
    MatchNode(AtomText(a, before, after), a.nodeId, u, isDecimal);
  }

  lemma MatchNode(s: string, nodeId: string, u: string, isDecimal: char -> bool)
    requires IsIdent(nodeId, true) && s == "$" + (nodeId + ("." + u))
    ensures MatchAtom(s, isDecimal) == MatchPath(u, nodeId, isDecimal)
  {
    var t := s[1..];
    assert t == nodeId + ("." + u);
    IdentOver(nodeId, true, "." + u);
    assert t[|nodeId|] == '.';
    assert t[|nodeId| + 1..] == u;
  }

  lemma ComparisonIsText(s: string, isDecimal: char -> bool) returns (before: string, after: string)
    requires MatchComparison(s, isDecimal).Some?
    ensures var (op, rhs) := MatchComparison(s, isDecimal).value;
            && AllWhitespace(before) && AllWhitespace(after) && ValidRhs(rhs, isDecimal)
            && s == before + (op.Text() + (after + RhsText(rhs)))
  {
    var t := TrimStart(s);
    before := PaddingInFront(s);
    var op := MatchOperator(t).value;
    OperatorIsPrefix(t);
    var u := t[|op.Text()|..];
    after := PaddingInFront(u);
    RhsIsText(TrimStart(u), isDecimal);
    assert t == op.Text() + u;
  }

  lemma OperatorIsPrefix(t: string)
    requires MatchOperator(t).Some?
    ensures MatchOperator(t).value.Text() <= t
  {
  }

  lemma RhsIsText(s: string, isDecimal: char -> bool)
    requires MatchRhs(s, isDecimal).Some?
    ensures ValidRhs(MatchRhs(s, isDecimal).value, isDecimal) && RhsText(MatchRhs(s, isDecimal).value) == s
  {
    if MatchRhs(s, isDecimal).value.Quoted? {
      var text := s[1..|s| - 1];
      assert forall i :: 0 <= i < |text| ==> text[i] == s[i + 1];
      assert s == "'" + (text + "'");
    }
  }

  /** Where a path's second segment ends, if there is one. */
  function SecondSegment(v: string): nat {
    if |v| > 0 && v[0] == '.' then IdentLength(v[1..], false) else 0
  }

  lemma DottedIsText(v: string)
    ensures var m := SecondSegment(v);
            m > 0 ==> m < |v| && IsIdent(v[1..][..m], false) && v == "." + v[1..][..m] + v[1..][m..]
  {
    if SecondSegment(v) > 0 {
      LengthIsIdent(v[1..], false);
      hide IdentLength, IsIdent;
      assert v == "." + v[1..];
    }
  }

  /** What is left of a path behind its segments. */
  function BehindSegments(v: string): string {
    var m := SecondSegment(v);
    if m > 0 && m < |v| then v[1..][m..] else v
  }

  lemma PathParts(u: string, nodeId: string, isDecimal: char -> bool)
    requires MatchPath(u, nodeId, isDecimal).Some?
    ensures var a, k := MatchPath(u, nodeId, isDecimal).value, IdentLength(u, false);
            && 0 < k <= |u| && a.nodeId == nodeId && a.segment1 == u[..k]
            && var v := u[k..];
               var m := SecondSegment(v);
               && (m > 0 ==> m < |v|) && a.segment2 == (if m > 0 then Some(v[1..][..m]) else None)
               && MatchComparison(BehindSegments(v), isDecimal) == Some((a.operator, a.rhs))
  {
    hide MatchComparison, IdentLength;
  }

  lemma PathIsText(u: string, nodeId: string, isDecimal: char -> bool) returns (before: string, after: string)
    requires MatchPath(u, nodeId, isDecimal).Some?
    ensures var a := MatchPath(u, nodeId, isDecimal).value;
            && AllWhitespace(before) && AllWhitespace(after)
            && a.nodeId == nodeId && IsIdent(a.segment1, false)
            && (a.segment2.Some? ==> IsIdent(a.segment2.value, false))
            && ValidRhs(a.rhs, isDecimal)
            && u == a.segment1 + ((if a.segment2.Some? then "." + a.segment2.value else "")
                                  + ComparisonText(a, before, after))
  {
    hide MatchPath, MatchComparison, ValidRhs, RhsText, Operator.Text, IsIdent, AllWhitespace, BehindSegments;
    PathParts(u, nodeId, isDecimal);
    LengthIsIdent(u, false);
    var a, k := MatchPath(u, nodeId, isDecimal).value, IdentLength(u, false);
    var v := u[k..];
    DottedIsText(v);
    SegmentsAndRest(v);
    hide IdentLength, SecondSegment;
    before, after := ComparisonIsText(BehindSegments(v), isDecimal);
    assert ComparisonText(a, before, after) == BehindSegments(v);
    hide ComparisonText;
    Cut(u, k);
  }

  lemma Cut(u: string, k: nat)
    requires k <= |u|
    ensures u == u[..k] + u[k..]
  {
  }

  lemma SegmentsAndRest(v: string)
    ensures var m := SecondSegment(v);
            m < |v| || m == 0 ==> v == (if m > 0 then "." + v[1..][..m] else "") + BehindSegments(v)
  {
    DottedIsText(v);
    Numbers.AppendNothing(v);
  }

  /** The pattern matches nothing but well-formed atoms. */
  lemma MatchedIsAtomText(s: string, isDecimal: char -> bool) returns (before: string, after: string)
    requires MatchAtom(s, isDecimal).Some?
    ensures var a := MatchAtom(s, isDecimal).value;
            && ValidAtom(a, isDecimal) && AllWhitespace(before) && AllWhitespace(after)
            && s == AtomText(a, before, after)
  {
    hide MatchPath, ValidRhs, ComparisonText;
    var t := s[1..];
    var n := IdentLength(t, true);
    LengthIsIdent(t, true);
    before, after := PathIsText(t[n + 1..], t[..n], isDecimal);
    assert s == "$" + t && t == t[..n] + ("." + t[n + 1..]);
  }

  /** A text is parsed as an atom exactly if, without the white space around it, it is the text of one. */
  lemma OnlyAtomsParse(text: string, outputs: Outputs, lib: Library)
    requires Decimals(lib.isDecimal)
    requires forall a, before, after :: ValidAtom(a, lib.isDecimal) && AllWhitespace(before) && AllWhitespace(after) ==>
               Trim(text) != AtomText(a, before, after)
    ensures EvaluateAtom(text, outputs, lib) == Ok(Unparsed)
  {
    hide MatchAtom, ValidAtom, AtomText, Decimals;
    if MatchAtom(Trim(text), lib.isDecimal).Some? {
      var before, after := MatchedIsAtomText(Trim(text), lib.isDecimal);
      assert false;
    }
  }

  lemma {:induction false} QuietPlain(s: string, c: char)
    requires forall i :: 0 <= i < |s| ==> s[i] != '\'' && s[i] != c
    ensures Quiet(s, false, c)
  {
    if |s| > 0 {
      QuietPlain(s[1..], c);
    }
  }

  lemma {:induction false} QuietInside(s: string, c: char)
    requires forall i :: 0 <= i < |s| ==> s[i] != '\''
    ensures Quiet(s + "'", true, c)
  {
    if |s| == 0 {
      assert (s + "'")[1..] == "";
    } else {
      assert (s + "'")[1..] == s[1..] + "'";
      QuietInside(s[1..], c);
    }
  }

  lemma RhsQuiet(r: Rhs, c: char, isDecimal: char -> bool)
    requires Decimals(isDecimal) && ValidRhs(r, isDecimal) && (c == '&' || c == '|')
    ensures Quiet(RhsText(r), false, c)
  {
    if r.Quoted? {
      QuietInside(r.text, c);
      assert RhsText(r)[1..] == r.text + "'";
    } else {
      BareIsPlain(r.text, isDecimal);
      QuietPlain(r.text, c);
    }
  }

  /** Neither a quote, nor part of a separator or an operator, nor white space. */
  predicate PlainChar(c: char) {
    c != '\'' && c != '&' && c != '|' && c != '=' && !IsWhitespace(c)
  }

  lemma DigitIsPlain(c: char, isDecimal: char -> bool)
    requires Decimals(isDecimal) && isDecimal(c)
    ensures PlainChar(c)
  {
    assert Numbers.IsDigit(c) || Foreign(c);
  }

  lemma BareIsPlain(s: string, isDecimal: char -> bool)
    requires IsBare(s, isDecimal) && Decimals(isDecimal)
    ensures |s| > 0
    ensures forall i :: 0 <= i < |s| ==> PlainChar(s[i])
  {
    if s != "true" && s != "false" {
      var t := if |s| > 0 && s[0] == '-' then s[1..] else s;
      UnsignedIsPlain(t, isDecimal);
      assert forall i :: 0 <= i < |s| ==> s[i] == '-' || s[i] == t[if s[0] == '-' then i - 1 else i];
    } else {
      assert s == "true" ==> s[0] == 't' && s[1] == 'r' && s[2] == 'u' && s[3] == 'e';
      assert s == "false" ==> s[0] == 'f' && s[1] == 'a' && s[2] == 'l' && s[3] == 's' && s[4] == 'e';
    }
  }

  lemma UnsignedIsPlain(t: string, isDecimal: char -> bool)
    requires IsUnsigned(t, isDecimal) && Decimals(isDecimal)
    ensures |t| > 0
    ensures forall i :: 0 <= i < |t| ==> PlainChar(t[i])
  {
    var n := DecimalRun(t, isDecimal);
    forall i | 0 <= i < |t|
      ensures PlainChar(t[i])
    {
      if i < n {
        DigitIsPlain(t[i], isDecimal);
      } else if i > n {
        assert t[n + 1..][i - n - 1] == t[i];
        DigitIsPlain(t[i], isDecimal);
      }
    }
  }

  /** A well-formed atom survives splitting, whatever its quoted value contains. */
  lemma AtomTextIsShaped(a: Atom, before: string, after: string, isDecimal: char -> bool)
    requires Decimals(isDecimal) && ValidAtom(a, isDecimal) && AllWhitespace(before) && AllWhitespace(after)
    ensures AtomShaped(AtomText(a, before, after))
  {
    AtomTextIsQuiet(a, before, after, '&', isDecimal);
    AtomTextIsQuiet(a, before, after, '|', isDecimal);
    RhsEnd(a.rhs, isDecimal);
    hide Quiet, ValidRhs, RhsText, Decimals, IsWhitespace, ComparisonText;
    AtomTextEnds(a, before, after);
    assert !IsWhitespace('$') by {
      DollarIsNoSpace();
    }
  }

  lemma DollarIsNoSpace()
    ensures !IsWhitespace('$')
  {
  }

  lemma RhsEnd(r: Rhs, isDecimal: char -> bool)
    requires Decimals(isDecimal) && ValidRhs(r, isDecimal)
    ensures var s := RhsText(r);
            |s| > 0 && !IsWhitespace(s[|s| - 1])
  {
    if r.Bare? {
      BareIsPlain(r.text, isDecimal);
    }
  }

  lemma AtomTextEnds(a: Atom, before: string, after: string)
    requires |RhsText(a.rhs)| > 0
    ensures var s, r := AtomText(a, before, after), RhsText(a.rhs);
            |s| > 0 && s[0] == '$' && s[|s| - 1] == r[|r| - 1]
  {
    hide RhsText, Operator.Text;
    var c := ComparisonText(a, before, after);
    assert c[|c| - 1] == RhsText(a.rhs)[|RhsText(a.rhs)| - 1];
  }

  /** Neither a quote nor the given character. */
  predicate FreeOf(s: string, c: char) {
    forall i :: 0 <= i < |s| ==> s[i] != '\'' && s[i] != c
  }

  lemma QuietBehind(a: string, b: string, c: char)
    requires FreeOf(a, c) && Quiet(b, false, c)
    ensures Quiet(a + b, false, c)
  {
    QuietPlain(a, c);
    QuietConcat(a, b, false, c);
  }

  lemma IdentIsFree(s: string, hyphen: bool, c: char)
    requires IsIdent(s, hyphen) && (c == '&' || c == '|')
    ensures FreeOf(s, c) && FreeOf("." + s, c)
  {
  }

  lemma SpaceIsFree(s: string, c: char)
    requires AllWhitespace(s) && (c == '&' || c == '|')
    ensures FreeOf(s, c)
  {
  }

  lemma OperatorIsFree(op: Operator, c: char)
    requires c == '&' || c == '|'
    ensures FreeOf(op.Text(), c)
  {
  }

  lemma ComparisonIsQuiet(a: Atom, before: string, after: string, c: char, isDecimal: char -> bool)
    requires Decimals(isDecimal) && ValidRhs(a.rhs, isDecimal) && AllWhitespace(before) && AllWhitespace(after)
    requires c == '&' || c == '|'
    ensures Quiet(ComparisonText(a, before, after), false, c)
  {
    hide Quiet, FreeOf, RhsText, ValidRhs, Decimals, Operator.Text;
    RhsQuiet(a.rhs, c, isDecimal);
    SpaceIsFree(after, c);
    QuietBehind(after, RhsText(a.rhs), c);
    OperatorIsFree(a.operator, c);
    QuietBehind(a.operator.Text(), after + RhsText(a.rhs), c);
    SpaceIsFree(before, c);
    QuietBehind(before, a.operator.Text() + (after + RhsText(a.rhs)), c);
  }

  lemma AtomTextIsQuiet(a: Atom, before: string, after: string, c: char, isDecimal: char -> bool)
    requires Decimals(isDecimal) && ValidAtom(a, isDecimal) && AllWhitespace(before) && AllWhitespace(after)
    requires c == '&' || c == '|'
    ensures Quiet(AtomText(a, before, after), false, c)
  {
    assert FreeOf("$", c) && FreeOf(".", c) && FreeOf("", c);
    hide Quiet, FreeOf, ComparisonText, ValidRhs, Decimals, IsIdent;
    ComparisonIsQuiet(a, before, after, c, isDecimal);
    var dotted := if a.segment2.Some? then "." + a.segment2.value else "";
    if a.segment2.Some? {
      IdentIsFree(a.segment2.value, false, c);
    }
    QuietBehind(dotted, ComparisonText(a, before, after), c);
    IdentIsFree(a.segment1, false, c);
    QuietBehind(a.segment1, dotted + ComparisonText(a, before, after), c);
    QuietBehind(".", a.segment1 + (dotted + ComparisonText(a, before, after)), c);
    IdentIsFree(a.nodeId, true, c);
    var t := "." + (a.segment1 + (dotted + ComparisonText(a, before, after)));
    QuietBehind(a.nodeId, t, c);
    QuietBehind("$", a.nodeId + t, c);
  }

  // ---------------------------------------------------------------------
  // What an atom says
  // ---------------------------------------------------------------------

  /** The text that a value is compared as. */
  ghost predicate Shows(v: Json, lib: Library, text: string) {
    match v
    case JString(s) => text == s
    case JNumber(digits) => text == digits
    case JBool(b) => text == if b then "true" else "false"
    case _ => text == lib.stringify(v)
  }

  /** What a reference to a node, or to a field of it, reads: nothing for a node that is not there, the node's
      whole output, the text of the value found, or nothing where a field stands for nothing. */
  ghost predicate Reads(nodeId: string, field: Option<string>, outputs: Outputs, lib: Library, text: string) {
    if nodeId !in outputs then text == ""
    else if field.None? then text == outputs[nodeId].output
    else
      || (text == "" && FindsNothing(outputs[nodeId], field.value, lib))
      || exists v :: Finds(outputs[nodeId], field.value, lib, v) && Shows(v, lib, text)
  }

  ghost predicate ReadingFails(nodeId: string, field: Option<string>, outputs: Outputs, lib: Library, e: RefError) {
    nodeId in outputs && field.Some? && Fails(outputs[nodeId], field.value, lib, e)
  }

  lemma ReferenceReads(nodeId: string, field: Option<string>, outputs: Outputs, lib: Library)
    ensures forall text :: Reads(nodeId, field, outputs, lib, text) <==>
                             ResolveRef(nodeId, field, outputs, lib) == Ok(text)
    ensures forall e :: ReadingFails(nodeId, field, outputs, lib, e) <==>
                          ResolveRef(nodeId, field, outputs, lib) == Err(e)
  {
    if nodeId in outputs && field.Some? {
      FieldIsRead(outputs[nodeId], field.value, lib);
    }
    hide ResolveField, Finds, FindsNothing, Fails;
  }

  /** What comparing two texts gives. Equality compares the texts; an ordering compares the numbers that they
      begin with, and is not parsed if one of them begins with none that is finite. */
  ghost predicate Compares(operator: string, actual: string, expected: string, r: Evaluation) {
    if operator == "==" then r == if actual == expected then True else False
    else if operator == "!=" then r == if actual == expected then False else True
    else
      forall p, q :: Numbers.Meets(actual, p) && Numbers.Meets(expected, q) ==>
        if !p.Finite? || !q.Finite? then r == Unparsed
        else
          var x, y := p.literal.Value(), q.literal.Value();
          && (operator == "<" ==> r == if x < y then True else False)
          && (operator == ">" ==> r == if x > y then True else False)
          && (operator == "<=" ==> r == if x <= y then True else False)
          && (operator == ">=" ==> r == if x >= y then True else False)
  }

  lemma ComparisonSays(op: Operator, actual: string, expected: string, r: Evaluation)
    ensures Compares(op.Text(), actual, expected, r) <==> r == Compare(op, actual, expected)
  {
    var p, q := Numbers.ParseFloat(actual), Numbers.ParseFloat(expected);
    hide Numbers.Meets, Numbers.ParseFloat, Numbers.Literal.Value;
    forall x
      ensures Numbers.Meets(actual, x) <==> x == p
      ensures Numbers.Meets(expected, x) <==> x == q
    {
      Numbers.MeetsDetermines(actual, x);
      Numbers.MeetsDetermines(expected, x);
    }
  }

  /** What an atom says about the outputs. `$a.output` reads the node's whole output, `$a.output.f` and `$a.f`
      read its field `f`, and any other path of two segments is not parsed. A reference that cannot be read
      makes the atom an error; otherwise what is read is compared with the right-hand side. */
  ghost predicate Says(a: Atom, outputs: Outputs, lib: Library, r: Outcome) {
    if a.segment1 != "output" && a.segment2.Some? then r == Ok(Unparsed)
    else
      var field := if a.segment1 != "output" then Some(a.segment1) else a.segment2;
      match r
      case Err(e) => ReadingFails(a.nodeId, field, outputs, lib, e)
      case Ok(value) =>
        exists actual :: Reads(a.nodeId, field, outputs, lib, actual)
                         && Compares(a.operator.Text(), actual, a.rhs.text, value)
  }

  /** Every atom says exactly one thing. */
  lemma AtomSays(a: Atom, outputs: Outputs, lib: Library, r: Outcome)
    ensures Says(a, outputs, lib, r) <==> r == EvaluateMatched(a, outputs, lib)
  {
    var field := if a.segment1 != "output" then Some(a.segment1) else a.segment2;
    ReferenceReads(a.nodeId, field, outputs, lib);
    var read := ResolveRef(a.nodeId, field, outputs, lib);
    hide ResolveRef, Reads, ReadingFails, Compares, Compare;
    if r.Ok? && read.Ok? {
      ComparisonSays(a.operator, read.value, a.rhs.text, r.value);
    }
  }

  /** Evaluating a well-formed atom's text, whatever the white space around its operator, gives what the atom
      says. */
  lemma EvaluateAtomText(a: Atom, before: string, after: string, outputs: Outputs, lib: Library)
    requires Decimals(lib.isDecimal) && ValidAtom(a, lib.isDecimal) && AllWhitespace(before) && AllWhitespace(after)
    ensures forall r :: Says(a, outputs, lib, r) <==> r == EvaluateAtom(AtomText(a, before, after), outputs, lib)
  {
    hide EvaluateMatched, Says, AtomText, ValidAtom, Decimals, AtomShaped;
    AtomTextIsEvaluated(a, before, after, outputs, lib);
    forall r
      ensures Says(a, outputs, lib, r) <==> r == EvaluateMatched(a, outputs, lib)
    {
      AtomSays(a, outputs, lib, r);
    }
  }

  lemma AtomTextIsEvaluated(a: Atom, before: string, after: string, outputs: Outputs, lib: Library)
    requires Decimals(lib.isDecimal) && ValidAtom(a, lib.isDecimal) && AllWhitespace(before) && AllWhitespace(after)
    ensures EvaluateAtom(AtomText(a, before, after), outputs, lib) == EvaluateMatched(a, outputs, lib)
  {
    AtomTextIsShaped(a, before, after, lib.isDecimal);
    TrimOfTrimmed(AtomText(a, before, after));
    MatchAtomText(a, before, after, lib.isDecimal);
  }

  // ---------------------------------------------------------------------
  // Conditions made of atoms
  // ---------------------------------------------------------------------

  /** An atom and the white space around its operator. */
  datatype Spaced = Spaced(atom: Atom, before: string, after: string)
  {
    function Text(): string {
      AtomText(atom, before, after)
    }

    predicate Valid(isDecimal: char -> bool) {
      ValidAtom(atom, isDecimal) && AllWhitespace(before) && AllWhitespace(after)
    }
  }

  function ClauseTexts(clause: seq<Spaced>): seq<string> {
    seq(|clause|, i requires 0 <= i < |clause| => clause[i].Text())
  }

  function Texts(tree: seq<seq<Spaced>>): seq<seq<string>> {
    seq(|tree|, i requires 0 <= i < |tree| => ClauseTexts(tree[i]))
  }

  ghost predicate ValidTree(tree: seq<seq<Spaced>>, isDecimal: char -> bool) {
    |tree| > 0 && forall c :: c in tree ==> |c| > 0 && forall a :: a in c ==> a.Valid(isDecimal)
  }

  lemma {:induction false} ClauseMeans(clause: seq<Spaced>, texts: seq<string>, e: Evaluator, f: Spaced -> Outcome)
    requires |texts| == |clause| && forall i :: 0 <= i < |clause| ==> e(texts[i]) == f(clause[i])
    ensures EvalClause(texts, e) == EvalClause(clause, f)
  {
    if |clause| > 0 {
      ClauseMeans(clause[1..], texts[1..], e, f);
    }
  }

  lemma {:induction false} TreeMeans(tree: seq<seq<Spaced>>, texts: seq<seq<string>>, e: Evaluator,
                                     f: Spaced -> Outcome)
    requires |texts| == |tree|
    requires forall i :: 0 <= i < |tree| ==> EvalClause(texts[i], e) == EvalClause(tree[i], f)
    ensures EvalTree(texts, e) == EvalTree(tree, f)
  {
    if |tree| > 0 {
      TreeMeans(tree[1..], texts[1..], e, f);
    }
  }

  lemma TextsAreShaped(tree: seq<seq<Spaced>>, isDecimal: char -> bool)
    requires Decimals(isDecimal) && ValidTree(tree, isDecimal)
    ensures WellShaped(Texts(tree))
  {
    hide AtomShaped, ValidAtom, AllWhitespace, Decimals, Spaced.Text;
    forall c | c in Texts(tree)
      ensures |c| > 0 && forall a :: a in c ==> AtomShaped(a)
    {
      var i :| 0 <= i < |tree| && c == ClauseTexts(tree[i]);
      assert tree[i] in tree;
      forall a | a in c
        ensures AtomShaped(a)
      {
        var j :| 0 <= j < |tree[i]| && a == tree[i][j].Text();
        SpacedIsShaped(tree[i][j], isDecimal);
      }
    }
  }

  lemma SpacedIsShaped(x: Spaced, isDecimal: char -> bool)
    requires Decimals(isDecimal) && x.Valid(isDecimal)
    ensures AtomShaped(x.Text())
  {
    hide AtomShaped;
    AtomTextIsShaped(x.atom, x.before, x.after, isDecimal);
  }

  lemma SpacedMeans(x: Spaced, outputs: Outputs, lib: Library, r: Outcome)
    requires Decimals(lib.isDecimal) && x.Valid(lib.isDecimal) && Says(x.atom, outputs, lib, r)
    ensures Atoms(outputs, lib)(x.Text()) == r
  {
    hide EvaluateAtom, AtomText, Says;
    EvaluateAtomText(x.atom, x.before, x.after, outputs, lib);
  }

  /** What the atoms of a tree say. */
  ghost predicate Meanings(tree: seq<seq<Spaced>>, outputs: Outputs, lib: Library, says: Spaced -> Outcome) {
    forall c, x :: c in tree && x in c ==> Says(x.atom, outputs, lib, says(x))
  }

  /** From text to meaning: a printed OR of ANDs of atoms, with any white space around their operators, is
      evaluated to the left-to-right short-circuit outcome of what the atoms say about the outputs. */
  lemma PrintedAtomsEvaluate(tree: seq<seq<Spaced>>, outputs: Outputs, lib: Library, says: Spaced -> Outcome)
    requires Decimals(lib.isDecimal) && ValidTree(tree, lib.isDecimal) && Meanings(tree, outputs, lib, says)
    ensures Evaluate(Print(Texts(tree)), outputs, lib) == EvalTree(tree, says)
  {
    hide Evaluate, Print, WellShaped, Decimals, Spaced.Text, Spaced.Valid, Atoms, Says;
    TextsAreShaped(tree, lib.isDecimal);
    PrintEvaluate(Texts(tree), outputs, lib);
    forall i | 0 <= i < |tree|
      ensures EvalClause(Texts(tree)[i], Atoms(outputs, lib)) == EvalClause(tree[i], says)
    {
      assert tree[i] in tree;
      forall j | 0 <= j < |tree[i]|
        ensures Atoms(outputs, lib)(tree[i][j].Text()) == says(tree[i][j])
      {
        assert tree[i][j] in tree[i];
        SpacedMeans(tree[i][j], outputs, lib, says(tree[i][j]));
      }
      ClauseMeans(tree[i], ClauseTexts(tree[i]), Atoms(outputs, lib), says);
    }
    TreeMeans(tree, Texts(tree), Atoms(outputs, lib), says);
  }

  /** The short circuit: the first atom of a clause that is not true gives the clause's outcome, and the first
      clause that is not false gives that of the whole. */
  lemma {:induction false} FirstAtomDecides(atoms: seq<string>, eval: Evaluator, i: nat)
    requires i <= |atoms| && (forall j :: 0 <= j < i ==> eval(atoms[j]) == Ok(True))
    requires i < |atoms| ==> eval(atoms[i]) != Ok(True)
    ensures EvalClause(atoms, eval) == if i < |atoms| then eval(atoms[i]) else Ok(True)
  {
    if i > 0 {
      FirstAtomDecides(atoms[1..], eval, i - 1);
    }
  }

  lemma {:induction false} FirstClauseDecides(tree: seq<seq<string>>, eval: Evaluator, i: nat)
    requires i <= |tree| && (forall j :: 0 <= j < i ==> EvalClause(tree[j], eval) == Ok(False))
    requires i < |tree| ==> EvalClause(tree[i], eval) != Ok(False)
    ensures EvalTree(tree, eval) == if i < |tree| then EvalClause(tree[i], eval) else Ok(False)
  {
    if i > 0 {
      FirstClauseDecides(tree[1..], eval, i - 1);
    }
  }

  const UNRESOLVABLE := Spaced(Atom("a", "output", Some("f"), Eq, Quoted("x")), " ", " ")

  lemma UnresolvableIsValid(isDecimal: char -> bool)
    ensures UNRESOLVABLE.Valid(isDecimal)
  {
  }

  lemma UnresolvableSays(lib: Library)
    ensures Says(UNRESOLVABLE.atom, map["a" := Skipped("")], lib, Err(ProducerNotRun))
  {
    hide Compares, Reads;
  }

  /** The condition `$a.output.f == 'x'` on a skipped node: an error, neither a value nor unparsed. */
  lemma UnresolvableIsAnError(lib: Library)
    requires Decimals(lib.isDecimal)
    ensures Evaluate(UNRESOLVABLE.Text(), map["a" := Skipped("")], lib) == Err(ProducerNotRun)
  {
    var tree := [[UNRESOLVABLE]];
    UnresolvableIsValid(lib.isDecimal);
    assert Print(Texts(tree)) == UNRESOLVABLE.Text() by {
      hide Spaced.Text;
      assert ClauseTexts(tree[0]) == [UNRESOLVABLE.Text()];
    }
    var outputs: Outputs := map["a" := Skipped("")];
    UnresolvableSays(lib);
    hide Evaluate, Print, Spaced.Text, Spaced.Valid, Decimals, Says;
    PrintedAtomsEvaluate(tree, outputs, lib, _ => Err(ProducerNotRun));
  }

  // ---------------------------------------------------------------------
  // What a condition reads
  // ---------------------------------------------------------------------

  ghost predicate AlikeOn(ids: set<string>, a: Outputs, b: Outputs) {
    forall id :: id in ids ==> (id in a <==> id in b) && (id in a ==> Alike(a[id], b[id]))
  }

  /** Every atom of the expression that parses refers to one of `ids`. */
  ghost predicate ReadsOnly(expr: string, ids: set<string>, isDecimal: char -> bool) {
    forall c, a :: c in Clauses(expr) && a in c && MatchAtom(Trim(a), isDecimal).Some? ==>
      MatchAtom(Trim(a), isDecimal).value.nodeId in ids
  }

  lemma {:induction false} SameAtomsSameClause(atoms: seq<string>, e: Evaluator, f: Evaluator)
    requires forall a :: a in atoms ==> e(a) == f(a)
    ensures EvalClause(atoms, e) == EvalClause(atoms, f)
  {
    if |atoms| > 0 {
      SameAtomsSameClause(atoms[1..], e, f);
    }
  }

  lemma {:induction false} SameAtomsSameTree(tree: seq<seq<string>>, e: Evaluator, f: Evaluator)
    requires forall c, a :: c in tree && a in c ==> e(a) == f(a)
    ensures EvalTree(tree, e) == EvalTree(tree, f)
  {
    if |tree| > 0 {
      SameAtomsSameClause(tree[0], e, f);
      assert forall c :: c in tree[1..] ==> c in tree;
      SameAtomsSameTree(tree[1..], e, f);
    }
  }

  /** A condition's outcome depends on nothing but the nodes it names, and of those neither on
      their sessions nor on their error messages. */
  lemma EvaluateReads(expr: string, ids: set<string>, a: Outputs, b: Outputs, lib: Library)
    requires ReadsOnly(expr, ids, lib.isDecimal) && AlikeOn(ids, a, b)
    ensures Evaluate(expr, a, lib) == Evaluate(expr, b, lib)
  {
    forall c, t | c in Clauses(expr) && t in c
      ensures Atoms(a, lib)(t) == Atoms(b, lib)(t)
    {
      AtomReads(t, ids, a, b, lib);
    }
    SameAtomsSameTree(Clauses(expr), Atoms(a, lib), Atoms(b, lib));
  }

  lemma AtomReads(text: string, ids: set<string>, a: Outputs, b: Outputs, lib: Library)
    requires var m := MatchAtom(Trim(text), lib.isDecimal);
             m.Some? ==> m.value.nodeId in ids
    requires AlikeOn(ids, a, b)
    ensures EvaluateAtom(text, a, lib) == EvaluateAtom(text, b, lib)
  {
    match MatchAtom(Trim(text), lib.isDecimal)
    case None =>
    case Some(m) => MatchedReads(m, ids, a, b, lib);
  }

  lemma MatchedReads(m: Atom, ids: set<string>, a: Outputs, b: Outputs, lib: Library)
    requires m.nodeId in ids && AlikeOn(ids, a, b)
    ensures EvaluateMatched(m, a, lib) == EvaluateMatched(m, b, lib)
  {
    var field := if m.segment1 == "output" then m.segment2 else Some(m.segment1);
    if m.nodeId in a && field.Some? {
      AlikeResolveAlike(a[m.nodeId], b[m.nodeId], field.value, lib);
    }
    assert ResolveRef(m.nodeId, field, a, lib) == ResolveRef(m.nodeId, field, b, lib);
  }
}
