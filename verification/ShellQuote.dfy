/** Substituting `$node.output` and `$node.output.field` references into bash scripts, and what a
    shell reads afterwards (section 2.2 of POSIX.1-2017 XCU, with bash's dollar-single-quotes). */
module ShellQuote {
  import opened Schema
  import opened Text
  import opened OutputRef

  // ---------------------------------------------------------------------
  // Quoting
  // ---------------------------------------------------------------------

  function EscapeQuotes(value: string): string {
    if |value| == 0 then ""
    else (if value[0] == '\'' then ['\'', '\\', '\'', '\''] else [value[0]]) + EscapeQuotes(value[1..])
  }

  function Quote(value: string): string {
    ['\''] + EscapeQuotes(value) + ['\'']
  }

  // ---------------------------------------------------------------------
  // The shell's reading of a script
  // ---------------------------------------------------------------------

  /** A character of a word: unquoted, inside double quotes, literal, or inside dollar-single-quotes. A
      sigil is a dollar sign that belongs to what comes behind it, a parameter or a quoted text. In the
      reading of a template, a character that a reference stands for without quotes is given. */
  datatype Mark = Bare(c: char) | Soft(c: char) | Hard(c: char) | Ansi(c: char) | Sigil | Given(c: char)

  /** The marks of a word, and whether any of it is quoted. */
  datatype Word = Word(marks: seq<Mark>, quoted: bool)
  {
    function Append(w: Word): Word {
      Word(marks + w.marks, quoted || w.quoted)
    }

    /** Digits only, and none of them quoted or given. */
    predicate IsNumber() {
      !quoted && |marks| > 0 && forall i :: 0 <= i < |marks| ==> marks[i].Bare? && '0' <= marks[i].c <= '9'
    }
  }

  /** The digits right before a redirection name a descriptor (section 2.10.1). */
  datatype Token = Argument(word: Word) | IoNumber(word: Word) | Blank | Operator(c: char)

  /** The quoting in force; `Dollar` is unquoted, right behind a dollar sign that is still open. */
  datatype Mode =
    | Unquoted | Dollar | Escaped | Single | Double | DoubleEscaped | DollarSingle | DollarEscaped | Comment

  predicate Redirects(c: char) {
    c == '<' || c == '>'
  }

  /** What takes an open dollar sign: quotes, and the start of a parameter. */
  predicate TakesDollar(c: char) {
    || 'a' <= c <= 'z' || 'A' <= c <= 'Z' || '0' <= c <= '9'
    || c in {'\'', '"', '$', '_', '@', '*', '#', '?', '-', '!', '{'}
  }

  const NO_WORD := Word([], false)

  /** The tokens read so far, the word being read, and the quoting in force. */
  datatype Lexer = Lexer(tokens: seq<Token>, word: Option<Word>, mode: Mode)
  {
    function Add(w: Word, next: Mode): Lexer {
      Lexer(tokens, Some(word.GetOr(NO_WORD).Append(w)), next)
    }

    /** The word being read, as the token it is in front of the given one. */
    function Ended(next: Token): seq<Token> {
      if word.None? then []
      else if next.Operator? && Redirects(next.c) && word.value.IsNumber() then [IoNumber(word.value)]
      else [Argument(word.value)]
    }

    function Close(token: Token): Lexer {
      Lexer(tokens + Ended(token) + [token], None, Unquoted)
    }

    /** The last mark, a dollar sign, belongs to what comes now. */
    function Taken(): Lexer {
      if word.Some? && |word.value.marks| > 0 then
        var marks := word.value.marks;
        this.(word := Some(Word(marks[..|marks| - 1] + [Sigil], word.value.quoted)))
      else this
    }

    function Plainly(c: char): Lexer {
      if c == '\\' then this.(mode := Escaped)
      else if c == '\'' then Add(Word([], true), Single)
      else if c == '"' then Add(Word([], true), Double)
      else if c == '$' then Add(Word([Bare(c)], false), Dollar)
      else if c == '#' && word.None? then this.(mode := Comment)
      else if c == ' ' || c == '\t' then Close(Blank)
      else if c in {'\n', '|', '&', ';', '<', '>', '(', ')'} then Close(Operator(c))
      else Add(Word([Bare(c)], false), Unquoted)
    }

    function BehindDollar(c: char): Lexer {
      if c == '\'' then Taken().Add(Word([], true), DollarSingle)
      else if c == '"' then Taken().Add(Word([], true), Double)
      else if TakesDollar(c) then Taken().Add(Word([Bare(c)], false), Unquoted)
      else Plainly(c)
    }

    function Step(c: char): Lexer {
      match mode
      case Unquoted => Plainly(c)
      case Dollar => BehindDollar(c)
      case Escaped => if c == '\n' then this.(mode := Unquoted) else Add(Word([Hard(c)], true), Unquoted)
      case Single => if c == '\'' then this.(mode := Unquoted) else Add(Word([Hard(c)], true), Single)
      case Double =>
        if c == '"' then this.(mode := Unquoted)
        else if c == '\\' then this.(mode := DoubleEscaped)
        else Add(Word([Soft(c)], true), Double)
      case DoubleEscaped =>
        if c == '\n' then this.(mode := Double)
        else if c in {'$', '`', '"', '\\'} then Add(Word([Hard(c)], true), Double)
        else Add(Word([Soft('\\'), Soft(c)], true), Double)
      case DollarSingle =>
        if c == '\'' then this.(mode := Unquoted)
        else Add(Word([Ansi(c)], true), if c == '\\' then DollarEscaped else DollarSingle)
      case DollarEscaped => Add(Word([Ansi(c)], true), DollarSingle)
      case Comment => if c == '\n' then Close(Operator(c)) else this
    }

    predicate IsUnquoted() {
      mode == Unquoted || mode == Dollar
    }

    /** Behind an open dollar sign there is that dollar sign. */
    predicate Sound() {
      mode == Dollar ==> word.Some? && |word.value.marks| > 0 && word.value.marks[|word.value.marks| - 1] == Bare('$')
    }

    /** A reference in a template is read as its value; an open dollar sign stays as it is. */
    function Read(w: Word): Lexer {
      Add(w, if mode == Dollar then Unquoted else mode)
    }
  }

  const START := Lexer([], None, Unquoted)

  function Lex(s: string, st: Lexer): Lexer {
    if |s| == 0 then st else Lex(s[1..], st.Step(s[0]))
  }

  function Hards(s: string): seq<Mark> {
    seq(|s|, i requires 0 <= i < |s| => Hard(s[i]))
  }

  function Bares(s: string): seq<Mark> {
    seq(|s|, i requires 0 <= i < |s| => Bare(s[i]))
  }

  lemma {:induction false} LexConcat(a: string, b: string, st: Lexer)
    ensures Lex(a + b, st) == Lex(b, Lex(a, st))
  {
    if |a| == 0 {
      assert a + b == b;
    } else {
      assert (a + b)[1..] == a[1..] + b;
      LexConcat(a[1..], b, st.Step(a[0]));
    }
  }

  lemma AddTwice(st: Lexer, v: Word, w: Word, mid: Mode, next: Mode)
    ensures st.Add(v, mid).Add(w, next) == st.Add(v.Append(w), next)
  {
    var before := st.word.GetOr(NO_WORD).marks;
    assert before + v.marks + w.marks == before + (v.marks + w.marks);
  }

  /** A value that is read literally. */
  function Literally(v: string): Word {
    Word(Hards(v), true)
  }

  /** The four characters that stand for a quote inside quotes. */
  lemma LexEscapedQuote(st: Lexer, rest: string)
    requires st.mode == Single && st.word.Some? && st.word.value.quoted
    ensures Lex(['\'', '\\', '\'', '\''] + rest, st) == Lex(rest, st.Add(Word([Hard('\'')], true), Single))
  {
    LexConcat(['\'', '\\', '\'', '\''], rest, st);
    var s := ['\'', '\\', '\'', '\''];
    var t := st.(mode := Escaped);
    var quote := Word([Hard('\'')], true);
    assert s[1..][1..][1..] == ['\''] && s[1..][1..] == ['\'', '\''];
    assert Lex(s, st) == Lex(['\'', '\''], t);
    AddTwice(t, quote, Word([], true), Unquoted, Single);
    assert quote.Append(Word([], true)) == quote;
    assert Lex(['\'', '\''], t) == Lex(['\''], t.Add(quote, Unquoted));
    assert Lex(['\''], t.Add(quote, Unquoted)) == t.Add(quote, Single);
  }

  lemma {:induction false} LexEscaped(v: string, st: Lexer)
    requires st.mode == Single && st.word.Some? && st.word.value.quoted
    ensures Lex(EscapeQuotes(v), st) == st.Add(Literally(v), Single)
  {
    if |v| == 0 {
      assert st.word.value.marks + [] == st.word.value.marks;
    } else {
      var first := Word([Hard(v[0])], true);
      if v[0] == '\'' {
        LexEscapedQuote(st, EscapeQuotes(v[1..]));
      } else {
        assert ([v[0]] + EscapeQuotes(v[1..]))[1..] == EscapeQuotes(v[1..]);
      }
      LexEscaped(v[1..], st.Add(first, Single));
      AddTwice(st, first, Literally(v[1..]), Single, Single);
      assert [Hard(v[0])] + Hards(v[1..]) == Hards(v);
    }
  }

  /** Whatever the value, its quoted form adds exactly the value, literally, to the word being
      read, and leaves the shell unquoted. */
  lemma QuotedIsLiteral(v: string, st: Lexer)
    requires st.mode == Unquoted
    ensures Lex(Quote(v), st) == st.Add(Literally(v), Unquoted)
  {
    var inside := st.Add(Word([], true), Single);
    assert Quote(v) == ['\''] + (EscapeQuotes(v) + ['\'']);
    assert Quote(v)[1..] == EscapeQuotes(v) + ['\''];
    LexConcat(EscapeQuotes(v), ['\''], inside);
    LexEscaped(v, inside);
    AddTwice(st, Word([], true), Literally(v), Single, Single);
    assert Word([], true).Append(Literally(v)) == Literally(v);
    assert Lex(['\''], st.Add(Literally(v), Single)) == st.Add(Literally(v), Unquoted);
  }

  /** The characters of JSON numbers and booleans. */
  predicate IsLiteralChar(c: char) {
    'a' <= c <= 'z' || '0' <= c <= '9' || c in {'-', '+', '.', 'E'}
  }

  predicate LiteralText(s: string) {
    |s| > 0 && s[0] != '+' && s[0] != '.' && forall i :: 0 <= i < |s| ==> IsLiteralChar(s[i])
  }

  lemma {:induction false} LiteralIsBare(s: string, st: Lexer)
    requires |s| > 0 && (forall i :: 0 <= i < |s| ==> IsLiteralChar(s[i])) && st.mode == Unquoted
    ensures Lex(s, st) == st.Add(Word(Bares(s), false), Unquoted)
  {
    var first := Word([Bare(s[0])], false);
    assert IsLiteralChar(s[0]);
    assert st.Step(s[0]) == st.Add(first, Unquoted);
    if |s| == 1 {
      assert Bares(s) == [Bare(s[0])];
    } else {
      LiteralIsBare(s[1..], st.Add(first, Unquoted));
      AddTwice(st, first, Word(Bares(s[1..]), false), Unquoted, Unquoted);
      assert [Bare(s[0])] + Bares(s[1..]) == Bares(s);
    }
  }

  // ---------------------------------------------------------------------
  // References
  // ---------------------------------------------------------------------

  datatype Ref = Ref(nodeId: string, field: Option<string>)
  {
    function Text(): string {
      "$" + nodeId + ".output" + (if field.Some? then "." + field.value else "")
    }

    predicate Valid() {
      IsIdent(nodeId, true) && (field.Some? ==> IsIdent(field.value, false))
    }
  }

  /** The reference at the start of the text; where both a longer and a shorter one would do, the
      longer. */
  function MatchRef(s: string): Option<Ref> {
    if |s| == 0 || s[0] != '$' then None
    else
      var n := IdentLength(s[1..], true);
      if n == 0 || !(".output" <= s[1..][n..]) then None
      else Some(Ref(s[1..][..n], MatchField(s[1..][n..][7..])))
  }

  function MatchField(s: string): Option<string> {
    if |s| == 0 || s[0] != '.' then None
    else
      var m := IdentLength(s[1..], false);
      if m == 0 then None else Some(s[1..][..m])
  }

  lemma FieldIsPrefix(t: string)
    requires MatchField(t).Some?
    ensures IsIdent(MatchField(t).value, false) && "." + MatchField(t).value <= t
  {
    LengthIsIdent(t[1..], false);
    assert t == "." + (MatchField(t).value + t[1..][|MatchField(t).value|..]);
  }

  lemma PrefixChain(a: string, b: string, c: string, f: string, t: string)
    requires f <= t
    ensures a + b + c + f <= a + (b + (c + t))
  {
    assert a + (b + (c + t)) == (a + b + c + f) + t[|f|..] by {
      assert t == f + t[|f|..];
    }
  }

  lemma CutAt(s: string, n: nat)
    requires n <= |s|
    ensures s == s[..n] + s[n..]
  {
  }

  /** A reference that was found is a prefix of the text. */
  lemma MatchIsPrefix(s: string)
    requires MatchRef(s).Some?
    ensures MatchRef(s).value.Valid() && MatchRef(s).value.Text() <= s
  {
    var r := MatchRef(s).value;
    var rest := s[1..][|r.nodeId|..];
    var f := if r.field.Some? then "." + r.field.value else "";
    LengthIsIdent(s[1..], true);
    if r.field.Some? {
      FieldIsPrefix(rest[7..]);
    }
    CutAt(s, 1);
    CutAt(s[1..], |r.nodeId|);
    CutAt(rest, 7);
    assert s[..1] == "$" && rest[..7] == ".output";
    PrefixChain("$", r.nodeId, ".output", f, rest[7..]);
  }

  /** What must not follow a reference's text for the reference to end there. */
  predicate Ends(r: Ref, rest: string) {
    if r.field.Some? then |rest| > 0 ==> !IsIdentChar(rest[0], false)
    else MatchField(rest).None?
  }

  lemma FieldIsMatched(f: string, rest: string)
    requires IsIdent(f, false) && (|rest| > 0 ==> !IsIdentChar(rest[0], false))
    ensures MatchField("." + f + rest) == Some(f)
  {
    assert ("." + f + rest)[1..] == f + rest;
    IdentOver(f, false, rest);
  }

  lemma NodeIsMatched(id: string, tail: string)
    requires IsIdent(id, true)
    ensures MatchRef("$" + (id + (".output" + tail))) == Some(Ref(id, MatchField(tail)))
  {
    var s := "$" + (id + (".output" + tail));
    assert s[1..] == id + (".output" + tail);
    IdentOver(id, true, ".output" + tail);
    assert (".output" + tail)[7..] == tail;
  }

  lemma Reassociate(a: string, b: string, c: string, d: string, e: string)
    ensures a + b + c + d + e == a + (b + (c + (d + e)))
    ensures (a + b + c + d + e)[|a + b + c + d|..] == e
  {
  }

  /** Conversely every reference written out is found again, whatever follows it that does not
      carry it on. */
  lemma TextIsMatched(r: Ref, rest: string)
    requires r.Valid() && Ends(r, rest)
    ensures MatchRef(r.Text() + rest) == Some(r)
    ensures (r.Text() + rest)[|r.Text()|..] == rest
  {
    var f := if r.field.Some? then "." + r.field.value else "";
    Reassociate("$", r.nodeId, ".output", f, rest);
    NodeIsMatched(r.nodeId, f + rest);
    if r.field.Some? {
      FieldIsMatched(r.field.value, rest);
    } else {
      assert f + rest == rest;
    }
  }

  /** What a reference stands for: text that is quoted, or a number or boolean that is not. */
  datatype Insertion = Quotable(text: string) | Literal(text: string)

  function Resolve(r: Ref, outputs: Outputs, lib: Library): Result<Insertion, RefError> {
    if r.nodeId !in outputs then Ok(Quotable(""))
    else if r.field.None? then Ok(Quotable(outputs[r.nodeId].output))
    else
      match ResolveField(outputs[r.nodeId], r.field.value, lib)
      case Err(e) => Err(e)
      case Ok(Empty) => Ok(Quotable(""))
      case Ok(FieldValue(JString(s))) => Ok(Quotable(s))
      case Ok(FieldValue(JNumber(text))) => Ok(Literal(text))
      case Ok(FieldValue(JBool(b))) => Ok(Literal(if b then "true" else "false"))
      case Ok(FieldValue(other)) => Ok(Quotable(lib.stringify(other)))
  }

  /** What a reference stands for, by its producer. A node that is not there and a field that is found to be
      nothing stand for no text; without a field it is the node's whole output; and a field that is found
      stands for a string's text, for a number or boolean as it is, and for anything else as JSON. */
  ghost predicate StandsFor(r: Ref, outputs: Outputs, lib: Library, i: Insertion) {
    if r.nodeId !in outputs then i == Quotable("")
    else if r.field.None? then i == Quotable(outputs[r.nodeId].output)
    else
      || (i == Quotable("") && FindsNothing(outputs[r.nodeId], r.field.value, lib))
      || exists v :: Finds(outputs[r.nodeId], r.field.value, lib, v) && ValueStandsFor(v, lib, i)
  }

  ghost predicate ValueStandsFor(v: Json, lib: Library, i: Insertion) {
    match v
    case JString(s) => i == Quotable(s)
    case JNumber(text) => i == Literal(text)
    case JBool(b) => i == Literal(if b then "true" else "false")
    case _ => i == Quotable(lib.stringify(v))
  }

  ghost predicate Unresolved(r: Ref, outputs: Outputs, lib: Library, e: RefError) {
    r.nodeId in outputs && r.field.Some? && Fails(outputs[r.nodeId], r.field.value, lib, e)
  }

  /** A reference stands for one thing, or is one error. */
  lemma ReferenceStandsFor(r: Ref, outputs: Outputs, lib: Library)
    ensures forall i :: StandsFor(r, outputs, lib, i) <==> Resolve(r, outputs, lib) == Ok(i)
    ensures forall e :: Unresolved(r, outputs, lib, e) <==> Resolve(r, outputs, lib) == Err(e)
  {
    if r.nodeId in outputs && r.field.Some? {
      FieldIsRead(outputs[r.nodeId], r.field.value, lib);
    }
    hide ResolveField, Finds, FindsNothing, Fails;
  }

  function Reason(e: RefError, node: string, field: string): string {
    match e
    case NotInSchema =>
      ", which is not declared in node '" + node + "'s output_format schema. Add '" + field
      + "' to the schema (and mark it optional if it can be absent), or fix the reference."
    case Unparseable =>
      ", but node '" + node + "'s output is not a JSON object, so the field cannot be read. Emit JSON containing '"
      + field + "', or reference '$" + node + ".output' (whole text) instead."
    case MissingKey =>
      ", but node '" + node + "'s JSON output has no such key. Emit '" + field
      + "' in the output, or fix the reference."
    case ProducerNotRun =>
      ", but node '" + node + "' did not run (skipped or pending), so it has no output to read. "
      + "Guard this reference with a 'when:' condition, or fix the dependency."
  }

  function ErrorText(r: Ref, e: RefError): string {
    ['\''] + (r.Text() + (['\'', ' '] +
    ("references field '" + r.field.GetOr("") + "'" + Reason(e, r.nodeId, r.field.GetOr("")))))
  }

  /** A reference that cannot be resolved is replaced by the error message, in a script too. */
  function Insert(r: Ref, outputs: Outputs, lib: Library, escaped: bool): string {
    match Resolve(r, outputs, lib)
    case Ok(Quotable(text)) => if escaped then Quote(text) else text
    case Ok(Literal(text)) => text
    case Err(e) => ErrorText(r, e)
  }

  function Substitute(s: string, outputs: Outputs, lib: Library, escaped: bool): string {
    if |s| == 0 then ""
    else
      var m := MatchRef(s);
      if m.Some? && |m.value.Text()| <= |s| then
        Insert(m.value, outputs, lib, escaped) + Substitute(s[|m.value.Text()|..], outputs, lib, escaped)
      else [s[0]] + Substitute(s[1..], outputs, lib, escaped)
  }

  // ---------------------------------------------------------------------
  // Substitution preserves the lexing
  // ---------------------------------------------------------------------

  /** A script before substitution: characters and references. */
  datatype Part = Plain(c: char) | Reference(r: Ref)
  {
    function Text(): string {
      if Plain? then [c] else r.Text()
    }
  }

  function Parts(s: string): seq<Part> {
    if |s| == 0 then []
    else
      var m := MatchRef(s);
      if m.Some? && |m.value.Text()| <= |s| then [Reference(m.value)] + Parts(s[|m.value.Text()|..])
      else [Plain(s[0])] + Parts(s[1..])
  }

  function TextOf(parts: seq<Part>): string {
    if |parts| == 0 then "" else parts[0].Text() + TextOf(parts[1..])
  }

  lemma TextOfCons(p: Part, parts: seq<Part>)
    ensures TextOf([p] + parts) == p.Text() + TextOf(parts)
  {
    assert ([p] + parts)[1..] == parts;
  }

  /** Cutting a script into parts loses nothing, and the bound in its definition is no limit. */
  lemma {:induction false} PartsRebuild(s: string)
    ensures TextOf(Parts(s)) == s
  {
    if |s| > 0 {
      var m := MatchRef(s);
      if m.Some? {
        MatchIsPrefix(s);
        var n := |m.value.Text()|;
        PartsRebuild(s[n..]);
        TextOfCons(Reference(m.value), Parts(s[n..]));
        CutAt(s, n);
      } else {
        PartsRebuild(s[1..]);
        TextOfCons(Plain(s[0]), Parts(s[1..]));
        CutAt(s, 1);
      }
    }
  }

  /** Every reference is cut out: none starts where a plain character stands, and one that is cut out is as
      long as it can be. */
  ghost predicate CutsOut(parts: seq<Part>, k: nat)
    requires k < |parts|
  {
    var rest := TextOf(parts[k + 1..]);
    if parts[k].Plain? then forall r: Ref :: r.Valid() ==> !(r.Text() <= [parts[k].c] + rest)
    else parts[k].r.Valid() && Ends(parts[k].r, rest)
  }

  ghost predicate AllCutOut(parts: seq<Part>) {
    forall k: nat :: k < |parts| ==> CutsOut(parts, k)
  }

  /** A text that starts with a reference is read as starting with one to the same node. */
  lemma StartIsMatched(r: Ref, s: string)
    requires r.Valid() && r.Text() <= s
    ensures var f := if r.field.Some? then "." + r.field.value else "";
            MatchRef(s) == Some(Ref(r.nodeId, MatchField(f + s[|r.Text()|..])))
  {
    var f := if r.field.Some? then "." + r.field.value else "";
    var rest := s[|r.Text()|..];
    CutAt(s, |r.Text()|);
    assert s == r.Text() + rest && r.Text() == "$" + r.nodeId + ".output" + f;
    hide MatchRef, MatchField;
    NodeIsMatched(r.nodeId, f + rest);
    hide IsIdent, Ref.Text;
    Reassociate("$", r.nodeId, ".output", f, rest);
  }

  lemma MatchEnds(s: string)
    requires MatchRef(s).Some?
    ensures var r := MatchRef(s).value;
            r.Text() <= s && Ends(r, s[|r.Text()|..])
  {
    MatchIsPrefix(s);
    var r := MatchRef(s).value;
    StartIsMatched(r, s);
    hide MatchRef, Ref.Text;
    FieldEnds(r, s[|r.Text()|..]);
  }

  lemma FieldEnds(r: Ref, rest: string)
    requires r.Valid()
    requires var f := if r.field.Some? then "." + r.field.value else "";
             r.field == MatchField(f + rest)
    ensures Ends(r, rest)
  {
    if r.field.Some? {
      FieldRunsOut(r.field.value, rest);
    } else {
      assert "" + rest == rest;
    }
  }

  lemma FieldRunsOut(f: string, rest: string)
    requires IsIdent(f, false) && MatchField("." + f + rest) == Some(f)
    ensures |rest| > 0 ==> !IsIdentChar(rest[0], false)
  {
    assert ("." + f + rest)[1..] == f + rest;
    RunIsLongest(f + rest, false);
    assert (f + rest)[..|f|] == f;
    if |rest| > 0 {
      assert (f + rest)[|f|] == rest[0];
    }
  }

  lemma {:induction false} RunIsLongest(s: string, hyphen: bool)
    ensures IdentRun(s, hyphen) < |s| ==> !IsIdentChar(s[IdentRun(s, hyphen)], hyphen)
  {
    if |s| > 0 && IsIdentChar(s[0], hyphen) {
      RunIsLongest(s[1..], hyphen);
    }
  }

  lemma CutsOutLater(p: Part, parts: seq<Part>)
    ensures forall k: nat :: k < |parts| ==> (CutsOut(parts, k) <==> CutsOutBehind([p] + parts, k))
  {
    forall k: nat | k < |parts|
      ensures CutsOut(parts, k) <==> CutsOutBehind([p] + parts, k)
    {
      assert ([p] + parts)[k + 1] == parts[k] && ([p] + parts)[k + 1..][1..] == parts[k + 1..];
      assert ([p] + parts)[k + 2..] == parts[k + 1..];
    }
  }

  ghost predicate CutsOutBehind(parts: seq<Part>, k: nat)
    requires k + 1 < |parts|
  {
    CutsOut(parts, k + 1)
  }

  lemma AllCutOutCons(p: Part, parts: seq<Part>)
    ensures AllCutOut([p] + parts) <==> CutsOut([p] + parts, 0) && AllCutOut(parts)
  {
    CutsOutLater(p, parts);
    hide CutsOut;
    var all := [p] + parts;
    if CutsOut(all, 0) && AllCutOut(parts) {
      forall k: nat | k < |all|
        ensures CutsOut(all, k)
      {
        if k > 0 {
          var j: nat := k - 1;
          assert CutsOut(parts, j);
          assert CutsOutBehind(all, j);
        }
      }
    }
    if AllCutOut(all) {
      forall k: nat | k < |parts|
        ensures CutsOut(parts, k)
      {
        assert CutsOutBehind(all, k);
      }
    }
  }

  /** The parts of a script are the one way to cut it in which every reference is cut out. */
  lemma {:induction false} PartsAreCutOut(s: string)
    ensures AllCutOut(Parts(s)) && TextOf(Parts(s)) == s
  {
    PartsRebuild(s);
    if |s| > 0 {
      var m := MatchRef(s);
      var n := if m.Some? then |m.value.Text()| else 1;
      var p := if m.Some? then Reference(m.value) else Plain(s[0]);
      if m.Some? {
        MatchIsPrefix(s);
        MatchEnds(s);
      } else {
        forall r: Ref | r.Valid() && r.Text() <= s
          ensures false
        {
          StartIsMatched(r, s);
        }
      }
      PartsAreCutOut(s[n..]);
      AllCutOutCons(p, Parts(s[n..]));
      CutAt(s, n);
      assert ([p] + Parts(s[n..]))[1..] == Parts(s[n..]);
    }
  }

  lemma {:induction false} OnlyParts(parts: seq<Part>)
    requires AllCutOut(parts)
    ensures parts == Parts(TextOf(parts))
  {
    if |parts| > 0 {
      var rest := TextOf(parts[1..]);
      assert parts == [parts[0]] + parts[1..];
      AllCutOutCons(parts[0], parts[1..]);
      OnlyParts(parts[1..]);
      assert CutsOut(parts, 0);
      if parts[0].Reference? {
        TextIsMatched(parts[0].r, rest);
      } else {
        var s := [parts[0].c] + rest;
        assert s[1..] == rest;
        if MatchRef(s).Some? {
          MatchIsPrefix(s);
          assert false;
        }
      }
    }
  }

  /** The text put in place of a reference: what it stands for, quoted if it is to be and is not a number or
      boolean; or the error message. */
  ghost predicate Inserted(r: Ref, outputs: Outputs, lib: Library, escaped: bool, text: string) {
    || (exists i :: StandsFor(r, outputs, lib, i) && text == if escaped && i.Quotable? then Quote(i.text) else i.text)
    || (exists e :: Unresolved(r, outputs, lib, e) && text == ErrorText(r, e))
  }

  lemma OneIsInserted(r: Ref, outputs: Outputs, lib: Library, escaped: bool, text: string)
    ensures Inserted(r, outputs, lib, escaped, text) <==> text == Insert(r, outputs, lib, escaped)
  {
    ReferenceStandsFor(r, outputs, lib);
    hide Resolve, StandsFor, Unresolved, Quote, ErrorText;
  }

  /** A text with something else in place of each of its references. */
  function Filled(parts: seq<Part>, texts: Ref -> string): string {
    if |parts| == 0 then ""
    else (if parts[0].Plain? then [parts[0].c] else texts(parts[0].r)) + Filled(parts[1..], texts)
  }

  ghost predicate AreInserted(parts: seq<Part>, outputs: Outputs, lib: Library, escaped: bool, texts: Ref -> string) {
    forall p :: p in parts && p.Reference? ==> Inserted(p.r, outputs, lib, escaped, texts(p.r))
  }

  /** Substitution, in prompts as in scripts: the text with every reference replaced by exactly what is to be
      put in its place, and nothing else changed. */
  lemma {:induction false} SubstitutionFills(s: string, outputs: Outputs, lib: Library, escaped: bool,
                                             texts: Ref -> string)
    requires AreInserted(Parts(s), outputs, lib, escaped, texts)
    ensures Substitute(s, outputs, lib, escaped) == Filled(Parts(s), texts)
  {
    hide Insert, Inserted, MatchRef;
    if |s| > 0 {
      var m := MatchRef(s);
      var n := if m.Some? && |m.value.Text()| <= |s| then |m.value.Text()| else 1;
      var parts := Parts(s);
      assert parts[1..] == Parts(s[n..]);
      SubstitutionFills(s[n..], outputs, lib, escaped, texts);
      if parts[0].Reference? {
        OneIsInserted(parts[0].r, outputs, lib, escaped, texts(parts[0].r));
      }
    }
  }

  /** What a reference means in a template: text, all of it literal, numbers and booleans included. */
  function Meaning(i: Insertion): Word {
    if i.Quotable? then Literally(i.text)
    else Word(seq(|i.text|, k requires 0 <= k < |i.text| => Given(i.text[k])), false)
  }

  /** The reading of a script in which a reference is read as its value, in one go. */
  function LexParts(parts: seq<Part>, st: Lexer, values: Ref -> Word): Lexer {
    if |parts| == 0 then st
    else
      var next := if parts[0].Plain? then st.Step(parts[0].c) else st.Read(values(parts[0].r));
      LexParts(parts[1..], next, values)
  }

  /** Every reference stands at an unquoted position of the script, where what it stands for counts
      as read. */
  predicate AllUnquoted(parts: seq<Part>, st: Lexer, values: Ref -> Word) {
    |parts| > 0 ==>
      if parts[0].Plain? then AllUnquoted(parts[1..], st.Step(parts[0].c), values)
      else st.IsUnquoted() && AllUnquoted(parts[1..], st.Read(values(parts[0].r)), values)
  }

  predicate Resolvable(r: Ref, outputs: Outputs, lib: Library) {
    Resolve(r, outputs, lib).Ok?
  }

  /** Numbers print as JSON prints them. */
  predicate PrintsPlainly(r: Ref, outputs: Outputs, lib: Library) {
    var v := Resolve(r, outputs, lib);
    v.Ok? && v.value.Literal? ==> LiteralText(v.value.text)
  }

  ghost predicate AllResolvable(parts: seq<Part>, outputs: Outputs, lib: Library) {
    forall p :: p in parts && p.Reference? ==> Resolvable(p.r, outputs, lib) && PrintsPlainly(p.r, outputs, lib)
  }

  function Values(outputs: Outputs, lib: Library): Ref -> Word {
    (r: Ref) => var v := Resolve(r, outputs, lib); if v.Ok? then Meaning(v.value) else NO_WORD
  }

  // What the shell sees of a reading: it cannot tell a given character from an unquoted one.

  function SeenMark(m: Mark): Mark {
    if m.Given? then Bare(m.c) else m
  }

  function SeenWord(w: Word): Word {
    Word(seq(|w.marks|, i requires 0 <= i < |w.marks| => SeenMark(w.marks[i])), w.quoted)
  }

  function SeenToken(t: Token): Token {
    match t
    case Argument(w) => Argument(SeenWord(w))
    case IoNumber(w) => IoNumber(SeenWord(w))
    case _ => t
  }

  function SeenTokens(ts: seq<Token>): seq<Token> {
    seq(|ts|, i requires 0 <= i < |ts| => SeenToken(ts[i]))
  }

  function Seen(st: Lexer): Lexer {
    Lexer(SeenTokens(st.tokens), if st.word.Some? then Some(SeenWord(st.word.value)) else None, st.mode)
  }

  /** A redirection right behind a word that is all unquoted digits, some of them given: the shell takes
      the word for the number of a descriptor. */
  predicate Misreads(st: Lexer, c: char) {
    && st.IsUnquoted() && Redirects(c)
    && st.word.Some? && SeenWord(st.word.value).IsNumber() && !st.word.value.IsNumber()
  }

  /** No number that a reference stands for makes up, alone or with other digits, the word before a
      redirection, and no reference stands right behind an open dollar sign. */
  predicate Kept(parts: seq<Part>, st: Lexer, values: Ref -> Word) {
    |parts| > 0 ==>
      if parts[0].Plain? then !Misreads(st, parts[0].c) && Kept(parts[1..], st.Step(parts[0].c), values)
      else st.mode != Dollar && Kept(parts[1..], st.Read(values(parts[0].r)), values)
  }

  lemma SeenAppend(v: Word, w: Word)
    ensures SeenWord(v.Append(w)) == SeenWord(v).Append(SeenWord(w))
  {
  }

  lemma SeenAdd(st: Lexer, w: Word, next: Mode)
    ensures Seen(st.Add(w, next)) == Seen(st).Add(SeenWord(w), next)
  {
    assert SeenWord(NO_WORD) == NO_WORD;
    SeenAppend(st.word.GetOr(NO_WORD), w);
  }

  lemma SeenSnoc(ts: seq<Token>, us: seq<Token>)
    ensures SeenTokens(ts + us) == SeenTokens(ts) + SeenTokens(us)
  {
  }

  predicate DifferAt(a: seq<Token>, b: seq<Token>, k: nat) {
    k < |a| && k < |b| && a[k] != b[k]
  }

  /** The script is read as the template if and only if that is kept. */
  ghost predicate ReadAs(script: Lexer, template: Lexer, kept: bool) {
    kept <==> script == Seen(template)
  }

  lemma OnlySeenNumbers(w: Word)
    requires w.IsNumber()
    ensures SeenWord(w) == w
  {
  }

  lemma SeenEnded(st: Lexer, c: char)
    requires st.IsUnquoted()
    ensures Misreads(st, c) ==> DifferAt(SeenTokens(st.Ended(Operator(c))), Seen(st).Ended(Operator(c)), 0)
    ensures !Misreads(st, c) ==> SeenTokens(st.Ended(Operator(c))) == Seen(st).Ended(Operator(c))
    ensures SeenTokens(st.Ended(Blank)) == Seen(st).Ended(Blank)
  {
    if st.word.Some? {
      if st.word.value.IsNumber() {
        OnlySeenNumbers(st.word.value);
      }
      hide Word.IsNumber, SeenWord;
    }
  }

  lemma SeenClose(st: Lexer, t: Token)
    requires t.Blank? || t.Operator?
    ensures Seen(st.Close(t)).tokens == Seen(st).tokens + SeenTokens(st.Ended(t)) + [t]
    ensures Seen(st.Close(t)).word.None? && Seen(st.Close(t)).mode == Unquoted
  {
    hide Lexer.Ended;
    SeenSnoc(st.tokens, st.Ended(t));
    SeenSnoc(st.tokens + st.Ended(t), [t]);
    assert SeenTokens([t]) == [t];
  }

  lemma SeenPlainly(st: Lexer, c: char)
    requires st.IsUnquoted()
    ensures !Misreads(st, c) ==> Seen(st).Plainly(c) == Seen(st.Plainly(c))
    ensures Misreads(st, c) ==> DifferAt(Seen(st).Plainly(c).tokens, Seen(st.Plainly(c)).tokens, |st.tokens|)
  {
    SeenEnded(st, c);
    SeenClose(st, Operator(c));
    SeenClose(st, Blank);
    hide Lexer.Ended, Word.IsNumber;
    SeenAdds(st, c);
    hide SeenTokens, SeenWord, Misreads;
  }

  lemma SeenTaken(st: Lexer)
    ensures Seen(st.Taken()) == Seen(st).Taken()
  {
    if st.word.Some? && |st.word.value.marks| > 0 {
      assert SeenWord(st.Taken().word.value) == Seen(st).Taken().word.value;
    }
  }

  lemma SeenBehindDollar(st: Lexer, c: char)
    requires st.mode == Dollar && TakesDollar(c)
    ensures Seen(st).BehindDollar(c) == Seen(st.BehindDollar(c))
  {
    SeenTaken(st);
    SeenAdds(st.Taken(), c);
    hide SeenTokens, SeenWord, Seen, Lexer.Add, Lexer.Taken;
  }

  lemma SeenStep(st: Lexer, c: char)
    requires st.Sound()
    ensures !Misreads(st, c) ==> Seen(st).Step(c) == Seen(st.Step(c))
    ensures Misreads(st, c) ==> DifferAt(Seen(st).Step(c).tokens, Seen(st.Step(c)).tokens, |st.tokens|)
  {
    hide Lexer.Plainly, Lexer.BehindDollar, Lexer.Taken, Word.IsNumber, SeenWord;
    if st.mode == Unquoted {
      SeenPlainly(st, c);
    } else if st.mode == Dollar {
      SeenDollar(st, c);
    } else {
      SeenQuoted(st, c);
    }
  }

  lemma SeenDollar(st: Lexer, c: char)
    requires st.mode == Dollar
    ensures !Misreads(st, c) ==> Seen(st).Step(c) == Seen(st.Step(c))
    ensures Misreads(st, c) ==> DifferAt(Seen(st).Step(c).tokens, Seen(st.Step(c)).tokens, |st.tokens|)
  {
    if TakesDollar(c) {
      hide Lexer.BehindDollar, SeenWord, Word.IsNumber;
      SeenBehindDollar(st, c);
    } else {
      hide Lexer.Plainly, SeenWord, Word.IsNumber;
      SeenPlainly(st, c);
    }
  }

  lemma SeenQuoted(st: Lexer, c: char)
    requires !st.IsUnquoted()
    ensures Seen(st).Step(c) == Seen(st.Step(c))
  {
    SeenAdds(st, c);
    if st.mode == Comment {
      SeenCommentEnd(st);
    }
    hide SeenTokens, SeenWord, Word.IsNumber, Lexer.Close;
  }

  lemma SeenCommentEnd(st: Lexer)
    ensures Seen(st).Close(Operator('\n')) == Seen(st.Close(Operator('\n')))
  {
    SeenClose(st, Operator('\n'));
    hide Word.IsNumber;
  }

  /** The additions of one step. */
  lemma SeenAdds(st: Lexer, c: char)
    ensures forall next :: Seen(st.Add(Word([], true), next)) == Seen(st).Add(Word([], true), next)
    ensures forall next :: Seen(st.Add(Word([Bare(c)], false), next)) == Seen(st).Add(Word([Bare(c)], false), next)
    ensures forall next :: Seen(st.Add(Word([Hard(c)], true), next)) == Seen(st).Add(Word([Hard(c)], true), next)
    ensures forall next :: Seen(st.Add(Word([Ansi(c)], true), next)) == Seen(st).Add(Word([Ansi(c)], true), next)
    ensures forall next :: Seen(st.Add(Word([Soft(c)], true), next)) == Seen(st).Add(Word([Soft(c)], true), next)
    ensures forall next :: Seen(st.Add(Word([Soft('\\'), Soft(c)], true), next)) ==
                           Seen(st).Add(Word([Soft('\\'), Soft(c)], true), next)
  {
    SeenAddsAsIs(st, Word([], true));
    SeenAddsAsIs(st, Word([Bare(c)], false));
    SeenAddsAsIs(st, Word([Hard(c)], true));
    SeenAddsAsIs(st, Word([Ansi(c)], true));
    SeenAddsAsIs(st, Word([Soft(c)], true));
    SeenAddsAsIs(st, Word([Soft('\\'), Soft(c)], true));
  }

  lemma SeenAddsAsIs(st: Lexer, w: Word)
    requires forall i :: 0 <= i < |w.marks| ==> !w.marks[i].Given?
    ensures forall next :: Seen(st.Add(w, next)) == Seen(st).Add(w, next)
  {
    assert SeenWord(w) == w;
    forall next
      ensures Seen(st.Add(w, next)) == Seen(st).Add(w, next)
    {
      SeenAdd(st, w, next);
    }
  }

  lemma StepIsSound(st: Lexer, c: char)
    requires st.Sound()
    ensures st.Step(c).Sound()
  {
  }

  // ---------------------------------------------------------------------
  // Marks that stay
  // ---------------------------------------------------------------------

  /** The p-th mark of the k-th token, or of the word that is to become it, is `m` for good. */
  predicate Fixed(st: Lexer, k: nat, p: nat, m: Mark) {
    if k < |st.tokens| then
      && (st.tokens[k].Argument? || st.tokens[k].IoNumber?)
      && p < |st.tokens[k].word.marks| && st.tokens[k].word.marks[p] == m
    else
      && k == |st.tokens| && st.word.Some?
      && p < |st.word.value.marks| && st.word.value.marks[p] == m
      && (st.mode == Dollar ==> p + 1 < |st.word.value.marks|)
  }

  lemma FixedAdd(st: Lexer, w: Word, next: Mode, k: nat, p: nat, m: Mark)
    requires Fixed(st, k, p, m) && (next == Dollar ==> |w.marks| > 0)
    ensures Fixed(st.Add(w, next), k, p, m)
  {
  }

  lemma FixedTaken(st: Lexer, w: Word, next: Mode, k: nat, p: nat, m: Mark)
    requires Fixed(st, k, p, m) && st.mode == Dollar && next != Dollar
    ensures Fixed(st.Taken().Add(w, next), k, p, m)
  {
  }

  lemma FixedClose(st: Lexer, t: Token, k: nat, p: nat, m: Mark)
    requires Fixed(st, k, p, m)
    ensures Fixed(st.Close(t), k, p, m)
  {
    hide Word.IsNumber;
  }

  lemma FixedMode(st: Lexer, next: Mode, k: nat, p: nat, m: Mark)
    requires Fixed(st, k, p, m) && next != Dollar
    ensures Fixed(st.(mode := next), k, p, m)
  {
  }

  lemma FixedPlainly(st: Lexer, c: char, k: nat, p: nat, m: Mark)
    requires Fixed(st, k, p, m)
    ensures Fixed(st.Plainly(c), k, p, m)
  {
    FixedMode(st, Escaped, k, p, m);
    FixedMode(st, Comment, k, p, m);
    FixedAdd(st, Word([], true), Single, k, p, m);
    FixedAdd(st, Word([], true), Double, k, p, m);
    FixedAdd(st, Word([Bare(c)], false), Dollar, k, p, m);
    FixedAdd(st, Word([Bare(c)], false), Unquoted, k, p, m);
    FixedClose(st, Blank, k, p, m);
    FixedClose(st, Operator(c), k, p, m);
    hide Fixed, Lexer.Add, Lexer.Close;
  }

  lemma FixedBehindDollar(st: Lexer, c: char, k: nat, p: nat, m: Mark)
    requires Fixed(st, k, p, m) && st.mode == Dollar
    ensures Fixed(st.BehindDollar(c), k, p, m)
  {
    FixedTaken(st, Word([], true), DollarSingle, k, p, m);
    FixedTaken(st, Word([], true), Double, k, p, m);
    FixedTaken(st, Word([Bare(c)], false), Unquoted, k, p, m);
    FixedPlainly(st, c, k, p, m);
    hide Fixed, Lexer.Add, Lexer.Taken, Lexer.Plainly;
  }

  lemma FixedQuoted(st: Lexer, c: char, k: nat, p: nat, m: Mark)
    requires Fixed(st, k, p, m) && !st.IsUnquoted()
    ensures Fixed(st.Step(c), k, p, m)
  {
    FixedMode(st, Unquoted, k, p, m);
    FixedMode(st, Double, k, p, m);
    FixedMode(st, DoubleEscaped, k, p, m);
    FixedAdd(st, Word([Hard(c)], true), Unquoted, k, p, m);
    FixedAdd(st, Word([Hard(c)], true), Single, k, p, m);
    FixedAdd(st, Word([Hard(c)], true), Double, k, p, m);
    FixedAdd(st, Word([Soft(c)], true), Double, k, p, m);
    FixedAdd(st, Word([Soft('\\'), Soft(c)], true), Double, k, p, m);
    FixedAdd(st, Word([Ansi(c)], true), DollarSingle, k, p, m);
    FixedAdd(st, Word([Ansi(c)], true), DollarEscaped, k, p, m);
    FixedClose(st, Operator(c), k, p, m);
    hide Fixed, Lexer.Add, Lexer.Close;
  }

  lemma FixedStep(st: Lexer, c: char, k: nat, p: nat, m: Mark)
    requires Fixed(st, k, p, m)
    ensures Fixed(st.Step(c), k, p, m)
  {
    hide Fixed, Lexer.Plainly, Lexer.BehindDollar;
    if st.mode == Unquoted {
      FixedPlainly(st, c, k, p, m);
    } else if st.mode == Dollar {
      FixedBehindDollar(st, c, k, p, m);
    } else {
      FixedQuoted(st, c, k, p, m);
    }
  }

  lemma {:induction false} FixedLex(s: string, st: Lexer, k: nat, p: nat, m: Mark)
    requires Fixed(st, k, p, m)
    ensures Fixed(Lex(s, st), k, p, m)
  {
    hide Fixed, Lexer.Step;
    if |s| > 0 {
      FixedStep(st, s[0], k, p, m);
      FixedLex(s[1..], st.Step(s[0]), k, p, m);
    }
  }

  lemma FixedRead(st: Lexer, w: Word, k: nat, p: nat, m: Mark)
    requires Fixed(st, k, p, m)
    ensures Fixed(st.Read(w), k, p, m)
  {
    FixedAdd(st, w, if st.mode == Dollar then Unquoted else st.mode, k, p, m);
  }

  lemma {:induction false} FixedParts(parts: seq<Part>, st: Lexer, values: Ref -> Word, k: nat, p: nat, m: Mark)
    requires Fixed(st, k, p, m)
    ensures Fixed(LexParts(parts, st, values), k, p, m)
  {
    hide Fixed, Lexer.Step, Lexer.Read;
    if |parts| > 0 {
      if parts[0].Plain? {
        FixedStep(st, parts[0].c, k, p, m);
        FixedParts(parts[1..], st.Step(parts[0].c), values, k, p, m);
      } else {
        FixedRead(st, values(parts[0].r), k, p, m);
        FixedParts(parts[1..], st.Read(values(parts[0].r)), values, k, p, m);
      }
    }
  }

  lemma FixedSeen(st: Lexer, k: nat, p: nat, m: Mark)
    requires Fixed(st, k, p, m)
    ensures Fixed(Seen(st), k, p, SeenMark(m))
  {
  }

  lemma FixedOnce(st: Lexer, k: nat, p: nat, m: Mark, n: Mark)
    requires Fixed(st, k, p, m) && Fixed(st, k, p, n)
    ensures m == n
  {
  }

  // ---------------------------------------------------------------------
  // References at other positions
  // ---------------------------------------------------------------------

  /** Right behind an open dollar sign the shell takes the dollar sign together with what is inserted. */
  lemma InsertionTakesDollar(inserted: string, st: Lexer)
    requires |inserted| > 0 && TakesDollar(inserted[0]) && st.mode == Dollar && st.Sound()
    ensures Fixed(Lex(inserted, st), |st.tokens|, |st.word.value.marks| - 1, Sigil)
  {
    var k, p := |st.tokens|, |st.word.value.marks| - 1;
    assert Fixed(st.Step(inserted[0]), k, p, Sigil);
    hide Fixed, Lexer.Step;
    FixedLex(inserted[1..], st.Step(inserted[0]), k, p, Sigil);
  }

  lemma ReadKeepsDollar(st: Lexer, w: Word)
    requires st.mode == Dollar && st.Sound()
    ensures Fixed(st.Read(w), |st.tokens|, |st.word.value.marks| - 1, Bare('$'))
  {
  }

  /** Whatever the value, inside double quotes its quoted form is not read as the value: the quotes become
      part of the word. */
  lemma DoubleQuotedIsNeverItsValue(v: string, st: Lexer)
    requires st.mode == Double
    ensures Lex(Quote(v), st) != st.Add(Literally(v), Double)
  {
    var k, p := |st.tokens|, |st.word.GetOr(NO_WORD).marks|;
    var quote := Soft('\'');
    assert Quote(v)[0] == '\'';
    assert Fixed(st.Step('\''), k, p, quote);
    var meant := st.Add(Literally(v), Double);
    assert |v| > 0 ==> meant.word.value.marks[p] == Hard(v[0]);
    assert !Fixed(meant, k, p, quote);
    hide Fixed, Lexer.Step, Quote;
    FixedLex(Quote(v)[1..], st.Step('\''), k, p, quote);
  }

  /** A double quote as the value: it ends the quoting that it stands in. */
  lemma DoubleQuoteEscapes(st: Lexer)
    requires st.mode == Double
    ensures Lex(Quote(['"']), st).mode == Single
  {
    assert EscapeQuotes(['"']) == ['"'];
    assert Quote(['"']) == ['\'', '"', '\''];
    var s := ['\'', '"', '\''];
    assert s[1..] == ['"', '\''] && s[1..][1..] == ['\''] && s[1..][1..][1..] == [];
    var st1 := st.Step('\'');
    var st2 := st1.Step('"');
    assert st1.mode == Double && st2.mode == Unquoted && st2.Step('\'').mode == Single;
    assert Lex(s, st) == Lex(['"', '\''], st1) == Lex(['\''], st2) == st2.Step('\'');
  }

  // ---------------------------------------------------------------------
  // Whole scripts
  // ---------------------------------------------------------------------

  lemma {:induction false} TokensOnlyGrow(s: string, st: Lexer)
    ensures st.tokens <= Lex(s, st).tokens
  {
    if |s| > 0 {
      assert st.tokens <= st.Step(s[0]).tokens;
      TokensOnlyGrow(s[1..], st.Step(s[0]));
    }
  }

  lemma {:induction false} PartsOnlyGrow(parts: seq<Part>, st: Lexer, values: Ref -> Word)
    ensures st.tokens <= LexParts(parts, st, values).tokens
  {
    if |parts| > 0 {
      var next := if parts[0].Plain? then st.Step(parts[0].c) else st.Read(values(parts[0].r));
      assert st.tokens <= next.tokens;
      PartsOnlyGrow(parts[1..], next, values);
    }
  }

  lemma StillDiffer(a: seq<Token>, b: seq<Token>, as_: seq<Token>, bs: seq<Token>, k: nat)
    requires DifferAt(a, SeenTokens(b), k) && a <= as_ && b <= bs
    ensures DifferAt(as_, SeenTokens(bs), k)
  {
  }

  lemma InsertedIsRead(r: Ref, outputs: Outputs, lib: Library, st: Lexer)
    requires Resolvable(r, outputs, lib) && PrintsPlainly(r, outputs, lib) && st.mode == Unquoted
    ensures Lex(Insert(r, outputs, lib, true), st) == st.Add(SeenWord(Values(outputs, lib)(r)), Unquoted)
  {
    var v := Resolve(r, outputs, lib).value;
    if v.Quotable? {
      QuotedIsLiteral(v.text, st);
      assert SeenWord(Literally(v.text)) == Literally(v.text);
    } else {
      LiteralIsBare(v.text, st);
      assert SeenWord(Meaning(v)) == Word(Bares(v.text), false);
    }
  }

  lemma SubstituteParts(s: string, outputs: Outputs, lib: Library)
    requires |s| > 0
    ensures var m := MatchRef(s);
            if m.Some? && |m.value.Text()| <= |s| then
              var rest := s[|m.value.Text()|..];
              && Parts(s) == [Reference(m.value)] + Parts(rest)
              && Substitute(s, outputs, lib, true) ==
                 Insert(m.value, outputs, lib, true) + Substitute(rest, outputs, lib, true)
            else
              && Parts(s) == [Plain(s[0])] + Parts(s[1..])
              && Substitute(s, outputs, lib, true) == [s[0]] + Substitute(s[1..], outputs, lib, true)
  {
  }

  lemma LexStep(c: char, text: string, parts: seq<Part>, st: Lexer, script: Lexer, values: Ref -> Word)
    ensures Lex([c] + text, script) == Lex(text, script.Step(c))
    ensures LexParts([Plain(c)] + parts, st, values) == LexParts(parts, st.Step(c), values)
    ensures Kept([Plain(c)] + parts, st, values) <==>
              !Misreads(st, c) && Kept(parts, st.Step(c), values)
  {
    assert ([c] + text)[1..] == text && ([Plain(c)] + parts)[1..] == parts;
    hide Lexer.Step, Misreads;
  }

  /** One plain character of a template. */
  lemma PlainStep(c: char, text: string, parts: seq<Part>, st: Lexer, values: Ref -> Word)
    requires st.Sound()
    requires ReadAs(Lex(text, Seen(st.Step(c))), LexParts(parts, st.Step(c), values), Kept(parts, st.Step(c), values))
    ensures ReadAs(Lex([c] + text, Seen(st)), LexParts([Plain(c)] + parts, st, values),
                   Kept([Plain(c)] + parts, st, values))
  {
    LexStep(c, text, parts, st, Seen(st), values);
    SeenStep(st, c);
    hide Lex, LexParts, Kept, Lexer.Step;
    if Misreads(st, c) {
      MisreadStays(text, parts, Seen(st).Step(c), st.Step(c), |st.tokens|, values);
    }
  }

  lemma MisreadStays(text: string, parts: seq<Part>, script: Lexer, template: Lexer, k: nat, values: Ref -> Word)
    requires DifferAt(script.tokens, Seen(template).tokens, k)
    ensures Lex(text, script) != Seen(LexParts(parts, template, values))
  {
    hide Lex, LexParts;
    TokensOnlyGrow(text, script);
    PartsOnlyGrow(parts, template, values);
    StillDiffer(script.tokens, template.tokens, Lex(text, script).tokens, LexParts(parts, template, values).tokens, k);
  }

  /** One reference of a template, not behind an open dollar sign. */
  lemma ReferenceStep(r: Ref, inserted: string, text: string, parts: seq<Part>, st: Lexer, values: Ref -> Word)
    requires st.mode == Unquoted
    requires Lex(inserted, Seen(st)) == Seen(st).Add(SeenWord(values(r)), Unquoted)
    requires ReadAs(Lex(text, Seen(st.Read(values(r)))), LexParts(parts, st.Read(values(r)), values),
                    Kept(parts, st.Read(values(r)), values))
    ensures ReadAs(Lex(inserted + text, Seen(st)), LexParts([Reference(r)] + parts, st, values),
                   Kept([Reference(r)] + parts, st, values))
  {
    assert ([Reference(r)] + parts)[1..] == parts;
    assert st.Read(values(r)) == st.Add(values(r), Unquoted);
    hide ReadAs, Lexer.Step, Lexer.Add, Lexer.Read, Seen;
    LexConcat(inserted, text, Seen(st));
    SeenAdd(st, values(r), Unquoted);
  }

  /** One reference right behind an open dollar sign. */
  lemma DollarStep(r: Ref, inserted: string, text: string, parts: seq<Part>, st: Lexer, values: Ref -> Word)
    requires st.mode == Dollar && st.Sound() && |inserted| > 0 && TakesDollar(inserted[0])
    ensures ReadAs(Lex(inserted + text, Seen(st)), LexParts([Reference(r)] + parts, st, values),
                   Kept([Reference(r)] + parts, st, values))
  {
    assert ([Reference(r)] + parts)[1..] == parts;
    var k, p := |st.tokens|, |st.word.value.marks| - 1;
    var script, template := Lex(inserted, Seen(st)), st.Read(values(r));
    InsertionTakesDollar(inserted, Seen(st));
    ReadKeepsDollar(st, values(r));
    hide Fixed, Lexer.Step, Lexer.Read, Seen;
    LexConcat(inserted, text, Seen(st));
    FixedLex(text, script, k, p, Sigil);
    FixedParts(parts, template, values, k, p, Bare('$'));
    FixedSeen(LexParts(parts, template, values), k, p, Bare('$'));
    if Lex(text, script) == Seen(LexParts(parts, template, values)) {
      FixedOnce(Lex(text, script), k, p, Sigil, Bare('$'));
    }
  }

  /** The word is what the reference stands for: text, all of it literal, or a given number or boolean, which
      is printed as JSON prints them. */
  ghost predicate IsValue(r: Ref, outputs: Outputs, lib: Library, w: Word) {
    exists i :: StandsFor(r, outputs, lib, i) && |w.marks| == |i.text| && (i.Literal? ==> LiteralText(i.text)) &&
      w.quoted == i.Quotable? &&
      forall k :: 0 <= k < |i.text| ==> w.marks[k] == if i.Quotable? then Hard(i.text[k]) else Given(i.text[k])
  }

  ghost predicate AreValues(parts: seq<Part>, outputs: Outputs, lib: Library, values: Ref -> Word) {
    forall p :: p in parts && p.Reference? ==> IsValue(p.r, outputs, lib, values(p.r))
  }

  lemma ValueIsMeaning(r: Ref, outputs: Outputs, lib: Library, w: Word)
    requires IsValue(r, outputs, lib, w)
    ensures w == Values(outputs, lib)(r) && Resolvable(r, outputs, lib) && PrintsPlainly(r, outputs, lib)
  {
    ReferenceStandsFor(r, outputs, lib);
    hide StandsFor, Resolve;
    var i := Resolve(r, outputs, lib).value;
    assert w.marks == Meaning(i).marks;
  }

  lemma {:induction false} SameValues(parts: seq<Part>, st: Lexer, f: Ref -> Word, g: Ref -> Word)
    requires forall p :: p in parts && p.Reference? ==> f(p.r) == g(p.r)
    ensures LexParts(parts, st, f) == LexParts(parts, st, g)
    ensures AllUnquoted(parts, st, f) == AllUnquoted(parts, st, g) && Kept(parts, st, f) == Kept(parts, st, g)
  {
    hide Lexer.Step, Lexer.Read, Misreads;
    if |parts| > 0 {
      assert parts[0] in parts;
      SameValues(parts[1..], if parts[0].Plain? then st.Step(parts[0].c) else st.Read(f(parts[0].r)), f, g);
    }
  }

  /** The shell reads the substituted script as it reads the template, with each reference replaced by
      exactly what it stands for, if and only if no number that a reference stands for makes up the word
      before a redirection and no reference stands right behind an open dollar sign. Text may consist of any
      characters: no quote, operator or reference inside it is ever read as one. */
  lemma SubstitutionKeepsLexing(s: string, outputs: Outputs, lib: Library, st: Lexer, values: Ref -> Word)
    requires AreValues(Parts(s), outputs, lib, values) && AllUnquoted(Parts(s), st, values) && st.Sound()
    ensures Lex(Substitute(s, outputs, lib, true), Seen(st)) == Seen(LexParts(Parts(s), st, values))
            <==> Kept(Parts(s), st, values)
  {
    hide Lexer.Sound, Parts, Values, IsValue, AllUnquoted, Lex, LexParts, Kept, Substitute, Seen, Resolvable;
    hide PrintsPlainly;
    forall p | p in Parts(s) && p.Reference?
      ensures values(p.r) == Values(outputs, lib)(p.r)
      ensures Resolvable(p.r, outputs, lib) && PrintsPlainly(p.r, outputs, lib)
    {
      ValueIsMeaning(p.r, outputs, lib, values(p.r));
    }
    SameValues(Parts(s), st, values, Values(outputs, lib));
    LexingIsKept(s, outputs, lib, st);
  }

  lemma {:induction false} LexingIsKept(s: string, outputs: Outputs, lib: Library, st: Lexer)
    requires AllResolvable(Parts(s), outputs, lib) && st.Sound()
    requires AllUnquoted(Parts(s), st, Values(outputs, lib))
    ensures Lex(Substitute(s, outputs, lib, true), Seen(st)) == Seen(LexParts(Parts(s), st, Values(outputs, lib)))
            <==> Kept(Parts(s), st, Values(outputs, lib))
  {
    if |s| > 0 {
      hide ReadAs, Lex, LexParts, Kept, AllUnquoted, AllResolvable;
      hide Substitute, Parts, Insert, MatchRef, Values, Seen, Lexer.Step, Lexer.Read;
      var m := MatchRef(s);
      SubstituteParts(s, outputs, lib);
      if m.Some? && |m.value.Text()| <= |s| {
        var rest := s[|m.value.Text()|..];
        UnquotedStep(Reference(m.value), Parts(rest), st, outputs, lib);
        ReadIsSound(st, Values(outputs, lib)(m.value));
        LexingIsKept(rest, outputs, lib, st.Read(Values(outputs, lib)(m.value)));
        OneReference(m.value, rest, outputs, lib, st);
      } else {
        UnquotedStep(Plain(s[0]), Parts(s[1..]), st, outputs, lib);
        StepIsSound(st, s[0]);
        LexingIsKept(s[1..], outputs, lib, st.Step(s[0]));
        OnePlain(s[0], s[1..], outputs, lib, st);
      }
    }
  }

  lemma ReadIsSound(st: Lexer, w: Word)
    ensures st.Read(w).Sound()
  {
  }

  ghost predicate ScriptReadAs(s: string, outputs: Outputs, lib: Library, st: Lexer) {
    ReadAs(Lex(Substitute(s, outputs, lib, true), Seen(st)), LexParts(Parts(s), st, Values(outputs, lib)),
           Kept(Parts(s), st, Values(outputs, lib)))
  }

  lemma OnePlain(c: char, rest: string, outputs: Outputs, lib: Library, st: Lexer)
    requires st.Sound() && ScriptReadAs(rest, outputs, lib, st.Step(c))
    ensures ReadAs(Lex([c] + Substitute(rest, outputs, lib, true), Seen(st)),
                   LexParts([Plain(c)] + Parts(rest), st, Values(outputs, lib)),
                   Kept([Plain(c)] + Parts(rest), st, Values(outputs, lib)))
  {
    hide ReadAs, Lex, LexParts, Kept, Substitute, Parts, Values, Seen, Lexer.Step;
    PlainStep(c, Substitute(rest, outputs, lib, true), Parts(rest), st, Values(outputs, lib));
  }

  lemma OneReference(r: Ref, rest: string, outputs: Outputs, lib: Library, st: Lexer)
    requires st.Sound() && st.IsUnquoted() && Resolvable(r, outputs, lib) && PrintsPlainly(r, outputs, lib)
    requires ScriptReadAs(rest, outputs, lib, st.Read(Values(outputs, lib)(r)))
    ensures ReadAs(Lex(Insert(r, outputs, lib, true) + Substitute(rest, outputs, lib, true), Seen(st)),
                   LexParts([Reference(r)] + Parts(rest), st, Values(outputs, lib)),
                   Kept([Reference(r)] + Parts(rest), st, Values(outputs, lib)))
  {
    SeenMode(st);
    hide ReadAs, Lex, LexParts, Kept, Substitute, Parts, Insert, Values, Seen, Lexer.Read;
    var inserted, text := Insert(r, outputs, lib, true), Substitute(rest, outputs, lib, true);
    if st.mode == Unquoted {
      InsertedIsRead(r, outputs, lib, Seen(st));
      ReferenceStep(r, inserted, text, Parts(rest), st, Values(outputs, lib));
    } else {
      InsertedStarts(r, outputs, lib);
      DollarStep(r, inserted, text, Parts(rest), st, Values(outputs, lib));
    }
  }

  lemma InsertedStarts(r: Ref, outputs: Outputs, lib: Library)
    requires Resolvable(r, outputs, lib) && PrintsPlainly(r, outputs, lib)
    ensures |Insert(r, outputs, lib, true)| > 0 && TakesDollar(Insert(r, outputs, lib, true)[0])
  {
    var v := Resolve(r, outputs, lib).value;
    assert v.Literal? ==> IsLiteralChar(v.text[0]);
  }

  lemma UnquotedStep(part: Part, parts: seq<Part>, st: Lexer, outputs: Outputs, lib: Library)
    requires AllUnquoted([part] + parts, st, Values(outputs, lib)) && AllResolvable([part] + parts, outputs, lib)
    ensures AllResolvable(parts, outputs, lib)
    ensures if part.Plain? then AllUnquoted(parts, st.Step(part.c), Values(outputs, lib))
            else st.IsUnquoted() && AllUnquoted(parts, st.Read(Values(outputs, lib)(part.r)), Values(outputs, lib))
    ensures part.Reference? ==> Resolvable(part.r, outputs, lib) && PrintsPlainly(part.r, outputs, lib)
  {
    hide Lexer.Step, Lexer.Read, Resolvable, PrintsPlainly, Values;
    assert ([part] + parts)[1..] == parts && part in [part] + parts;
    assert forall p :: p in parts ==> p in [part] + parts;
  }

  lemma SeenMode(st: Lexer)
    ensures Seen(st).mode == st.mode
  {
  }

  const COUNT_REF := Ref("a", Some("n"))
  const COUNT_OUTPUTS: Outputs := map["a" := Completed("", None, Some(JObject(map["n" := JNumber("2")])), None)]

  /** `$a.output.n>f`, where the reference stands for the number 2: an argument in the template, and the
      number of a descriptor in the script. */
  lemma NumberBecomesDescriptor(lib: Library)
    ensures var script := COUNT_REF.Text() + ">f";
            var values := Values(COUNT_OUTPUTS, lib);
            var given := Word([Given('2')], false);
            && AllResolvable(Parts(script), COUNT_OUTPUTS, lib) && AllUnquoted(Parts(script), START, values)
            && Substitute(script, COUNT_OUTPUTS, lib, true) == "2>f"
            && LexParts(Parts(script), START, values).tokens == [Argument(given), Operator('>')]
            && Lex("2>f", START).tokens == [IoNumber(SeenWord(given)), Operator('>')]
  {
    CountScript(lib);
    CountTemplate(lib);
    ReadsDescriptor();
    hide Parts, Substitute, Lex, LexParts, Values, Ref.Text;
    assert SeenWord(Word([Given('2')], false)) == Word([Bare('2')], false);
  }

  lemma CountResolves(lib: Library)
    ensures Resolve(COUNT_REF, COUNT_OUTPUTS, lib) == Ok(Literal("2"))
    ensures Values(COUNT_OUTPUTS, lib)(COUNT_REF) == Word([Given('2')], false)
  {
    assert Meaning(Literal("2")).marks == [Given('2')];
  }

  lemma CountScript(lib: Library)
    ensures var script := COUNT_REF.Text() + ">f";
            && Parts(script) == [Reference(COUNT_REF)] + [Plain('>'), Plain('f')]
            && Substitute(script, COUNT_OUTPUTS, lib, true) == "2>f"
  {
    CountResolves(lib);
    assert Insert(COUNT_REF, COUNT_OUTPUTS, lib, true) == "2";
    hide Resolve, Insert;
    TextIsMatched(COUNT_REF, ">f");
    PlainTail(COUNT_OUTPUTS, lib);
    hide Ref.Text, MatchRef;
    SubstituteParts(COUNT_REF.Text() + ">f", COUNT_OUTPUTS, lib);
    hide Parts, Substitute;
    assert "2" + ">f" == "2>f";
  }

  lemma CountTemplate(lib: Library)
    ensures var parts := [Reference(COUNT_REF)] + [Plain('>'), Plain('f')];
            var values := Values(COUNT_OUTPUTS, lib);
            var given := Word([Given('2')], false);
            && AllResolvable(parts, COUNT_OUTPUTS, lib) && AllUnquoted(parts, START, values)
            && LexParts(parts, START, values).tokens == [Argument(given), Operator('>')]
  {
    CountResolves(lib);
    var parts := [Reference(COUNT_REF)] + [Plain('>'), Plain('f')];
    assert LiteralText("2");
    assert Resolvable(COUNT_REF, COUNT_OUTPUTS, lib) && PrintsPlainly(COUNT_REF, COUNT_OUTPUTS, lib);
    assert forall p :: p in parts && p.Reference? ==> p.r == COUNT_REF;
    assert AllResolvable(parts, COUNT_OUTPUTS, lib);
    hide Resolve, Resolvable, PrintsPlainly;
    CountIsRead(Values(COUNT_OUTPUTS, lib));
  }

  lemma CountIsRead(values: Ref -> Word)
    requires values(COUNT_REF) == Word([Given('2')], false)
    ensures var parts := [Reference(COUNT_REF)] + [Plain('>'), Plain('f')];
            && AllUnquoted(parts, START, values)
            && LexParts(parts, START, values).tokens == [Argument(Word([Given('2')], false)), Operator('>')]
  {
    var parts := [Reference(COUNT_REF)] + [Plain('>'), Plain('f')];
    var given := Word([Given('2')], false);
    var tail := [Plain('>'), Plain('f')];
    assert parts[1..] == tail && tail[1..] == [Plain('f')] && [Plain('f')][1..] == [];
    assert [] + given.marks == given.marks && given.marks[0].Given?;
    var st := START.Read(values(COUNT_REF));
    assert st.word == Some(given);
    var closed := st.Step('>');
    assert closed.tokens == [Argument(given), Operator('>')] && closed.mode == Unquoted;
    assert LexParts(parts, START, values) == LexParts(tail, st, values);
    assert LexParts(tail, st, values) == LexParts([Plain('f')], closed, values) == closed.Step('f');
    assert AllUnquoted([Plain('f')], closed, values);
    assert AllUnquoted(tail, st, values);
  }

  lemma PlainTail(outputs: Outputs, lib: Library)
    ensures Parts(">f") == [Plain('>'), Plain('f')] && Substitute(">f", outputs, lib, true) == ">f"
  {
    assert ">f"[1..] == "f" && "f"[1..] == "";
    assert Parts("f") == [Plain('f')] && Substitute("f", outputs, lib, true) == "f";
  }

  lemma ReadsDescriptor()
    ensures Lex("2>f", START).tokens == [IoNumber(Word([Bare('2')], false)), Operator('>')]
  {
    assert "2>f"[1..] == ">f" && ">f"[1..] == "f" && "f"[1..] == "";
    assert [] + [Bare('2')] == [Bare('2')];
    var st := START.Step('2');
    assert st.word == Some(Word([Bare('2')], false)) && st.tokens == [];
    assert st.Step('>').tokens == [IoNumber(Word([Bare('2')], false)), Operator('>')];
  }

  const TEXT_REF := Ref("a", None)
  const TEXT_OUTPUTS: Outputs := map["a" := Completed(['\\', 'n'], None, None, None)]

  /** `$$a.output`, where the reference stands for a backslash and an n: literal characters behind a dollar
      sign in the template, and an escape inside dollar-single-quotes in the script. */
  lemma DollarTakesQuotes(lib: Library)
    ensures var script := ['$'] + TEXT_REF.Text();
            var values := Values(TEXT_OUTPUTS, lib);
            && AllResolvable(Parts(script), TEXT_OUTPUTS, lib) && AllUnquoted(Parts(script), START, values)
            && LexParts(Parts(script), START, values).word ==
               Some(Word([Bare('$'), Hard('\\'), Hard('n')], true))
            && Lex(Substitute(script, TEXT_OUTPUTS, lib, true), START).word ==
               Some(Word([Sigil, Ansi('\\'), Ansi('n')], true))
  {
    DollarScript(lib);
    DollarTemplate(lib);
    ReadsDollarQuotes();
    hide Parts, Substitute, Lex, LexParts, Values, Ref.Text;
  }

  lemma TextResolves(lib: Library)
    ensures Resolve(TEXT_REF, TEXT_OUTPUTS, lib) == Ok(Quotable(['\\', 'n']))
    ensures Insert(TEXT_REF, TEXT_OUTPUTS, lib, true) == ['\'', '\\', 'n', '\'']
    ensures Values(TEXT_OUTPUTS, lib)(TEXT_REF) == Word([Hard('\\'), Hard('n')], true)
  {
    assert ['\\', 'n'][1..] == ['n'] && EscapeQuotes(['n']) == ['n'];
    assert EscapeQuotes(['\\', 'n']) == ['\\', 'n'];
    assert Hards(['\\', 'n']) == [Hard('\\'), Hard('n')];
  }

  lemma DollarScript(lib: Library)
    ensures var script := ['$'] + TEXT_REF.Text();
            && Parts(script) == [Plain('$')] + [Reference(TEXT_REF)]
            && Substitute(script, TEXT_OUTPUTS, lib, true) == ['$', '\'', '\\', 'n', '\'']
  {
    TextResolves(lib);
    var t := TEXT_REF.Text();
    assert t + "" == t && t[0] == '$';
    TextIsMatched(TEXT_REF, "");
    assert (['$'] + t)[1..] == t && MatchRef(['$'] + t).None?;
    SubstituteParts(['$'] + t, TEXT_OUTPUTS, lib);
    SubstituteParts(t, TEXT_OUTPUTS, lib);
    assert t[|t|..] == "";
    hide MatchRef, Resolve, Insert, Ref.Text;
    assert Parts(t) == [Reference(TEXT_REF)];
    assert Substitute(t, TEXT_OUTPUTS, lib, true) == ['\'', '\\', 'n', '\''];
  }

  lemma DollarTemplate(lib: Library)
    ensures var parts := [Plain('$')] + [Reference(TEXT_REF)];
            var values := Values(TEXT_OUTPUTS, lib);
            && AllResolvable(parts, TEXT_OUTPUTS, lib) && AllUnquoted(parts, START, values)
            && LexParts(parts, START, values).word == Some(Word([Bare('$'), Hard('\\'), Hard('n')], true))
  {
    TextResolves(lib);
    hide Resolve;
    var parts := [Plain('$')] + [Reference(TEXT_REF)];
    var values := Values(TEXT_OUTPUTS, lib);
    hide Values;
    assert parts[1..] == [Reference(TEXT_REF)] && [Reference(TEXT_REF)][1..] == [];
    var st := START.Step('$');
    assert [] + [Bare('$')] == [Bare('$')];
    assert st.mode == Dollar && st.word == Some(Word([Bare('$')], false));
    assert [Bare('$')] + [Hard('\\'), Hard('n')] == [Bare('$'), Hard('\\'), Hard('n')];
    assert LexParts(parts, START, values) == LexParts([Reference(TEXT_REF)], st, values);
    assert LexParts([Reference(TEXT_REF)], st, values) == st.Read(values(TEXT_REF));
    assert AllUnquoted([Reference(TEXT_REF)], st, values);
  }

  lemma LexCons(c: char, rest: string, st: Lexer)
    ensures Lex([c] + rest, st) == Lex(rest, st.Step(c))
  {
    assert ([c] + rest)[1..] == rest;
    hide Lexer.Step;
  }

  lemma DollarSingleSteps()
    ensures var st := START.Step('$').Step('\'').Step('\\').Step('n').Step('\'');
            st.word == Some(Word([Sigil, Ansi('\\'), Ansi('n')], true))
  {
    var st1 := START.Step('$');
    assert [] + [Bare('$')] == [Bare('$')] && [Bare('$')][..0] + [Sigil] + [] == [Sigil];
    var st2 := st1.Step('\'');
    assert st2.mode == DollarSingle && st2.word == Some(Word([Sigil], true));
    assert [Sigil] + [Ansi('\\')] == [Sigil, Ansi('\\')];
    var st3 := st2.Step('\\');
    assert st3.mode == DollarEscaped && st3.word == Some(Word([Sigil, Ansi('\\')], true));
    assert [Sigil, Ansi('\\')] + [Ansi('n')] == [Sigil, Ansi('\\'), Ansi('n')];
  }

  lemma ReadsDollarQuotes()
    ensures Lex(['$', '\'', '\\', 'n', '\''], START).word == Some(Word([Sigil, Ansi('\\'), Ansi('n')], true))
  {
    DollarSingleSteps();
    hide Lexer.Step;
    assert ['$', '\'', '\\', 'n', '\''] == ['$'] + (['\''] + (['\\'] + (['n'] + (['\''] + []))));
    var st1 := START.Step('$');
    var st2 := st1.Step('\'');
    var st3 := st2.Step('\\');
    LexCons('$', ['\''] + (['\\'] + (['n'] + (['\''] + []))), START);
    LexCons('\'', ['\\'] + (['n'] + (['\''] + [])), st1);
    LexCons('\\', ['n'] + (['\''] + []), st2);
    LexCons('n', ['\''] + [], st3);
    LexCons('\'', [], st3.Step('n'));
  }

  // ---------------------------------------------------------------------
  // Unresolvable references
  // ---------------------------------------------------------------------

  predicate QuoteFree(s: string) {
    forall i :: 0 <= i < |s| ==> s[i] != '\''
  }

  lemma {:induction false} LexSingle(s: string, st: Lexer)
    requires QuoteFree(s) && st.mode == Single
    ensures Lex(s, st).mode == Single && Lex(s, st).tokens == st.tokens && (st.word.Some? ==> Lex(s, st).word.Some?)
  {
    if |s| > 0 {
      LexSingle(s[1..], st.Step(s[0]));
    }
  }

  lemma RefTextIsQuoteFree(r: Ref)
    requires r.Valid()
    ensures QuoteFree(r.Text())
  {
    assert QuoteFree(r.nodeId);
    assert r.field.Some? ==> QuoteFree(r.field.value);
  }

  /** An error message falls apart into several words. */
  lemma ErrorTextIsWords(r: Ref, e: RefError, st: Lexer)
    requires r.Valid() && st.mode == Unquoted
    ensures |Lex(ErrorText(r, e), st).tokens| > |st.tokens|
  {
    var tail := "references field '" + r.field.GetOr("") + "'" + Reason(e, r.nodeId, r.field.GetOr(""));
    SecondWord(r.Text(), tail, st) by {
      RefTextIsQuoteFree(r);
    }
  }

  lemma SecondWord(quoted: string, tail: string, st: Lexer)
    requires QuoteFree(quoted) && st.mode == Unquoted
    ensures |Lex(['\''] + (quoted + (['\'', ' '] + tail)), st).tokens| > |st.tokens|
  {
    var rest := quoted + (['\'', ' '] + tail);
    var inside := st.Add(Word([], true), Single);
    assert (['\''] + rest)[1..] == rest;
    LexConcat(quoted, ['\'', ' '] + tail, inside);
    LexSingle(quoted, inside);
    LexConcat(['\'', ' '], tail, Lex(quoted, inside));
    var closed := Lex(quoted, inside).(mode := Unquoted);
    assert closed.word.Some? && Lex(quoted, inside).Step('\'') == closed;
    assert ['\'', ' '][1..] == [' '];
    assert Lex(['\'', ' '], Lex(quoted, inside)) == Lex([' '], closed);
    assert Lex([' '], closed) == closed.Step(' ');
    TokensOnlyGrow(tail, closed.Close(Blank));
  }

  /** What is inserted for a reference stays within one word exactly when the reference resolves:
      an unresolvable one puts the words of its error message into the script. */
  lemma OneWordIffResolvable(r: Ref, outputs: Outputs, lib: Library, st: Lexer)
    requires r.Valid() && st.mode == Unquoted && PrintsPlainly(r, outputs, lib)
    ensures Lex(Insert(r, outputs, lib, true), st).tokens == st.tokens <==> Resolvable(r, outputs, lib)
  {
    var v := Resolve(r, outputs, lib);
    if v.Ok? {
      InsertedIsRead(r, outputs, lib, st);
    } else {
      ErrorTextIsWords(r, v.error, st);
    }
  }

  /** A script that refers to a field of a skipped node: the words of the error message are put into
      it. */
  lemma SkippedProducerSpills(lib: Library)
    ensures var r := Ref("a", Some("f"));
            var outputs: Outputs := map["a" := Skipped("")];
            && Resolve(r, outputs, lib) == Err(ProducerNotRun)
            && |Lex(Insert(r, outputs, lib, true), START).tokens| > 0
  {
    hide ErrorText;
    ErrorTextIsWords(Ref("a", Some("f")), ProducerNotRun, START);
  }
}
