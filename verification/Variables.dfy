/** Workflow variables in prompts: nine plain replacements one after the other, and the context
    variables, which end at a word boundary. */
module Variables {
  import opened Schema
  import opened ContextVariables

  // ---------------------------------------------------------------------
  // The nine plain variables
  // ---------------------------------------------------------------------

  datatype Variable =
    | WorkflowId | ArtifactsDir | BaseBranch | DocsDir | UserMessage
    | Arguments | LoopUserInput | RejectionReason | LoopPrevOutput
  {
    function Body(): string {
      match this
      case WorkflowId => "WORKFLOW_ID"
      case ArtifactsDir => "ARTIFACTS_DIR"
      case BaseBranch => "BASE_BRANCH"
      case DocsDir => "DOCS_DIR"
      case UserMessage => "USER_MESSAGE"
      case Arguments => "ARGUMENTS"
      case LoopUserInput => "LOOP_USER_INPUT"
      case RejectionReason => "REJECTION_REASON"
      case LoopPrevOutput => "LOOP_PREV_OUTPUT"
    }

    function Name(): string {
      "$" + Body()
    }
  }

  const SAFE := [WorkflowId, ArtifactsDir, BaseBranch, DocsDir]
  const USER_CONTROLLED := [UserMessage, Arguments, LoopUserInput, RejectionReason, LoopPrevOutput]

  /** All occurrences from left to right, without looking at what was inserted. */
  function Replace(s: string, pattern: string, value: string): string
    requires |pattern| > 0
  {
    if |s| == 0 then ""
    else if pattern <= s then value + Replace(s[|pattern|..], pattern, value)
    else [s[0]] + Replace(s[1..], pattern, value)
  }

  type Values = Variable -> string

  function ReplaceInOrder(s: string, order: seq<Variable>, values: Values): string
    decreases |order|
  {
    if |order| == 0 then s
    else ReplaceInOrder(Replace(s, order[0].Name(), values(order[0])), order[1..], values)
  }

  /** A template: literal text and variables. */
  datatype Token = Lit(text: string) | Var(variable: Variable)

  predicate DollarFree(s: string) {
    forall i :: 0 <= i < |s| ==> s[i] != '$'
  }

  ghost predicate PlainTemplate(ts: seq<Token>) {
    forall i :: 0 <= i < |ts| && ts[i].Lit? ==> DollarFree(ts[i].text)
  }

  /** The template with the variables in `chosen` replaced, all at once. */
  function Render(ts: seq<Token>, chosen: set<Variable>, values: Values): string {
    if |ts| == 0 then ""
    else
      (match ts[0]
       case Lit(text) => text
       case Var(v) => if v in chosen then values(v) else v.Name())
      + Render(ts[1..], chosen, values)
  }

  function TextOf(ts: seq<Token>): string {
    Render(ts, {}, _ => "")
  }

  /** Where the names of two different variables differ. */
  function DiffersAt(v: Variable, w: Variable): (i: nat)
    requires v != w
    ensures i < |v.Body()| && i < |w.Body()| && v.Body()[i] != w.Body()[i]
  {
    if v.Arguments? && w.ArtifactsDir? then 2
    else if v.ArtifactsDir? && w.Arguments? then 2
    else if v.LoopUserInput? && w.LoopPrevOutput? then 5
    else if v.LoopPrevOutput? && w.LoopUserInput? then 5
    else 0
  }

  lemma BodiesAreDollarFree(v: Variable)
    ensures DollarFree(v.Body())
  {
  }

  lemma {:induction false} OverLiteral(t: string, rest: string, pattern: string, value: string)
    requires DollarFree(t) && |pattern| > 0 && pattern[0] == '$'
    ensures Replace(t + rest, pattern, value) == t + Replace(rest, pattern, value)
  {
    if |t| == 0 {
      assert t + rest == rest;
    } else {
      assert (t + rest)[0] == t[0] != pattern[0];
      assert (t + rest)[1..] == t[1..] + rest;
      OverLiteral(t[1..], rest, pattern, value);
      assert [t[0]] + t[1..] == t;
    }
  }

  /** A different name is passed over, whatever follows it. */
  lemma OverOther(body: string, rest: string, pattern: string, value: string, i: nat)
    requires DollarFree(body) && |pattern| > 0 && pattern[0] == '$'
    requires i < |body| && i + 1 < |pattern| && pattern[i + 1] != body[i]
    ensures Replace("$" + body + rest, pattern, value) == "$" + body + Replace(rest, pattern, value)
  {
    var s := "$" + body + rest;
    assert s[i + 1] == body[i];
    assert s[1..] == body + rest;
    OverLiteral(body, rest, pattern, value);
    assert "$" + body + Replace(rest, pattern, value) == ['$'] + (body + Replace(rest, pattern, value));
  }

  lemma OverOtherVariable(w: Variable, rest: string, v: Variable, value: string)
    requires v != w
    ensures Replace(w.Name() + rest, v.Name(), value) == w.Name() + Replace(rest, v.Name(), value)
  {
    BodiesAreDollarFree(w);
    OverOther(w.Body(), rest, v.Name(), value, DiffersAt(v, w));
  }

  /** One replacement pass moves one variable from the unreplaced to the replaced. */
  lemma {:induction false} OnePass(ts: seq<Token>, chosen: set<Variable>, v: Variable, values: Values)
    requires PlainTemplate(ts) && forall w :: DollarFree(values(w))
    ensures Replace(Render(ts, chosen, values), v.Name(), values(v)) == Render(ts, chosen + {v}, values)
  {
    if |ts| > 0 {
      var rest := Render(ts[1..], chosen, values);
      OnePass(ts[1..], chosen, v, values);
      match ts[0]
      case Lit(text) =>
        OverLiteral(text, rest, v.Name(), values(v));
      case Var(w) =>
        if w in chosen {
          OverLiteral(values(w), rest, v.Name(), values(v));
        } else if w == v {
          assert (v.Name() + rest)[|v.Name()|..] == rest;
        } else {
          OverOtherVariable(w, rest, v, values(v));
        }
    }
  }

  lemma {:induction false} PassesFrom(ts: seq<Token>, chosen: set<Variable>, order: seq<Variable>, values: Values)
    requires PlainTemplate(ts) && forall w :: DollarFree(values(w))
    ensures ReplaceInOrder(Render(ts, chosen, values), order, values) ==
            Render(ts, chosen + (set v | v in order), values)
    decreases |order|
  {
    if |order| == 0 {
      assert chosen + (set v | v in order) == chosen;
    } else {
      OnePass(ts, chosen, order[0], values);
      PassesFrom(ts, chosen + {order[0]}, order[1..], values);
      assert chosen + {order[0]} + (set v | v in order[1..]) == chosen + set v | v in order;
    }
  }

  /** Replacing one variable after another, in any order, is replacing them all at once. */
  lemma SequentialIsSimultaneous(ts: seq<Token>, order: seq<Variable>, values: Values)
    requires PlainTemplate(ts) && forall w :: DollarFree(values(w))
    ensures ReplaceInOrder(TextOf(ts), order, values) == Render(ts, (set v | v in order), values)
  {
    RenderNothing(ts, values, _ => "");
    PassesFrom(ts, {}, order, values);
    assert {} + (set v | v in order) == set v | v in order;
  }

  lemma {:induction false} RenderNothing(ts: seq<Token>, f: Values, g: Values)
    ensures Render(ts, {}, f) == Render(ts, {}, g)
  {
    if |ts| > 0 {
      RenderNothing(ts[1..], f, g);
    }
  }

  predicate Contains(s: string, pattern: string) {
    exists i :: 0 <= i <= |s| && pattern <= s[i..]
  }

  lemma ContainsFromOne(s: string, pattern: string)
    requires |s| > 0
    ensures Contains(s, pattern) <==> pattern <= s || Contains(s[1..], pattern)
  {
    assert s[0..] == s;
    if i :| 0 <= i <= |s[1..]| && pattern <= s[1..][i..] {
      assert s[1..][i..] == s[i + 1..];
    }
    if i :| 1 <= i <= |s| && pattern <= s[i..] {
      assert s[1..][i - 1..] == s[i..];
    }
  }

  lemma {:induction false} ContainsBehind(t: string, rest: string, pattern: string)
    requires DollarFree(t) && |pattern| > 0 && pattern[0] == '$'
    ensures Contains(t + rest, pattern) <==> Contains(rest, pattern)
  {
    if |t| == 0 {
      assert t + rest == rest;
    } else {
      assert (t + rest)[0] == t[0] != pattern[0];
      assert (t + rest)[1..] == t[1..] + rest;
      ContainsBehind(t[1..], rest, pattern);
      ContainsFromOne(t + rest, pattern);
    }
  }

  lemma ContainsBehindName(body: string, rest: string, pattern: string)
    requires DollarFree(body) && |pattern| > 0 && pattern[0] == '$'
    ensures Contains("$" + body + rest, pattern) <==> pattern <= "$" + body + rest || Contains(rest, pattern)
  {
    var s := "$" + body + rest;
    assert s[1..] == body + rest;
    ContainsFromOne(s, pattern);
    ContainsBehind(body, rest, pattern);
  }

  lemma OtherNameIsNoPrefix(w: Variable, rest: string, v: Variable)
    ensures v.Name() <= w.Name() + rest <==> v == w
  {
    if v != w {
      var i := DiffersAt(v, w);
      var s := w.Name() + rest;
      assert v.Name()[i + 1] == v.Body()[i] && s[i + 1] == w.Body()[i];
    }
  }

  /** A name occurs in a template's text exactly if the template uses the variable. */
  lemma {:induction false} ContainsName(ts: seq<Token>, v: Variable)
    requires PlainTemplate(ts)
    ensures Contains(TextOf(ts), v.Name()) <==> Var(v) in ts
  {
    if |ts| == 0 {
      NothingInNothing(v.Name());
    } else {
      var rest := TextOf(ts[1..]);
      ContainsName(ts[1..], v);
      assert Var(v) in ts <==> ts[0] == Var(v) || Var(v) in ts[1..];
      match ts[0]
      case Lit(text) =>
        ContainsBehind(text, rest, v.Name());
      case Var(w) =>
        BodiesAreDollarFree(w);
        ContainsBehindName(w.Body(), rest, v.Name());
        OtherNameIsNoPrefix(w, rest, v);
    }
  }

  lemma NothingInNothing(pattern: string)
    requires |pattern| > 0
    ensures !Contains("", pattern)
  {
  }

  // ---------------------------------------------------------------------
  // The whole substitution
  // ---------------------------------------------------------------------

  datatype Inputs = Inputs(workflowId: string, userMessage: string, artifactsDir: string, baseBranch: string,
                           docsDir: string, issueContext: Option<string>, loopUserInput: Option<string>,
                           rejectionReason: Option<string>, loopPrevOutput: Option<string>)
  {
    function Value(v: Variable): string {
      match v
      case WorkflowId => workflowId
      case ArtifactsDir => artifactsDir
      case BaseBranch => baseBranch
      case DocsDir => if |docsDir| == 0 then "docs/" else docsDir
      case UserMessage => userMessage
      case Arguments => userMessage
      case LoopUserInput => loopUserInput.GetOr("")
      case RejectionReason => rejectionReason.GetOr("")
      case LoopPrevOutput => loopPrevOutput.GetOr("")
    }
  }

  datatype Substitution = Substitution(prompt: string, contextSubstituted: bool)
  datatype SubstitutionError = BaseBranchEmpty

  function Order(shellSafe: bool): seq<Variable> {
    if shellSafe then SAFE else SAFE + USER_CONTROLLED
  }

  const ALL := {WorkflowId, ArtifactsDir, BaseBranch, DocsDir, UserMessage, Arguments, LoopUserInput,
                RejectionReason, LoopPrevOutput}

  /** What each variable is replaced by. In a text for the shell the variables that a user controls keep their
      names. */
  ghost predicate Puts(inp: Inputs, shellSafe: bool, texts: Values) {
    && texts(WorkflowId) == inp.workflowId
    && texts(ArtifactsDir) == inp.artifactsDir
    && texts(BaseBranch) == inp.baseBranch
    && texts(DocsDir) == (if inp.docsDir == "" then "docs/" else inp.docsDir)
    && texts(UserMessage) == (if shellSafe then "$USER_MESSAGE" else inp.userMessage)
    && texts(Arguments) == (if shellSafe then "$ARGUMENTS" else inp.userMessage)
    && texts(LoopUserInput) == (if shellSafe then "$LOOP_USER_INPUT" else inp.loopUserInput.GetOr(""))
    && texts(RejectionReason) == (if shellSafe then "$REJECTION_REASON" else inp.rejectionReason.GetOr(""))
    && texts(LoopPrevOutput) == (if shellSafe then "$LOOP_PREV_OUTPUT" else inp.loopPrevOutput.GetOr(""))
  }

  ghost predicate NoDollars(inp: Inputs) {
    forall v :: DollarFree(inp.Value(v))
  }

  lemma Listed(v: Variable)
    ensures v in ALL
    ensures v in USER_CONTROLLED <==> v !in SAFE
    ensures v in SAFE <==> v in {WorkflowId, ArtifactsDir, BaseBranch, DocsDir}
  {
    match v
    case WorkflowId => assert v == SAFE[0];
    case ArtifactsDir => assert v == SAFE[1];
    case BaseBranch => assert v == SAFE[2];
    case DocsDir => assert v == SAFE[3];
    case UserMessage => assert v == USER_CONTROLLED[0];
    case Arguments => assert v == USER_CONTROLLED[1];
    case LoopUserInput => assert v == USER_CONTROLLED[2];
    case RejectionReason => assert v == USER_CONTROLLED[3];
    case LoopPrevOutput => assert v == USER_CONTROLLED[4];
  }

  lemma {:induction false} RenderedAlike(ts: seq<Token>, chosen: set<Variable>, f: Values, g: Values)
    requires forall v :: (if v in chosen then f(v) else v.Name()) == g(v)
    ensures Render(ts, chosen, f) == Render(ts, ALL, g)
  {
    if |ts| > 0 {
      RenderedAlike(ts[1..], chosen, f, g);
      if ts[0].Var? {
        Listed(ts[0].variable);
      }
    }
  }

  lemma Chosen(shellSafe: bool, v: Variable)
    ensures v in Order(shellSafe) <==> !shellSafe || v in {WorkflowId, ArtifactsDir, BaseBranch, DocsDir}
  {
    Listed(v);
  }

  lemma PutInPlace(inp: Inputs, shellSafe: bool, texts: Values, v: Variable)
    requires Puts(inp, shellSafe, texts)
    ensures (if v in Order(shellSafe) then inp.Value(v) else v.Name()) == texts(v)
  {
    Chosen(shellSafe, v);
    UserNames();
    hide Order, Variable.Name, Variable.Body;
  }

  lemma SafeNames()
    ensures WorkflowId.Name() == "$WORKFLOW_ID" && ArtifactsDir.Name() == "$ARTIFACTS_DIR"
    ensures BaseBranch.Name() == "$BASE_BRANCH" && DocsDir.Name() == "$DOCS_DIR"
  {
  }

  lemma UserNames()
    ensures UserMessage.Name() == "$USER_MESSAGE" && Arguments.Name() == "$ARGUMENTS"
    ensures LoopUserInput.Name() == "$LOOP_USER_INPUT" && RejectionReason.Name() == "$REJECTION_REASON"
    ensures LoopPrevOutput.Name() == "$LOOP_PREV_OUTPUT"
  {
  }

  /** The nine replacements, one after the other, put exactly these texts in place of the variables of a
      template. */
  lemma EachIsReplacedByItsText(ts: seq<Token>, inp: Inputs, shellSafe: bool, texts: Values)
    requires PlainTemplate(ts) && NoDollars(inp) && Puts(inp, shellSafe, texts)
    ensures ReplaceInOrder(TextOf(ts), Order(shellSafe), v => inp.Value(v)) == Render(ts, ALL, texts)
  {
    hide Order, Render, ReplaceInOrder, Variable.Name, Puts, Inputs.Value;
    var values: Values := v => inp.Value(v);
    var chosen := set v | v in Order(shellSafe);
    SequentialIsSimultaneous(ts, Order(shellSafe), values);
    forall v
      ensures (if v in chosen then values(v) else v.Name()) == texts(v)
    {
      PutInPlace(inp, shellSafe, texts, v);
    }
    RenderedAlike(ts, chosen, values, texts);
  }

  /** Whatever the prompt and the values, nothing that a user controls finds its way into a text for the
      shell. */
  lemma ShellTextIgnoresUser(prompt: string, inp: Inputs, other: Inputs)
    requires inp.workflowId == other.workflowId && inp.artifactsDir == other.artifactsDir
    requires inp.baseBranch == other.baseBranch && inp.docsDir == other.docsDir
    ensures ReplaceInOrder(prompt, Order(true), v => inp.Value(v)) ==
            ReplaceInOrder(prompt, Order(true), v => other.Value(v))
  {
    forall v | v in Order(true)
      ensures inp.Value(v) == other.Value(v)
    {
      Chosen(true, v);
    }
    SameReplacements(prompt, Order(true), v => inp.Value(v), v => other.Value(v));
  }

  lemma {:induction false} SameReplacements(s: string, order: seq<Variable>, f: Values, g: Values)
    requires forall v :: v in order ==> f(v) == g(v)
    ensures ReplaceInOrder(s, order, f) == ReplaceInOrder(s, order, g)
    decreases |order|
  {
    if |order| > 0 {
      SameReplacements(Replace(s, order[0].Name(), f(order[0])), order[1..], f, g);
    }
  }

  method SubstituteWorkflowVariables(prompt: string, inp: Inputs, shellSafe: bool)
    returns (r: Result<Substitution, SubstitutionError>)
    ensures r.Err? <==> |inp.baseBranch| == 0 && Contains(prompt, BaseBranch.Name())
    ensures r.Ok? ==>
              var plain := ReplaceInOrder(prompt, Order(shellSafe), v => inp.Value(v));
              && r.value.prompt == (if shellSafe then plain
                                    else Clear(plain, inp.issueContext.GetOr(""), CONTEXT_BODIES))
              && r.value.contextSubstituted == (HasVariable(plain, CONTEXT_BODIES) && inp.issueContext.Some?)
  {
    if |inp.baseBranch| == 0 && Contains(prompt, BaseBranch.Name()) {
      return Err(BaseBranchEmpty);
    }
    var result := prompt;
    var order := Order(shellSafe);
    ghost var values: Values := v => inp.Value(v);
    for k := 0 to |order|
      invariant ReplaceInOrder(result, order[k..], values) == ReplaceInOrder(prompt, order, values)
    {
      assert order[k..][1..] == order[k + 1..];
      result := Replace(result, order[k].Name(), inp.Value(order[k]));
    }
    ContextBodies();
    MatchesIffVariable(result, CONTEXT_BODIES);
    var hasContextVariables;
    if !shellSafe {
      var substituted;
      substituted, hasContextVariables := SubstituteContextVars(result, inp.issueContext.GetOr(""), CONTEXT_BODIES);
      result := substituted;
    } else {
      var unused;
      unused, hasContextVariables := SubstituteContextVars(result, "", CONTEXT_BODIES);
    }
    r := Ok(Substitution(result, hasContextVariables && inp.issueContext.Some?));
  }
}
