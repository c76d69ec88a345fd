/** One AI node: reading the provider's stream, asking again until the structured output satisfies
    its schema, and retrying the whole thing with a growing delay. */
module NodeRun {
  import opened Schema
  import opened Text
  import OutputRef

  // ---------------------------------------------------------------------
  // One pass over the provider's stream
  // ---------------------------------------------------------------------

  datatype Chunk =
    | Assistant(content: string)
    | Tool(name: string)
    | ToolResult
    | ResultChunk(sessionId: Option<string>, structured: Option<Json>, cost: Option<real>,
                  isError: bool, subtype: Option<string>, errors: seq<string>)
    | Other

  /** A chunk, and whether the run was found to have stopped when it arrived. */
  datatype Tick = Tick(chunk: Chunk, stop: bool)

  /** What the provider sends before it closes the stream or falls silent. */
  datatype Stream = Stream(ticks: seq<Tick>, silent: bool)

  datatype ToolEvent = Started(name: string) | Finished(name: string)

  datatype Failure =
    | BudgetExceeded
    | SdkError(subtype: string, errors: seq<string>)
    | Cancelled
    | Unserializable
    | SchemaViolated(errors: seq<string>)
    | SilentBeforeStructured
    | NothingStructured
    | CreditExhausted(message: string)
    | SilentWithoutOutput
    | NoOutput

  datatype Ending = Resulted | Closed | Silent | Stopped | Broken(subtype: string, errors: seq<string>)

  datatype Pass = Pass(text: string, structured: Option<Json>, sessionId: Option<string>,
                       cost: Option<real>, events: seq<ToolEvent>, ending: Ending)

  predicate Ends(t: Tick) {
    t.stop || t.chunk.ResultChunk?
  }

  /** How many chunks are taken in before the pass ends. */
  function EndAt(ticks: seq<Tick>): (k: nat)
    ensures k <= |ticks| && (k < |ticks| ==> Ends(ticks[k]))
    ensures forall i :: 0 <= i < k ==> !Ends(ticks[i])
  {
    if |ticks| == 0 || Ends(ticks[0]) then 0
    else
      var k := EndAt(ticks[1..]);
      assert forall i :: 1 <= i < k + 1 ==> ticks[i] == ticks[1..][i - 1];
      k + 1
  }

  function AssistantText(ticks: seq<Tick>): string {
    if |ticks| == 0 then ""
    else (if ticks[0].chunk.Assistant? then ticks[0].chunk.content else "") + AssistantText(ticks[1..])
  }

  function ToolNames(ticks: seq<Tick>): seq<string> {
    if |ticks| == 0 then []
    else (if ticks[0].chunk.Tool? then [ticks[0].chunk.name] else []) + ToolNames(ticks[1..])
  }

  /** The first `n` events of the trace in which every tool is started and finished in turn. */
  function Alternation(names: seq<string>, n: nat): seq<ToolEvent>
    requires n <= 2 * |names|
  {
    seq(n, i requires 0 <= i < n => if i % 2 == 0 then Started(names[i / 2]) else Finished(names[i / 2]))
  }

  /** All tools finished, or all but the last one. */
  function Trace(names: seq<string>, settled: bool): seq<ToolEvent> {
    Alternation(names, 2 * |names| - (if settled || |names| == 0 then 0 else 1))
  }

  function ResultEnding(r: Chunk): Ending
    requires r.ResultChunk?
  {
    if r.isError && r.subtype != Some("success") then Broken(r.subtype.GetOr("unknown"), r.errors) else Resulted
  }

  function PassOf(s: Stream): Pass {
    var k := EndAt(s.ticks);
    var taken := s.ticks[..k];
    if k < |s.ticks| && !s.ticks[k].stop then
      var r := s.ticks[k].chunk;
      Pass(AssistantText(taken), r.structured, r.sessionId, r.cost, Trace(ToolNames(taken), true), ResultEnding(r))
    else
      Pass(AssistantText(taken), None, None, None, Trace(ToolNames(taken), false),
           if k < |s.ticks| then Stopped else if s.silent then Silent else Closed)
  }

  lemma Tail(ticks: seq<Tick>, t: Tick)
    ensures if |ticks| == 0 then ticks + [t] == [t] && [t][1..] == []
            else (ticks + [t])[1..] == ticks[1..] + [t] && (ticks + [t])[0] == ticks[0]
  {
  }

  lemma {:induction false} TextSnoc(ticks: seq<Tick>, t: Tick)
    ensures AssistantText(ticks + [t]) == AssistantText(ticks) + (if t.chunk.Assistant? then t.chunk.content else "")
  {
    Tail(ticks, t);
    if |ticks| > 0 {
      TextSnoc(ticks[1..], t);
    }
  }

  lemma {:induction false} NamesSnoc(ticks: seq<Tick>, t: Tick)
    ensures ToolNames(ticks + [t]) == ToolNames(ticks) + (if t.chunk.Tool? then [t.chunk.name] else [])
  {
    Tail(ticks, t);
    if |ticks| > 0 {
      NamesSnoc(ticks[1..], t);
    }
  }

  lemma TakenSnoc(ticks: seq<Tick>, t: Tick)
    ensures AssistantText(ticks + [t]) == AssistantText(ticks) + (if t.chunk.Assistant? then t.chunk.content else "")
    ensures ToolNames(ticks + [t]) == ToolNames(ticks) + (if t.chunk.Tool? then [t.chunk.name] else [])
  {
    TextSnoc(ticks, t);
    NamesSnoc(ticks, t);
  }

  lemma {:induction false} EndIsFirst(ticks: seq<Tick>, k: nat)
    requires k <= |ticks| && (k < |ticks| ==> Ends(ticks[k]))
    requires forall i :: 0 <= i < k ==> !Ends(ticks[i])
    ensures EndAt(ticks) == k
  {
    if |ticks| > 0 && !Ends(ticks[0]) {
      assert forall i :: 0 <= i < k - 1 ==> ticks[1..][i] == ticks[i + 1];
      EndIsFirst(ticks[1..], k - 1);
    }
  }

  lemma TraceStarts(names: seq<string>, n: string)
    ensures Trace(names + [n], false) == Trace(names, true) + [Started(n)]
  {
  }

  lemma TraceFinishes(names: seq<string>)
    requires |names| > 0
    ensures Trace(names, true) == Trace(names, false) + [Finished(names[|names| - 1])]
  {
  }

  lemma NoTools()
    ensures Trace([], true) == [] && Trace([], false) == []
  {
  }

  function Last(names: seq<string>): Option<string> {
    if |names| > 0 then Some(names[|names| - 1]) else None
  }

  /** Emits the completion of the tool that is running, if one is. */
  method FinishLast(names: seq<string>, lastTool: Option<string>, events: seq<ToolEvent>) returns (r: seq<ToolEvent>)
    requires lastTool == Last(names) && events == Trace(names, false)
    ensures r == Trace(names, true)
  {
    r := events;
    if lastTool.Some? {
      TraceFinishes(names);
      r := r + [Finished(lastTool.value)];
    } else {
      NoTools();
    }
  }

  method ReadStream(s: Stream) returns (p: Pass)
    ensures p == PassOf(s)
  {
    var text, events, lastTool := "", [], None;
    var names: seq<string> := [];
    var i := 0;
    NoTools();
    while i < |s.ticks|
      invariant 0 <= i <= |s.ticks|
      invariant forall j :: 0 <= j < i ==> !Ends(s.ticks[j])
      invariant text == AssistantText(s.ticks[..i]) && names == ToolNames(s.ticks[..i])
      invariant lastTool == Last(names) && events == Trace(names, false)
    {
      if s.ticks[i].stop {
        EndIsFirst(s.ticks, i);
        return Pass(text, None, None, None, events, Stopped);
      }
      assert s.ticks[..i + 1] == s.ticks[..i] + [s.ticks[i]];
      TakenSnoc(s.ticks[..i], s.ticks[i]);
      match s.ticks[i].chunk {
        case Assistant(content) =>
          text := text + content;
        case Tool(name) =>
          events := FinishLast(names, lastTool, events);
          TraceStarts(names, name);
          lastTool := Some(name);
          names := names + [name];
          events := events + [Started(name)];
        case ResultChunk(sessionId, structured, cost, isError, subtype, errors) =>
          events := FinishLast(names, lastTool, events);
          EndIsFirst(s.ticks, i);
          return Pass(text, structured, sessionId, cost, events, ResultEnding(s.ticks[i].chunk));
        case ToolResult =>
        case Other =>
      }
      i := i + 1;
    }
    EndIsFirst(s.ticks, i);
    assert s.ticks[..i] == s.ticks;
    p := Pass(text, None, None, None, events, if s.silent then Silent else Closed);
  }

  function Outstanding(events: seq<ToolEvent>): int {
    if |events| == 0 then 0
    else Outstanding(events[..|events| - 1]) + (if events[|events| - 1].Started? then 1 else -1)
  }

  lemma {:induction false} AlternationOutstanding(names: seq<string>, n: nat)
    requires n <= 2 * |names|
    ensures Outstanding(Alternation(names, n)) == n % 2
  {
    if n > 0 {
      assert Alternation(names, n)[..n - 1] == Alternation(names, n - 1);
      AlternationOutstanding(names, n - 1);
    }
  }

  ghost predicate Alternates(events: seq<ToolEvent>) {
    forall n :: 0 <= n <= |events| ==> AlternatesAt(events, n)
  }

  /** Whether the first `n` events leave a tool outstanding, and what may come next. */
  ghost predicate AlternatesAt(events: seq<ToolEvent>, n: nat)
    requires n <= |events|
  {
    && Outstanding(events[..n]) == n % 2
    && (n < |events| ==> (events[n].Finished? <==> n % 2 == 1) && (n % 2 == 1 ==> events[n].name == events[n - 1].name))
  }

  lemma AlternationAlternates(names: seq<string>, len: nat)
    requires len <= 2 * |names|
    ensures Alternates(Alternation(names, len))
  {
    forall n | 0 <= n <= len
      ensures AlternatesAt(Alternation(names, len), n)
    {
      AlternationOutstanding(names, n);
      assert Alternation(names, len)[..n] == Alternation(names, n);
    }
  }

  lemma TraceAlternates(names: seq<string>, settled: bool)
    ensures Alternates(Trace(names, settled))
    ensures Outstanding(Trace(names, settled)) == if settled || |names| == 0 then 0 else 1
  {
    var len := 2 * |names| - (if settled || |names| == 0 then 0 else 1);
    AlternationAlternates(names, len);
    AlternationOutstanding(names, len);
  }

  /** Starts and completions alternate: at every moment of every pass at most one tool is
      outstanding, and each completion names the start right before it. Once the provider's result
      has been taken in, none is outstanding; a pass that ends in any other way leaves its last tool
      outstanding. */
  lemma ToolsAlternate(s: Stream)
    ensures var p := PassOf(s);
            && Alternates(p.events)
            && Outstanding(p.events) == (if p.ending.Resulted? || p.ending.Broken? || |p.events| == 0 then 0 else 1)
  {
    var k := EndAt(s.ticks);
    var names := ToolNames(s.ticks[..k]);
    TraceAlternates(names, true);
    TraceAlternates(names, false);
    assert |Trace(names, false)| == 0 <==> |names| == 0;
  }

  /** The texts of the assistant chunks, one behind the other: the i-th chunk's stands between the i-th cut
      and the next. */
  ghost predicate Says(ticks: seq<Tick>, text: string, cuts: seq<nat>) {
    && |cuts| == |ticks| + 1 && cuts[0] == 0 && cuts[|ticks|] == |text|
    && forall i :: 0 <= i < |ticks| ==> SaysAt(ticks[i].chunk, text, cuts[i], cuts[i + 1])
  }

  ghost predicate SaysAt(chunk: Chunk, text: string, a: nat, b: nat) {
    a <= b <= |text| && text[a..b] == if chunk.Assistant? then chunk.content else ""
  }

  lemma {:induction false} TextIsSaid(ticks: seq<Tick>) returns (cuts: seq<nat>)
    ensures Says(ticks, AssistantText(ticks), cuts)
  {
    if |ticks| == 0 {
      cuts := [0];
    } else {
      var n := |ticks| - 1;
      var before, last := ticks[..n], ticks[n];
      var front := TextIsSaid(before);
      TakenSnoc(before, last);
      assert ticks == before + [last];
      var text, longer := AssistantText(before), AssistantText(ticks);
      cuts := front + [|longer|];
      forall i | 0 <= i < |ticks|
        ensures SaysAt(ticks[i].chunk, longer, cuts[i], cuts[i + 1])
      {
        if i < n {
          assert SaysAt(before[i].chunk, text, front[i], front[i + 1]);
          assert longer[front[i]..front[i + 1]] == text[front[i]..front[i + 1]];
        }
      }
    }
  }

  /** The places of the tool chunks, in order. */
  ghost predicate Lists(ticks: seq<Tick>, tools: seq<nat>) {
    && (forall i :: 0 <= i < |tools| ==> tools[i] < |ticks| && ticks[tools[i]].chunk.Tool?)
    && (forall i, j :: 0 <= i < j < |tools| ==> tools[i] < tools[j])
    && (forall k :: 0 <= k < |ticks| && ticks[k].chunk.Tool? ==> k in tools)
  }

  lemma {:induction false} ToolsAreListed(ticks: seq<Tick>) returns (tools: seq<nat>)
    ensures Lists(ticks, tools) && Names(ticks, tools, ToolNames(ticks))
  {
    if |ticks| == 0 {
      tools := [];
    } else {
      var n := |ticks| - 1;
      var before, last := ticks[..n], ticks[n];
      var front := ToolsAreListed(before);
      TakenSnoc(before, last);
      assert ticks == before + [last];
      hide ToolNames, AssistantText;
      tools := front + if last.chunk.Tool? then [n] else [];
      ListsOneMore(before, last, front);
    }
  }

  ghost predicate Names(ticks: seq<Tick>, tools: seq<nat>, names: seq<string>)
    requires Lists(ticks, tools)
  {
    |names| == |tools| && forall i :: 0 <= i < |tools| ==> names[i] == ticks[tools[i]].chunk.name
  }

  lemma ListsOneMore(before: seq<Tick>, last: Tick, front: seq<nat>)
    requires Lists(before, front)
    ensures Lists(before + [last], front + if last.chunk.Tool? then [|before|] else [])
  {
    var ticks, tools := before + [last], front + if last.chunk.Tool? then [|before|] else [];
    forall k | 0 <= k < |ticks| && ticks[k].chunk.Tool?
      ensures k in tools
    {
      if k < |before| {
        assert before[k] == ticks[k];
        assert k in front;
      }
    }
  }

  /** The events of the listed tools: each start is followed by its completion, except that the last one's
      is left out where it is not settled. */
  ghost predicate Traces(ticks: seq<Tick>, tools: seq<nat>, settled: bool, events: seq<ToolEvent>)
    requires Lists(ticks, tools)
  {
    && |events| == 2 * |tools| - (if settled || |tools| == 0 then 0 else 1)
    && forall i :: 0 <= i < |events| ==>
         var name := ticks[tools[i / 2]].chunk.name;
         events[i] == if i % 2 == 0 then Started(name) else Finished(name)
  }

  /** The first tick that ends the pass, if any does. */
  ghost predicate EndsAt(s: Stream, k: nat) {
    && k <= |s.ticks|
    && (forall i :: 0 <= i < k ==> !s.ticks[i].stop && !s.ticks[i].chunk.ResultChunk?)
    && (k < |s.ticks| ==> s.ticks[k].stop || s.ticks[k].chunk.ResultChunk?)
  }

  /** What is read of every stream. Where the first tick that ends it is a result that is not stopped, the
      payload, session and cost are that result's and `isError` and `subtype` decide about the ending; in
      any other case nothing is reported and the pass was stopped, fell silent or was closed. The text is
      what the assistant chunks before the end say, and the events are those of the tools before it. */
  lemma PassIsRead(s: Stream, k: nat) returns (cuts: seq<nat>, tools: seq<nat>)
    requires EndsAt(s, k)
    ensures Says(s.ticks[..k], PassOf(s).text, cuts) && Lists(s.ticks[..k], tools)
    ensures Traces(s.ticks[..k], tools, k < |s.ticks| && !s.ticks[k].stop, PassOf(s).events)
    ensures k < |s.ticks| && !s.ticks[k].stop ==>
              var p, r := PassOf(s), s.ticks[k].chunk;
              && p.structured == r.structured && p.sessionId == r.sessionId && p.cost == r.cost
              && p.ending == if !r.isError || r.subtype == Some("success") then Resulted
                             else Broken(if r.subtype.Some? then r.subtype.value else "unknown", r.errors)
    ensures k < |s.ticks| && s.ticks[k].stop ==> PassOf(s).ending == Stopped
    ensures k == |s.ticks| ==> PassOf(s).ending == if s.silent then Silent else Closed
    ensures k == |s.ticks| || s.ticks[k].stop ==>
              PassOf(s).structured == None && PassOf(s).sessionId == None && PassOf(s).cost == None
  {
    EndIsFirst(s.ticks, k);
    cuts := TextIsSaid(s.ticks[..k]);
    tools := ToolsAreListed(s.ticks[..k]);
  }

  /** Every stream has an end. */
  lemma StreamEnds(s: Stream) returns (k: nat)
    ensures EndsAt(s, k)
  {
    k := EndAt(s.ticks);
    forall i | 0 <= i < k
      ensures !s.ticks[i].stop && !s.ticks[i].chunk.ResultChunk?
    {
      assert !Ends(s.ticks[i]);
    }
  }

  // ---------------------------------------------------------------------
  // Validate and ask again
  // ---------------------------------------------------------------------

  datatype Validation = Valid | Invalid(errors: seq<string>)

  /** The node's settings, and the parts that are not looked into: the schema validator, the wording
      of the correction that is appended to the prompt, the JSON printer and the recognition of
      exhausted credit. */
  datatype Config = Config(
    outputFormat: Option<Json>,
    bestEffort: bool,
    validate: (Json, Json) -> Validation,
    correction: Complaint -> string,
    stringify: Json -> Option<string>,
    creditError: string -> Option<string>)

  const STRUCTURED_OUTPUT_MAX_REASKS: nat := 3

  function MaxReasks(c: Config): nat {
    if c.bestEffort && c.outputFormat.Some? then STRUCTURED_OUTPUT_MAX_REASKS else 0
  }

  /** One call of the provider: the pass it is, the prompt, and the session it resumes. */
  datatype Call = Call(attempt: nat, prompt: string, resume: Option<string>, fork: bool)

  type Provider = Call -> Stream

  /** What a correction request complains about: no structured output, or what the schema does not
      accept in it. */
  datatype Complaint = Missing | Violations(errors: seq<string>)

  /** What is wrong with a pass, where its structured output is missing or not accepted. */
  function ComplaintAbout(c: Config, p: Pass): Option<Complaint> {
    if c.outputFormat.None? then None
    else if p.structured.None? then Some(Missing)
    else
      match c.validate(p.structured.value, c.outputFormat.value)
      case Valid => None
      case Invalid(errors) => Some(Violations(errors))
  }

  predicate Aborted(p: Pass) {
    p.ending.Silent? || p.ending.Stopped?
  }

  /** A pass that another one may follow. */
  predicate Unsatisfactory(c: Config, p: Pass) {
    !Aborted(p) && !p.ending.Broken? && ComplaintAbout(c, p).Some?
  }

  datatype Exchange = Exchange(call: Call, pass: Pass)

  function FirstCall(prompt: string, resume: Option<string>): Call {
    Call(0, prompt, resume, resume.Some?)
  }

  function NextCall(call: Call, correction: string): Call {
    Call(call.attempt + 1, call.prompt + correction, None, call.fork)
  }

  /** The passes of one run: each one is asked for with what was wrong about the one before. */
  function Exchanges(read: Call -> Pass, decide: (nat, Pass) -> Decision, maxReasks: nat,
                     call: Call): (es: seq<Exchange>)
    ensures |es| > 0
    ensures var last := es[|es| - 1];
            && last.pass == read(last.call)
            && (decide(last.call.attempt, last.pass).Again? ==> last.call.attempt >= maxReasks)
    decreases maxReasks - call.attempt
  {
    var e := Exchange(call, read(call));
    var d := decide(call.attempt, e.pass);
    if d.Again? && call.attempt < maxReasks then [e] + Exchanges(read, decide, maxReasks, NextCall(call, d.correction))
    else [e]
  }

  function Plus(a: Option<real>, b: Option<real>): Option<real> {
    if a.None? then b else if b.None? then a else Some(a.value + b.value)
  }

  /** The sum of the costs that were reported, if any was. */
  function Costs(es: seq<Exchange>): Option<real> {
    if |es| == 0 then None else Plus(Costs(es[..|es| - 1]), es[|es| - 1].pass.cost)
  }

  /** The session that was reported last. */
  function LastSession(es: seq<Exchange>): Option<string> {
    if |es| == 0 then None
    else if es[|es| - 1].pass.sessionId.Some? then es[|es| - 1].pass.sessionId
    else LastSession(es[..|es| - 1])
  }

  datatype NodeResult = NodeResult(output: string, structured: Option<Json>, sessionId: Option<string>,
                                   cost: Option<real>, failure: Option<Failure>, declared: Option<set<string>>)
  {
    predicate Completed() {
      failure.None?
    }
  }

  predicate IsBlank(s: string) {
    |Trim(s)| == 0
  }

  function TextOfJson(c: Config, j: Json): Option<string> {
    if j.JString? then Some(j.s) else c.stringify(j)
  }

  /** What follows from a pass: asking again, or the node's output and what it failed with. */
  datatype Decision = Again(correction: string) | Finish(output: string, failure: Option<Failure>)

  /** An exhausted budget has an error of its own. */
  function StreamFailure(e: Ending): Failure
    requires e.Broken?
  {
    if e.subtype == "error_max_budget_usd" then BudgetExceeded else SdkError(e.subtype, e.errors)
  }

  function Decide(c: Config, attempt: nat, p: Pass): (d: Decision)
    ensures d.Again? ==> attempt < MaxReasks(c) && !Aborted(p) && !p.ending.Broken?
  {
    if p.ending.Broken? then Finish("", Some(StreamFailure(p.ending)))
    else if c.outputFormat.None? then Conclude(c, p, p.text)
    else
      var complaint := ComplaintAbout(c, p);
      if complaint.None? then
        var text := TextOfJson(c, p.structured.value);
        if text.None? then Finish("", Some(Unserializable)) else Conclude(c, p, text.value)
      else if attempt < MaxReasks(c) && !Aborted(p) then Again(c.correction(complaint.value))
      else if p.structured.Some? then Finish("", Some(SchemaViolated(complaint.value.errors)))
      else Finish("", Some(if p.ending.Silent? then SilentBeforeStructured else NothingStructured))
  }

  /** The checks behind the loop. */
  function Conclude(c: Config, p: Pass, text: string): (d: Decision)
    ensures d.Finish?
  {
    if p.ending.Stopped? then Finish(text, Some(Cancelled))
    else if c.creditError(text).Some? then Finish(text, Some(CreditExhausted(c.creditError(text).value)))
    else if IsBlank(text) && p.structured.None? then
      Finish("", Some(if p.ending.Silent? then SilentWithoutOutput else NoOutput))
    else Finish(text, None)
  }

  /** What a node reports that ends with its last pass `p`. A payload and the fields that consumers
      may refer to are reported only if it completed. */
  function Report(c: Config, d: Decision, p: Pass, sessionId: Option<string>, cost: Option<real>): NodeResult
    requires d.Finish?
  {
    if d.failure.None? then
      NodeResult(d.output, p.structured, sessionId, cost, None, OutputRef.DeclaredFields(c.outputFormat))
    else NodeResult(d.output, None, sessionId, cost, d.failure, None)
  }

  function ResultOf(c: Config, d: Decision, es: seq<Exchange>): NodeResult
    requires d.Finish? && |es| > 0
  {
    var p := es[|es| - 1].pass;
    Report(c, d, p, LastSession(es), if p.ending.Broken? then p.cost else Costs(es))
  }

  function Reading(provider: Provider): Call -> Pass {
    call => PassOf(provider(call))
  }

  function Deciding(c: Config): (nat, Pass) -> Decision {
    (attempt: nat, p) => Decide(c, attempt, p)
  }

  function PassesFrom(c: Config, provider: Provider, call: Call): (es: seq<Exchange>)
    ensures |es| > 0
  {
    Exchanges(Reading(provider), Deciding(c), MaxReasks(c), call)
  }

  /** The passes of a node that is given a prompt and a session to resume. */
  function Passes(c: Config, provider: Provider, prompt: string, resume: Option<string>): (es: seq<Exchange>)
    ensures |es| > 0
  {
    PassesFrom(c, provider, FirstCall(prompt, resume))
  }

  function Outcome(c: Config, es: seq<Exchange>): NodeResult
    requires |es| > 0 && Decide(c, es[|es| - 1].call.attempt, es[|es| - 1].pass).Finish?
  {
    ResultOf(c, Decide(c, es[|es| - 1].call.attempt, es[|es| - 1].pass), es)
  }

  /** The result of a node, a function of what its last pass brought and of the session and cost
      that all of its passes reported. */
  function NodeOutcome(c: Config, provider: Provider, prompt: string, resume: Option<string>): NodeResult {
    Outcome(c, Passes(c, provider, prompt, resume))
  }

  ghost predicate IsOutcome(c: Config, es: seq<Exchange>, r: NodeResult) {
    && |es| > 0
    && Decide(c, es[|es| - 1].call.attempt, es[|es| - 1].pass).Finish?
    && r == Outcome(c, es)
  }

  lemma ExchangesFrom(read: Call -> Pass, decide: (nat, Pass) -> Decision, maxReasks: nat, call: Call,
                      done: seq<Exchange>, all: seq<Exchange>)
    requires all == done + Exchanges(read, decide, maxReasks, call)
    ensures var e := Exchange(call, read(call));
            var d := decide(call.attempt, e.pass);
            if d.Again? && call.attempt < maxReasks
            then all == (done + [e]) + Exchanges(read, decide, maxReasks, NextCall(call, d.correction))
            else all == done + [e]
  {
    var e := Exchange(call, read(call));
    var d := decide(call.attempt, e.pass);
    if d.Again? && call.attempt < maxReasks {
      var rest := Exchanges(read, decide, maxReasks, NextCall(call, d.correction));
      assert done + ([e] + rest) == (done + [e]) + rest;
    }
  }

  lemma OnePass(c: Config, provider: Provider, call: Call, e: Exchange, d: Decision, done: seq<Exchange>,
                all: seq<Exchange>)
    requires all == done + PassesFrom(c, provider, call)
    requires e == Exchange(call, PassOf(provider(call))) && d == Decide(c, call.attempt, e.pass)
    ensures all == if d.Again? then (done + [e]) + PassesFrom(c, provider, NextCall(call, d.correction)) else done + [e]
  {
    ExchangesFrom(Reading(provider), Deciding(c), MaxReasks(c), call, done, all);
  }

  lemma TotalsOf(es: seq<Exchange>, e: Exchange)
    ensures Costs(es + [e]) == Plus(Costs(es), e.pass.cost)
    ensures LastSession(es + [e]) == if e.pass.sessionId.Some? then e.pass.sessionId else LastSession(es)
  {
    assert (es + [e])[..|es|] == es;
  }

  lemma NothingYet(c: Config, provider: Provider, prompt: string, resume: Option<string>)
    ensures Costs([]) == None && LastSession([]) == None
    ensures var all := Passes(c, provider, prompt, resume);
            all == [] + PassesFrom(c, provider, Call(0, prompt, resume, resume.Some?))
  {
    hide PassOf, Exchanges;
    assert forall es: seq<Exchange> :: [] + es == es;
  }

  lemma FinalResult(c: Config, d: Decision, es: seq<Exchange>, e: Exchange)
    requires d.Finish?
    ensures ResultOf(c, d, es + [e]) ==
            Report(c, d, e.pass, LastSession(es + [e]), if e.pass.ending.Broken? then e.pass.cost else Costs(es + [e]))
  {
  }

  method ExecuteNode(c: Config, provider: Provider, prompt: string, resume: Option<string>) returns (r: NodeResult)
    ensures r == NodeOutcome(c, provider, prompt, resume)
  {
    r := RunPasses(c, provider, prompt, resume);
  }

  /** The loop. The abort token is shared by all passes: a pass that falls silent or is stopped
      cancels it, and nothing ever resets it. */
  method RunPasses(c: Config, provider: Provider, prompt: string, resume: Option<string>) returns (r: NodeResult)
    ensures IsOutcome(c, Passes(c, provider, prompt, resume), r)
  {
    hide PassOf, Decide, Exchanges, PassesFrom, IsOutcome, ResultOf, Report, Passes, Costs, LastSession, Aborted;
    var reaskAttempt: nat, currentPrompt := 0, prompt;
    var sessionId: Option<string>, accumulated: Option<real> := None, None;
    var aborted := false;
    var maxReasks := MaxReasks(c);
    ghost var es: seq<Exchange> := [];
    ghost var all := Passes(c, provider, prompt, resume);
    var call := Call(0, prompt, resume, resume.Some?);
    NothingYet(c, provider, prompt, resume);
    while true
      invariant reaskAttempt <= maxReasks && !aborted
      invariant call == Call(reaskAttempt, currentPrompt, if reaskAttempt == 0 then resume else None, resume.Some?)
      invariant all == es + PassesFrom(c, provider, call)
      invariant sessionId == LastSession(es) && accumulated == Costs(es)
      decreases maxReasks - reaskAttempt
    {
      var pass, decision;
      pass, decision, aborted := RunPass(c, provider, call, aborted, es, all);
      ghost var e := Exchange(call, pass);
      TotalsOf(es, e);
      if pass.sessionId.Some? {
        sessionId := pass.sessionId;
      }
      if !pass.ending.Broken? && pass.cost.Some? {
        accumulated := Some(accumulated.GetOr(0.0) + pass.cost.value);
      }
      match decision {
        case Finish(output, failure) =>
          FinalResult(c, decision, es, e);
          return Report(c, decision, pass, sessionId, if pass.ending.Broken? then pass.cost else accumulated);
        case Again(correction) =>
          currentPrompt := currentPrompt + correction;
          reaskAttempt := reaskAttempt + 1;
          call := Call(reaskAttempt, currentPrompt, None, call.fork);
          es := es + [e];
      }
    }
  }

  /** One pass, and what follows from it. */
  method RunPass(c: Config, provider: Provider, call: Call, abortedBefore: bool,
                 ghost done: seq<Exchange>, ghost all: seq<Exchange>)
    returns (pass: Pass, d: Decision, aborted: bool)
    requires all == done + PassesFrom(c, provider, call) && !abortedBefore
    ensures aborted <==> Aborted(pass)
    ensures d.Again? ==>
              && call.attempt < MaxReasks(c) && !pass.ending.Broken? && !aborted
              && all == (done + [Exchange(call, pass)]) + PassesFrom(c, provider, NextCall(call, d.correction))
    ensures d.Finish? ==> IsOutcome(c, all, ResultOf(c, d, done + [Exchange(call, pass)]))
  {
    pass := ReadStream(provider(call));
    aborted := abortedBefore || pass.ending.Silent? || pass.ending.Stopped?;
    d := JudgePass(c, call.attempt, MaxReasks(c), aborted, pass);
    OnePass(c, provider, call, Exchange(call, pass), d, done, all);
  }

  /** What is done with a pass that has been read. */
  method JudgePass(c: Config, reaskAttempt: nat, maxReasks: nat, aborted: bool, pass: Pass) returns (d: Decision)
    requires maxReasks == MaxReasks(c) && (aborted <==> Aborted(pass))
    ensures d == Decide(c, reaskAttempt, pass)
    ensures d.Again? <==> reaskAttempt < maxReasks && Unsatisfactory(c, pass)
    ensures d.Finish? && d.failure.None? ==>
              ComplaintAbout(c, pass).None? && !pass.ending.Broken? && !pass.ending.Stopped?
  {
    if pass.ending.Broken? {
      if aborted && !pass.ending.Silent? {
        assert false;
      }
      if pass.ending.subtype == "error_max_budget_usd" {
        return Finish("", Some(BudgetExceeded));
      }
      return Finish("", Some(SdkError(pass.ending.subtype, pass.ending.errors)));
    }
    if c.outputFormat.None? {
      d := AfterLoop(c, pass, pass.text);
      return;
    }
    var canReask := reaskAttempt < maxReasks && !aborted;
    if pass.structured.Some? {
      var validation := c.validate(pass.structured.value, c.outputFormat.value);
      if validation.Valid? {
        var text := TextOfJson(c, pass.structured.value);
        if text.None? {
          return Finish("", Some(Unserializable));
        }
        d := AfterLoop(c, pass, text.value);
      } else if canReask {
        d := Again(c.correction(Violations(validation.errors)));
      } else {
        d := Finish("", Some(SchemaViolated(validation.errors)));
      }
    } else if canReask {
      d := Again(c.correction(Missing));
    } else if pass.ending.Silent? {
      d := Finish("", Some(SilentBeforeStructured));
    } else {
      d := Finish("", Some(NothingStructured));
    }
  }

  method AfterLoop(c: Config, p: Pass, text: string) returns (d: Decision)
    ensures d == Conclude(c, p, text)
  {
    if p.ending.Stopped? {
      return Finish(text, Some(Cancelled));
    }
    var credit := c.creditError(text);
    if credit.Some? {
      return Finish(text, Some(CreditExhausted(credit.value)));
    }
    if IsBlank(text) && p.structured.None? {
      return Finish("", Some(if p.ending.Silent? then SilentWithoutOutput else NoOutput));
    }
    d := Finish(text, None);
  }

  // ---------------------------------------------------------------------
  // What holds of every run of a node
  // ---------------------------------------------------------------------

  /** Every pass but the first corrects the one before it: that one was read to the end and left
      something to complain about, and the complaint was appended to the prompt. */
  ghost predicate Corrects(c: Config, provider: Provider, es: seq<Exchange>, j: nat)
    requires 0 < j < |es|
  {
    var before, after := es[j - 1], es[j];
    var d := Decide(c, before.call.attempt, before.pass);
    && d.Again?
    && after.call == NextCall(before.call, d.correction)
    && after.pass == PassOf(provider(after.call))
  }

  lemma {:induction false} ExchangesAreCorrections(c: Config, provider: Provider, call: Call)
    requires call.attempt <= MaxReasks(c)
    ensures var es := PassesFrom(c, provider, call);
            && es[0] == Exchange(call, PassOf(provider(call)))
            && |es| <= MaxReasks(c) - call.attempt + 1
            && forall j: nat :: 0 < j < |es| ==> Corrects(c, provider, es, j)
    decreases MaxReasks(c) - call.attempt
  {
    hide PassOf;
    var es := PassesFrom(c, provider, call);
    var pass := PassOf(provider(call));
    var d := Decide(c, call.attempt, pass);
    if d.Again? {
      var rest := PassesFrom(c, provider, NextCall(call, d.correction));
      ExchangesAreCorrections(c, provider, NextCall(call, d.correction));
      assert es == [Exchange(call, pass)] + rest;
      forall j: nat | 0 < j < |es|
        ensures Corrects(c, provider, es, j)
      {
        assert j > 1 ==> Corrects(c, provider, rest, j - 1);
      }
    }
  }

  /** The j-th call: which pass it is, what it resumes, and what its prompt builds on. */
  ghost predicate Numbered(es: seq<Exchange>, j: nat)
    requires j < |es|
  {
    && es[j].call.attempt == j
    && es[j].call.fork == es[0].call.fork
    && (j > 0 ==> es[j].call.resume == None && es[j - 1].call.prompt <= es[j].call.prompt)
  }

  lemma {:induction false} CallsAreNumbered(c: Config, provider: Provider, es: seq<Exchange>, j: nat)
    requires j < |es|
    requires es[0].call.attempt == 0
    requires forall i: nat :: 0 < i < |es| ==> Corrects(c, provider, es, i)
    ensures Numbered(es, j)
  {
    hide Decide;
    if j > 0 {
      CallsAreNumbered(c, provider, es, j - 1);
      assert Corrects(c, provider, es, j);
    }
  }

  /** What a correction asks for: a payload where there was none, or the errors of the payload to be
      mended. */
  ghost predicate Asks(c: Config, p: Pass, text: string)
    requires c.outputFormat.Some?
  {
    if p.structured.None? then text == c.correction(Missing)
    else
      var validation := c.validate(p.structured.value, c.outputFormat.value);
      validation.Invalid? && text == c.correction(Violations(validation.errors))
  }

  /** A pass that another one follows: it was read to its end and broke off neither by itself nor by a stop
      or a silence, and the next call appends to its prompt what was wrong about it and resumes nothing. */
  ghost predicate Followed(c: Config, es: seq<Exchange>, j: nat)
    requires j + 1 < |es|
  {
    var p, call, next := es[j].pass, es[j].call, es[j + 1].call;
    && c.outputFormat.Some?
    && p.ending in {Resulted, Closed}
    && next.attempt == j + 1 && next.resume == None && next.fork == call.fork
    && call.prompt <= next.prompt && Asks(c, p, next.prompt[|call.prompt|..])
  }

  /** The passes of every node. The first call carries its prompt and the session it resumes; every pass is
      what the provider's stream for its call reads as; every pass but the last is followed because of
      what was wrong about it. One is made, and up to four if the provider is best-effort and an
      `output_format` is declared, and all of them are used up before an unsatisfactory one is the last. */
  lemma PassesAreBounded(c: Config, provider: Provider, prompt: string, resume: Option<string>)
    ensures var es := Passes(c, provider, prompt, resume);
            var most := if c.bestEffort && c.outputFormat.Some? then 4 else 1;
            && 0 < |es| <= most
            && es[0].call == Call(0, prompt, resume, resume.Some?)
            && (forall j: nat :: j < |es| ==> es[j].pass == PassOf(provider(es[j].call)))
            && (forall j: nat :: j + 1 < |es| ==> Followed(c, es, j))
            && var p := es[|es| - 1].pass;
               c.outputFormat.Some? && p.ending in {Resulted, Closed} &&
               (p.structured.Some? ==> c.validate(p.structured.value, c.outputFormat.value).Invalid?) ==>
                 |es| == most
  {
    hide PassOf, Exchanges;
    var es := Passes(c, provider, prompt, resume);
    CorrectionsFollow(c, provider, prompt, resume);
    forall j: nat | j < |es|
      ensures es[j].pass == PassOf(provider(es[j].call))
    {
      PassesAreRead(c, provider, prompt, resume, j);
    }
    hide Followed;
    LastIsNumbered(c, provider, prompt, resume);
  }

  lemma CorrectionsFollow(c: Config, provider: Provider, prompt: string, resume: Option<string>)
    ensures var es := Passes(c, provider, prompt, resume);
            && |es| <= MaxReasks(c) + 1
            && es[0].call == Call(0, prompt, resume, resume.Some?)
            && forall j: nat :: j + 1 < |es| ==> Followed(c, es, j)
  {
    hide PassOf;
    var es := Passes(c, provider, prompt, resume);
    ExchangesAreCorrections(c, provider, FirstCall(prompt, resume));
    hide PassesFrom, Passes;
    forall j: nat | j + 1 < |es|
      ensures Followed(c, es, j)
    {
      assert Corrects(c, provider, es, j + 1);
      CallsAreNumbered(c, provider, es, j);
      CorrectionIsAsked(c, es[j].call.attempt, es[j].pass);
    }
  }

  lemma CorrectionIsAsked(c: Config, attempt: nat, p: Pass)
    requires Decide(c, attempt, p).Again?
    ensures c.outputFormat.Some? && p.ending in {Resulted, Closed} && Asks(c, p, Decide(c, attempt, p).correction)
  {
  }

  lemma LastIsNumbered(c: Config, provider: Provider, prompt: string, resume: Option<string>)
    ensures var es := Passes(c, provider, prompt, resume);
            var last := es[|es| - 1];
            last.call.attempt == |es| - 1 && Decide(c, |es| - 1, last.pass).Finish?
  {
    hide PassOf, Decide;
    var es := Passes(c, provider, prompt, resume);
    ExchangesAreCorrections(c, provider, FirstCall(prompt, resume));
    CallsAreNumbered(c, provider, es, |es| - 1);
  }

  /** No chunk that the pass took in came with a stop: neither one before its end nor the one that
      ended it. */
  ghost predicate NeverStopped(s: Stream) {
    forall k :: 0 <= k <= EndAt(s.ticks) && k < |s.ticks| ==> !s.ticks[k].stop
  }

  lemma UnstoppedPass(s: Stream)
    requires !PassOf(s).ending.Stopped?
    ensures NeverStopped(s)
  {
  }

  /** A stream error never follows a stop or a silence, in its own pass or in an earlier one: when it is
      handled, the token that all passes share is not cancelled. */
  lemma ErrorsAreNotCancellations(c: Config, provider: Provider, prompt: string, resume: Option<string>, j: nat, i: nat)
    requires var es := Passes(c, provider, prompt, resume);
             i <= j < |es| && es[j].pass.ending.Broken?
    ensures var e := Passes(c, provider, prompt, resume)[i];
            !Aborted(e.pass) && NeverStopped(provider(e.call))
  {
    hide PassOf, NeverStopped, Exchanges;
    var es := Passes(c, provider, prompt, resume);
    CorrectionsFollow(c, provider, prompt, resume);
    PassesAreRead(c, provider, prompt, resume, i);
    if i < j {
      assert Followed(c, es, i);
    }
    UnstoppedPass(provider(es[i].call));
  }

  lemma PassesAreRead(c: Config, provider: Provider, prompt: string, resume: Option<string>, i: nat)
    requires i < |Passes(c, provider, prompt, resume)|
    ensures var e := Passes(c, provider, prompt, resume)[i];
            e.pass == PassOf(provider(e.call))
  {
    hide PassOf, Exchanges;
    ExchangesAreCorrections(c, provider, FirstCall(prompt, resume));
    if i > 0 {
      assert Corrects(c, provider, Passes(c, provider, prompt, resume), i);
    }
  }

  /** The session that a node leaves behind is the one that was reported last. */
  ghost predicate LeavesSession(es: seq<Exchange>, sessionId: Option<string>) {
    if sessionId.None? then forall j :: 0 <= j < |es| ==> es[j].pass.sessionId.None?
    else exists j :: 0 <= j < |es| && es[j].pass.sessionId == sessionId
                     && forall i :: j < i < |es| ==> es[i].pass.sessionId.None?
  }

  lemma {:induction false} LastSessionIsLeft(es: seq<Exchange>)
    ensures LeavesSession(es, LastSession(es))
  {
    if |es| > 0 {
      var n := |es| - 1;
      LastSessionIsLeft(es[..n]);
      SessionOneMore(es[..n], es[n], LastSession(es[..n]));
      assert es[..n] + [es[n]] == es;
    }
  }

  lemma SessionOneMore(es: seq<Exchange>, e: Exchange, sessionId: Option<string>)
    requires LeavesSession(es, sessionId)
    ensures LeavesSession(es + [e], if e.pass.sessionId.Some? then e.pass.sessionId else sessionId)
  {
    var longer, n := es + [e], |es|;
    assert longer[n] == e && forall i :: 0 <= i < n ==> longer[i] == es[i];
    if e.pass.sessionId.None? && sessionId.Some? {
      var j :| 0 <= j < n && es[j].pass.sessionId == sessionId
               && forall i :: j < i < n ==> es[i].pass.sessionId.None?;
      assert longer[j].pass.sessionId == sessionId;
    }
  }

  lemma OfOnePass(es: seq<Exchange>)
    requires |es| == 1
    ensures Costs(es) == es[0].pass.cost && LastSession(es) == es[0].pass.sessionId
  {
    assert es[..0] == [];
    assert Costs([]) == None && LastSession([]) == None;
  }

  /** A node without an `output_format` makes one pass and completes exactly if that neither broke off nor
      was stopped and its text tells of no exhausted credit and is not blank, unless a payload came with it;
      its output is that text. Each of its failures has one cause. */
  lemma PlainNode(c: Config, provider: Provider, prompt: string, resume: Option<string>)
    requires c.outputFormat.None?
    ensures var r := NodeOutcome(c, provider, prompt, resume);
            var p := PassOf(provider(Call(0, prompt, resume, resume.Some?)));
            && r.sessionId == p.sessionId && r.cost == p.cost && r.declared == None
            && if p.ending.Broken? then
                 && r.output == "" && r.structured == None
                 && r.failure == Some(if p.ending.subtype == "error_max_budget_usd" then BudgetExceeded
                                      else SdkError(p.ending.subtype, p.ending.errors))
               else if p.ending.Stopped? then r.failure == Some(Cancelled) && r.output == p.text && r.structured == None
               else if c.creditError(p.text).Some? then
                 && r.failure == Some(CreditExhausted(c.creditError(p.text).value))
                 && r.output == p.text && r.structured == None
               else if AllWhitespace(p.text) && p.structured.None? then
                 && r.failure == Some(if p.ending.Silent? then SilentWithoutOutput else NoOutput)
                 && r.output == "" && r.structured == None
               else r.failure == None && r.output == p.text && r.structured == p.structured
  {
    hide PassOf, Exchanges;
    CorrectionsFollow(c, provider, prompt, resume);
    PassesAreRead(c, provider, prompt, resume, 0);
    BlankIsWhitespace(PassOf(provider(Call(0, prompt, resume, resume.Some?))).text);
    OfOnePass(Passes(c, provider, prompt, resume));
  }

  lemma BlankIsWhitespace(s: string)
    ensures IsBlank(s) <==> AllWhitespace(s)
  {
    if AllWhitespace(s) {
      TrimPadded(s, "", "");
      assert s + "" + "" == s;
    } else if IsBlank(s) {
      TrimmedAway(s);
    }
  }

  /** The fields that consumers may refer to. */
  ghost predicate Declares(schema: Json, declared: Option<set<string>>) {
    if schema.JObject? && "properties" in schema.fields && schema.fields["properties"].JObject?
    then declared.Some? && forall f :: f in declared.value <==> f in schema.fields["properties"].fields
    else declared == None
  }

  /** A node with an `output_format`, by its last pass. It completes exactly if that pass did not break off
      and brought a payload that the validator accepts, that can be printed, and whose text tells of no
      exhausted credit: with this payload, its text and the declared fields. Each of its failures has one
      cause. */
  lemma FormattedNode(c: Config, provider: Provider, prompt: string, resume: Option<string>)
    requires c.outputFormat.Some?
    ensures var es := Passes(c, provider, prompt, resume);
            var r := NodeOutcome(c, provider, prompt, resume);
            var p := es[|es| - 1].pass;
            && LeavesSession(es, r.sessionId)
            && (r.failure != None ==> r.structured == None && r.declared == None)
            && if p.ending.Broken? then
                 && r.output == "" && r.cost == p.cost
                 && r.failure == Some(if p.ending.subtype == "error_max_budget_usd" then BudgetExceeded
                                      else SdkError(p.ending.subtype, p.ending.errors))
               else if p.structured.None? then
                 && r.failure == Some(if p.ending.Silent? then SilentBeforeStructured else NothingStructured)
                 && r.output == ""
               else
                 var j := p.structured.value;
                 var validation := c.validate(j, c.outputFormat.value);
                 var text := if j.JString? then Some(j.s) else c.stringify(j);
                 if validation.Invalid? then r.failure == Some(SchemaViolated(validation.errors)) && r.output == ""
                 else if text.None? then r.failure == Some(Unserializable) && r.output == ""
                 else if c.creditError(text.value).Some? then
                   && r.failure == Some(CreditExhausted(c.creditError(text.value).value))
                   && r.output == text.value
                 else
                   && r.failure == None && r.output == text.value && r.structured == Some(j)
                   && Declares(c.outputFormat.value, r.declared)
  {
    hide Exchanges, LeavesSession;
    var es := Passes(c, provider, prompt, resume);
    LastSessionIsLeft(es);
    LastIsNumbered(c, provider, prompt, resume);
    PassesAreRead(c, provider, prompt, resume, |es| - 1);
    StructuredComesWithResult(provider(es[|es| - 1].call));
    hide PassOf;
  }

  /** A node that declares an `output_format` completes only with a payload that the validator
      accepts, and with that payload's text as its output. */
  lemma CompletedIsAccepted(c: Config, provider: Provider, prompt: string, resume: Option<string>)
    requires c.outputFormat.Some?
    ensures var r := NodeOutcome(c, provider, prompt, resume);
            r.Completed() ==>
              && r.structured.Some? && c.validate(r.structured.value, c.outputFormat.value).Valid?
              && TextOfJson(c, r.structured.value) == Some(r.output)
              && r.declared == OutputRef.DeclaredFields(c.outputFormat)
  {
    hide PassOf, Exchanges;
    var es := Passes(c, provider, prompt, resume);
    var d := Decide(c, es[|es| - 1].call.attempt, es[|es| - 1].pass);
    assert d.Finish?;
  }

  /** A node whose first stream ends in a result that is no error and brings a payload that the validator
      accepts, that can be printed, and whose text tells of no exhausted credit: it asks no more, and
      completes with exactly this payload, its text, and the result's session and cost. */
  lemma AcceptedAtOnce(c: Config, provider: Provider, prompt: string, resume: Option<string>, s: Stream, k: nat,
                       text: string)
    requires c.outputFormat.Some? && s == provider(Call(0, prompt, resume, resume.Some?))
    requires EndsAt(s, k) && k < |s.ticks| && !s.ticks[k].stop
    requires var r := s.ticks[k].chunk;
             && (!r.isError || r.subtype == Some("success"))
             && r.structured.Some? && c.validate(r.structured.value, c.outputFormat.value).Valid?
             && (if r.structured.value.JString? then Some(r.structured.value.s) else c.stringify(r.structured.value))
                == Some(text)
             && c.creditError(text) == None
    ensures var r, n := s.ticks[k].chunk, NodeOutcome(c, provider, prompt, resume);
            && |Passes(c, provider, prompt, resume)| == 1
            && n.Completed() && n.output == text && n.structured == r.structured
            && n.sessionId == r.sessionId && n.cost == r.cost && Declares(c.outputFormat.value, n.declared)
  {
    var cuts, tools := PassIsRead(s, k);
    hide PassOf, Exchanges, EndsAt;
    var es := Passes(c, provider, prompt, resume);
    CorrectionsFollow(c, provider, prompt, resume);
    PassesAreRead(c, provider, prompt, resume, 0);
    assert |es| > 1 ==> Followed(c, es, 0);
    OfOnePass(es);
    FormattedNode(c, provider, prompt, resume);
  }

  function Total(es: seq<Exchange>): real {
    if |es| == 0 then 0.0 else Total(es[..|es| - 1]) + es[|es| - 1].pass.cost.GetOr(0.0)
  }

  lemma {:induction false} CostsAreTotal(es: seq<Exchange>)
    ensures Costs(es).GetOr(0.0) == Total(es)
    ensures Costs(es).Some? <==> exists j :: 0 <= j < |es| && es[j].pass.cost.Some?
  {
    if |es| > 0 {
      CostsAreTotal(es[..|es| - 1]);
      assert forall j :: 0 <= j < |es| - 1 ==> es[..|es| - 1][j] == es[j];
    }
  }

  /** The cost of a node is the sum over all its passes, and is left out only if no pass reported
      one; after a stream error what earlier passes cost is lost. */
  lemma CostIsTotal(c: Config, provider: Provider, prompt: string, resume: Option<string>)
    ensures var es := Passes(c, provider, prompt, resume);
            var r := NodeOutcome(c, provider, prompt, resume);
            var broken := es[|es| - 1].pass.ending.Broken?;
            && (r.cost.GetOr(0.0) == Total(es) <==> !broken || Total(es[..|es| - 1]) == 0.0)
            && (!broken ==> (r.cost.None? <==> forall j :: 0 <= j < |es| ==> es[j].pass.cost.None?))
  {
    hide PassOf, Exchanges, Decide;
    CostsAreTotal(Passes(c, provider, prompt, resume));
  }

  /** A result chunk that is the whole stream. */
  function Only(cost: Option<real>, isError: bool, errors: seq<string>): Stream {
    Stream([Tick(ResultChunk(None, None, cost, isError, None, errors), false)], false)
  }

  lemma OnlyIsRead(cost: Option<real>, isError: bool, errors: seq<string>)
    ensures var p := PassOf(Only(cost, isError, errors));
            && p.cost == cost && p.structured.None? && !Aborted(p)
            && p.ending == (if isError then Broken("unknown", errors) else Resulted)
  {
    assert EndAt(Only(cost, isError, errors).ticks) == 0;
  }

  /** Cost does get lost: a best-effort node whose first pass costs 1 and brings nothing structured, and
      whose second breaks off at a cost of 2, reports 2. */
  lemma CostIsLost(c: Config, prompt: string) returns (provider: Provider)
    requires c.bestEffort && c.outputFormat.Some?
    ensures NodeOutcome(c, provider, prompt, None).cost == Some(2.0)
    ensures Total(Passes(c, provider, prompt, None)) == 3.0
  {
    provider := (call: Call) =>
      if call.attempt == 0 then Only(Some(1.0), false, []) else Only(Some(2.0), true, []);
    OnlyIsRead(Some(1.0), false, []);
    OnlyIsRead(Some(2.0), true, []);
    hide PassOf;
    var first := FirstCall(prompt, None);
    var second := NextCall(first, c.correction(Missing));
    var e, f := Exchange(first, PassOf(provider(first))), Exchange(second, PassOf(provider(second)));
    assert PassesFrom(c, provider, second) == [f];
    assert Passes(c, provider, prompt, None) == [e] + [f];
    assert ([e] + [f])[..1] == [e] && [e][..0] == [];
    assert Total([e]) == 1.0;
  }

  lemma StructuredComesWithResult(s: Stream)
    ensures PassOf(s).structured.Some? ==> PassOf(s).ending.Resulted? || PassOf(s).ending.Broken?
  {
  }

  /** A stopped run is reported as cancelled only by a node without `output_format`; any other node
      reports that nothing structured came back. */
  lemma WhenCancelled(c: Config, provider: Provider, prompt: string, resume: Option<string>)
    ensures var es := Passes(c, provider, prompt, resume);
            var r := NodeOutcome(c, provider, prompt, resume);
            var stopped := es[|es| - 1].pass.ending.Stopped?;
            && (r.failure == Some(Cancelled) <==> stopped && c.outputFormat.None?)
            && (stopped && c.outputFormat.Some? ==> r.failure == Some(NothingStructured))
  {
    hide Exchanges;
    var es := Passes(c, provider, prompt, resume);
    var last := es[|es| - 1];
    assert last.pass == PassOf(provider(last.call));
    StructuredComesWithResult(provider(last.call));
  }

  /** A run that is stopped at once: a node with an `output_format` does not report it as cancelled. */
  lemma StopIsNotReported(c: Config, prompt: string) returns (provider: Provider)
    requires c.outputFormat.Some?
    ensures var es := Passes(c, provider, prompt, None);
            es[|es| - 1].pass.ending.Stopped?
    ensures NodeOutcome(c, provider, prompt, None).failure == Some(NothingStructured)
  {
    var stopped := Stream([Tick(Other, true)], false);
    provider := _ => stopped;
    assert PassOf(stopped).ending.Stopped? by {
      assert EndAt(stopped.ticks) == 0;
    }
    PassesAreRead(c, provider, prompt, None, |Passes(c, provider, prompt, None)| - 1);
    WhenCancelled(c, provider, prompt, None);
  }
}
