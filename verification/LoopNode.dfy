/** The loop node: one prompt over and over until a completion signal, with a gate after which the
    run pauses, to be taken up again by a later run from what the gate stored. */
module LoopNode {
  import opened Schema
  import opened NodeRun

  datatype LoopConfig = LoopConfig(nodeId: string, maxIterations: nat, freshContext: bool,
                                   interactive: bool, gateMessage: Option<string>)
  {
    predicate Gated() {
      interactive && gateMessage.Some?
    }
  }

  /** What a paused run keeps: for which node, at which iteration, with which session. */
  datatype Approval = Approval(nodeId: string, interactiveLoop: bool, iteration: Option<nat>, sessionId: Option<string>)

  datatype LoopCall = LoopCall(iteration: nat, resume: Option<string>, userInput: string, prevOutput: string)

  datatype StatusCheck = Proceeds | Halted | CheckFailed

  datatype GateOutcome = Paused | Undelivered | PauseFailed

  /** Everything a run of the loop meets with: the statuses between iterations, the provider, the
      stripping of completion tags, the completion signal or condition, and the gate. */
  datatype Env = Env(
    status: nat -> StatusCheck,
    promptFails: bool,
    provider: LoopCall -> Stream,
    clean: Stream -> string,
    completes: (LoopCall, Pass) -> bool,
    gate: nat -> GateOutcome)

  datatype LoopFailure =
    | StatusUnknown
    | RunHalted
    | PromptFailed
    | IterationFailed(iteration: nat, failure: Failure)
    | IterationEmpty(iteration: nat)
    | GateUndelivered
    | PauseNotStored
    | MaxIterationsExceeded

  datatype LoopResult = LoopResult(output: string, structured: Option<Json>, sessionId: Option<string>,
                                   cost: Option<real>, failure: Option<LoopFailure>)

  /** One iteration: what the provider was given, what came back, and what was made of it. */
  datatype Record = Record(call: LoopCall, pass: Pass, output: string, completes: bool)

  /** What one iteration hands to the next. */
  datatype Carried = Carried(session: Option<string>, prevOutput: string, structured: Option<Json>, cost: Option<real>)

  /** A run of the loop: the iterations it made, its result, and what it stored if it paused. */
  datatype Run = Run(records: seq<Record>, result: LoopResult, approval: Option<Approval>)

  datatype Setting = Setting(cfg: LoopConfig, env: Env, start: nat, resumed: bool, input: string)

  predicate IsLoopResume(cfg: LoopConfig, meta: Option<Approval>) {
    meta.Some? && meta.value.interactiveLoop && meta.value.nodeId == cfg.nodeId
  }

  function SettingOf(cfg: LoopConfig, meta: Option<Approval>, input: string, env: Env): Setting {
    if IsLoopResume(cfg, meta) then Setting(cfg, env, meta.value.iteration.GetOr(0) + 1, true, input)
    else Setting(cfg, env, 1, false, "")
  }

  function InitiallyCarried(cfg: LoopConfig, meta: Option<Approval>): Carried {
    Carried(if IsLoopResume(cfg, meta) then meta.value.sessionId else None, "", None, None)
  }

  /** The loop does not look at the run's status while it reads a stream. */
  function Unchecked(s: Stream): Stream {
    Stream(seq(|s.ticks|, i requires 0 <= i < |s.ticks| => s.ticks[i].(stop := false)), s.silent)
  }

  function CallAt(s: Setting, i: nat, c: Carried): LoopCall {
    LoopCall(i, if s.cfg.freshContext || i == 1 then None else c.session,
             if i == s.start then s.input else "", if i == s.start then "" else c.prevOutput)
  }

  function PassAt(s: Setting, i: nat, c: Carried): Pass {
    PassOf(Unchecked(s.env.provider(CallAt(s, i, c))))
  }

  function RecordAt(s: Setting, i: nat, c: Carried): Record {
    var call := CallAt(s, i, c);
    var pass := PassAt(s, i, c);
    var clean := s.env.clean(s.env.provider(call));
    Record(call, pass, if |clean| == 0 then pass.text else clean, s.env.completes(call, pass))
  }

  function CarryOn(c: Carried, r: Record): Carried {
    Carried(if r.pass.sessionId.Some? then r.pass.sessionId else c.session, r.output,
            if r.pass.structured.Some? then r.pass.structured else c.structured, Plus(c.cost, r.pass.cost))
  }

  predicate Empty(p: Pass) {
    !p.ending.Silent? && IsBlank(p.text)
  }

  /** A completion is honoured unless the loop is interactive and this is not a resumed run. */
  predicate Honoured(s: Setting, r: Record) {
    r.completes && (s.resumed || !s.cfg.interactive)
  }

  function Failing(output: string, cost: Option<real>, f: LoopFailure): LoopResult {
    LoopResult(output, None, None, cost, Some(f))
  }

  /** The end of a loop in the given iteration, if the iteration ends it. */
  datatype Conclusion = GoesOn | Ends(ran: bool, result: LoopResult, approval: Option<Approval>)

  function EndingAt(s: Setting, i: nat, c: Carried): Conclusion {
    if s.env.status(i).CheckFailed? then Ends(false, Failing("", None, StatusUnknown), None)
    else if s.env.status(i).Halted? then Ends(false, Failing("", None, RunHalted), None)
    else if s.env.promptFails then Ends(false, Failing("", c.cost, PromptFailed), None)
    else EndingOf(s, i, RecordAt(s, i, c), CarryOn(c, RecordAt(s, i, c)))
  }

  /** A loop does not tell an exhausted budget from other errors. */
  function StreamError(e: NodeRun.Ending): Failure
    requires e.Broken?
  {
    SdkError(e.subtype, e.errors)
  }

  /** What follows from an iteration that was made, given what is carried on from it. */
  function EndingOf(s: Setting, i: nat, r: Record, next: Carried): Conclusion {
    if r.pass.ending.Broken? then
      Ends(true, Failing("", next.cost, IterationFailed(i, StreamError(r.pass.ending))), None)
    else if Empty(r.pass) then Ends(true, Failing("", next.cost, IterationEmpty(i)), None)
    else if Honoured(s, r) then Ends(true, LoopResult(r.output, next.structured, next.session, next.cost, None), None)
    else if s.cfg.Gated() then
      match s.env.gate(i)
      case Undelivered => Ends(true, Failing(r.output, None, GateUndelivered), None)
      case PauseFailed => Ends(true, Failing("", None, PauseNotStored), None)
      case Paused => Ends(true, LoopResult(r.output, None, None, next.cost, None),
                          Some(Approval(s.cfg.nodeId, true, Some(i), next.session)))
    else GoesOn
  }

  function RunFrom(s: Setting, i: nat, c: Carried): Run
    decreases s.cfg.maxIterations + 1 - i
  {
    if i > s.cfg.maxIterations then Run([], Failing(c.prevOutput, c.cost, MaxIterationsExceeded), None)
    else
      var r := RecordAt(s, i, c);
      match EndingAt(s, i, c)
      case Ends(ran, result, approval) => Run(if ran then [r] else [], result, approval)
      case GoesOn =>
        var rest := RunFrom(s, i + 1, CarryOn(c, r));
        Run([r] + rest.records, rest.result, rest.approval)
  }

  function RunOf(cfg: LoopConfig, meta: Option<Approval>, input: string, env: Env): Run {
    var s := SettingOf(cfg, meta, input, env);
    RunFrom(s, s.start, InitiallyCarried(cfg, meta))
  }

  function Before(done: seq<Record>, rest: Run): Run {
    Run(done + rest.records, rest.result, rest.approval)
  }

  method ExecuteLoopNode(cfg: LoopConfig, meta: Option<Approval>, loopUserInput: string, env: Env) returns (run: Run)
    ensures run == RunOf(cfg, meta, loopUserInput, env)
  {
    hide RunFrom, EndingAt, RecordAt, CarryOn;
    var isLoopResume := meta.Some? && meta.value.interactiveLoop && meta.value.nodeId == cfg.nodeId;
    var startIteration: nat := if isLoopResume then meta.value.iteration.GetOr(0) + 1 else 1;
    var input := if isLoopResume then loopUserInput else "";
    var s := Setting(cfg, env, startIteration, isLoopResume, input);
    var carried := Carried(if isLoopResume then meta.value.sessionId else None, "", None, None);
    var records: seq<Record> := [];
    var i := startIteration;
    ghost var all := RunOf(cfg, meta, loopUserInput, env);
    assert all == Before([], RunFrom(s, i, carried));
    while i <= cfg.maxIterations
      invariant startIteration <= i
      invariant all == Before(records, RunFrom(s, i, carried))
    {
      var record, ending, next := RunIteration(s, i, carried);
      OneIteration(s, i, carried, record, ending, records, all);
      match ending {
        case Ends(ran, result, approval) =>
          return Run(if ran then records + [record] else records, result, approval);
        case GoesOn =>
          records := records + [record];
          carried := next;
      }
      i := i + 1;
    }
    LoopIsOver(s, i, carried, records);
    run := Run(records, Failing(carried.prevOutput, carried.cost, MaxIterationsExceeded), None);
  }

  lemma OneIteration(s: Setting, i: nat, c: Carried, r: Record, e: Conclusion, done: seq<Record>, all: Run)
    requires i <= s.cfg.maxIterations && all == Before(done, RunFrom(s, i, c))
    requires e == EndingAt(s, i, c) && (e.GoesOn? || e.ran ==> r == RecordAt(s, i, c))
    ensures all == match e
                   case Ends(ran, result, approval) => Run(if ran then done + [r] else done, result, approval)
                   case GoesOn => Before(done + [r], RunFrom(s, i + 1, CarryOn(c, r)))
  {
    hide EndingAt, RecordAt, CarryOn;
    if e.GoesOn? {
      var rest := RunFrom(s, i + 1, CarryOn(c, r)).records;
      assert done + ([r] + rest) == (done + [r]) + rest;
    }
  }

  lemma LoopIsOver(s: Setting, i: nat, c: Carried, done: seq<Record>)
    requires i > s.cfg.maxIterations
    ensures Before(done, RunFrom(s, i, c)) == Run(done, Failing(c.prevOutput, c.cost, MaxIterationsExceeded), None)
  {
  }

  method RunIteration(s: Setting, i: nat, c: Carried) returns (record: Record, ending: Conclusion, next: Carried)
    ensures ending == EndingAt(s, i, c)
    ensures ending.GoesOn? || ending.ran ==> record == RecordAt(s, i, c) && next == CarryOn(c, record)
  {
    hide PassOf;
    next := c;
    record := Record(LoopCall(i, None, "", ""), Pass("", None, None, None, [], Closed), "", false);
    match s.env.status(i) {
      case CheckFailed =>
        ending := Ends(false, Failing("", None, StatusUnknown), None);
        return;
      case Halted =>
        ending := Ends(false, Failing("", None, RunHalted), None);
        return;
      case Proceeds =>
    }
    var userInput := if i == s.start then s.input else "";
    var prevOutput := if i == s.start then "" else c.prevOutput;
    if s.env.promptFails {
      ending := Ends(false, Failing("", c.cost, PromptFailed), None);
      return;
    }
    var needsFreshSession := s.cfg.freshContext || i == 1;
    var call := LoopCall(i, if needsFreshSession then None else c.session, userInput, prevOutput);
    var stream := s.env.provider(call);
    var pass := ReadStream(Unchecked(stream));
    var clean := s.env.clean(stream);
    record := Record(call, pass, if |clean| == 0 then pass.text else clean, s.env.completes(call, pass));
    next := CarryOn(c, record);
    ending := JudgeIteration(s, i, record, next);
    JudgedIsEnding(s, i, record, next, ending);
  }

  predicate ReadsWell(p: Pass) {
    !p.ending.Broken? && !Empty(p)
  }

  /** An iteration that another one follows in the same run. */
  predicate LeadsOn(s: Setting, r: Record) {
    ReadsWell(r.pass) && !Honoured(s, r) && !s.cfg.Gated()
  }

  /** What went wrong in an iteration that is neither honoured nor paused nor leads on. */
  function Trouble(s: Setting, i: nat, p: Pass): LoopFailure {
    if p.ending.Broken? then IterationFailed(i, StreamError(p.ending))
    else if Empty(p) then IterationEmpty(i)
    else if s.env.gate(i).Undelivered? then GateUndelivered
    else PauseNotStored
  }

  /** What an iteration that was made means for the run. */
  ghost predicate Judged(s: Setting, i: nat, r: Record, next: Carried, e: Conclusion) {
    var paused := s.cfg.Gated() && s.env.gate(i).Paused?;
    && (e.GoesOn? <==> LeadsOn(s, r))
    && (e.Ends? ==>
          && e.ran
          && (e.result.failure.None? <==> ReadsWell(r.pass) && (Honoured(s, r) || paused))
          && (e.approval.Some? <==> e.result.failure.None? && !Honoured(s, r))
          && (e.approval.Some? ==> e.approval.value == Approval(s.cfg.nodeId, true, Some(i), next.session))
          && (e.result.failure.Some? ==> e.result.failure.value == Trouble(s, i, r.pass))
          && e.result.output == (if e.result.failure in {None, Some(GateUndelivered)} then r.output else "")
          && e.result.cost == (if e.result.failure in {Some(GateUndelivered), Some(PauseNotStored)} then None
                               else next.cost)
          && e.result.sessionId == (if e.result.failure.None? && Honoured(s, r) then next.session else None)
          && e.result.structured == (if e.result.failure.None? && Honoured(s, r) then next.structured else None))
  }

  /** The conclusion from an iteration is the one that fits. */
  lemma JudgedIsEnding(s: Setting, i: nat, r: Record, next: Carried, e: Conclusion)
    ensures Judged(s, i, r, next, e) <==> e == EndingOf(s, i, r, next)
  {
    hide Empty;
  }

  /** The checks behind one iteration's stream. */
  method JudgeIteration(s: Setting, i: nat, record: Record, next: Carried) returns (ending: Conclusion)
    ensures Judged(s, i, record, next, ending)
  {
    if record.pass.ending.Broken? {
      return Ends(true, Failing("", next.cost, IterationFailed(i, StreamError(record.pass.ending))), None);
    }
    if !record.pass.ending.Silent? && IsBlank(record.pass.text) {
      return Ends(true, Failing("", next.cost, IterationEmpty(i)), None);
    }
    var interactiveFirstRun := s.cfg.interactive && !s.resumed;
    if record.completes && !interactiveFirstRun {
      return Ends(true, LoopResult(record.output, next.structured, next.session, next.cost, None), None);
    }
    if s.cfg.interactive && s.cfg.gateMessage.Some? {
      match s.env.gate(i) {
        case Undelivered => return Ends(true, Failing(record.output, None, GateUndelivered), None);
        case PauseFailed => return Ends(true, Failing("", None, PauseNotStored), None);
        case Paused =>
          return Ends(true, LoopResult(record.output, None, None, next.cost, None),
                      Some(Approval(s.cfg.nodeId, true, Some(i), next.session)));
      }
    }
    ending := GoesOn;
  }

  // ---------------------------------------------------------------------
  // One run
  // ---------------------------------------------------------------------

  /** The session reported last, or the one there was before. */
  function SessionAfter(before: Option<string>, records: seq<Record>): Option<string>
    decreases |records|
  {
    if |records| == 0 then before
    else SessionAfter(if records[0].pass.sessionId.Some? then records[0].pass.sessionId else before, records[1..])
  }

  /** The j-th of the iterations that follow from `i`: their numbers are consecutive and within the
      bound, each resumes the session reported last before it (the first one of all, or any if the
      context is to be fresh, resumes none), and each is given the output of the one before. */
  ghost predicate Threaded(s: Setting, i: nat, c: Carried, records: seq<Record>, j: nat)
    requires j < |records|
  {
    var call := records[j].call;
    && call.iteration == i + j <= s.cfg.maxIterations
    && call.resume == (if s.cfg.freshContext || i + j == 1 then None else SessionAfter(c.session, records[..j]))
    && call.userInput == (if i + j == s.start then s.input else "")
    && call.prevOutput == (if i + j == s.start then "" else if j == 0 then c.prevOutput else records[j - 1].output)
  }

  /** What an iteration made of its call: the run was found running and the prompt could be built; the
      provider's stream was read to its end, without a look at the run's status; its completion is that of
      the call and of what was read; and its output is the cleaned text or, where that is empty, the text. */
  ghost predicate Made(s: Setting, r: Record) {
    var stream := s.env.provider(r.call);
    && s.env.status(r.call.iteration) == Proceeds && !s.env.promptFails
    && (exists u :: Unstopped(stream, u) && r.pass == PassOf(u))
    && r.completes == s.env.completes(r.call, r.pass)
    && r.output == if |s.env.clean(stream)| > 0 then s.env.clean(stream) else r.pass.text
  }

  ghost predicate Unstopped(stream: Stream, u: Stream) {
    && |u.ticks| == |stream.ticks| && u.silent == stream.silent
    && forall k :: 0 <= k < |u.ticks| ==> u.ticks[k] == Tick(stream.ticks[k].chunk, false)
  }

  /** The payload reported last, or the one there was before. */
  function StructuredAfter(before: Option<Json>, records: seq<Record>): Option<Json>
    decreases |records|
  {
    if |records| == 0 then before
    else StructuredAfter(if records[0].pass.structured.Some? then records[0].pass.structured else before, records[1..])
  }

  function LoopCost(c: Option<real>, records: seq<Record>): Option<real>
    decreases |records|
  {
    if |records| == 0 then c else LoopCost(Plus(c, records[0].pass.cost), records[1..])
  }

  /** How a run ends. Its last iteration ends it by breaking off, by staying empty, by a completion that is
      honoured, or at the gate; or all iterations lead on, and then no further one is made because there
      have been enough, because the run was found halted or its status unknown, or because the prompt
      cannot be built. */
  ghost predicate Ended(s: Setting, i: nat, c: Carried, run: Run) {
    var n, cost := |run.records|, LoopCost(c.cost, run.records);
    if n > 0 && !LeadsOn(s, run.records[n - 1]) then
      var last, k := run.records[n - 1], i + n - 1;
      var session := SessionAfter(c.session, run.records);
      if last.pass.ending.Broken? then
        && run.result == Failing("", cost, IterationFailed(k, SdkError(last.pass.ending.subtype,
                                                                       last.pass.ending.errors)))
        && run.approval == None
      else if !last.pass.ending.Silent? && IsBlank(last.pass.text) then
        run.result == Failing("", cost, IterationEmpty(k)) && run.approval == None
      else if last.completes && (s.resumed || !s.cfg.interactive) then
        && run.result == LoopResult(last.output, StructuredAfter(c.structured, run.records), session, cost, None)
        && run.approval == None
      else
        match s.env.gate(k)
        case Undelivered => run.result == Failing(last.output, None, GateUndelivered) && run.approval == None
        case PauseFailed => run.result == Failing("", None, PauseNotStored) && run.approval == None
        case Paused =>
          && run.result == LoopResult(last.output, None, None, cost, None)
          && run.approval == Some(Approval(s.cfg.nodeId, true, Some(k), session))
    else
      && run.approval == None
      && if i + n > s.cfg.maxIterations then
           run.result == Failing(if n > 0 then run.records[n - 1].output else c.prevOutput, cost, MaxIterationsExceeded)
         else
           match s.env.status(i + n)
           case CheckFailed => run.result == Failing("", None, StatusUnknown)
           case Halted => run.result == Failing("", None, RunHalted)
           case Proceeds => s.env.promptFails && run.result == Failing("", cost, PromptFailed)
  }

  /** The j-th iteration is as it should be, and all but the last lead on. */
  ghost predicate Iterates(s: Setting, i: nat, c: Carried, records: seq<Record>, j: nat)
    requires j < |records|
  {
    && Threaded(s, i, c, records, j) && Made(s, records[j])
    && (j + 1 < |records| ==> LeadsOn(s, records[j]))
  }

  ghost predicate Fits(s: Setting, i: nat, c: Carried, run: Run) {
    && (forall j: nat :: j < |run.records| ==> Iterates(s, i, c, run.records, j))
    && Ended(s, i, c, run)
  }

  lemma ThreadedLater(s: Setting, i: nat, c: Carried, r: Record, rest: seq<Record>, j: nat)
    requires j < |rest| && s.start <= i
    ensures Threaded(s, i + 1, CarryOn(c, r), rest, j) <==> Threaded(s, i, c, [r] + rest, j + 1)
  {
    var records := [r] + rest;
    assert records[1..] == rest && records[..j + 1][1..] == rest[..j];
    assert SessionAfter(c.session, records[..j + 1]) == SessionAfter(CarryOn(c, r).session, rest[..j]);
  }

  lemma IteratesLater(s: Setting, i: nat, c: Carried, r: Record, rest: seq<Record>, j: nat)
    requires j < |rest| && s.start <= i
    ensures Iterates(s, i + 1, CarryOn(c, r), rest, j) <==> Iterates(s, i, c, [r] + rest, j + 1)
  {
    ThreadedLater(s, i, c, r, rest, j);
    hide Threaded, Made, LeadsOn, CarryOn;
  }

  lemma EndedLater(s: Setting, i: nat, c: Carried, r: Record, rest: Run)
    requires |rest.records| == 0 ==> LeadsOn(s, r)
    ensures Ended(s, i + 1, CarryOn(c, r), rest) <==> Ended(s, i, c, Before([r], rest))
  {
    hide LeadsOn, IsBlank;
    assert Before([r], rest).records[1..] == rest.records;
  }

  /** A run that begins with an iteration that leads on fits exactly if the rest of it does. */
  lemma FitsLater(s: Setting, i: nat, c: Carried, r: Record, rest: Run)
    requires s.start <= i && Iterates(s, i, c, [r] + rest.records, 0) && LeadsOn(s, r)
    ensures Fits(s, i + 1, CarryOn(c, r), rest) <==> Fits(s, i, c, Before([r], rest))
  {
    hide Ended, Iterates, CarryOn, LeadsOn;
    EndedLater(s, i, c, r, rest);
    var k, next, records := i + 1, CarryOn(c, r), [r] + rest.records;
    forall j: nat | j < |rest.records|
      ensures Iterates(s, k, next, rest.records, j) <==> IteratesBehind(s, i, c, records, j)
    {
      IteratesLater(s, i, c, r, rest.records, j);
    }
    if Fits(s, k, next, rest) {
      forall j: nat | j < |records|
        ensures Iterates(s, i, c, records, j)
      {
        if j > 0 {
          var before: nat := j - 1;
          assert Iterates(s, k, next, rest.records, before);
          assert IteratesBehind(s, i, c, records, before);
        }
      }
    }
  }

  ghost predicate IteratesBehind(s: Setting, i: nat, c: Carried, records: seq<Record>, j: nat)
    requires j + 1 < |records|
  {
    Iterates(s, i, c, records, j + 1)
  }

  /** The first iteration of a fitting run is the one the loop makes. */
  lemma FirstIsMade(s: Setting, i: nat, c: Carried, records: seq<Record>)
    requires |records| > 0 && s.start <= i <= s.cfg.maxIterations
    ensures Threaded(s, i, c, records, 0) && Made(s, records[0]) <==>
              records[0] == RecordAt(s, i, c) && s.env.status(i) == Proceeds && !s.env.promptFails
  {
    hide PassOf, LeadsOn;
    var r := records[0];
    assert records[..0] == [];
    assert Threaded(s, i, c, records, 0) <==> r.call == CallAt(s, i, c);
    var stream := s.env.provider(CallAt(s, i, c));
    assert forall u :: Unstopped(stream, u) <==> u == Unchecked(stream) by {
      UnstoppedIsUnchecked(stream);
    }
    hide Threaded, CallAt, Unchecked, Unstopped;
  }

  lemma UnstoppedIsUnchecked(stream: Stream)
    ensures forall u :: Unstopped(stream, u) <==> u == Unchecked(stream)
  {
    forall u | Unstopped(stream, u)
      ensures u == Unchecked(stream)
    {
      assert u.ticks == Unchecked(stream).ticks;
    }
  }

  lemma SingleRecord(c: Carried, r: Record)
    ensures LoopCost(c.cost, [r]) == CarryOn(c, r).cost
    ensures SessionAfter(c.session, [r]) == CarryOn(c, r).session
    ensures StructuredAfter(c.structured, [r]) == CarryOn(c, r).structured
  {
  }

  /** What follows from the last iteration of a run that it ends. */
  lemma EndingFits(s: Setting, i: nat, c: Carried, r: Record, run: Run)
    requires run.records == [r]
    ensures var e := EndingOf(s, i, r, CarryOn(c, r));
            && (LeadsOn(s, r) <==> e.GoesOn?)
            && (!LeadsOn(s, r) ==>
                  e.ran && (Ended(s, i, c, run) <==> run.result == e.result && run.approval == e.approval))
  {
    SingleRecord(c, r);
    hide CarryOn, LoopCost, SessionAfter, StructuredAfter, IsBlank;
  }

  lemma NothingMade(s: Setting, i: nat, c: Carried, run: Run)
    requires |run.records| == 0 && s.start <= i
    requires i > s.cfg.maxIterations || s.env.status(i) != Proceeds || s.env.promptFails
    ensures Ended(s, i, c, run) <==> run == RunFrom(s, i, c)
  {
    hide RecordAt, CarryOn, EndingOf;
  }

  lemma OneMade(s: Setting, i: nat, c: Carried)
    requires s.start <= i <= s.cfg.maxIterations && s.env.status(i) == Proceeds && !s.env.promptFails
    ensures var r := RecordAt(s, i, c);
            RunFrom(s, i, c) ==
            match EndingOf(s, i, r, CarryOn(c, r))
            case Ends(ran, result, approval) => Run(if ran then [r] else [], result, approval)
            case GoesOn => Before([r], RunFrom(s, i + 1, CarryOn(c, r)))
  {
    hide RecordAt, CarryOn, EndingOf;
  }

  /** The run that the loop makes fits the description. */
  lemma {:induction false} LoopFits(s: Setting, i: nat, c: Carried)
    requires s.start <= i
    ensures Fits(s, i, c, RunFrom(s, i, c))
    decreases s.cfg.maxIterations + 1 - i
  {
    hide Threaded, Made, LeadsOn, RecordAt, CarryOn, EndingOf, Ended, RunFrom;
    var run := RunFrom(s, i, c);
    if i > s.cfg.maxIterations || s.env.status(i) != Proceeds || s.env.promptFails {
      NoneMade(s, i, c);
      NothingMade(s, i, c, run);
    } else {
      var r := RecordAt(s, i, c);
      OneMade(s, i, c);
      EndingFits(s, i, c, r, Run([r], run.result, run.approval));
      FirstIsMade(s, i, c, run.records);
      if LeadsOn(s, r) {
        LoopFits(s, i + 1, CarryOn(c, r));
        FitsLater(s, i, c, r, RunFrom(s, i + 1, CarryOn(c, r)));
      }
    }
  }

  lemma NoneMade(s: Setting, i: nat, c: Carried)
    requires i > s.cfg.maxIterations || s.env.status(i) != Proceeds || s.env.promptFails
    ensures |RunFrom(s, i, c).records| == 0
  {
    hide RecordAt, CarryOn, EndingOf;
  }

  /** No other run does. */
  lemma {:induction false} OnlyLoopFits(s: Setting, i: nat, c: Carried, run: Run)
    requires s.start <= i && Fits(s, i, c, run)
    ensures run == RunFrom(s, i, c)
    decreases s.cfg.maxIterations + 1 - i
  {
    hide Made, LeadsOn, RecordAt, CarryOn, EndingOf, RunFrom;
    if |run.records| == 0 {
      hide Threaded;
      NothingMade(s, i, c, run);
    } else {
      var r, rest := run.records[0], Run(run.records[1..], run.result, run.approval);
      assert Iterates(s, i, c, run.records, 0);
      assert i <= s.cfg.maxIterations;
      hide Threaded, Ended;
      assert [r] + rest.records == run.records;
      FirstIsMade(s, i, c, run.records);
      OneMade(s, i, c);
      EndingFits(s, i, c, r, Run([r], run.result, run.approval));
      if LeadsOn(s, r) {
        FitsLater(s, i, c, r, rest);
        OnlyLoopFits(s, i + 1, CarryOn(c, r), rest);
      } else {
        assert |run.records| == 1;
        assert run == Run([r], run.result, run.approval);
      }
    }
  }

  /** A run of the loop node, from nothing but what it is given: it begins behind the iteration of an
      approval stored for this node by an interactive loop, with its session and the user's input, or else
      at the first iteration with neither; and it is the one run that fits the description. */
  lemma RunIsAsDescribed(cfg: LoopConfig, meta: Option<Approval>, input: string, env: Env, run: Run)
    ensures var resumed := meta.Some? && meta.value.interactiveLoop && meta.value.nodeId == cfg.nodeId;
            var start := if resumed && meta.value.iteration.Some? then meta.value.iteration.value + 1 else 1;
            var session := if resumed then meta.value.sessionId else None;
            run == RunOf(cfg, meta, input, env) <==>
              Fits(Setting(cfg, env, start, resumed, if resumed then input else ""), start,
                   Carried(session, "", None, None), run)
  {
    hide Fits, RunFrom;
    var s, c := SettingOf(cfg, meta, input, env), InitiallyCarried(cfg, meta);
    LoopFits(s, s.start, c);
    if Fits(s, s.start, c, run) {
      OnlyLoopFits(s, s.start, c, run);
    }
  }

  /** The iterations of every run are numbered without gap, resume the session reported last and are given
      the output of the one before. */
  lemma RunIsThreaded(s: Setting, i: nat, c: Carried, j: nat)
    requires s.start <= i && j < |RunFrom(s, i, c).records|
    ensures Threaded(s, i, c, RunFrom(s, i, c).records, j)
  {
    hide RunFrom, Threaded, Made, LeadsOn, Ended;
    LoopFits(s, i, c);
    assert Iterates(s, i, c, RunFrom(s, i, c).records, j);
  }

  lemma EarlierIterationsLeadOn(s: Setting, i: nat, c: Carried, j: nat)
    requires s.start <= i && j + 1 < |RunFrom(s, i, c).records|
    ensures LeadsOn(s, RunFrom(s, i, c).records[j])
  {
    hide RunFrom, Threaded, Made, LeadsOn, Ended;
    LoopFits(s, i, c);
    assert Iterates(s, i, c, RunFrom(s, i, c).records, j);
  }

  /** How a run ends: it completes exactly when its last iteration brought a completion that is
      honoured, or when it paused; either way the cost is that of all its iterations. */
  ghost predicate Concluded(s: Setting, c: Carried, run: Run) {
    var n := |run.records|;
    && (run.result.failure.None? <==>
          n > 0 && var last := run.records[n - 1];
          && !last.pass.ending.Broken? && !Empty(last.pass)
          && (Honoured(s, last) || (s.cfg.Gated() && s.env.gate(last.call.iteration).Paused?)))
    && (run.approval.Some? <==> run.result.failure.None? && !Honoured(s, run.records[n - 1]))
    && (run.result.failure.None? ==>
          && run.result.cost == LoopCost(c.cost, run.records)
          && run.result.output == run.records[n - 1].output)
    && (run.approval.Some? ==>
          run.approval.value == Approval(s.cfg.nodeId, true, Some(run.records[n - 1].call.iteration),
                                         SessionAfter(c.session, run.records)))
  }

  lemma RunIsConcluded(s: Setting, i: nat, c: Carried)
    requires s.start <= i
    ensures Concluded(s, c, RunFrom(s, i, c))
  {
    hide RunFrom, Made, IsBlank, LoopCost, SessionAfter, StructuredAfter;
    LoopFits(s, i, c);
    var run := RunFrom(s, i, c);
    if |run.records| > 0 {
      assert Iterates(s, i, c, run.records, |run.records| - 1);
    }
  }

  /** What is kept over the iterations is what the last one to report anything reported, or what there was
      before. */
  lemma KeptIsReportedLast(c: Carried, records: seq<Record>)
    ensures (forall j :: 0 <= j < |records| ==> records[j].pass.sessionId.None?) ==>
              SessionAfter(c.session, records) == c.session
    ensures forall j :: 0 <= j < |records| && records[j].pass.sessionId.Some?
                        && (forall k :: j < k < |records| ==> records[k].pass.sessionId.None?) ==>
              SessionAfter(c.session, records) == records[j].pass.sessionId
    ensures (forall j :: 0 <= j < |records| ==> records[j].pass.structured.None?) ==>
              StructuredAfter(c.structured, records) == c.structured
    ensures forall j :: 0 <= j < |records| && records[j].pass.structured.Some?
                        && (forall k :: j < k < |records| ==> records[k].pass.structured.None?) ==>
              StructuredAfter(c.structured, records) == records[j].pass.structured
  {
    LastSessionIsKept(c.session, records);
    LastPayloadIsKept(c.structured, records);
  }

  lemma {:induction false} LastSessionIsKept(before: Option<string>, records: seq<Record>)
    ensures (forall j :: 0 <= j < |records| ==> records[j].pass.sessionId.None?) ==>
              SessionAfter(before, records) == before
    ensures forall j :: 0 <= j < |records| && records[j].pass.sessionId.Some?
                        && (forall k :: j < k < |records| ==> records[k].pass.sessionId.None?) ==>
              SessionAfter(before, records) == records[j].pass.sessionId
    decreases |records|
  {
    if |records| > 0 {
      LastSessionIsKept(if records[0].pass.sessionId.Some? then records[0].pass.sessionId else before, records[1..]);
      assert forall j :: 0 < j < |records| ==> records[j] == records[1..][j - 1];
    }
  }

  lemma {:induction false} LastPayloadIsKept(before: Option<Json>, records: seq<Record>)
    ensures (forall j :: 0 <= j < |records| ==> records[j].pass.structured.None?) ==>
              StructuredAfter(before, records) == before
    ensures forall j :: 0 <= j < |records| && records[j].pass.structured.Some?
                        && (forall k :: j < k < |records| ==> records[k].pass.structured.None?) ==>
              StructuredAfter(before, records) == records[j].pass.structured
    decreases |records|
  {
    if |records| > 0 {
      LastPayloadIsKept(if records[0].pass.structured.Some? then records[0].pass.structured else before, records[1..]);
      assert forall j :: 0 < j < |records| ==> records[j] == records[1..][j - 1];
    }
  }

  function LoopTotal(records: seq<Record>): real
    decreases |records|
  {
    if |records| == 0 then 0.0 else records[0].pass.cost.GetOr(0.0) + LoopTotal(records[1..])
  }

  lemma {:induction false} LoopCostIsTotal(c: Option<real>, records: seq<Record>)
    ensures LoopCost(c, records).GetOr(0.0) == c.GetOr(0.0) + LoopTotal(records)
    ensures LoopCost(c, records).None? <==> c.None? && forall j :: 0 <= j < |records| ==> records[j].pass.cost.None?
    decreases |records|
  {
    if |records| > 0 {
      LoopCostIsTotal(Plus(c, records[0].pass.cost), records[1..]);
      assert forall j :: 0 < j < |records| ==> records[j] == records[1..][j - 1];
    }
  }

  /** Whatever is read of the call's stream, it reads well, and it brings the completion or not, as given. */
  ghost predicate Answers(env: Env, call: LoopCall, completes: bool) {
    forall u :: Unstopped(env.provider(call), u) ==>
      ReadsWell(PassOf(u)) && (env.completes(call, PassOf(u)) <==> completes)
  }

  /** A loop that is not interactive and that nothing keeps from going on, whose iterations all read well up to
      the first one that brings the completion: it makes exactly the iterations up to this one and completes
      in it, with its output, and with the payload, session and cost of them all. */
  lemma FirstSignalCompletes(cfg: LoopConfig, meta: Option<Approval>, input: string, env: Env, n: nat)
    requires !cfg.interactive && !IsLoopResume(cfg, meta) && 1 <= n <= cfg.maxIterations
    requires !env.promptFails && forall i: nat :: 1 <= i <= n ==> env.status(i) == Proceeds
    requires forall call: LoopCall :: 1 <= call.iteration <= n ==> Answers(env, call, call.iteration == n)
    ensures var run := RunOf(cfg, meta, input, env);
            && |run.records| == n && run.approval == None
            && run.result == LoopResult(run.records[n - 1].output, StructuredAfter(None, run.records),
                                        SessionAfter(None, run.records), LoopCost(None, run.records), None)
  {
    hide RunFrom, PassOf, Unstopped, SessionAfter, StructuredAfter, LoopCost;
    var s, c := SettingOf(cfg, meta, input, env), InitiallyCarried(cfg, meta);
    var run := RunOf(cfg, meta, input, env);
    LoopFits(s, 1, c);
    forall j: nat | j < |run.records| && j < n
      ensures LeadsOn(s, run.records[j]) <==> j + 1 < n
      ensures run.records[j].call.iteration == j + 1 && ReadsWell(run.records[j].pass)
    {
      assert Iterates(s, 1, c, run.records, j);
      assert Answers(env, run.records[j].call, j + 1 == n);
    }
    var last: nat := n - 1;
    assert last < |run.records| ==> Iterates(s, 1, c, run.records, last);
  }

  /** An interactive loop without a gate message never completes: its completions are not honoured,
      and there is no gate behind which they would be. */
  lemma WithoutGateNeverCompletes(cfg: LoopConfig, meta: Option<Approval>, input: string, env: Env)
    requires cfg.interactive && cfg.gateMessage.None? && !IsLoopResume(cfg, meta)
    ensures RunOf(cfg, meta, input, env).result.failure.Some?
  {
    hide RunFrom;
    RunIsConcluded(SettingOf(cfg, meta, input, env), 1, InitiallyCarried(cfg, meta));
  }

  /** A loop that is not interactive, in all its iterations: from the first one on, without gap, the
      sessions handed on, the earlier ones all without completion; and it completes exactly when
      the last one brings the completion. */
  lemma UninterruptedLoop(cfg: LoopConfig, meta: Option<Approval>, input: string, env: Env, j: nat)
    requires !cfg.interactive && !IsLoopResume(cfg, meta)
    requires j < |RunOf(cfg, meta, input, env).records|
    ensures var run := RunOf(cfg, meta, input, env);
            var call := run.records[j].call;
            && |run.records| <= cfg.maxIterations
            && call.iteration == j + 1
            && call.resume == (if cfg.freshContext || j == 0 then None else SessionAfter(None, run.records[..j]))
            && (j + 1 < |run.records| ==> !run.records[j].completes)
            && (run.result.failure.None? <==>
                  var last := run.records[|run.records| - 1];
                  last.completes && ReadsWell(last.pass))
  {
    hide RunFrom;
    var s := SettingOf(cfg, meta, input, env);
    var c := InitiallyCarried(cfg, meta);
    RunIsThreaded(s, 1, c, j);
    RunIsThreaded(s, 1, c, |RunFrom(s, 1, c).records| - 1);
    RunIsConcluded(s, 1, c);
    if j + 1 < |RunFrom(s, 1, c).records| {
      EarlierIterationsLeadOn(s, 1, c, j);
    }
  }

  // ---------------------------------------------------------------------
  // A chain of runs
  // ---------------------------------------------------------------------

  /** One run in a chain, in its own environment, with the user's input it was resumed with. */
  datatype Leg = Leg(env: Env, input: string, run: Run)

  /** A first run and the runs that took up where the one before paused. */
  ghost predicate IsChain(cfg: LoopConfig, legs: seq<Leg>) {
    && |legs| > 0
    && legs[0].run == RunOf(cfg, None, legs[0].input, legs[0].env)
    && forall k: nat :: 0 < k < |legs| ==> TakesUp(cfg, legs, k)
  }

  ghost predicate TakesUp(cfg: LoopConfig, legs: seq<Leg>, k: nat)
    requires 0 < k < |legs|
  {
    && legs[k - 1].run.approval.Some?
    && legs[k].run == RunOf(cfg, legs[k - 1].run.approval, legs[k].input, legs[k].env)
  }

  function AllRecords(legs: seq<Leg>): seq<Record> {
    if |legs| == 0 then [] else AllRecords(legs[..|legs| - 1]) + legs[|legs| - 1].run.records
  }

  /** A run behind a gate makes at most one iteration, and exactly one if it pauses. */
  lemma GatedRun(s: Setting, c: Carried)
    requires s.cfg.Gated()
    ensures var run := RunFrom(s, s.start, c);
            && |run.records| <= 1
            && (|run.records| == 1 ==> s.start <= s.cfg.maxIterations && run.records[0].call == CallAt(s, s.start, c))
            && (run.approval.Some? ==>
                  && |run.records| == 1
                  && run.approval.value ==
                     Approval(s.cfg.nodeId, true, Some(s.start), SessionAfter(c.session, run.records)))
  {
    hide RunFrom, Made, LoopCost, SessionAfter, StructuredAfter;
    LoopFits(s, s.start, c);
    var run := RunFrom(s, s.start, c);
    if |run.records| > 0 {
      assert Iterates(s, s.start, c, run.records, 0);
      assert run.records[..0] == [];
      NoneBefore(c);
    }
  }

  lemma NoneBefore(c: Carried)
    ensures SessionAfter(c.session, []) == c.session
  {
  }

  lemma {:induction false} SessionAfterMore(before: Option<string>, a: seq<Record>, b: seq<Record>)
    ensures SessionAfter(before, a + b) == SessionAfter(SessionAfter(before, a), b)
    decreases |a|
  {
    if |a| == 0 {
      assert a + b == b;
    } else {
      assert (a + b)[1..] == a[1..] + b;
      SessionAfterMore(if a[0].pass.sessionId.Some? then a[0].pass.sessionId else before, a[1..], b);
    }
  }

  /** The k-th run of a chain, and what it stored if it paused. */
  ghost predicate LegFits(cfg: LoopConfig, legs: seq<Leg>, k: nat)
    requires k < |legs|
  {
    var run := legs[k].run;
    && |run.records| <= 1
    && (|run.records| == 1 ==>
          var call := run.records[0].call;
          && call.iteration == k + 1 <= cfg.maxIterations
          && call.resume == (if cfg.freshContext || k == 0 then None else SessionAfter(None, AllRecords(legs[..k])))
          && call.userInput == (if k == 0 then "" else legs[k].input)
          && |call.prevOutput| == 0)
    && (run.approval.Some? ==>
          && |run.records| == 1
          && run.approval.value ==
             Approval(cfg.nodeId, true, Some(k + 1), SessionAfter(None, AllRecords(legs[..k + 1]))))
  }

  lemma {:induction false} ChainFits(cfg: LoopConfig, legs: seq<Leg>, k: nat)
    requires cfg.Gated() && IsChain(cfg, legs) && k < |legs|
    ensures LegFits(cfg, legs, k)
    ensures |AllRecords(legs[..k])| == k
  {
    hide RunFrom;
    var meta := None;
    assert legs[..k + 1][..k] == legs[..k];
    if k > 0 {
      ChainFits(cfg, legs, k - 1);
      assert TakesUp(cfg, legs, k);
      assert legs[..k][..k - 1] == legs[..k - 1];
      meta := legs[k - 1].run.approval;
    }
    var s := SettingOf(cfg, meta, legs[k].input, legs[k].env);
    GatedRun(s, InitiallyCarried(cfg, meta));
    SessionAfterMore(None, AllRecords(legs[..k]), legs[k].run.records);
  }

  /** Over any chain of runs of a loop with a gate message, whatever happens in between: each run
      makes at most one iteration, the iterations are numbered 1, 2, 3 and so on without gap or
      repetition up to the maximum, and there are at most `max_iterations` + 1 runs. */
  lemma ChainIsOneLoop(cfg: LoopConfig, legs: seq<Leg>)
    requires cfg.Gated() && IsChain(cfg, legs)
    ensures forall k: nat :: k < |legs| ==> LegFits(cfg, legs, k)
    ensures |legs| - 1 <= |AllRecords(legs)| <= |legs|
    ensures |AllRecords(legs)| <= cfg.maxIterations && |legs| <= cfg.maxIterations + 1
  {
    forall k: nat | k < |legs|
      ensures LegFits(cfg, legs, k)
    {
      ChainFits(cfg, legs, k);
    }
    CountRecords(cfg, legs);
  }

  lemma CountRecords(cfg: LoopConfig, legs: seq<Leg>)
    requires cfg.Gated() && IsChain(cfg, legs)
    ensures |legs| - 1 <= |AllRecords(legs)| <= |legs|
    ensures |AllRecords(legs)| <= cfg.maxIterations && |legs| <= cfg.maxIterations + 1
  {
    var last := |legs| - 1;
    ChainFits(cfg, legs, last);
    if last > 0 {
      assert TakesUp(cfg, legs, last);
      ChainFits(cfg, legs, last - 1);
    }
    hide IsChain, TakesUp;
  }

  ghost predicate SameReports(a: seq<Record>, b: seq<Record>) {
    |a| == |b| && forall i :: 0 <= i < |a| ==> a[i].pass.sessionId == b[i].pass.sessionId
  }

  lemma {:induction false} SameSessionAfter(before: Option<string>, a: seq<Record>, b: seq<Record>)
    requires SameReports(a, b)
    ensures SessionAfter(before, a) == SessionAfter(before, b)
    decreases |a|
  {
    if |a| > 0 {
      SameSessionAfter(if a[0].pass.sessionId.Some? then a[0].pass.sessionId else before, a[1..], b[1..]);
    }
  }

  /** Where earlier iterations reported the same sessions, the same session is handed on. */
  lemma SameReportsSameSession(cfg: LoopConfig, legs: seq<Leg>, input: string, env: Env, k: nat)
    requires cfg.Gated() && IsChain(cfg, legs) && k < |legs| && |legs[k].run.records| == 1
    requires var whole := Whole(cfg, input, env);
             k < |whole| && SameReports(whole[..k], AllRecords(legs[..k]))
    ensures var whole := Whole(cfg, input, env);
            && whole[k].call.iteration == legs[k].run.records[0].call.iteration
            && whole[k].call.resume == legs[k].run.records[0].call.resume
  {
    hide RunOf;
    var plain := cfg.(interactive := false);
    var whole := Whole(cfg, input, env);
    UninterruptedLoop(plain, None, input, env, k);
    ChainFits(cfg, legs, k);
    SameSessionAfter(None, whole[..k], AllRecords(legs[..k]));
  }

  /** The iterations of the same loop without gate or pause. */
  function Whole(cfg: LoopConfig, input: string, env: Env): seq<Record> {
    RunOf(cfg.(interactive := false), None, input, env).records
  }

  type Reporter = (nat, Option<string>) -> Option<string>

  /** The session the provider reports depends on the iteration and the resumed session only. */
  ghost predicate Reports(env: Env, report: Reporter) {
    forall call :: PassOf(Unchecked(env.provider(call))).sessionId == report(call.iteration, call.resume)
  }

  lemma {:induction false} RecordsAreReported(s: Setting, i: nat, c: Carried, j: nat, report: Reporter)
    requires Reports(s.env, report) && j < |RunFrom(s, i, c).records|
    ensures var r := RunFrom(s, i, c).records[j];
            r.pass.sessionId == report(r.call.iteration, r.call.resume)
    decreases s.cfg.maxIterations + 1 - i
  {
    hide EndingAt, PassOf;
    if j > 0 {
      hide RecordAt, CarryOn;
      RecordsAreReported(s, i + 1, CarryOn(c, RecordAt(s, i, c)), j - 1, report);
    }
  }

  lemma RunIsReported(cfg: LoopConfig, meta: Option<Approval>, input: string, env: Env, j: nat, report: Reporter)
    requires Reports(env, report) && j < |RunOf(cfg, meta, input, env).records|
    ensures var r := RunOf(cfg, meta, input, env).records[j];
            r.pass.sessionId == report(r.call.iteration, r.call.resume)
  {
    hide RunFrom;
    var s := SettingOf(cfg, meta, input, env);
    RecordsAreReported(s, s.start, InitiallyCarried(cfg, meta), j, report);
  }

  lemma OneMoreReport(a: seq<Record>, b: seq<Record>, r: Record, q: Record)
    requires SameReports(a, b) && r.pass.sessionId == q.pass.sessionId
    ensures SameReports(a + [r], b + [q])
  {
  }

  lemma PausedLeg(cfg: LoopConfig, legs: seq<Leg>, k: nat)
    requires cfg.Gated() && IsChain(cfg, legs) && k + 1 < |legs|
    ensures |legs[k].run.records| == 1
  {
    ChainFits(cfg, legs, k);
    assert TakesUp(cfg, legs, k + 1);
  }

  /** The k-th run of a chain, on its own. */
  lemma LegReports(cfg: LoopConfig, legs: seq<Leg>, k: nat, report: Reporter)
    requires IsChain(cfg, legs) && k < |legs| && |legs[k].run.records| == 1 && Reports(legs[k].env, report)
    ensures var r := legs[k].run.records[0];
            r.pass.sessionId == report(r.call.iteration, r.call.resume)
  {
    hide RunOf, Reports;
    if k == 0 {
      RunIsReported(cfg, None, legs[0].input, legs[0].env, 0, report);
    } else {
      assert TakesUp(cfg, legs, k);
      RunIsReported(cfg, legs[k - 1].run.approval, legs[k].input, legs[k].env, 0, report);
    }
  }

  lemma {:induction false} ChainReportsTheSame(cfg: LoopConfig, legs: seq<Leg>, input: string, env: Env, k: nat,
                                               report: Reporter)
    requires cfg.Gated() && IsChain(cfg, legs) && k < |legs| && k <= |Whole(cfg, input, env)|
    requires Reports(env, report) && forall leg :: leg in legs ==> Reports(leg.env, report)
    ensures SameReports(Whole(cfg, input, env)[..k], AllRecords(legs[..k]))
  {
    hide RunOf, Reports, IsChain;
    if k > 0 {
      var j := k - 1;
      var whole := Whole(cfg, input, env);
      ChainReportsTheSame(cfg, legs, input, env, j, report);
      PausedLeg(cfg, legs, j);
      SameReportsSameSession(cfg, legs, input, env, j);
      assert legs[j] in legs;
      LegReports(cfg, legs, j, report);
      RunIsReported(cfg.(interactive := false), None, input, env, j, report);
      OneMoreReport(whole[..j], AllRecords(legs[..j]), whole[j], legs[j].run.records[0]);
      assert whole[..k] == whole[..j] + [whole[j]];
      assert legs[..k][..j] == legs[..j];
      assert legs[j].run.records == [legs[j].run.records[0]];
    }
  }

  /** Pausing and resuming does not break the thread: where the session a provider reports depends on the
      iteration and the session it resumes, the run that makes the k-th iteration of a chain hands it the
      very session that the same loop would have handed it without interruption. */
  lemma ChainKeepsSessions(cfg: LoopConfig, legs: seq<Leg>, input: string, env: Env, k: nat, report: Reporter)
    requires cfg.Gated() && IsChain(cfg, legs) && k < |legs| && |legs[k].run.records| == 1
    requires Reports(env, report) && forall leg :: leg in legs ==> Reports(leg.env, report)
    requires k < |Whole(cfg, input, env)|
    ensures var whole := Whole(cfg, input, env);
            && whole[k].call.iteration == legs[k].run.records[0].call.iteration
            && whole[k].call.resume == legs[k].run.records[0].call.resume
  {
    hide RunOf, Reports, IsChain;
    ChainReportsTheSame(cfg, legs, input, env, k, report);
    SameReportsSameSession(cfg, legs, input, env, k);
  }
}
