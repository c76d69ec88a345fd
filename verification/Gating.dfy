/** What one node's task does with the outputs of earlier layers: reuse a prior result, check
    the trigger rule, check `when:`, and only then run the node's executor. */
module Gating {
  import opened Schema
  import OutputRef
  import Condition

  /** The outcome of an executor. A task that panics reports nothing. */
  datatype ExecOutcome =
    | Succeeded(output: string, sessionId: Option<string>, structured: Option<Json>,
                declared: Option<seq<string>>, cost: Option<real>)
    | FailedWith(output: string, sessionId: Option<string>, error: string, structured: Option<Json>,
                 declared: Option<seq<string>>, cost: Option<real>)
    | Panicked

  /** The executors, as one deterministic function of the node, the outputs it is shown and the
      session it resumes; and the JSON library that conditions rely on. */
  datatype Env = Env(exec: (Node, Outputs, Option<string>) -> ExecOutcome, lib: OutputRef.Library)

  datatype TaskResult = TaskResult(output: Option<NodeOutput>, cost: real, invoked: bool)

  function Upstream(id: string, outputs: Outputs): NodeOutput {
    if id in outputs then outputs[id]
    else Failed("", None, "upstream '" + id + "' missing from outputs", None, None)
  }

  /** Whether the trigger rule lets the node run. */
  predicate CheckTriggerRule(node: Node, outputs: Outputs) {
    var deps := node.dependsOn;
    |deps| == 0 ||
    match node.triggerRule.GetOr(AllSuccess)
    case AllSuccess => forall d :: d in deps ==> Upstream(d, outputs).Completed?
    case OneSuccess => exists d :: d in deps && Upstream(d, outputs).Completed?
    case NoneFailedMinOneSuccess =>
      && (forall d :: d in deps ==> !Upstream(d, outputs).Failed?)
      && (exists d :: d in deps && Upstream(d, outputs).Completed?)
    case AllDone => forall d :: d in deps ==> !Upstream(d, outputs).Pending? && !Upstream(d, outputs).Running?
  }

  predicate WhenHolds(node: Node, outputs: Outputs, lib: OutputRef.Library) {
    node.when.Some? ==> Condition.Evaluate(node.when.value, outputs, lib) == Ok(Condition.True)
  }

  /** A reused or prepopulated result keeps nothing but its text. */
  function PriorOutput(text: string): NodeOutput {
    Completed(text, None, None, None)
  }

  function ToResult(e: ExecOutcome): TaskResult {
    match e
    case Succeeded(output, sessionId, structured, declared, cost) =>
      TaskResult(Some(Completed(output, sessionId, structured, declared)), cost.GetOr(0.0), true)
    case FailedWith(output, sessionId, error, structured, declared, cost) =>
      TaskResult(Some(Failed(output, sessionId, error, structured, declared)), cost.GetOr(0.0), true)
    case Panicked => TaskResult(None, 0.0, true)
  }

  const SKIPPED := TaskResult(Some(Skipped("")), 0.0, false)

  /** The outputs that gating and the executor see: the snapshot, and for a node that is run
      again the text of its own earlier result. */
  function View(node: Node, snapshot: Outputs, prior: map<string, string>): Outputs {
    if node.id in prior && node.id !in snapshot then snapshot[node.id := PriorOutput(prior[node.id])] else snapshot
  }

  function RunTask(node: Node, snapshot: Outputs, prior: map<string, string>,
                   layerSession: Option<string>, parallel: bool, env: Env): TaskResult
  {
    if node.id in prior && !node.alwaysRun then TaskResult(Some(PriorOutput(prior[node.id])), 0.0, false)
    else
      var all := View(node, snapshot, prior);
      if !CheckTriggerRule(node, all) || !WhenHolds(node, all, env.lib) then SKIPPED
      else ToResult(env.exec(node, all, if parallel || node.freshContext then None else layerSession))
  }

  /** A node that is not reused runs exactly when its trigger rule lets it and its condition evaluates to
      true, and is otherwise skipped. A condition that cannot be parsed and one whose reference cannot be
      resolved leave the node skipped, not failed. */
  lemma TaskIsGated(node: Node, snapshot: Outputs, prior: map<string, string>,
                    layerSession: Option<string>, parallel: bool, env: Env)
    requires node.id in prior ==> node.alwaysRun
    ensures var r := RunTask(node, snapshot, prior, layerSession, parallel, env);
            var all := View(node, snapshot, prior);
            && (r.invoked <==> CheckTriggerRule(node, all) && WhenHolds(node, all, env.lib))
            && (!r.invoked ==> r == SKIPPED)
            && (node.when.Some? && Condition.Evaluate(node.when.value, all, env.lib) != Ok(Condition.True) ==>
                  r == SKIPPED)
            && (r.invoked ==>
                  r == ToResult(env.exec(node, all, if parallel || node.freshContext then None else layerSession)))
  {
    hide CheckTriggerRule, Condition.Evaluate;
  }

  /** A node whose trigger rule holds and whose condition `$a.output.f == 'x'` names a field of a skipped
      node: its condition is an error, and the node is skipped, not failed. */
  lemma UnresolvableConditionSkips(env: Env)
    requires Condition.Decimals(env.lib.isDecimal)
    ensures var node := Node("b", ["a"], Some(Condition.UNRESOLVABLE.Text()), Some(AllDone), false, false);
            var snapshot: Outputs := map["a" := Skipped("")];
            && CheckTriggerRule(node, snapshot)
            && Condition.Evaluate(node.when.value, snapshot, env.lib) == Err(OutputRef.ProducerNotRun)
            && RunTask(node, snapshot, map[], None, false, env) == SKIPPED
  {
    hide Condition.Evaluate, Condition.Spaced.Text, Condition.Decimals;
    Condition.UnresolvableIsAnError(env.lib);
    var node := Node("b", ["a"], Some(Condition.UNRESOLVABLE.Text()), Some(AllDone), false, false);
    TaskIsGated(node, map["a" := Skipped("")], map[], None, false, env);
  }

  type Task = (Node, Outputs, Option<string>, bool) -> TaskResult

  /** The tasks of a run, as a function of what the run hands to each of them. */
  function Tasks(prior: map<string, string>, env: Env): Task {
    (node: Node, snapshot: Outputs, session: Option<string>, parallel: bool) =>
      RunTask(node, snapshot, prior, session, parallel, env)
  }
}
