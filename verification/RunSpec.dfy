/** A whole workflow run as a function of the graph: layer by layer, each layer's tasks see only
    the outputs of the layers before it. */
module RunSpec {
  import opened Schema
  import opened Layering
  import opened Gating

  /** A run: the workflow, the outputs of an earlier run, and what its tasks compute. */
  datatype Input = Input(g: Graph, prior: map<string, string>, task: Task)

  ghost function Workflow(g: Graph, prior: map<string, string>, env: Env): Input {
    Input(g, prior, Tasks(prior, env))
  }

  datatype State = State(outputs: Outputs, session: Option<string>, cost: real, invoked: set<string>)

  ghost function Prepopulated(inp: Input): Outputs {
    map id | id in inp.prior && !(id in inp.g && inp.g[id].alwaysRun) :: PriorOutput(inp.prior[id])
  }

  ghost function LayerSession(s: State, level: set<string>): Option<string> {
    if |level| > 1 then None else s.session
  }

  ghost function TaskOf(inp: Input, s: State, level: set<string>, id: string): TaskResult
    requires id in inp.g
  {
    inp.task(inp.g[id], s.outputs, LayerSession(s, level), |level| > 1)
  }

  ghost function LayerResults(inp: Input, s: State, level: set<string>): map<string, TaskResult> {
    map id | id in level && id in inp.g :: TaskOf(inp, s, level, id)
  }

  ghost function Recorded(results: map<string, TaskResult>): Outputs {
    map id | id in results && results[id].output.Some? :: results[id].output.value
  }

  ghost function Invoked(results: map<string, TaskResult>): set<string> {
    set id | id in results && results[id].invoked
  }

  /** The session that a layer of one node hands on. */
  ghost function HandedOn(t: Option<NodeOutput>, session: Option<string>): Option<string> {
    if t.Some? && t.value.Completed? && t.value.sessionId.Some? then t.value.sessionId else session
  }

  ghost function TheOnly(level: set<string>): string
    requires |level| == 1
  {
    var id :| id in level;
    id
  }

  /** A single node's session is handed on; a parallel layer hands on none. */
  ghost function NextSession(results: map<string, TaskResult>, level: set<string>,
                             session: Option<string>): Option<string>
  {
    if |level| == 1 && TheOnly(level) in results then HandedOn(results[TheOnly(level)].output, session)
    else session
  }

  ghost function CostSum(results: map<string, TaskResult>): real {
    if results == map[] then 0.0
    else
      var id :| id in results;
      results[id].cost + CostSum(results - {id})
  }

  lemma CostOfNone()
    ensures CostSum(map[]) == 0.0
  {
  }

  /** Whichever node is taken first, the sum is the same. */
  lemma {:induction false} CostOfOne(results: map<string, TaskResult>, id: string)
    requires id in results
    ensures CostSum(results) == results[id].cost + CostSum(results - {id})
    decreases |results|
  {
    var x :| x in results && CostSum(results) == results[x].cost + CostSum(results - {x});
    if x != id {
      CostOfOne(results - {x}, id);
      CostOfOne(results - {id}, x);
      assert results - {x} - {id} == results - {id} - {x};
    }
  }

  ghost function Joined(s: State, results: map<string, TaskResult>, session: Option<string>): State {
    State(s.outputs + Recorded(results), session, s.cost + CostSum(results), s.invoked + Invoked(results))
  }

  /** The join of a layer. */
  ghost function Record(s: State, results: map<string, TaskResult>, level: set<string>): State {
    Joined(s, results, NextSession(results, level, LayerSession(s, level)))
  }

  ghost function Step(inp: Input, s: State, level: set<string>): State {
    Record(s, LayerResults(inp, s, level), level)
  }

  /** The state after k layers. */
  ghost function After(inp: Input, k: nat): State {
    if k == 0 then State(Prepopulated(inp), None, 0.0, {})
    else Step(inp, After(inp, k - 1), Level(inp.g, k - 1))
  }

  /** The state after all layers: a graph has no more layers than nodes. */
  ghost function Final(inp: Input): State {
    After(inp, |inp.g|)
  }

  ghost predicate Sound(inp: Input) {
    && !HasMissingDependency(inp.g) && !HasCycle(inp.g)
    && forall id :: id in inp.g ==> inp.g[id].id == id
  }

  // ---------------------------------------------------------------------
  // All layers
  // ---------------------------------------------------------------------

  lemma AllPlacedInTheEnd(g: Graph)
    requires !HasMissingDependency(g) && !HasCycle(g)
    ensures Placed(g, |g|) == g.Keys
  {
    PlacedMonotone(g, |g|);
    if id :| id in g && id !in Placed(g, |g|) {
      var c := UnplacedHasChain(g, |g|, id);
      LongChainHasCycle(g, c);
      assert false;
    }
  }

  /** Once every node is placed, further layers are empty and change nothing. */
  lemma {:induction false} AfterIsStable(inp: Input, j: nat, k: nat)
    requires j <= k && Placed(inp.g, j) == inp.g.Keys
    ensures After(inp, k) == After(inp, j)
    decreases k - j
  {
    if j < k {
      PlacedMonotone(inp.g, j);
      EmptyStep(inp, j);
      AfterIsStable(inp, j + 1, k);
    }
  }

  lemma EmptyStep(inp: Input, k: nat)
    requires Placed(inp.g, k) == inp.g.Keys
    ensures After(inp, k + 1) == After(inp, k) && Placed(inp.g, k + 1) == inp.g.Keys
  {
    PlacedMonotone(inp.g, k);
    PlacedMonotone(inp.g, k + 1);
    assert Level(inp.g, k) == {};
    EmptyLayer(inp, After(inp, k));
  }

  lemma EmptyLayer(inp: Input, s: State)
    ensures Step(inp, s, {}) == s
  {
    var results := LayerResults(inp, s, {});
    assert results == map[];
    assert s.outputs + Recorded(results) == s.outputs;
    assert s.invoked + Invoked(results) == s.invoked;
  }

  lemma FinalAfter(inp: Input, k: nat)
    requires Sound(inp) && Placed(inp.g, k) == inp.g.Keys
    ensures Final(inp) == After(inp, k)
  {
    AllPlacedInTheEnd(inp.g);
    AfterIsStable(inp, |inp.g|, if k < |inp.g| then |inp.g| else k);
    AfterIsStable(inp, k, if k < |inp.g| then |inp.g| else k);
  }

  /** The order in which a workflow declares its nodes changes nothing about its run. */
  lemma DeclarationOrderIsIrrelevant(nodes: seq<Node>, other: seq<Node>, prior: map<string, string>, env: Env)
    requires UniqueIds(nodes) && multiset(nodes) == multiset(other)
    ensures UniqueIds(other)
    ensures Final(Workflow(GraphOf(nodes), prior, env)) == Final(Workflow(GraphOf(other), prior, env))
  {
    GraphIgnoresOrder(nodes, other);
  }

  /** The level a placed node was placed in. */
  lemma {:induction false} LevelOf(g: Graph, k: nat, id: string) returns (j: nat)
    requires id in Placed(g, k)
    ensures j < k && id in Level(g, j)
  {
    if id in Placed(g, k - 1) {
      j := LevelOf(g, k - 1, id);
    } else {
      j := k - 1;
    }
  }

  /** What a layer does to one of its nodes. */
  lemma LayerRecords(inp: Input, k: nat, id: string)
    requires id in Level(inp.g, k) && id in inp.g
    ensures var t := TaskOf(inp, After(inp, k), Level(inp.g, k), id);
            && (t.output.Some? ==> id in After(inp, k + 1).outputs && After(inp, k + 1).outputs[id] == t.output.value)
            && (t.output.None? ==> (id in After(inp, k + 1).outputs <==> id in After(inp, k).outputs))
            && (t.output.None? && id in After(inp, k).outputs ==>
                  After(inp, k + 1).outputs[id] == After(inp, k).outputs[id])
            && (id in After(inp, k + 1).invoked <==> t.invoked || id in After(inp, k).invoked)
  {
  }

  /** The two states hold the same about one node. */
  ghost predicate SameAt(s: State, t: State, id: string) {
    && (id in s.outputs <==> id in t.outputs)
    && (id in s.outputs ==> s.outputs[id] == t.outputs[id])
    && (id in s.invoked <==> id in t.invoked)
  }

  lemma SameAtTransitive(s: State, t: State, u: State, id: string)
    requires SameAt(s, t, id) && SameAt(t, u, id)
    ensures SameAt(s, u, id)
  {
  }

  /** A layer leaves all other nodes alone. */
  lemma LayerLeavesOthers(inp: Input, k: nat, id: string)
    requires id !in Level(inp.g, k)
    ensures SameAt(After(inp, k), After(inp, k + 1), id)
  {
  }

  /** What has been placed never changes again. */
  lemma {:induction false} PlacedIsFixed(inp: Input, j: nat, k: nat, id: string)
    requires j <= k && id in Placed(inp.g, j)
    ensures SameAt(After(inp, j), After(inp, k), id)
    decreases k - j
  {
    if j < k {
      PlacedMonotone(inp.g, j);
      NotInLevel(inp.g, j, id);
      LayerLeavesOthers(inp, j, id);
      PlacedIsFixed(inp, j + 1, k, id);
      SameAtTransitive(After(inp, j), After(inp, j + 1), After(inp, k), id);
    }
  }

  lemma NotInLevel(g: Graph, k: nat, id: string)
    requires id in Placed(g, k)
    ensures id !in Level(g, k)
  {
  }

  lemma NotPlacedNotInLevel(g: Graph, k: nat, id: string)
    requires id !in Placed(g, k + 1)
    ensures id !in Level(g, k) && id !in Placed(g, k)
  {
    PlacedMonotone(g, k);
  }

  /** Before its layer, a node has not been invoked, and has at most the text of its prior output, which it
      does not have if it always runs. */
  lemma {:induction false} UnplacedIsUntouched(inp: Input, k: nat, id: string)
    requires id !in Placed(inp.g, k)
    ensures SameAt(After(inp, 0), After(inp, k), id)
    ensures id !in After(inp, k).invoked
    ensures id in After(inp, k).outputs <==> id in inp.prior && !(id in inp.g && inp.g[id].alwaysRun)
    ensures id in After(inp, k).outputs ==>
              After(inp, k).outputs[id] == Completed(inp.prior[id], None, None, None)
  {
    if k > 0 {
      var j := k - 1;
      NotPlacedNotInLevel(inp.g, j, id);
      UnplacedIsUntouched(inp, j, id);
      LayerLeavesOthers(inp, j, id);
      SameAtTransitive(After(inp, 0), After(inp, j), After(inp, k), id);
    }
  }

  // ---------------------------------------------------------------------
  // Settled outputs and the AllDone rule
  // ---------------------------------------------------------------------

  ghost predicate RunsWith(inp: Input, env: Env) {
    inp.task == Tasks(inp.prior, env)
  }

  lemma TaskSettles(inp: Input, env: Env, s: State, level: set<string>, id: string)
    requires id in inp.g && RunsWith(inp, env)
    ensures var t := TaskOf(inp, s, level, id); t.output.Some? ==> t.output.value.Settled()
  {
  }

  ghost predicate SettledAt(s: State, id: string) {
    id in s.outputs ==> s.outputs[id].Settled()
  }

  lemma StepSettles(inp: Input, env: Env, k: nat, id: string)
    requires RunsWith(inp, env) && SettledAt(After(inp, k), id)
    ensures SettledAt(After(inp, k + 1), id)
  {
    if id in Level(inp.g, k) {
      PlacedMonotone(inp.g, k);
      LayerRecords(inp, k, id);
      TaskSettles(inp, env, After(inp, k), Level(inp.g, k), id);
    } else {
      LayerLeavesOthers(inp, k, id);
    }
  }

  lemma SettledAtStart(inp: Input, id: string)
    ensures SettledAt(After(inp, 0), id)
  {
  }

  lemma {:induction false} AllSettled(inp: Input, env: Env, k: nat, id: string)
    requires RunsWith(inp, env)
    ensures SettledAt(After(inp, k), id)
  {
    hide After, RunsWith, SettledAt;
    if k == 0 {
      SettledAtStart(inp, id);
    } else {
      AllSettled(inp, env, k - 1, id);
      StepSettles(inp, env, k - 1, id);
    }
  }

  lemma DependencyIsSettled(inp: Input, env: Env, k: nat, id: string, d: string)
    requires RunsWith(inp, env) && id in inp.g
    ensures var o := Upstream(d, View(inp.g[id], After(inp, k).outputs, inp.prior));
            !o.Pending? && !o.Running?
  {
    hide After, RunsWith;
    AllSettled(inp, env, k, d);
  }

  /** Every trigger check, whatever the rule, comes after all dependencies have had their turn: they are
      placed, and none is pending or running, so the AllDone rule always lets its node run, panics or
      not. */
  lemma AllDoneAlwaysRuns(inp: Input, env: Env, k: nat, id: string)
    requires RunsWith(inp, env) && id in Level(inp.g, k) && id in inp.g
    ensures var all := View(inp.g[id], After(inp, k).outputs, inp.prior);
            && DependsWithin(inp.g[id], Placed(inp.g, k))
            && (forall d :: d in inp.g[id].dependsOn ==> !Upstream(d, all).Pending? && !Upstream(d, all).Running?)
            && (inp.g[id].triggerRule == Some(AllDone) ==> CheckTriggerRule(inp.g[id], all))
  {
    hide After, RunsWith;
    forall d | d in inp.g[id].dependsOn
      ensures var o := Upstream(d, View(inp.g[id], After(inp, k).outputs, inp.prior));
              !o.Pending? && !o.Running?
    {
      DependencyIsSettled(inp, env, k, id, d);
    }
  }
}
