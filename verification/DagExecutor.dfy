/** The executor of a workflow run: its mutable state, the tasks of a layer finishing in any
    order, the status checks between layers, and how the run ends. */
module DagExecutor {
  import opened Schema
  import opened Layering
  import opened Gating
  import opened RunSpec
  import RunTheorems
  import Text

  datatype RunStatus = StatusPending | StatusRunning | StatusPaused | StatusCompleted | StatusFailed | StatusCancelled

  /** What the store answers when asked for the run's status. */
  datatype StatusReply = Status(status: RunStatus) | Deleted | ReadFailed

  predicate Halts(reply: StatusReply) {
    reply.Deleted? || (reply.Status? && !reply.status.StatusRunning?)
  }

  /** No check after one of the first k layers stops the run. */
  ghost predicate NoHaltBefore(status: nat -> StatusReply, k: nat) {
    k == 0 || (NoHaltBefore(status, k - 1) && !Halts(status(k - 1)))
  }

  /** Only a run that is still marked as running, or whose status cannot be read, goes on. */
  lemma {:induction false} NoHaltMeans(status: nat -> StatusReply, k: nat)
    requires NoHaltBefore(status, k)
    ensures forall j: nat :: j < k ==> status(j) in {ReadFailed, Status(StatusRunning)}
  {
    if k > 0 {
      NoHaltMeans(status, k - 1);
    }
  }

  datatype Ending =
    | HaltedAfter(layer: nat)
    | Withheld
    | RunFailed
    | RunCompleted(output: Option<string>)

  // ---------------------------------------------------------------------
  // Sums over results
  // ---------------------------------------------------------------------

  ghost function Only(results: map<string, TaskResult>, ids: set<string>): map<string, TaskResult> {
    map id | id in results && id in ids :: results[id]
  }

  lemma OnlyOneMore(results: map<string, TaskResult>, ids: set<string>, id: string)
    requires id in results && id !in ids
    ensures CostSum(Only(results, ids + {id})) == CostSum(Only(results, ids)) + results[id].cost
  {
    CostOfOne(Only(results, ids + {id}), id);
    assert Only(results, ids + {id}) - {id} == Only(results, ids);
  }

  lemma CountsMean(o: Outputs)
    ensures RunTheorems.CompletedCount(o) > 0 <==> exists id :: id in o && o[id].Completed?
    ensures RunTheorems.FailedCount(o) > 0 <==> exists id :: id in o && o[id].Failed?
  {
    var c := set id | id in o && o[id].Completed?;
    var f := set id | id in o && o[id].Failed?;
    if id :| id in o && o[id].Completed? {
      assert id in c;
    }
    if id :| id in o && o[id].Failed? {
      assert id in f;
    }
    assert |c| > 0 ==> exists id :: id in c;
    assert |f| > 0 ==> exists id :: id in f;
  }

  class DagRun {
    var nodeOutputs: Outputs
    var lastSession: Option<string>
    var totalCost: real
    ghost var invoked: set<string>
    var layersStarted: nat
    var completeCalls: nat
    var failCalls: nat

    constructor ()
      ensures nodeOutputs == map[] && lastSession == None && totalCost == 0.0 && invoked == {}
      ensures layersStarted == 0 && completeCalls == 0 && failCalls == 0
    {
      nodeOutputs, lastSession, totalCost, invoked := map[], None, 0.0, {};
      layersStarted, completeCalls, failCalls := 0, 0, 0;
    }

    ghost function Current(): State
      reads this
    {
      State(nodeOutputs, lastSession, totalCost, invoked)
    }

    /** Enter the results of an earlier run, except for nodes that always run. */
    method Prepopulate(ghost inp: Input, nodes: seq<Node>, prior: map<string, string>)
      requires inp.g == GraphOf(nodes) && UniqueIds(nodes) && inp.prior == prior && nodeOutputs == map[]
      modifies this`nodeOutputs
      ensures nodeOutputs == Prepopulated(inp)
    {
      var alwaysRunIds := AlwaysRunIds(inp.g, nodes);
      EnteredAll(inp, alwaysRunIds);
      hide Entered, Prepopulated;
      var todo := prior.Keys;
      while todo != {}
        invariant todo <= prior.Keys
        invariant nodeOutputs == Entered(prior, todo, alwaysRunIds)
        decreases |todo|
      {
        var nid :| nid in todo;
        EnterOneMore(prior, todo, alwaysRunIds, nid);
        todo := todo - {nid};
        if nid !in alwaysRunIds {
          nodeOutputs := nodeOutputs[nid := PriorOutput(prior[nid])];
        }
      }
    }

    /** One result of a layer; only the result of a single node touches the session. */
    method CollectOne(ghost s: State, ghost results: map<string, TaskResult>, ghost seen: set<string>,
                      id: string, t: TaskResult, single: bool)
      requires Current() == Collected(s, results, seen, lastSession)
      requires id in results && id !in seen && t == results[id]
      requires t.output.None? ==> t.cost == 0.0
      modifies this`nodeOutputs, this`lastSession, this`totalCost, this`invoked
      ensures Current() == Collected(s, results, seen + {id}, lastSession)
      ensures lastSession == if single then HandedOn(t.output, old(lastSession)) else old(lastSession)
    {
      CollectOneMore(s, results, seen, id);
      if t.output.Some? {
        nodeOutputs := nodeOutputs[id := t.output.value];
        totalCost := totalCost + t.cost;
      }
      invoked := invoked + if t.invoked then {id} else {};
      if single {
        if t.output.Some? && t.output.value.Completed? && t.output.value.sessionId.Some? {
          lastSession := t.output.value.sessionId;
        }
      }
    }

    /** The join: results are collected in the order in which the tasks were started. */
    method Collect(ghost level: set<string>, layer: seq<Node>, results: map<string, TaskResult>)
      requires UniqueIds(layer) && IdSet(layer) == level == results.Keys
      requires forall id :: id in results && results[id].output.None? ==> results[id].cost == 0.0
      requires |layer| > 1 ==> lastSession == None
      modifies this`nodeOutputs, this`lastSession, this`totalCost, this`invoked
      ensures Current() == Record(old(Current()), results, level)
    {
      ghost var s := Current();
      ghost var seen := {};
      var single := |layer| == 1;
      CollectNothing(s, results);
      for i := 0 to |layer|
        invariant seen == IdSet(layer[..i])
        invariant Current() == Collected(s, results, seen, lastSession)
        invariant lastSession ==
                  if single && i == 1 then HandedOn(results[layer[0].id].output, s.session) else s.session
      {
        var id := layer[i].id;
        IdSetNext(layer, i);
        InLayer(layer, i);
        CollectOne(s, results, seen, id, results[id], single);
        seen := seen + {id};
      }
      assert layer[..|layer|] == layer;
      CollectedAll(s, layer, level, results, lastSession);
    }

    method RunLayer(ghost inp: Input, ghost level: set<string>, layer: seq<Node>,
                    prior: map<string, string>, env: Env)
      requires Holds(inp.g, level, layer) && inp == Workflow(inp.g, prior, env)
      modifies this`nodeOutputs, this`lastSession, this`totalCost, this`invoked, this`layersStarted
      ensures Current() == Step(inp, old(Current()), level)
      ensures layersStarted == old(layersStarted) + 1
    {
      ghost var s := Current();
      UniqueBag(layer);
      layersStarted := layersStarted + 1;
      var parallel := |layer| > 1;
      if parallel {
        lastSession := None;
      }
      var snapshot, session := nodeOutputs, lastSession;
      var results := RunTasks(layer, n => RunTask(n, snapshot, prior, session, parallel, env));
      TasksOfLayer(inp, env, s, level, layer, results);
      Collect(level, layer, results);
      RecordForgets(s, results, level);
    }

    /** How the state relates to the way the run ended. */
    ghost predicate Ends(inp: Input, nodes: seq<Node>, status: nat -> StatusReply, finalStatus: StatusReply, e: Ending)
      reads this
    {
      match e
      case HaltedAfter(i) =>
        && Halts(status(i)) && NoHaltBefore(status, i)
        && layersStarted == i + 1 && Current() == After(inp, i + 1)
        && completeCalls == 0 && failCalls == 0
      case _ =>
        && NoHaltBefore(status, layersStarted)
        && Placed(inp.g, layersStarted) == inp.g.Keys
        && Current() == Final(inp)
        && Concluded(nodes, finalStatus, e)
    }

    ghost predicate Concluded(nodes: seq<Node>, finalStatus: StatusReply, e: Ending)
      reads this
    {
      var succeeded := RunTheorems.CompletedCount(nodeOutputs) > 0 && RunTheorems.FailedCount(nodeOutputs) == 0;
      && !e.HaltedAfter?
      && (e.Withheld? <==> Halts(finalStatus))
      && (e.RunCompleted? <==> !Halts(finalStatus) && succeeded)
      && completeCalls == (if e.RunCompleted? then 1 else 0)
      && failCalls == (if e.RunFailed? then 1 else 0)
      && (e.RunCompleted? ==> IsTerminalOutput(nodes, nodeOutputs, e.output))
    }

    /** Run a workflow to one of its endings. `status` is what the store answers after each
        layer, `finalStatus` what it answers before the run is marked. */
    method Execute(nodes: seq<Node>, prior: map<string, string>, env: Env,
                   status: nat -> StatusReply, finalStatus: StatusReply)
      returns (r: Result<Ending, LayerError>)
      requires UniqueIds(nodes)
      requires Current() == State(map[], None, 0.0, {}) && layersStarted == completeCalls == failCalls == 0
      modifies this
      ensures r.Err? <==> HasMissingDependency(GraphOf(nodes)) || HasCycle(GraphOf(nodes))
      ensures r.Err? ==> Current() == old(Current()) && layersStarted == completeCalls == failCalls == 0
      ensures r.Ok? ==> Ends(Workflow(GraphOf(nodes), prior, env), nodes, status, finalStatus, r.value)
      ensures completeCalls == (if r.Ok? && r.value.RunCompleted? then 1 else 0)
      ensures failCalls == (if r.Ok? && r.value.RunFailed? then 1 else 0)
      ensures r.Ok? && r.value.HaltedAfter? ==>
                && status(r.value.layer) !in {ReadFailed, Status(StatusRunning)}
                && forall j: nat :: j < r.value.layer ==> status(j) in {ReadFailed, Status(StatusRunning)}
      ensures r.Ok? && !r.value.HaltedAfter? ==>
                && (r.value.Withheld? <==> finalStatus !in {ReadFailed, Status(StatusRunning)})
                && (r.value.RunCompleted? ==> exists id :: id in nodeOutputs && nodeOutputs[id].Completed?)
                && (r.value.RunCompleted? ==> forall id :: id in nodeOutputs ==> !nodeOutputs[id].Failed?)
                && (r.value.RunFailed? ==> (forall id :: id in nodeOutputs ==> !nodeOutputs[id].Completed?)
                                           || exists id :: id in nodeOutputs && nodeOutputs[id].Failed?)
                && forall j: nat :: j < layersStarted ==> status(j) in {ReadFailed, Status(StatusRunning)}
    {
      hide Final, Placed, HasCycle, HasMissingDependency, Layered, Prepopulated, After, Ends;
      var layering := Layers(nodes);
      if layering.Err? {
        return Err(layering.error);
      }
      ghost var inp := Workflow(GraphOf(nodes), prior, env);
      Prepopulate(inp, nodes, prior);
      AtStart(inp);
      var ending := RunToEnd(inp, nodes, layering.value, prior, env, status, finalStatus);
      EndsByReplies(inp, nodes, status, finalStatus, ending);
      r := Ok(ending);
    }

    method RunToEnd(ghost inp: Input, nodes: seq<Node>, layers: seq<seq<Node>>, prior: map<string, string>, env: Env,
                    status: nat -> StatusReply, finalStatus: StatusReply)
      returns (e: Ending)
      requires Layered(inp.g, layers) && Placed(inp.g, |layers|) == inp.g.Keys && Sound(inp)
      requires inp == Workflow(inp.g, prior, env)
      requires Current() == After(inp, 0) && layersStarted == completeCalls == failCalls == 0
      modifies this
      ensures Ends(inp, nodes, status, finalStatus, e)
    {
      hide After, Placed, Sound, Layered, Final, Concluded;
      var halted := RunAllLayers(inp, layers, prior, env, status);
      if halted.Some? {
        return HaltedAfter(halted.value);
      }
      e := Finish(nodes, finalStatus);
      NotHalted(nodes, finalStatus, e);
    }

    lemma EndsByReplies(inp: Input, nodes: seq<Node>, status: nat -> StatusReply, finalStatus: StatusReply, e: Ending)
      requires Ends(inp, nodes, status, finalStatus, e)
      ensures completeCalls == (if e.RunCompleted? then 1 else 0) && failCalls == (if e.RunFailed? then 1 else 0)
      ensures e.HaltedAfter? ==>
                && status(e.layer) !in {ReadFailed, Status(StatusRunning)}
                && forall j: nat :: j < e.layer ==> status(j) in {ReadFailed, Status(StatusRunning)}
      ensures !e.HaltedAfter? ==>
                && (e.Withheld? <==> finalStatus !in {ReadFailed, Status(StatusRunning)})
                && (e.RunCompleted? ==> exists id :: id in nodeOutputs && nodeOutputs[id].Completed?)
                && (e.RunCompleted? ==> forall id :: id in nodeOutputs ==> !nodeOutputs[id].Failed?)
                && (e.RunFailed? ==> (forall id :: id in nodeOutputs ==> !nodeOutputs[id].Completed?)
                                           || exists id :: id in nodeOutputs && nodeOutputs[id].Failed?)
                && forall j: nat :: j < layersStarted ==> status(j) in {ReadFailed, Status(StatusRunning)}
    {
      hide After, Final, Placed;
      if e.HaltedAfter? {
        NoHaltMeans(status, e.layer);
      } else {
        CountsMean(nodeOutputs);
        NoHaltMeans(status, layersStarted);
      }
    }

    lemma NotHalted(nodes: seq<Node>, finalStatus: StatusReply, e: Ending)
      requires Concluded(nodes, finalStatus, e)
      ensures !e.HaltedAfter?
    {
    }

    method RunAllLayers(ghost inp: Input, layers: seq<seq<Node>>, prior: map<string, string>, env: Env,
                        status: nat -> StatusReply)
      returns (halted: Option<nat>)
      requires Layered(inp.g, layers) && Placed(inp.g, |layers|) == inp.g.Keys && Sound(inp)
      requires inp == Workflow(inp.g, prior, env)
      requires Current() == After(inp, 0) && layersStarted == 0
      modifies this`nodeOutputs, this`lastSession, this`totalCost, this`invoked, this`layersStarted
      ensures halted.None? ==> Current() == Final(inp) && Placed(inp.g, layersStarted) == inp.g.Keys
                               && NoHaltBefore(status, layersStarted)
      ensures halted.Some? ==> layersStarted == halted.value + 1 && Current() == After(inp, halted.value + 1)
                               && Halts(status(halted.value)) && NoHaltBefore(status, halted.value)
    {
      halted := RunLayers(inp, layers, prior, env, status);
      FinalAfter(inp, |layers|);
    }

    method RunLayerAt(ghost inp: Input, layers: seq<seq<Node>>, i: nat, prior: map<string, string>, env: Env)
      requires Layered(inp.g, layers) && i < |layers| && inp == Workflow(inp.g, prior, env)
      requires Current() == After(inp, i)
      modifies this`nodeOutputs, this`lastSession, this`totalCost, this`invoked, this`layersStarted
      ensures Current() == After(inp, i + 1) && layersStarted == old(layersStarted) + 1
    {
      LayeredAt(inp.g, layers, i);
      RunLayer(inp, Level(inp.g, i), layers[i], prior, env);
    }

    /** Layer after layer, with a status check after each. */
    method RunLayers(ghost inp: Input, layers: seq<seq<Node>>, prior: map<string, string>, env: Env,
                     status: nat -> StatusReply)
      returns (halted: Option<nat>)
      requires Layered(inp.g, layers) && inp == Workflow(inp.g, prior, env)
      requires Current() == After(inp, 0) && layersStarted == 0
      modifies this`nodeOutputs, this`lastSession, this`totalCost, this`invoked, this`layersStarted
      ensures halted.None? ==> layersStarted == |layers| && Current() == After(inp, |layers|)
                               && NoHaltBefore(status, |layers|)
      ensures halted.Some? ==> layersStarted == halted.value + 1 && Current() == After(inp, halted.value + 1)
                               && Halts(status(halted.value)) && NoHaltBefore(status, halted.value)
    {
      hide After, Layered;
      for i := 0 to |layers|
        invariant layersStarted == i && Current() == After(inp, i)
        invariant NoHaltBefore(status, i)
      {
        RunLayerAt(inp, layers, i, prior, env);
        if Halts(status(i)) {
          return Some(i);
        }
      }
      halted := None;
    }

    /** The completion logic after the last layer. */
    method Finish(nodes: seq<Node>, finalStatus: StatusReply) returns (e: Ending)
      requires completeCalls == 0 && failCalls == 0
      modifies this`completeCalls, this`failCalls
      ensures Concluded(nodes, finalStatus, e)
    {
      var completed, failed := CountOutcomes();
      if completed == 0 {
        if Halts(finalStatus) {
          return Withheld;
        }
        failCalls := failCalls + 1;
        return RunFailed;
      }
      if failed > 0 {
        if Halts(finalStatus) {
          return Withheld;
        }
        failCalls := failCalls + 1;
        return RunFailed;
      }
      if Halts(finalStatus) {
        return Withheld;
      }
      completeCalls := completeCalls + 1;
      var output := TerminalOutput(nodes, nodeOutputs);
      e := RunCompleted(output);
    }

    method CountOutcomes() returns (completed: nat, failed: nat)
      ensures completed == RunTheorems.CompletedCount(nodeOutputs)
      ensures failed == RunTheorems.FailedCount(nodeOutputs)
    {
      completed, failed := 0, 0;
      var todo := nodeOutputs.Keys;
      ghost var done: set<string> := {};
      while todo != {}
        invariant todo !! done && todo + done == nodeOutputs.Keys
        invariant completed == |CompletedIn(nodeOutputs, done)| && failed == |FailedIn(nodeOutputs, done)|
        decreases |todo|
      {
        var id :| id in todo;
        CompletedOneMore(nodeOutputs, done, id);
        FailedOneMore(nodeOutputs, done, id);
        todo := todo - {id};
        done := done + {id};
        if nodeOutputs[id].Completed? {
          completed := completed + 1;
        } else if nodeOutputs[id].Failed? {
          failed := failed + 1;
        }
      }
      assert CompletedIn(nodeOutputs, done) == set id | id in nodeOutputs && nodeOutputs[id].Completed?;
      assert FailedIn(nodeOutputs, done) == set id | id in nodeOutputs && nodeOutputs[id].Failed?;
    }
  }

  lemma AtStart(inp: Input)
    ensures After(inp, 0) == State(Prepopulated(inp), None, 0.0, {})
  {
  }

  method AlwaysRunIds(ghost g: Graph, nodes: seq<Node>) returns (ids: set<string>)
    requires g == GraphOf(nodes) && UniqueIds(nodes)
    ensures forall id :: id in ids <==> id in g && g[id].alwaysRun
  {
    ids := set n | n in nodes && n.alwaysRun :: n.id;
    GraphRepresents(nodes);
    forall id
      ensures id in ids <==> id in g && g[id].alwaysRun
    {
      if id in g && g[id].alwaysRun {
        assert id in IdSet(nodes);
      }
    }
  }

  method Layers(nodes: seq<Node>) returns (r: Result<seq<seq<Node>>, LayerError>)
    requires UniqueIds(nodes)
    ensures r.Err? <==> HasMissingDependency(GraphOf(nodes)) || HasCycle(GraphOf(nodes))
    ensures r.Ok? ==> Layered(GraphOf(nodes), r.value) && Placed(GraphOf(nodes), |r.value|) == GraphOf(nodes).Keys
    ensures forall id :: id in GraphOf(nodes) ==> GraphOf(nodes)[id].id == id
  {
    IdsMatchKeys(nodes);
    r := BuildTopologicalLayers(nodes);
  }

  /** The tasks of a layer, which finish in any order whatever. */
  method RunTasks(layer: seq<Node>, task: Node -> TaskResult) returns (results: map<string, TaskResult>)
    requires UniqueIds(layer)
    ensures results.Keys == IdSet(layer) && forall n :: n in layer ==> results[n.id] == task(n)
  {
    var all := set n | n in layer;
    var pending := all;
    results := map[];
    while pending != {}
      invariant pending <= all
      invariant forall n :: n in layer && n !in pending ==> n.id in results && results[n.id] == task(n)
      invariant forall id :: id in results ==> exists n :: n in layer && n !in pending && n.id == id
      decreases |pending|
    {
      var node :| node in pending;
      pending := pending - {node};
      ghost var before := results;
      results := results[node.id := task(node)];
      forall n | n in layer && n !in pending
        ensures n.id in results && results[n.id] == task(n)
      {
        if n.id == node.id {
          SameIdSameNode(layer, n, node);
        }
      }
    }
    forall id
      ensures id in results <==> id in IdSet(layer)
    {
      if id in IdSet(layer) {
        var n :| n in layer && n.id == id;
        assert n.id in results;
      }
    }
  }

  // ---------------------------------------------------------------------
  // Steps of the proofs above
  // ---------------------------------------------------------------------

  /** The state once the results of `seen` have been collected. */
  ghost function Collected(s: State, results: map<string, TaskResult>, seen: set<string>,
                           session: Option<string>): State
  {
    Joined(s, Only(results, seen), session)
  }

  lemma CollectNothing(s: State, results: map<string, TaskResult>)
    ensures Collected(s, results, {}, s.session) == s
  {
    assert Only(results, {}) == map[];
    assert s.outputs + Recorded(map[]) == s.outputs;
  }

  lemma CollectOneMore(s: State, results: map<string, TaskResult>, seen: set<string>, id: string)
    requires id in results && id !in seen
    requires results[id].output.None? ==> results[id].cost == 0.0
    ensures forall session ::
              var before, after := Collected(s, results, seen, session), Collected(s, results, seen + {id}, session);
              && after.outputs == (if results[id].output.Some? then before.outputs[id := results[id].output.value]
                                   else before.outputs)
              && after.cost == (if results[id].output.Some? then before.cost + results[id].cost else before.cost)
              && after.invoked == before.invoked + if results[id].invoked then {id} else {}
  {
    OnlyOneMore(results, seen, id);
    RecordOneMore(results, s.outputs, seen, id);
    InvokeOneMore(results, seen, id);
  }

  lemma CollectedAll(s: State, layer: seq<Node>, level: set<string>, results: map<string, TaskResult>,
                     session: Option<string>)
    requires UniqueIds(layer) && IdSet(layer) == level == results.Keys
    requires |layer| > 1 ==> s.session == None
    requires |layer| == 1 ==> layer[0].id in results
    requires session == if |layer| == 1 then HandedOn(results[layer[0].id].output, s.session) else s.session
    ensures Collected(s, results, level, session) == Record(s, results, level)
  {
    OnlyAll(results);
    SessionAfterLayer(s, layer, level, results);
  }

  lemma OnlyAll(results: map<string, TaskResult>)
    ensures Only(results, results.Keys) == results
  {
  }

  lemma SessionAfterLayer(s: State, layer: seq<Node>, level: set<string>, results: map<string, TaskResult>)
    requires UniqueIds(layer) && IdSet(layer) == level == results.Keys
    requires |layer| > 1 ==> s.session == None
    requires |layer| == 1 ==> layer[0].id in results
    ensures NextSession(results, level, LayerSession(s, level)) ==
            if |layer| == 1 then HandedOn(results[layer[0].id].output, s.session) else s.session
  {
    UniqueBag(layer);
    if |layer| == 1 {
      OnlyOne(level, layer[0].id);
    }
  }

  lemma OnlyOne(level: set<string>, id: string)
    requires |level| == 1 && id in level
    ensures TheOnly(level) == id
  {
    var x := TheOnly(level);
    if x != id {
      assert |{x, id}| == 2;
      SubsetSize({x, id}, level);
    }
  }

  lemma RecordOneMore(results: map<string, TaskResult>, outputs: Outputs, seen: set<string>, id: string)
    requires id in results && id !in seen
    ensures outputs + Recorded(Only(results, seen + {id})) ==
            if results[id].output.Some? then (outputs + Recorded(Only(results, seen)))[id := results[id].output.value]
            else outputs + Recorded(Only(results, seen))
  {
  }

  lemma InvokeOneMore(results: map<string, TaskResult>, seen: set<string>, id: string)
    requires id in results && id !in seen
    ensures Invoked(Only(results, seen + {id})) ==
            Invoked(Only(results, seen)) + if results[id].invoked then {id} else {}
  {
  }

  lemma InLayer(layer: seq<Node>, i: nat)
    requires i < |layer|
    ensures layer[i].id in IdSet(layer)
  {
    assert layer[i] in layer;
  }

  lemma SubsetSize(a: set<string>, b: set<string>)
    requires a <= b
    ensures |a| <= |b|
  {
    assert b == a + (b - a);
  }

  /** What the tasks of a layer computed is what the specification says of the layer. */
  lemma TasksOfLayer(inp: Input, env: Env, s: State, level: set<string>, layer: seq<Node>, results: map<string,
                     TaskResult>)
    requires RunsWith(inp, env) && Holds(inp.g, level, layer) && results.Keys == IdSet(layer) && |layer| == |level|
    requires forall n :: n in layer ==>
               results[n.id] == inp.task(n, s.outputs, LayerSession(s, level), |level| > 1)
    ensures results == LayerResults(inp, s, level)
    ensures forall id :: id in results && results[id].output.None? ==> results[id].cost == 0.0
  {
    forall id | id in level
      ensures id in inp.g && results[id] == TaskOf(inp, s, level, id)
      ensures results[id].output.None? ==> results[id].cost == 0.0
    {
      var n :| n in layer && n.id == id;
      assert inp.g[id] == n;
    }
    assert LayerResults(inp, s, level).Keys == level;
  }

  /** A parallel layer records as if no session had come before it. */
  lemma RecordForgets(s: State, results: map<string, TaskResult>, level: set<string>)
    ensures |level| > 1 ==> Record(s.(session := None), results, level) == Record(s, results, level)
  {
  }

  ghost function CompletedIn(o: Outputs, ids: set<string>): set<string> {
    set id | id in ids && id in o && o[id].Completed?
  }

  ghost function FailedIn(o: Outputs, ids: set<string>): set<string> {
    set id | id in ids && id in o && o[id].Failed?
  }

  lemma CompletedOneMore(o: Outputs, done: set<string>, id: string)
    requires id in o && id !in done
    ensures |CompletedIn(o, done + {id})| == |CompletedIn(o, done)| + if o[id].Completed? then 1 else 0
  {
    assert CompletedIn(o, done + {id}) == CompletedIn(o, done) + if o[id].Completed? then {id} else {};
  }

  lemma FailedOneMore(o: Outputs, done: set<string>, id: string)
    requires id in o && id !in done
    ensures |FailedIn(o, done + {id})| == |FailedIn(o, done)| + if o[id].Failed? then 1 else 0
  {
    assert FailedIn(o, done + {id}) == FailedIn(o, done) + if o[id].Failed? then {id} else {};
  }

  /** What has been entered of the prior outputs once those in `todo` are left. */
  ghost function Entered(prior: map<string, string>, todo: set<string>, alwaysRun: set<string>): Outputs {
    map id | id in prior && id !in todo && id !in alwaysRun :: PriorOutput(prior[id])
  }

  lemma EnterOneMore(prior: map<string, string>, todo: set<string>, alwaysRun: set<string>, id: string)
    requires id in prior && id in todo
    ensures Entered(prior, todo - {id}, alwaysRun) ==
            if id in alwaysRun then Entered(prior, todo, alwaysRun)
            else Entered(prior, todo, alwaysRun)[id := PriorOutput(prior[id])]
  {
  }

  lemma EnteredAll(inp: Input, alwaysRun: set<string>)
    requires forall id :: id in alwaysRun <==> id in inp.g && inp.g[id].alwaysRun
    ensures Entered(inp.prior, {}, alwaysRun) == Prepopulated(inp)
    ensures Entered(inp.prior, inp.prior.Keys, alwaysRun) == map[]
  {
  }

  lemma IdsMatchKeys(nodes: seq<Node>)
    requires UniqueIds(nodes)
    ensures forall id :: id in GraphOf(nodes) ==> GraphOf(nodes)[id].id == id
  {
    GraphRepresents(nodes);
    forall id | id in GraphOf(nodes)
      ensures GraphOf(nodes)[id].id == id
    {
      var n :| n in nodes && n.id == id;
    }
  }

  // ---------------------------------------------------------------------
  // The output handed to the caller
  // ---------------------------------------------------------------------

  ghost predicate HasDependent(nodes: seq<Node>, id: string) {
    exists n :: n in nodes && id in n.dependsOn
  }

  ghost predicate Offers(nodes: seq<Node>, outputs: Outputs, n: Node) {
    && !HasDependent(nodes, n.id)
    && n.id in outputs && outputs[n.id].Completed? && |Text.Trim(outputs[n.id].output)| > 0
  }

  /** The first declared node that nobody depends on and that completed with some text. */
  ghost predicate IsTerminalOutput(nodes: seq<Node>, outputs: Outputs, r: Option<string>) {
    if r.None? then forall i :: 0 <= i < |nodes| ==> !Offers(nodes, outputs, nodes[i])
    else exists i :: 0 <= i < |nodes| && Offers(nodes, outputs, nodes[i]) && outputs[nodes[i].id].output == r.value
                     && forall j :: 0 <= j < i ==> !Offers(nodes, outputs, nodes[j])
  }

  method TerminalOutput(nodes: seq<Node>, outputs: Outputs) returns (r: Option<string>)
    ensures IsTerminalOutput(nodes, outputs, r)
    ensures r.None? <==> forall n :: n in nodes && n.id in outputs && outputs[n.id].Completed?
                                     && (forall m :: m in nodes ==> n.id !in m.dependsOn) ==>
                           Text.Trim(outputs[n.id].output) == ""
    ensures r.Some? ==>
              exists i :: 0 <= i < |nodes| && nodes[i].id in outputs
                          && outputs[nodes[i].id].Completed? && outputs[nodes[i].id].output == r.value
                          && (forall m :: m in nodes ==> nodes[i].id !in m.dependsOn)
                          && Text.Trim(r.value) != ""
                          && forall j :: 0 <= j < i && nodes[j].id in outputs && outputs[nodes[j].id].Completed?
                                         && (forall m :: m in nodes ==> nodes[j].id !in m.dependsOn) ==>
                               Text.Trim(outputs[nodes[j].id].output) == ""
  {
    var allDeps := set n, d | n in nodes && d in n.dependsOn :: d;
    for i := 0 to |nodes|
      invariant forall j :: 0 <= j < i ==> !Offers(nodes, outputs, nodes[j])
    {
      var id := nodes[i].id;
      assert id in allDeps <==> HasDependent(nodes, id);
      if id !in allDeps && id in outputs && outputs[id].Completed? && |Text.Trim(outputs[id].output)| > 0 {
        return Some(outputs[id].output);
      }
    }
    r := None;
  }
}
