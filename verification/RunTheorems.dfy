/** What holds of every run: which nodes are invoked, what resuming preserves, and how the
    outcomes add up. */
module RunTheorems {
  import opened Schema
  import opened Layering
  import opened Gating
  import opened RunSpec
  import OutputRef
  import Condition

  // ---------------------------------------------------------------------
  // Ancestors
  // ---------------------------------------------------------------------

  ghost predicate JoinedBy(g: Graph, c: seq<string>, a: string, id: string) {
    ChainTo(g, c, id) && |c| >= 2 && c[0] == a
  }

  ghost predicate Ancestor(g: Graph, a: string, id: string) {
    exists c :: JoinedBy(g, c, a, id)
  }

  ghost function Ancestors(g: Graph, id: string): set<string> {
    set a | a in g && Ancestor(g, a, id)
  }

  lemma DependencyIsAncestor(g: Graph, d: string, id: string)
    requires id in g && d in g && d in g[id].dependsOn
    ensures Ancestor(g, d, id)
  {
    assert JoinedBy(g, [d, id], d, id);
  }

  /** An ancestor is a dependency, or an ancestor of one. */
  lemma AncestorThrough(g: Graph, a: string, id: string) returns (d: string)
    requires Ancestor(g, a, id)
    ensures a in g && id in g && d in g && d in g[id].dependsOn
    ensures a == d || Ancestor(g, a, d)
  {
    var c :| JoinedBy(g, c, a, id);
    var front := c[..|c| - 1];
    d := front[|front| - 1];
    assert IsChain(g, front);
    if |front| >= 2 {
      assert JoinedBy(g, front, a, d);
    }
  }

  lemma {:induction false} ChainIsPlacedBefore(g: Graph, k: nat, c: seq<string>)
    requires IsChain(g, c) && |c| >= 2 && c[|c| - 1] in Placed(g, k + 1)
    ensures c[0] in Placed(g, k)
    decreases |c|
  {
    var front := c[..|c| - 1];
    assert front[|front| - 1] in g[c[|c| - 1]].dependsOn;
    assert front[|front| - 1] in Placed(g, k);
    if |front| >= 2 {
      ChainIsPlacedBefore(g, k - 1, front);
      PlacedMonotone(g, k - 1);
    }
  }

  /** All ancestors of a node are placed in earlier layers, so a node is not its own ancestor. */
  lemma AncestorsArePlaced(g: Graph, k: nat, id: string)
    requires id in Level(g, k)
    ensures Ancestors(g, id) <= Placed(g, k)
    ensures id !in Ancestors(g, id)
  {
    forall a | a in Ancestors(g, id)
      ensures a in Placed(g, k)
    {
      var c :| JoinedBy(g, c, a, id);
      ChainIsPlacedBefore(g, k, c);
    }
  }

  // ---------------------------------------------------------------------
  // Gating over a fresh run
  // ---------------------------------------------------------------------

  ghost predicate CompletedAt(s: State, id: string) {
    id in s.outputs && s.outputs[id].Completed?
  }

  ghost predicate DefaultRules(g: Graph) {
    forall id :: id in g ==> g[id].triggerRule.GetOr(AllSuccess) == AllSuccess
  }

  lemma FinalAgrees(inp: Input, k: nat, id: string)
    requires Sound(inp) && id in Placed(inp.g, k)
    ensures SameAt(After(inp, k), Final(inp), id)
  {
    if k <= |inp.g| {
      PlacedIsFixed(inp, k, |inp.g|, id);
    } else {
      AllPlacedInTheEnd(inp.g);
      AfterIsStable(inp, |inp.g|, k);
    }
  }

  /** One node of a fresh run: its executor is invoked exactly when all its dependencies have
      completed and its condition holds, and otherwise it is skipped. */
  lemma InvokedWhen(inp: Input, env: Env, k: nat, id: string)
    requires RunsWith(inp, env) && Sound(inp) && inp.prior == map[] && DefaultRules(inp.g)
    requires id in Level(inp.g, k) && id in inp.g
    ensures id in Final(inp).invoked <==>
              && (forall d :: d in inp.g[id].dependsOn ==> CompletedAt(After(inp, k), d))
              && WhenHolds(inp.g[id], After(inp, k).outputs, env.lib)
    ensures id !in Final(inp).invoked ==> id in Final(inp).outputs && Final(inp).outputs[id] == Skipped("")
  {
    UnplacedIsUntouched(inp, k, id);
    LayerRecords(inp, k, id);
    FinalAgrees(inp, k + 1, id);
    TaskInvokedWhen(inp, env, After(inp, k), Level(inp.g, k), id);
  }

  lemma TaskInvokedWhen(inp: Input, env: Env, s: State, level: set<string>, id: string)
    requires RunsWith(inp, env) && inp.prior == map[] && DefaultRules(inp.g) && id in inp.g
    ensures TaskOf(inp, s, level, id).invoked <==>
              && (forall d :: d in inp.g[id].dependsOn ==> CompletedAt(s, d))
              && WhenHolds(inp.g[id], s.outputs, env.lib)
    ensures !TaskOf(inp, s, level, id).invoked ==> TaskOf(inp, s, level, id) == SKIPPED
  {
    var n := inp.g[id];
    assert CheckTriggerRule(n, s.outputs) <==> forall d :: d in n.dependsOn ==> CompletedAt(s, d) by {
      assert forall d :: Upstream(d, s.outputs).Completed? <==> CompletedAt(s, d);
      assert |n.dependsOn| > 0 ==> n.dependsOn[0] in n.dependsOn;
    }
  }

  /** In a fresh run with default rules a node's executor is invoked exactly when all of its
      ancestors completed and its condition holds; every other node ends skipped. */
  lemma {:induction false} FreshRunGating(inp: Input, env: Env, k: nat, id: string)
    requires RunsWith(inp, env) && Sound(inp) && inp.prior == map[] && DefaultRules(inp.g) && id in Level(inp.g, k)
    ensures id in inp.g
    ensures id in Final(inp).invoked <==>
              && (forall a :: a in Ancestors(inp.g, id) ==> CompletedAt(Final(inp), a))
              && WhenHolds(inp.g[id], After(inp, k).outputs, env.lib)
    ensures id !in Final(inp).invoked ==> id in Final(inp).outputs && Final(inp).outputs[id] == Skipped("")
    decreases k
  {
    PlacedMonotone(inp.g, k);
    InvokedWhen(inp, env, k, id);
    DependenciesSettle(inp, k, id);
    if forall d :: d in inp.g[id].dependsOn ==> CompletedAt(Final(inp), d) {
      forall a | a in Ancestors(inp.g, id)
        ensures CompletedAt(Final(inp), a)
      {
        var d := AncestorThrough(inp.g, a, id);
        if a != d {
          assert d in Placed(inp.g, k);
          var j := LevelOf(inp.g, k, d);
          FreshRunGating(inp, env, j, d);
          assert a in Ancestors(inp.g, d);
        }
      }
    } else {
      var d :| d in inp.g[id].dependsOn && !CompletedAt(Final(inp), d);
      DependencyIsAncestor(inp.g, d, id);
      assert d in Ancestors(inp.g, id);
    }
  }

  /** A node's dependencies are placed, and are already as they will be in the end. */
  lemma DependenciesSettle(inp: Input, k: nat, id: string)
    requires Sound(inp) && id in Level(inp.g, k) && id in inp.g
    ensures forall d :: d in inp.g[id].dependsOn ==> d in Placed(inp.g, k) && d in inp.g
    ensures forall d :: d in inp.g[id].dependsOn ==> (CompletedAt(After(inp, k), d) <==> CompletedAt(Final(inp), d))
  {
    forall d | d in inp.g[id].dependsOn
      ensures d in Placed(inp.g, k) && d in inp.g
      ensures CompletedAt(After(inp, k), d) <==> CompletedAt(Final(inp), d)
    {
      assert DependsWithin(inp.g[id], Placed(inp.g, k));
      PlacedMonotoneFrom(inp.g, 0, k);
      FinalAgrees(inp, k, d);
    }
  }

  /** The trigger rule looks at dependencies only, and those are already as they will be in the end. */
  lemma TriggerSettles(inp: Input, k: nat, id: string)
    requires Sound(inp) && id in Level(inp.g, k) && id in inp.g
    ensures CheckTriggerRule(inp.g[id], View(inp.g[id], After(inp, k).outputs, inp.prior)) ==
            CheckTriggerRule(inp.g[id], Final(inp).outputs)
  {
    var n := inp.g[id];
    var all := View(n, After(inp, k).outputs, inp.prior);
    AncestorsArePlaced(inp.g, k, id);
    DependenciesSettle(inp, k, id);
    forall d | d in n.dependsOn
      ensures Upstream(d, all) == Upstream(d, Final(inp).outputs)
    {
      DependencyIsAncestor(inp.g, d, id);
      assert d in Ancestors(inp.g, id);
      FinalAgrees(inp, k, d);
    }
    hide After, Final, Ancestors;
    SameUpstream(n, all, Final(inp).outputs);
  }

  lemma SameUpstream(n: Node, a: Outputs, b: Outputs)
    requires forall d :: d in n.dependsOn ==> Upstream(d, a) == Upstream(d, b)
    ensures CheckTriggerRule(n, a) == CheckTriggerRule(n, b)
  {
    hide Upstream;
  }

  /** The outputs that a node which is run is shown: those of the layers before it and, if it runs once more,
      the text of its own earlier result. */
  ghost function Shown(inp: Input, k: nat, id: string): Outputs {
    if id in inp.prior then After(inp, k).outputs[id := Completed(inp.prior[id], None, None, None)]
    else After(inp, k).outputs
  }

  lemma ShownIsView(inp: Input, k: nat, id: string)
    requires id in Level(inp.g, k) && id in inp.g && inp.g[id].id == id && !Reused(inp, id)
    ensures View(inp.g[id], After(inp, k).outputs, inp.prior) == Shown(inp, k, id)
  {
    UnplacedIsUntouched(inp, k, id);
  }

  /** What the trigger rule comes to when no dependency is pending or running. */
  lemma RuleSpelledOut(n: Node, o: Outputs)
    requires forall d :: d in n.dependsOn && d in o ==> o[d].Settled()
    ensures CheckTriggerRule(n, o) <==>
              || |n.dependsOn| == 0
              || n.triggerRule == Some(AllDone)
              || (n.triggerRule == Some(OneSuccess) && exists d :: d in n.dependsOn && d in o && o[d].Completed?)
              || (n.triggerRule == Some(NoneFailedMinOneSuccess) &&
                  (exists d :: d in n.dependsOn && d in o && o[d].Completed?)
                  && (forall d :: d in n.dependsOn ==> d in o && !o[d].Failed?))
              || (n.triggerRule in {None, Some(AllSuccess)} &&
                  forall d :: d in n.dependsOn ==> d in o && o[d].Completed?)
  {
    forall d
      ensures Upstream(d, o).Completed? <==> d in o && o[d].Completed?
      ensures Upstream(d, o).Failed? <==> d !in o || o[d].Failed?
    {
    }
  }

  /** Every node of every layer, whatever its rule and whatever the prior outputs: a reused node is not
      invoked and keeps its prior text; any other is invoked exactly when the final outputs of its
      dependencies are what its rule asks for and its condition, on the outputs it is shown, is true, and
      otherwise ends skipped, a condition that is unparsed or unresolvable included. */
  lemma EveryNodeIsGated(inp: Input, env: Env, k: nat, id: string)
    requires RunsWith(inp, env) && Sound(inp) && id in Level(inp.g, k) && id in inp.g
    ensures Reused(inp, id) ==> id !in Final(inp).invoked && id in Final(inp).outputs
    ensures Reused(inp, id) ==> Final(inp).outputs[id] == Completed(inp.prior[id], None, None, None)
    ensures !Reused(inp, id) ==>
              var n, o := inp.g[id], Final(inp).outputs;
              var when := n.when.Some? ==>
                            Condition.Evaluate(n.when.value, Shown(inp, k, id), env.lib) == Ok(Condition.True);
              && (id in Final(inp).invoked <==>
                    when && (
                      || |n.dependsOn| == 0
                      || n.triggerRule == Some(AllDone)
                      || (n.triggerRule == Some(OneSuccess) &&
                          exists d :: d in n.dependsOn && d in o && o[d].Completed?)
                      || (n.triggerRule == Some(NoneFailedMinOneSuccess) &&
                          (exists d :: d in n.dependsOn && d in o && o[d].Completed?)
                          && (forall d :: d in n.dependsOn ==> d in o && !o[d].Failed?))
                      || (n.triggerRule in {None, Some(AllSuccess)} &&
                          forall d :: d in n.dependsOn ==> d in o && o[d].Completed?)))
              && (id !in Final(inp).invoked ==> id in o && o[id] == Skipped(""))
  {
    UnplacedIsUntouched(inp, k, id);
    LayerRecords(inp, k, id);
    FinalAgrees(inp, k + 1, id);
    TriggerSettles(inp, k, id);
    if Reused(inp, id) {
      ReusedTask(inp, env, k, id);
      ReusedOutput(inp, env, |inp.g|, id);
    } else {
      GatedTask(inp, env, k, id);
      ShownIsView(inp, k, id);
      DependenciesAreSettled(inp, env, id);
      RuleSpelledOut(inp.g[id], Final(inp).outputs);
    }
    hide After, Final, TaskOf, CheckTriggerRule, Condition.Evaluate;
  }

  lemma DependenciesAreSettled(inp: Input, env: Env, id: string)
    requires RunsWith(inp, env) && id in inp.g
    ensures forall d :: d in inp.g[id].dependsOn && d in Final(inp).outputs ==> Final(inp).outputs[d].Settled()
  {
    forall d | d in inp.g[id].dependsOn && d in Final(inp).outputs
      ensures Final(inp).outputs[d].Settled()
    {
      AllSettled(inp, env, |inp.g|, d);
    }
  }

  /** The session that a node's executor is handed: none in a layer of several nodes and none if the node
      asks for a fresh context. */
  ghost function SessionFor(inp: Input, k: nat, id: string): Option<string>
    requires id in inp.g
  {
    if |Level(inp.g, k)| > 1 || inp.g[id].freshContext then None else After(inp, k).session
  }

  lemma InvokedTask(inp: Input, env: Env, k: nat, id: string)
    requires RunsWith(inp, env) && id in Level(inp.g, k) && id in inp.g && inp.g[id].id == id
    requires TaskOf(inp, After(inp, k), Level(inp.g, k), id).invoked
    ensures TaskOf(inp, After(inp, k), Level(inp.g, k), id) ==
            ToResult(env.exec(inp.g[id], Shown(inp, k, id), SessionFor(inp, k, id)))
  {
    var s, level := After(inp, k), Level(inp.g, k);
    InvokedIsNotReused(inp, env, s, level, id);
    ShownIsView(inp, k, id);
    hide After, Level, RunTask, View, Shown;
    TaskIsGated(inp.g[id], s.outputs, inp.prior, LayerSession(s, level), |level| > 1, env);
  }

  lemma InvokedIsNotReused(inp: Input, env: Env, s: State, level: set<string>, id: string)
    requires RunsWith(inp, env) && id in inp.g && inp.g[id].id == id && TaskOf(inp, s, level, id).invoked
    ensures !Reused(inp, id)
  {
    hide CheckTriggerRule, WhenHolds;
  }

  /** What an executor reports is what is left of its node in the end: output, session, payload, declared
      fields and error text as reported, and nothing after a panic. Its bill is the cost it reported. */
  lemma InvokedReports(inp: Input, env: Env, k: nat, id: string)
    requires RunsWith(inp, env) && Sound(inp) && id in Level(inp.g, k) && id in Final(inp).invoked
    ensures id in inp.g
    ensures var o := Final(inp).outputs;
            var bill := TaskOf(inp, After(inp, k), Level(inp.g, k), id).cost;
            match env.exec(inp.g[id], Shown(inp, k, id), SessionFor(inp, k, id))
            case Succeeded(output, session, structured, declared, cost) =>
              && id in o && o[id] == Completed(output, session, structured, declared)
              && bill == if cost.Some? then cost.value else 0.0
            case FailedWith(output, session, error, structured, declared, cost) =>
              && id in o && o[id] == Failed(output, session, error, structured, declared)
              && bill == if cost.Some? then cost.value else 0.0
            case Panicked => id !in o && bill == 0.0
  {
    PlacedMonotone(inp.g, k);
    UnplacedIsUntouched(inp, k, id);
    LayerRecords(inp, k, id);
    FinalAgrees(inp, k + 1, id);
    InvokedTask(inp, env, k, id);
    OutputOfLayer(inp, env, k, id);
    hide After, Final, TaskOf, Shown, SessionFor, Level;
  }

  /** Without an invocation there is no bill. */
  lemma OthersCostNothing(inp: Input, env: Env, k: nat, id: string)
    requires RunsWith(inp, env) && Sound(inp) && id in Level(inp.g, k) && id in inp.g && id !in Final(inp).invoked
    ensures TaskOf(inp, After(inp, k), Level(inp.g, k), id).cost == 0.0
  {
    LayerRecords(inp, k, id);
    FinalAgrees(inp, k + 1, id);
    hide After, Final, TaskOf;
    TaskCostsNothing(inp, env, After(inp, k), Level(inp.g, k), id);
  }

  lemma TaskCostsNothing(inp: Input, env: Env, s: State, level: set<string>, id: string)
    requires RunsWith(inp, env) && id in inp.g && !TaskOf(inp, s, level, id).invoked
    ensures TaskOf(inp, s, level, id).cost == 0.0
  {
    hide CheckTriggerRule, WhenHolds;
  }

  /** The results of all tasks of the first k layers. */
  ghost function Results(inp: Input, k: nat): map<string, TaskResult> {
    if k == 0 then map[] else Results(inp, k - 1) + LayerResults(inp, After(inp, k - 1), Level(inp.g, k - 1))
  }

  lemma {:induction false} ResultsAt(inp: Input, j: nat, k: nat, id: string)
    requires j < k && id in Level(inp.g, j) && id in inp.g
    ensures id in Results(inp, k) && Results(inp, k)[id] == TaskOf(inp, After(inp, j), Level(inp.g, j), id)
  {
    hide After, Level;
    var i: nat := k - 1;
    if j < i {
      ResultsAt(inp, j, i, id);
      LevelsAreDisjoint(inp.g, j, i, id);
    }
  }

  lemma LevelsAreDisjoint(g: Graph, j: nat, k: nat, id: string)
    requires j < k && id in Level(g, j)
    ensures id !in Level(g, k)
  {
    PlacedMonotone(g, j);
    PlacedMonotoneFrom(g, j + 1, k);
  }

  lemma {:induction false} CostOfResults(inp: Input, k: nat)
    ensures Results(inp, k).Keys == Placed(inp.g, k)
    ensures After(inp, k).cost == CostSum(Results(inp, k))
  {
    hide CostSum, After, Placed, Level, LayerResults;
    if k == 0 {
      CostOfNone();
      AtStart(inp);
    } else {
      var j: nat := k - 1;
      CostOfResults(inp, j);
      KeysOfLayer(inp, After(inp, j), j);
      CostOfLayer(inp, j);
      CostOfUnion(Results(inp, j), LayerResults(inp, After(inp, j), Level(inp.g, j)));
    }
  }

  lemma AtStart(inp: Input)
    ensures After(inp, 0).cost == 0.0 && Placed(inp.g, 0) == {}
  {
  }

  lemma KeysOfLayer(inp: Input, s: State, k: nat)
    ensures LayerResults(inp, s, Level(inp.g, k)).Keys == Placed(inp.g, k + 1) - Placed(inp.g, k)
    ensures Placed(inp.g, k) <= Placed(inp.g, k + 1)
  {
    PlacedMonotone(inp.g, k);
  }

  lemma CostOfLayer(inp: Input, k: nat)
    ensures After(inp, k + 1).cost ==
            After(inp, k).cost + CostSum(LayerResults(inp, After(inp, k), Level(inp.g, k)))
  {
  }

  lemma {:induction false} CostOfUnion(a: map<string, TaskResult>, b: map<string, TaskResult>)
    requires a.Keys !! b.Keys
    ensures CostSum(a + b) == CostSum(a) + CostSum(b)
    decreases |b|
  {
    hide CostSum;
    if id :| id in b {
      UnionWithout(a, b, id);
      CostOfOne(b, id);
      CostOfOne(a + b, id);
      CostOfUnion(a, b - {id});
    } else {
      CostOfNone();
      assert b == map[];
      assert a + b == a;
    }
  }

  lemma UnionWithout(a: map<string, TaskResult>, b: map<string, TaskResult>, id: string)
    requires a.Keys !! b.Keys && id in b
    ensures (a + b) - {id} == a + (b - {id}) && id in a + b && (a + b)[id] == b[id]
    ensures a.Keys !! (b - {id}).Keys && |b - {id}| < |b|
  {
    assert b.Keys !! a.Keys && id !in a;
    SameWithout(a, b, id);
    OneLess(b, id);
  }

  lemma SameWithout(a: map<string, TaskResult>, b: map<string, TaskResult>, id: string)
    requires id !in a
    ensures (a + b) - {id} == a + (b - {id})
  {
    var left, right := (a + b) - {id}, a + (b - {id});
    forall x
      ensures x in left <==> x in right
      ensures x in left ==> left[x] == right[x]
    {
    }
  }

  lemma OneLess(b: map<string, TaskResult>, id: string)
    requires id in b
    ensures (b - {id}).Keys == b.Keys - {id} && |b - {id}| < |b|
  {
    var c := b - {id};
    assert c.Keys == b.Keys - {id};
    assert |c.Keys| == |c|;
  }

  lemma ResultOf(inp: Input, k: nat, id: string)
    requires Sound(inp) && id in Level(inp.g, k)
    ensures id in inp.g && id in Results(inp, |inp.g|)
    ensures Results(inp, |inp.g|)[id] == TaskOf(inp, After(inp, k), Level(inp.g, k), id)
  {
    hide After, TaskOf, Results, Level, Placed, Sound;
    PlacedInTheEnd(inp);
    LevelIsPlaced(inp.g, k, id);
    var j := LevelOf(inp.g, |inp.g|, id);
    if j < k {
      LevelsAreDisjoint(inp.g, j, k, id);
    } else if k < j {
      LevelsAreDisjoint(inp.g, k, j, id);
    }
    ResultsAt(inp, j, |inp.g|, id);
  }

  lemma LevelIsPlaced(g: Graph, k: nat, id: string)
    requires id in Level(g, k)
    ensures id in Placed(g, k + 1) && id in g
  {
    PlacedMonotone(g, k);
  }

  /** The cost of a run is the sum of the bills of all its nodes, each counted once. */
  lemma CostIsSumOfBills(inp: Input, env: Env) returns (results: map<string, TaskResult>)
    requires RunsWith(inp, env) && Sound(inp)
    ensures results.Keys == inp.g.Keys && Final(inp).cost == CostSum(results)
    ensures forall k: nat, id :: id in Level(inp.g, k) ==>
              id in inp.g && results[id] == TaskOf(inp, After(inp, k), Level(inp.g, k), id)
  {
    hide After, TaskOf, Level, Placed, Results, CostSum, Sound;
    PlacedInTheEnd(inp);
    results := Results(inp, |inp.g|);
    CostOfResults(inp, |inp.g|);
    forall k: nat, id | id in Level(inp.g, k)
      ensures id in inp.g && results[id] == TaskOf(inp, After(inp, k), Level(inp.g, k), id)
    {
      ResultOf(inp, k, id);
    }
  }

  lemma PlacedInTheEnd(inp: Input)
    requires Sound(inp)
    ensures Placed(inp.g, |inp.g|) == inp.g.Keys
  {
    AllPlacedInTheEnd(inp.g);
  }

  /** The session in front of every layer: none at first; a layer of several nodes ends it; the single node of
      a layer replaces it if it ends completed with a session of its own, and otherwise leaves it. */
  lemma SessionBetweenLayers(inp: Input, env: Env, k: nat)
    requires RunsWith(inp, env) && Sound(inp)
    ensures After(inp, 0).session == None
    ensures |Level(inp.g, k)| > 1 ==> After(inp, k + 1).session == None
    ensures |Level(inp.g, k)| == 0 ==> After(inp, k + 1).session == After(inp, k).session
    ensures forall id :: Level(inp.g, k) == {id} ==>
              var o := Final(inp).outputs;
              After(inp, k + 1).session ==
              if id in o && o[id].Completed? && o[id].sessionId.Some? then o[id].sessionId
              else After(inp, k).session
  {
    forall id | Level(inp.g, k) == {id}
      ensures var o := Final(inp).outputs;
              After(inp, k + 1).session ==
              if id in o && o[id].Completed? && o[id].sessionId.Some? then o[id].sessionId
              else After(inp, k).session
    {
      assert id in Level(inp.g, k);
      PlacedMonotone(inp.g, k);
      SessionAfterSingle(inp, k, id);
      LayerRecords(inp, k, id);
      FinalAgrees(inp, k + 1, id);
      OutputOfLayer(inp, env, k, id);
      hide After, Final, TaskOf, Level;
    }
  }

  lemma GatedTask(inp: Input, env: Env, k: nat, id: string)
    requires RunsWith(inp, env) && Sound(inp) && id in inp.g && !Reused(inp, id)
    ensures var n := inp.g[id];
            var t := TaskOf(inp, After(inp, k), Level(inp.g, k), id);
            var shown := View(n, After(inp, k).outputs, inp.prior);
            && (t.invoked <==> CheckTriggerRule(n, shown) && WhenHolds(n, shown, env.lib))
            && (!t.invoked ==> t == SKIPPED)
            && (n.when.Some? && Condition.Evaluate(n.when.value, shown, env.lib) != Ok(Condition.True) ==> t == SKIPPED)
  {
    var s, level := After(inp, k), Level(inp.g, k);
    hide After, Level, CheckTriggerRule, Condition.Evaluate;
    TaskIsGated(inp.g[id], s.outputs, inp.prior, LayerSession(s, level), |level| > 1, env);
  }

  // ---------------------------------------------------------------------
  // Resuming
  // ---------------------------------------------------------------------

  /** An output without the session it left behind. */
  ghost function Forget(o: NodeOutput): NodeOutput {
    match o
    case Completed(output, _, structured, declared) => Completed(output, None, structured, declared)
    case Running(output, _, structured, declared) => Running(output, None, structured, declared)
    case Failed(output, _, error, structured, declared) => Failed(output, None, error, structured, declared)
    case _ => o
  }

  ghost predicate AgreeAt(a: Outputs, b: Outputs, id: string) {
    (id in a <==> id in b) && (id in a ==> Forget(a[id]) == Forget(b[id]))
  }

  ghost predicate AgreeOn(ids: set<string>, a: Outputs, b: Outputs) {
    forall id :: id in ids ==> AgreeAt(a, b, id)
  }

  /** Executors depend on the session neither directly nor through upstream outputs, and on no
      node but ancestors; conditions name no node but ancestors. */
  ghost predicate ReadsAncestors(g: Graph, env: Env) {
    && (forall id, a: Outputs, b: Outputs, s, t :: id in g && AgreeOn(Ancestors(g, id), a, b) ==>
          env.exec(g[id], a, s) == env.exec(g[id], b, t))
    && (forall id :: id in g && g[id].when.Some? ==>
          Condition.ReadsOnly(g[id].when.value, Ancestors(g, id), env.lib.isDecimal))
  }

  /** `prior` holds the text of completed plain-text outputs of the full run. */
  ghost predicate TakenFromRun(full: Input, prior: map<string, string>) {
    forall id :: id in prior ==>
      id in full.g && id in Final(full).outputs && Forget(Final(full).outputs[id]) == PriorOutput(prior[id])
  }

  ghost predicate Reused(inp: Input, id: string) {
    id in inp.prior && id in inp.g && !inp.g[id].alwaysRun
  }

  /** The resumed state agrees with the full run's at a node: the same output, but for the
      session of a reused one, and invoked exactly if it was invoked and is not reused. */
  ghost predicate ResumedAt(full: State, resumed: State, inp: Input, id: string) {
    && AgreeAt(full.outputs, resumed.outputs, id)
    && (!Reused(inp, id) && id in full.outputs ==> resumed.outputs[id] == full.outputs[id])
    && (id in resumed.invoked <==> id in full.invoked && !Reused(inp, id))
  }

  lemma GatesAgree(n: Node, a: Outputs, b: Outputs, ids: set<string>, lib: OutputRef.Library)
    requires AgreeOn(ids, a, b)
    requires forall d :: d in n.dependsOn ==> d in ids
    requires n.when.Some? ==> Condition.ReadsOnly(n.when.value, ids, lib.isDecimal)
    ensures CheckTriggerRule(n, a) == CheckTriggerRule(n, b)
    ensures WhenHolds(n, a, lib) == WhenHolds(n, b, lib)
  {
    forall id | id in ids
      ensures (id in a <==> id in b) && (id in a ==> OutputRef.Alike(a[id], b[id]))
    {
      assert AgreeAt(a, b, id);
    }
    if n.when.Some? {
      Condition.EvaluateReads(n.when.value, ids, a, b, lib);
    }
    TriggersAgree(n, a, b, ids);
  }

  lemma TriggersAgree(n: Node, a: Outputs, b: Outputs, ids: set<string>)
    requires AgreeOn(ids, a, b)
    requires forall d :: d in n.dependsOn ==> d in ids
    ensures CheckTriggerRule(n, a) == CheckTriggerRule(n, b)
  {
    forall d | d in n.dependsOn
      ensures Forget(Upstream(d, a)) == Forget(Upstream(d, b))
    {
      assert AgreeAt(a, b, d);
    }
  }

  /** A full run and a run that resumes from some of its outputs. */
  ghost predicate Resumes(full: Input, inp: Input, env: Env) {
    && full == Workflow(inp.g, map[], env) && inp == Workflow(inp.g, inp.prior, env)
    && Sound(inp) && ReadsAncestors(inp.g, env) && TakenFromRun(full, inp.prior)
  }

  /** A node that is run in both runs has the same result in both. */
  lemma RerunAgrees(g: Graph, prior: map<string, string>, env: Env, id: string, a: Outputs, b: Outputs,
                    s: Option<string>, t: Option<string>, parallel: bool)
    requires ReadsAncestors(g, env) && id in g && g[id].id == id && id !in Ancestors(g, id)
    requires id in prior ==> g[id].alwaysRun
    requires AgreeOn(Ancestors(g, id), a, b)
    requires forall d :: d in g[id].dependsOn ==> d in Ancestors(g, id)
    ensures RunTask(g[id], a, map[], s, parallel, env) == RunTask(g[id], b, prior, t, parallel, env)
  {
    hide Condition.Evaluate, CheckTriggerRule, WhenHolds, Ancestors, AgreeOn;
    var n := g[id];
    var b' := View(n, b, prior);
    ViewAgrees(Ancestors(g, id), n, a, b, prior);
    GatesAgree(n, a, b', Ancestors(g, id), env.lib);
    ExecsAgree(g, env, id, a, b', if parallel || n.freshContext then None else s,
               if parallel || n.freshContext then None else t);
  }

  lemma ViewAgrees(ids: set<string>, n: Node, a: Outputs, b: Outputs, prior: map<string, string>)
    requires n.id !in ids && AgreeOn(ids, a, b)
    ensures AgreeOn(ids, a, View(n, b, prior))
  {
    forall x | x in ids
      ensures AgreeAt(a, View(n, b, prior), x)
    {
      assert AgreeAt(a, b, x);
    }
  }

  lemma ExecsAgree(g: Graph, env: Env, id: string, a: Outputs, b: Outputs, s: Option<string>, t: Option<string>)
    requires ReadsAncestors(g, env) && id in g && AgreeOn(Ancestors(g, id), a, b)
    ensures env.exec(g[id], a, s) == env.exec(g[id], b, t)
  {
  }

  /** One node of one layer. */
  lemma ResumeNode(full: Input, inp: Input, env: Env, k: nat, id: string)
    requires Resumes(full, inp, env) && id in Level(inp.g, k) && id in inp.g
    requires forall x :: x in Placed(inp.g, k) ==> ResumedAt(After(full, k), After(inp, k), inp, x)
    ensures ResumedAt(After(full, k + 1), After(inp, k + 1), inp, id)
  {
    UnplacedIsUntouched(full, k, id);
    UnplacedIsUntouched(inp, k, id);
    LayerRecords(full, k, id);
    LayerRecords(inp, k, id);
    if Reused(inp, id) {
      FinalAgrees(full, k + 1, id);
      ReusedTask(inp, env, k, id);
    } else {
      RerunNode(full, inp, env, k, id);
    }
  }

  lemma ReusedTask(inp: Input, env: Env, k: nat, id: string)
    requires RunsWith(inp, env) && Reused(inp, id) && inp.g[id].id == id
    ensures TaskOf(inp, After(inp, k), Level(inp.g, k), id) == TaskResult(Some(PriorOutput(inp.prior[id])), 0.0, false)
  {
  }

  lemma RerunNode(full: Input, inp: Input, env: Env, k: nat, id: string)
    requires Resumes(full, inp, env) && id in Level(inp.g, k) && id in inp.g && !Reused(inp, id)
    requires forall x :: x in Placed(inp.g, k) ==> ResumedAt(After(full, k), After(inp, k), inp, x)
    ensures TaskOf(full, After(full, k), Level(inp.g, k), id) == TaskOf(inp, After(inp, k), Level(inp.g, k), id)
  {
    AncestorsArePlaced(inp.g, k, id);
    DependenciesSettle(full, k, id);
    forall d | d in inp.g[id].dependsOn
      ensures d in Ancestors(inp.g, id)
    {
      DependencyIsAncestor(inp.g, d, id);
    }
    var s, t, level := After(full, k), After(inp, k), Level(inp.g, k);
    assert AgreeOn(Ancestors(inp.g, id), s.outputs, t.outputs);
    RerunAgrees(inp.g, inp.prior, env, id, s.outputs, t.outputs, LayerSession(s, level), LayerSession(t, level),
                |level| > 1);
  }

  lemma {:induction false} ResumeLayers(full: Input, inp: Input, env: Env, k: nat)
    requires Resumes(full, inp, env)
    ensures forall id :: id in Placed(inp.g, k) ==> ResumedAt(After(full, k), After(inp, k), inp, id)
  {
    if k > 0 {
      var j := k - 1;
      ResumeLayers(full, inp, env, j);
      forall id | id in Placed(inp.g, k)
        ensures ResumedAt(After(full, k), After(inp, k), inp, id)
      {
        if id in Placed(inp.g, j) {
          PlacedIsFixed(full, j, k, id);
          PlacedIsFixed(inp, j, k, id);
        } else {
          PlacedMonotone(inp.g, j);
          ResumeNode(full, inp, env, j, id);
        }
      }
    }
  }

  /** Resuming a full run with any of its completed plain-text outputs ends in the outputs of
      the full run; what is executed again is what was executed and is not reused. */
  lemma ResumeEquivalence(full: Input, inp: Input, env: Env)
    requires Resumes(full, inp, env)
    ensures forall id :: ResumedAt(Final(full), Final(inp), inp, id)
    ensures Final(inp).invoked == set id | id in Final(full).invoked && !Reused(inp, id)
  {
    hide Resumes, Final, Reused, AgreeAt;
    forall id
      ensures ResumedAt(Final(full), Final(inp), inp, id)
      ensures id in Final(inp).invoked <==> id in Final(full).invoked && !Reused(inp, id)
    {
      ResumedInTheEnd(full, inp, env, id);
    }
  }

  lemma ResumedInTheEnd(full: Input, inp: Input, env: Env, id: string)
    requires Resumes(full, inp, env)
    ensures ResumedAt(Final(full), Final(inp), inp, id)
  {
    AllPlacedInTheEnd(inp.g);
    if id in inp.g {
      ResumeLayers(full, inp, env, |inp.g|);
    } else {
      UnplacedIsUntouched(full, |inp.g|, id);
      UnplacedIsUntouched(inp, |inp.g|, id);
    }
  }

  /** When the reused outputs left no session behind, the final outputs are equal outright. */
  lemma ResumeIsExact(full: Input, inp: Input, env: Env)
    requires Resumes(full, inp, env)
    requires forall id :: id in inp.prior ==> Final(full).outputs[id] == PriorOutput(inp.prior[id])
    ensures Final(inp).outputs == Final(full).outputs
  {
    hide After, Placed, Level, Prepopulated;
    var a, b := Final(inp).outputs, Final(full).outputs;
    forall id
      ensures (id in a <==> id in b) && (id in a ==> a[id] == b[id])
    {
      ResumedInTheEnd(full, inp, env, id);
      if Reused(inp, id) {
        ReusedOutput(inp, env, |inp.g|, id);
      }
    }
  }

  /** `prior` holds the text of completed plain-text outputs of the run as it was when it was halted, after
      k layers. */
  ghost predicate TakenWhenHalted(full: Input, k: nat, prior: map<string, string>) {
    forall id :: id in prior ==>
      && id in After(full, k).outputs
      && Forget(After(full, k).outputs[id]) == PriorOutput(prior[id])
  }

  lemma HaltedIsPartOfRun(full: Input, k: nat, prior: map<string, string>)
    requires Sound(full) && full.prior == map[] && TakenWhenHalted(full, k, prior)
    ensures TakenFromRun(full, prior)
  {
    PlacedMonotoneFrom(full.g, 0, k);
    forall id | id in prior
      ensures id in full.g && id in Final(full).outputs && Forget(Final(full).outputs[id]) == PriorOutput(prior[id])
    {
      if id in Placed(full.g, k) {
        FinalAgrees(full, k, id);
        PlacedMonotone(full.g, k);
      } else {
        UnplacedIsUntouched(full, k, id);
      }
    }
  }

  /** A run that was halted after any number of layers, resumed with any of the completed plain-text outputs
      it had by then, ends like the run that was never halted; what had been reused is not invoked, and
      everything else is invoked that would have been. */
  lemma HaltedRunResumes(full: Input, inp: Input, env: Env, k: nat)
    requires full == Workflow(inp.g, map[], env) && inp == Workflow(inp.g, inp.prior, env)
    requires Sound(inp) && ReadsAncestors(inp.g, env) && TakenWhenHalted(full, k, inp.prior)
    ensures forall id :: ResumedAt(Final(full), Final(inp), inp, id)
    ensures Final(inp).invoked == set id | id in Final(full).invoked && !Reused(inp, id)
  {
    HaltedIsPartOfRun(full, k, inp.prior);
    hide TakenWhenHalted, After, ReadsAncestors, TakenFromRun, ResumedAt, Final, Reused, Sound;
    ResumeEquivalence(full, inp, env);
  }

  /** What a resumed run had when it was halted was in the outputs of the full run, too. */
  lemma ResumedIsPartOfRun(full: Input, inp: Input, env: Env, k: nat, prior: map<string, string>)
    requires Resumes(full, inp, env) && TakenWhenHalted(inp, k, prior)
    ensures TakenFromRun(full, prior)
  {
    hide After, Placed, ResumedAt;
    forall id | id in prior
      ensures id in full.g && id in Final(full).outputs && Forget(Final(full).outputs[id]) == PriorOutput(prior[id])
    {
      if id in Placed(inp.g, k) {
        PlacedMonotone(inp.g, k);
        PlacedWhenHalted(full, inp, env, k, id);
      } else {
        UnplacedWhenHalted(inp, k, id);
      }
    }
  }

  lemma PlacedWhenHalted(full: Input, inp: Input, env: Env, k: nat, id: string)
    requires Resumes(full, inp, env) && id in Placed(inp.g, k) && id in After(inp, k).outputs
    ensures id in Final(full).outputs
    ensures Forget(Final(full).outputs[id]) == Forget(After(inp, k).outputs[id])
  {
    hide After, Placed, Resumes;
    assert Sound(inp) by {
      ResumesIsSound(full, inp, env);
    }
    FinalAgrees(inp, k, id);
    ResumedInTheEnd(full, inp, env, id);
  }

  lemma ResumesIsSound(full: Input, inp: Input, env: Env)
    requires Resumes(full, inp, env)
    ensures Sound(inp)
  {
  }

  lemma UnplacedWhenHalted(inp: Input, k: nat, id: string)
    requires id !in Placed(inp.g, k) && id in After(inp, k).outputs
    ensures id in inp.prior && After(inp, k).outputs[id] == PriorOutput(inp.prior[id])
  {
    UnplacedIsUntouched(inp, k, id);
  }

  /** Runs of one workflow: the first one fresh, every further one resumed with completed plain-text outputs
      that the one before had when it was halted, after any number of layers. */
  ghost predicate IsResumeChain(g: Graph, env: Env, priors: seq<map<string, string>>, halts: seq<nat>) {
    && |priors| == |halts| + 1 && priors[0] == map[]
    && forall j: nat :: j < |halts| ==> TakenWhenHalted(Workflow(g, priors[j], env), halts[j], NextPrior(priors, j))
  }

  ghost function NextPrior(priors: seq<map<string, string>>, j: nat): map<string, string>
    requires j + 1 < |priors|
  {
    priors[j + 1]
  }

  lemma {:induction false} ChainTakesFromRun(g: Graph, env: Env, priors: seq<map<string, string>>, halts: seq<nat>,
                                             j: nat)
    requires IsResumeChain(g, env, priors, halts) && j < |priors|
    requires Sound(Workflow(g, map[], env)) && ReadsAncestors(g, env)
    ensures Resumes(Workflow(g, map[], env), Workflow(g, priors[j], env), env)
  {
    hide TakenWhenHalted, ReadsAncestors;
    if j > 0 {
      var i: nat := j - 1;
      ChainTakesFromRun(g, env, priors, halts, i);
      assert TakenWhenHalted(Workflow(g, priors[i], env), halts[i], NextPrior(priors, i));
      hide TakenFromRun;
      ResumedIsPartOfRun(Workflow(g, map[], env), Workflow(g, priors[i], env), env, halts[i], priors[j]);
    }
  }

  /** However often a workflow is halted and resumed, every run of the chain, left to itself, ends like the
      run that was never halted, and invokes what that invoked and it does not reuse. */
  lemma ChainOfHaltsResumes(g: Graph, env: Env, priors: seq<map<string, string>>, halts: seq<nat>, j: nat)
    requires IsResumeChain(g, env, priors, halts) && j < |priors|
    requires Sound(Workflow(g, map[], env)) && ReadsAncestors(g, env)
    ensures var full, inp := Workflow(g, map[], env), Workflow(g, priors[j], env);
            && (forall id :: ResumedAt(Final(full), Final(inp), inp, id))
            && Final(inp).invoked == set id | id in Final(full).invoked && !Reused(inp, id)
  {
    ChainTakesFromRun(g, env, priors, halts, j);
    hide Resumes, ResumedAt, Final, Reused, ReadsAncestors, IsResumeChain;
    ResumeEquivalence(Workflow(g, map[], env), Workflow(g, priors[j], env), env);
  }

  ghost predicate HoldsPrior(inp: Input, s: State, id: string)
    requires id in inp.prior
  {
    id in s.outputs && s.outputs[id] == PriorOutput(inp.prior[id])
  }

  lemma ReusedOutput(inp: Input, env: Env, k: nat, id: string)
    requires RunsWith(inp, env) && Reused(inp, id) && inp.g[id].id == id
    ensures HoldsPrior(inp, After(inp, k), id)
  {
    ReusedFrom(inp, env, 0, k, id);
  }

  lemma {:induction false} ReusedFrom(inp: Input, env: Env, j: nat, k: nat, id: string)
    requires RunsWith(inp, env) && j <= k && Reused(inp, id) && inp.g[id].id == id && HoldsPrior(inp, After(inp, j), id)
    ensures HoldsPrior(inp, After(inp, k), id)
    decreases k - j
  {
    if j < k {
      ReusedStep(inp, env, j, id);
      ReusedFrom(inp, env, j + 1, k, id);
    }
  }

  lemma ReusedStep(inp: Input, env: Env, k: nat, id: string)
    requires RunsWith(inp, env) && Reused(inp, id) && inp.g[id].id == id && HoldsPrior(inp, After(inp, k), id)
    ensures HoldsPrior(inp, After(inp, k + 1), id)
  {
    if id in Level(inp.g, k) {
      ReusedTask(inp, env, k, id);
      LayerRecords(inp, k, id);
    } else {
      LayerLeavesOthers(inp, k, id);
    }
  }

  /** Sessions are not resumed. Where a sequential node is reused, the next node is handed the
      session of the full run exactly if the reused node had left no session, or the one that
      was being handed on anyway. */
  lemma SessionAcrossReuse(full: Input, inp: Input, env: Env, k: nat, id: string)
    requires full == Workflow(inp.g, map[], env) && inp == Workflow(inp.g, inp.prior, env)
    requires Sound(inp) && TakenFromRun(full, inp.prior)
    requires Level(inp.g, k) == {id} && Reused(inp, id)
    requires After(full, k).session == After(inp, k).session
    ensures After(full, k + 1).session == After(inp, k + 1).session <==>
              || Final(full).outputs[id].sessionId.None?
              || Final(full).outputs[id].sessionId == After(full, k).session
  {
    assert id in Level(inp.g, k);
    FullOutput(full, k, id);
    SessionAfterSingle(full, k, id);
    SessionAfterSingle(inp, k, id);
    ReusedTask(inp, env, k, id);
    SessionsDiffer(Final(full).outputs[id], inp.prior[id], After(full, k).session);
  }

  const SINGLE := Node("a", [], None, None, false, false)

  lemma SingleGraph(g: Graph)
    requires g == map["a" := SINGLE]
    ensures !HasMissingDependency(g) && !HasCycle(g) && Level(g, 0) == {"a"} && Placed(g, 1) == g.Keys && |g| == 1
  {
    assert Placed(g, 0) == {} && Placed(g, 1) == {"a"};
    AllPlacedIsSound(g, 1);
    assert g.Keys == {"a"};
  }

  /** A session does get lost: a workflow whose one node completes with a session hands that session on,
      and its resumed run, which reuses the node, hands on none. */
  lemma SessionIsLost(lib: OutputRef.Library) returns (full: Input, inp: Input, env: Env)
    ensures Resumes(full, inp, env) && Reused(inp, "a") && Level(inp.g, 0) == {"a"}
    ensures After(full, 1).session == Some("s") && After(inp, 1).session == None
  {
    env := Env((n, o, s) => Succeeded("x", Some("s"), None, None, None), lib);
    var g := map["a" := SINGLE];
    full, inp := Workflow(g, map[], env), Workflow(g, map["a" := "x"], env);
    SingleGraph(g);
    SingleLevel(full, inp, env);
    assert Sound(inp);
  }

  lemma SingleTask(full: Input, env: Env, s: State)
    requires full == Workflow(map["a" := SINGLE], map[], env)
    requires forall n, o, t :: env.exec(n, o, t) == Succeeded("x", Some("s"), None, None, None)
    ensures TaskOf(full, s, {"a"}, "a").output == Some(Completed("x", Some("s"), None, None))
  {
    assert CheckTriggerRule(SINGLE, s.outputs) && WhenHolds(SINGLE, s.outputs, env.lib);
    hide CheckTriggerRule, WhenHolds;
    var outcome := Succeeded("x", Some("s"), None, None, None);
    assert ToResult(outcome).output == Some(Completed("x", Some("s"), None, None));
  }

  lemma SingleLevel(full: Input, inp: Input, env: Env)
    requires Sound(inp) && full == Workflow(inp.g, map[], env) && inp == Workflow(inp.g, map["a" := "x"], env)
    requires inp.g == map["a" := SINGLE] && Level(inp.g, 0) == {"a"}
    requires forall n, o, s :: env.exec(n, o, s) == Succeeded("x", Some("s"), None, None, None)
    ensures After(full, 1).session == Some("s") && After(inp, 1).session == None
    ensures TakenFromRun(full, inp.prior)
  {
    hide After, Level, TaskOf, Final, Placed, Forget;
    SingleHandsOn(full, inp, env);
    SingleIsTaken(full, env);
  }

  lemma NoSessionAtStart(inp: Input)
    ensures After(inp, 0).session == None
  {
  }

  lemma SingleHandsOn(full: Input, inp: Input, env: Env)
    requires full == Workflow(inp.g, map[], env) && inp == Workflow(inp.g, map["a" := "x"], env)
    requires inp.g == map["a" := SINGLE] && Level(inp.g, 0) == {"a"}
    requires forall n, o, s :: env.exec(n, o, s) == Succeeded("x", Some("s"), None, None, None)
    ensures After(full, 1).session == Some("s") && After(inp, 1).session == None
  {
    hide After, Level, TaskOf;
    var k: nat := 0;
    NoSessionAtStart(full);
    NoSessionAtStart(inp);
    SingleTask(full, env, After(full, k));
    ReusedTask(inp, env, k, "a");
    SessionAfterSingle(full, k, "a");
    SessionAfterSingle(inp, k, "a");
  }

  lemma SingleIsTaken(full: Input, env: Env)
    requires Sound(full) && full == Workflow(map["a" := SINGLE], map[], env) && Level(full.g, 0) == {"a"}
    requires forall n, o, s :: env.exec(n, o, s) == Succeeded("x", Some("s"), None, None, None)
    ensures TakenFromRun(full, map["a" := "x"])
  {
    hide After, Level, TaskOf, Final, Sound;
    var k: nat := 0;
    SingleTask(full, env, After(full, k));
    FullOutput(full, k, "a");
    assert Forget(Completed("x", Some("s"), None, None)) == PriorOutput("x");
  }

  lemma SessionsDiffer(o: NodeOutput, text: string, session: Option<string>)
    requires Forget(o) == PriorOutput(text)
    ensures HandedOn(Some(o), session) == HandedOn(Some(PriorOutput(text)), session) <==>
              o.sessionId.None? || o.sessionId == session
  {
  }

  lemma SessionAfterSingle(inp: Input, k: nat, id: string)
    requires Level(inp.g, k) == {id} && id in inp.g
    ensures After(inp, k + 1).session ==
            HandedOn(TaskOf(inp, After(inp, k), Level(inp.g, k), id).output, After(inp, k).session)
  {
    SingleSession(inp, After(inp, k), id);
  }

  /** In a fresh run a node's final output is what its task reported. */
  lemma FullOutput(full: Input, k: nat, id: string)
    requires Sound(full) && full.prior == map[] && id in Level(full.g, k) && id in full.g
    ensures id in Final(full).outputs <==> TaskOf(full, After(full, k), Level(full.g, k), id).output.Some?
    ensures id in Final(full).outputs ==>
              TaskOf(full, After(full, k), Level(full.g, k), id).output == Some(Final(full).outputs[id])
  {
    LayerRecords(full, k, id);
    FinalAgrees(full, k + 1, id);
    UnplacedIsUntouched(full, k, id);
  }

  lemma SingleSession(inp: Input, s: State, id: string)
    requires id in inp.g
    ensures Step(inp, s, {id}).session == HandedOn(TaskOf(inp, s, {id}, id).output, s.session)
  {
    assert TheOnly({id}) == id;
    assert LayerResults(inp, s, {id})[id] == TaskOf(inp, s, {id}, id);
  }

  // ---------------------------------------------------------------------
  // Accounting
  // ---------------------------------------------------------------------

  /** The node's task panicked. */
  ghost predicate PanickedIn(inp: Input, id: string) {
    exists k: nat :: id in Level(inp.g, k) && id in inp.g &&
      TaskOf(inp, After(inp, k), Level(inp.g, k), id).output.None?
  }

  ghost function PanickedNodes(inp: Input): set<string> {
    set id | id in inp.g && PanickedIn(inp, id)
  }

  lemma OutputOfLayer(inp: Input, env: Env, k: nat, id: string)
    requires RunsWith(inp, env) && Sound(inp) && id in inp.g && id in Level(inp.g, k)
    ensures id in Final(inp).outputs <==> TaskOf(inp, After(inp, k), Level(inp.g, k), id).output.Some?
  {
    LayerRecords(inp, k, id);
    FinalAgrees(inp, k + 1, id);
    UnplacedIsUntouched(inp, k, id);
    if Reused(inp, id) {
      ReusedTask(inp, env, k, id);
    }
  }

  lemma OutputUnlessPanicked(inp: Input, env: Env, id: string)
    requires RunsWith(inp, env) && Sound(inp) && id in inp.g
    ensures id in Final(inp).outputs <==> !PanickedIn(inp, id)
  {
    AllPlacedInTheEnd(inp.g);
    var k := LevelOf(inp.g, |inp.g|, id);
    OutputOfLayer(inp, env, k, id);
    if PanickedIn(inp, id) {
      var j: nat :| id in Level(inp.g, j) && id in inp.g
                    && TaskOf(inp, After(inp, j), Level(inp.g, j), id).output.None?;
      OutputOfLayer(inp, env, j, id);
    }
  }

  lemma ForeignStays(inp: Input, id: string)
    requires id !in inp.g
    ensures id in Final(inp).outputs <==> id in inp.prior
    ensures id in inp.prior ==> Final(inp).outputs[id] == Completed(inp.prior[id], None, None, None)
  {
    PlacedMonotoneFrom(inp.g, 0, |inp.g|);
    hide After, Placed;
    UnplacedIsUntouched(inp, |inp.g|, id);
  }

  /** Final outputs belong to the workflow's nodes, except those whose task panicked, and to the
      prior ids that are not in the workflow, which keep their prior text. */
  lemma FinalKeys(inp: Input, env: Env)
    requires RunsWith(inp, env) && Sound(inp)
    ensures Final(inp).outputs.Keys == (inp.g.Keys - PanickedNodes(inp)) + (inp.prior.Keys - inp.g.Keys)
    ensures forall id :: id in inp.prior.Keys - inp.g.Keys ==>
              Final(inp).outputs[id] == Completed(inp.prior[id], None, None, None)
  {
    hide Final, PanickedIn, RunsWith, Sound;
    forall id
      ensures id in Final(inp).outputs <==>
                id in (inp.g.Keys - PanickedNodes(inp)) + (inp.prior.Keys - inp.g.Keys)
      ensures id in inp.prior.Keys - inp.g.Keys ==>
                Final(inp).outputs[id] == Completed(inp.prior[id], None, None, None)
    {
      if id in inp.g {
        OutputUnlessPanicked(inp, env, id);
      } else {
        ForeignStays(inp, id);
      }
    }
  }

  ghost function CompletedCount(o: Outputs): nat { |set id | id in o && o[id].Completed?| }
  ghost function FailedCount(o: Outputs): nat { |set id | id in o && o[id].Failed?| }
  ghost function SkippedCount(o: Outputs): nat { |set id | id in o && o[id].Skipped?| }

  lemma CountsAddUp(o: Outputs)
    requires forall id :: id in o ==> o[id].Settled()
    ensures CompletedCount(o) + FailedCount(o) + SkippedCount(o) == |o|
  {
    var c := set id | id in o && o[id].Completed?;
    var f := set id | id in o && o[id].Failed?;
    var s := set id | id in o && o[id].Skipped?;
    assert o.Keys == c + f + s;
    assert c !! f && (c + f) !! s;
    assert |c + f| == |c| + |f| && |c + f + s| == |c + f| + |s|;
  }

  /** Completed, failed and skipped nodes add up to the node count, less the panicked nodes,
      plus the prior ids that name no node of the workflow. */
  lemma Accounting(inp: Input, env: Env)
    requires RunsWith(inp, env) && Sound(inp)
    ensures var o := Final(inp).outputs;
            CompletedCount(o) + FailedCount(o) + SkippedCount(o) ==
            |inp.g| - |PanickedNodes(inp)| + |inp.prior.Keys - inp.g.Keys|
  {
    var o := Final(inp).outputs;
    forall id | id in o
      ensures o[id].Settled()
    {
      AllSettled(inp, env, |inp.g|, id);
    }
    CountsAddUp(o);
    FinalKeys(inp, env);
    var a, b := inp.g.Keys - PanickedNodes(inp), inp.prior.Keys - inp.g.Keys;
    assert a !! b;
    assert |o| == |o.Keys| == |a| + |b|;
    assert PanickedNodes(inp) <= inp.g.Keys;
    assert |a| == |inp.g.Keys| - |PanickedNodes(inp)|;
  }
}
