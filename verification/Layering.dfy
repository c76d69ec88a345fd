/** Topological layering of a workflow by Kahn's algorithm. */
module Layering {
  import opened Schema

  type Graph = map<string, Node>

  predicate UniqueIds(nodes: seq<Node>) {
    forall i, j :: 0 <= i < j < |nodes| ==> nodes[i].id != nodes[j].id
  }

  ghost function IdSet(s: seq<Node>): set<string> {
    set n | n in s :: n.id
  }

  /** The workflow as a map: what remains of a node list once declaration order is forgotten. */
  ghost function GraphOf(nodes: seq<Node>): Graph {
    if nodes == [] then map[] else GraphOf(nodes[..|nodes| - 1])[nodes[|nodes| - 1].id := nodes[|nodes| - 1]]
  }

  /** `g` holds exactly the nodes of the list, under their ids. */
  ghost predicate Represents(g: Graph, nodes: seq<Node>) {
    g.Keys == IdSet(nodes) && forall n :: n in nodes ==> n.id in g && g[n.id] == n
  }

  lemma {:induction false} GraphRepresents(nodes: seq<Node>)
    requires UniqueIds(nodes)
    ensures Represents(GraphOf(nodes), nodes)
  {
    if nodes != [] {
      var front, last := nodes[..|nodes| - 1], nodes[|nodes| - 1];
      GraphRepresents(front);
      assert nodes == front + [last];
      assert IdSet(nodes) == IdSet(front) + {last.id};
    }
  }

  /** Two declaration orders of the same nodes give the same graph. */
  lemma GraphIgnoresOrder(nodes: seq<Node>, other: seq<Node>)
    requires UniqueIds(nodes) && multiset(nodes) == multiset(other)
    ensures UniqueIds(other) && GraphOf(nodes) == GraphOf(other)
  {
    UniqueBag(nodes);
    assert forall n :: n in nodes <==> n in multiset(nodes);
    assert forall n :: n in other <==> n in multiset(other);
    forall i, j | 0 <= i < j < |other|
      ensures other[i].id != other[j].id
    {
      if other[i].id == other[j].id {
        SameIdSameNode(nodes, other[i], other[j]);
        RepeatedCountsTwice(other, i, j);
        assert false;
      }
    }
    GraphRepresents(nodes);
    GraphRepresents(other);
    SameRepresentation(GraphOf(nodes), GraphOf(other), nodes, other);
  }

  lemma RepeatedCountsTwice(s: seq<Node>, i: nat, j: nat)
    requires i < j < |s| && s[i] == s[j]
    ensures multiset(s)[s[i]] >= 2
  {
    assert s == s[..j] + s[j..];
    assert s[i] in s[..j] && s[i] in s[j..];
  }

  lemma SameRepresentation(g: Graph, h: Graph, nodes: seq<Node>, other: seq<Node>)
    requires Represents(g, nodes) && Represents(h, other)
    requires forall n :: n in nodes <==> n in other
    ensures g == h
  {
    assert IdSet(nodes) == IdSet(other);
    forall id | id in g
      ensures g[id] == h[id]
    {
      var n :| n in nodes && n.id == id;
      assert n in other;
    }
  }

  lemma SameIdSameNode(nodes: seq<Node>, a: Node, b: Node)
    requires UniqueIds(nodes) && a in nodes && b in nodes && a.id == b.id
    ensures a == b
  {
    var i :| 0 <= i < |nodes| && nodes[i] == a;
    var j :| 0 <= j < |nodes| && nodes[j] == b;
  }

  // ---------------------------------------------------------------------
  // Chains and cycles: the vocabulary of the specification
  // ---------------------------------------------------------------------

  /** A dependency chain, from a dependency up to a node that (transitively) needs it. */
  ghost predicate IsChain(g: Graph, c: seq<string>) {
    && 0 < |c|
    && (forall i :: 0 <= i < |c| ==> c[i] in g)
    && (forall i, j :: 0 <= i && j == i + 1 && j < |c| ==> c[i] in g[c[j]].dependsOn)
  }

  ghost predicate ChainTo(g: Graph, c: seq<string>, id: string) {
    IsChain(g, c) && c[|c| - 1] == id
  }

  ghost predicate ClosesUp(g: Graph, c: seq<string>) {
    IsChain(g, c) && c[|c| - 1] in g[c[0]].dependsOn
  }

  ghost predicate HasCycle(g: Graph) {
    exists c :: ClosesUp(g, c)
  }

  ghost predicate HasMissingDependency(g: Graph) {
    exists id, d :: id in g && d in g[id].dependsOn && d !in g
  }

  ghost predicate ChainBound(g: Graph, id: string, len: nat) {
    forall c :: ChainTo(g, c, id) ==> |c| <= len
  }

  /** `len` is the number of nodes on the longest dependency chain that ends in `id`. */
  ghost predicate LongestChain(g: Graph, id: string, len: nat) {
    (exists c :: ChainTo(g, c, id) && |c| == len) && ChainBound(g, id, len)
  }

  // ---------------------------------------------------------------------
  // Rounds: what can be placed within k layers
  // ---------------------------------------------------------------------

  ghost predicate DependsWithin(n: Node, s: set<string>) {
    forall d :: d in n.dependsOn ==> d in s
  }

  ghost function Placed(g: Graph, k: nat): set<string> {
    if k == 0 then {} else set id | id in g && DependsWithin(g[id], Placed(g, k - 1))
  }

  ghost function Level(g: Graph, k: nat): set<string> {
    Placed(g, k + 1) - Placed(g, k)
  }

  lemma {:induction false} PlacedMonotone(g: Graph, k: nat)
    ensures Placed(g, k) <= Placed(g, k + 1) <= g.Keys
  {
    if k > 0 {
      PlacedMonotone(g, k - 1);
    }
  }

  lemma {:induction false} PlacedMonotoneFrom(g: Graph, j: nat, k: nat)
    requires j <= k
    ensures Placed(g, j) <= Placed(g, k) <= g.Keys
    decreases k
  {
    if j < k {
      PlacedMonotoneFrom(g, j, k - 1);
      PlacedMonotone(g, k - 1);
    }
  }

  /** A node is placed within k rounds only if no chain into it is longer than k. */
  lemma {:induction false} PlacedBoundsChains(g: Graph, k: nat, c: seq<string>)
    requires IsChain(g, c) && c[|c| - 1] in Placed(g, k)
    ensures |c| <= k
  {
    if |c| > 1 {
      var d := c[..|c| - 1];
      assert d[|d| - 1] in g[c[|c| - 1]].dependsOn;
      PlacedBoundsChains(g, k - 1, d);
    }
  }

  /** A node that is not placed within k rounds, in a graph with no missing dependency, sits on
      a chain of k+1 nodes. */
  lemma {:induction false} UnplacedHasChain(g: Graph, k: nat, id: string) returns (c: seq<string>)
    requires !HasMissingDependency(g) && id in g && id !in Placed(g, k)
    ensures ChainTo(g, c, id) && |c| == k + 1
  {
    if k == 0 {
      c := [id];
    } else {
      var d :| d in g[id].dependsOn && d !in Placed(g, k - 1);
      var front := UnplacedHasChain(g, k - 1, d);
      c := front + [id];
    }
  }

  lemma LevelIsLongestChain(g: Graph, k: nat, id: string)
    requires !HasMissingDependency(g) && id in Level(g, k)
    ensures LongestChain(g, id, k + 1)
  {
    PlacedMonotone(g, k);
    var c := UnplacedHasChain(g, k, id);
    forall c | ChainTo(g, c, id)
      ensures |c| <= k + 1
    {
      PlacedBoundsChains(g, k + 1, c);
    }
  }

  /** No node of a cycle is ever placed. */
  lemma {:induction false} CyclesAreNeverPlaced(g: Graph, c: seq<string>, k: nat, i: nat)
    requires ClosesUp(g, c) && i < |c|
    ensures c[i] !in Placed(g, k)
  {
    if k > 0 && c[i] in Placed(g, k) {
      var p := if i == 0 then |c| - 1 else i - 1;
      assert c[p] in g[c[i]].dependsOn;
      CyclesAreNeverPlaced(g, c, k - 1, p);
    }
  }

  lemma {:induction false} DistinctFitsIn(s: seq<string>, bound: set<string>)
    requires forall i :: 0 <= i < |s| ==> s[i] in bound
    requires forall i, j :: 0 <= i < j < |s| ==> s[i] != s[j]
    ensures |s| <= |bound|
  {
    if s != [] {
      DistinctFitsIn(s[1..], bound - {s[0]});
    }
  }

  /** A chain longer than the graph repeats a node, and the stretch between the two
      occurrences closes up. */
  lemma LongChainHasCycle(g: Graph, c: seq<string>)
    requires IsChain(g, c) && |c| > |g|
    ensures HasCycle(g)
  {
    if i, j :| 0 <= i < j < |c| && c[i] == c[j] {
      var loop := c[i + 1..j + 1];
      assert IsChain(g, loop);
      assert ClosesUp(g, loop);
    } else {
      DistinctFitsIn(c, g.Keys);
    }
  }

  lemma AllPlacedIsSound(g: Graph, k: nat)
    requires Placed(g, k) == g.Keys
    ensures !HasMissingDependency(g) && !HasCycle(g)
  {
    if id, d :| id in g && d in g[id].dependsOn && d !in g {
      assert k > 0 && id in Placed(g, k);
      assert DependsWithin(g[id], Placed(g, k - 1));
      if k > 1 {
        PlacedMonotone(g, k - 1);
      }
    }
    if c :| ClosesUp(g, c) {
      CyclesAreNeverPlaced(g, c, k, 0);
    }
  }

  lemma NoDifference(a: set<string>, b: set<string>)
    requires b - a == {}
    ensures b <= a
  {
    forall x | x in b
      ensures x in a
    {
      assert x in a || x in b - a;
    }
  }

  lemma EmptyLevelIsStuck(g: Graph, k: nat)
    requires Level(g, k) == {}
    ensures Placed(g, k) == Placed(g, k + 1) <= g.Keys
  {
    PlacedMonotone(g, k);
    NoDifference(Placed(g, k), Placed(g, k + 1));
  }

  lemma StuckIsBroken(g: Graph, k: nat, id: string)
    requires Placed(g, k) == Placed(g, k + 1) && id in g && id !in Placed(g, k)
    ensures HasMissingDependency(g) || HasCycle(g)
  {
    hide Placed, HasMissingDependency, HasCycle, ClosesUp;
    if !HasMissingDependency(g) {
      FixpointStays(g, k, k + |g|);
      var c := UnplacedHasChain(g, k + |g|, id);
      LongChainHasCycle(g, c);
    }
  }

  lemma {:induction false} FixpointStays(g: Graph, j: nat, k: nat)
    requires j <= k && Placed(g, j) == Placed(g, j + 1)
    ensures Placed(g, k) == Placed(g, j)
    decreases k
  {
    if j < k {
      FixpointStays(g, j, k - 1);
      if k > j + 1 {
        assert Placed(g, k - 1) == Placed(g, j);
        assert Placed(g, k) == Placed(g, j + 1);
      }
    }
  }

  /** No valid layering places a node earlier than its longest chain allows. */
  lemma {:induction false} NoEarlierLayering(g: Graph, layerOf: map<string, nat>, c: seq<string>)
    requires layerOf.Keys == g.Keys && IsChain(g, c)
    requires forall id, d :: id in g && d in g[id].dependsOn && d in g ==> layerOf[d] < layerOf[id]
    ensures layerOf[c[|c| - 1]] >= |c| - 1
  {
    if |c| > 1 {
      var d := c[..|c| - 1];
      assert d[|d| - 1] in g[c[|c| - 1]].dependsOn;
      NoEarlierLayering(g, layerOf, d);
    }
  }

  // ---------------------------------------------------------------------
  // In-degrees
  // ---------------------------------------------------------------------

  /** How often `x` is listed. */
  ghost function Times(s: seq<string>, x: string): nat {
    if s == [] then 0 else Times(s[..|s| - 1], x) + if s[|s| - 1] == x then 1 else 0
  }

  lemma TimesAppend(s: seq<string>, last: string, x: string)
    ensures Times(s + [last], x) == Times(s, x) + if last == x then 1 else 0
  {
    assert (s + [last])[..|s|] == s;
  }

  lemma {:induction false} TimesPrefix(s: seq<string>, k: nat, x: string)
    requires k <= |s|
    ensures Times(s[..k], x) <= Times(s, x)
    ensures k < |s| && s[k] == x ==> Times(s[..k], x) < Times(s, x)
    decreases |s|
  {
    if k < |s| {
      assert s[..|s| - 1][..k] == s[..k];
      TimesPrefix(s[..|s| - 1], k, x);
    } else {
      assert s[..k] == s;
    }
  }

  lemma {:induction false} TimesMember(s: seq<string>, x: string)
    ensures Times(s, x) > 0 <==> x in s
  {
    if s != [] {
      TimesMember(s[..|s| - 1], x);
      assert s == s[..|s| - 1] + [s[|s| - 1]];
    }
  }

  /** How many entries of `deps` are not in `done`, repeated entries counted each time. */
  ghost function Remaining(deps: seq<string>, done: set<string>): nat {
    if deps == [] then 0
    else Remaining(deps[..|deps| - 1], done) + if deps[|deps| - 1] in done then 0 else 1
  }

  lemma {:induction false} RemainingZeroAt(deps: seq<string>, done: set<string>)
    ensures Remaining(deps, done) == 0 <==> forall i :: 0 <= i < |deps| ==> deps[i] in done
    ensures done == {} ==> Remaining(deps, done) == |deps|
  {
    if |deps| > 0 {
      var k := |deps| - 1;
      RemainingZeroAt(deps[..k], done);
      assert forall i :: 0 <= i < k ==> deps[..k][i] == deps[i];
    }
  }

  lemma RemainingZero(deps: seq<string>, done: set<string>)
    ensures Remaining(deps, done) == 0 <==> forall d :: d in deps ==> d in done
    ensures done == {} ==> Remaining(deps, done) == |deps|
  {
    RemainingZeroAt(deps, done);
  }

  /** Finishing `u` takes one off for every time `u` is listed. */
  lemma {:induction false} RemainingAfter(deps: seq<string>, done: set<string>, u: string)
    requires u !in done
    ensures Remaining(deps, done) == Remaining(deps, done + {u}) + Times(deps, u)
  {
    if deps != [] {
      RemainingAfter(deps[..|deps| - 1], done, u);
    }
  }

  function Get(m: map<string, seq<string>>, u: string): seq<string> {
    if u in m then m[u] else []
  }

  /** `dependents` lists `id` under `u` once for every time `id` names `u` as a dependency. */
  ghost predicate EntryInverts(g: Graph, done: set<string>, dependents: map<string, seq<string>>, u: string,
                               id: string)
  {
    Times(Get(dependents, u), id) == if id in done && id in g then Times(g[id].dependsOn, u) else 0
  }

  ghost predicate Inverts(g: Graph, done: set<string>, dependents: map<string, seq<string>>) {
    forall u, id :: EntryInverts(g, done, dependents, u, id)
  }

  /** As `Inverts`, while `node` has been entered up to its first `j` dependencies. */
  ghost predicate EntryUpTo(g: Graph, done: set<string>, node: Node, j: nat,
                            dependents: map<string, seq<string>>, u: string, id: string)
    requires j <= |node.dependsOn|
  {
    if id == node.id then Times(Get(dependents, u), id) == Times(node.dependsOn[..j], u)
    else EntryInverts(g, done, dependents, u, id)
  }

  ghost predicate InvertsUpTo(g: Graph, done: set<string>, node: Node, j: nat, dependents: map<string, seq<string>>)
    requires j <= |node.dependsOn|
  {
    forall u, id :: EntryUpTo(g, done, node, j, dependents, u, id)
  }

  lemma StartNode(g: Graph, done: set<string>, node: Node, dependents: map<string, seq<string>>)
    requires Inverts(g, done, dependents) && node.id !in done
    ensures InvertsUpTo(g, done, node, 0, dependents)
  {
    forall u, id
      ensures EntryUpTo(g, done, node, 0, dependents, u, id)
    {
      assert EntryInverts(g, done, dependents, u, id);
    }
  }

  lemma EnterDependent(g: Graph, done: set<string>, node: Node, j: nat,
                       before: map<string, seq<string>>, after: map<string, seq<string>>)
    requires j < |node.dependsOn| && InvertsUpTo(g, done, node, j, before)
    requires after == before[node.dependsOn[j] := Get(before, node.dependsOn[j]) + [node.id]]
    ensures InvertsUpTo(g, done, node, j + 1, after)
  {
    var dep := node.dependsOn[j];
    var k := j + 1;
    assert node.dependsOn[..k] == node.dependsOn[..j] + [dep];
    forall u, id
      ensures EntryUpTo(g, done, node, k, after, u, id)
    {
      assert EntryUpTo(g, done, node, j, before, u, id);
      TimesAppend(node.dependsOn[..j], dep, u);
      if u == dep {
        TimesAppend(Get(before, u), node.id, id);
      }
    }
  }

  lemma FinishNode(g: Graph, done: set<string>, node: Node, dependents: map<string, seq<string>>)
    requires node.id in g && g[node.id] == node
    requires InvertsUpTo(g, done, node, |node.dependsOn|, dependents)
    ensures Inverts(g, done + {node.id}, dependents)
  {
    assert node.dependsOn[..|node.dependsOn|] == node.dependsOn;
    forall u, id
      ensures EntryInverts(g, done + {node.id}, dependents, u, id)
    {
      assert EntryUpTo(g, done, node, |node.dependsOn|, dependents, u, id);
    }
  }

  method EnterNode(ghost g: Graph, ghost done: set<string>, node: Node, dependents0: map<string, seq<string>>)
    returns (dependents: map<string, seq<string>>)
    requires node.id in g && g[node.id] == node && node.id !in done
    requires Inverts(g, done, dependents0)
    ensures Inverts(g, done + {node.id}, dependents)
  {
    dependents := dependents0;
    StartNode(g, done, node, dependents);
    for j := 0 to |node.dependsOn|
      invariant InvertsUpTo(g, done, node, j, dependents)
    {
      var dep := node.dependsOn[j];
      ghost var before := dependents;
      dependents := dependents[dep := Get(dependents, dep) + [node.id]];
      EnterDependent(g, done, node, j, before, dependents);
    }
    FinishNode(g, done, node, dependents);
  }

  ghost predicate DegreesOf(g: Graph, done: set<string>, inDegree: map<string, nat>) {
    inDegree.Keys == done && forall id :: id in inDegree ==> id in g && inDegree[id] == |g[id].dependsOn|
  }

  method InitDegrees(ghost g: Graph, nodes: seq<Node>)
    returns (inDegree: map<string, nat>, dependents: map<string, seq<string>>)
    requires UniqueIds(nodes) && Represents(g, nodes)
    ensures DegreesOf(g, g.Keys, inDegree) && Inverts(g, g.Keys, dependents)
  {
    inDegree, dependents := map[], map[];
    assert Inverts(g, {}, dependents) by {
      forall u, id
        ensures EntryInverts(g, {}, dependents, u, id)
      {
      }
    }
    ghost var done := {};
    for i := 0 to |nodes|
      invariant done == IdSet(nodes[..i])
      invariant DegreesOf(g, done, inDegree)
      invariant Inverts(g, done, dependents)
    {
      var node := nodes[i];
      IdSetNext(nodes, i);
      assert node in nodes && g[node.id] == node;
      inDegree := inDegree[node.id := |node.dependsOn|];
      dependents := EnterNode(g, done, node, dependents);
      done := done + {node.id};
    }
    assert nodes[..|nodes|] == nodes;
  }

  lemma IdSetNext(nodes: seq<Node>, i: nat)
    requires i < |nodes| && UniqueIds(nodes)
    ensures IdSet(nodes[..i + 1]) == IdSet(nodes[..i]) + {nodes[i].id} && nodes[i].id !in IdSet(nodes[..i])
  {
    assert nodes[..i + 1] == nodes[..i] + [nodes[i]];
  }

  ghost predicate Distinct<T>(s: seq<T>) {
    forall i, j :: 0 <= i < j < |s| ==> s[i] != s[j]
  }

  /** One finished node: take one off every listed dependent and collect those that reach zero.
      The degrees are naturals, so the subtraction cannot underflow. */
  method ReleaseDependents(ds: seq<string>, inDegree0: map<string, nat>, nextIds0: seq<string>)
    returns (inDegree: map<string, nat>, nextIds: seq<string>)
    requires forall id :: id in ds ==> id in inDegree0
    requires forall id :: id in inDegree0 ==> Times(ds, id) <= inDegree0[id]
    requires Distinct(nextIds0) && forall id :: id in nextIds0 ==> id in inDegree0 && inDegree0[id] == 0
    ensures inDegree.Keys == inDegree0.Keys
    ensures forall id :: id in inDegree ==> inDegree[id] + Times(ds, id) == inDegree0[id]
    ensures Distinct(nextIds)
    ensures forall id :: id in nextIds <==>
                         id in nextIds0 || (id in inDegree && inDegree0[id] > 0 && inDegree[id] == 0)
  {
    inDegree, nextIds := inDegree0, nextIds0;
    for k := 0 to |ds|
      invariant inDegree.Keys == inDegree0.Keys
      invariant forall id :: id in inDegree ==> inDegree[id] + Times(ds[..k], id) == inDegree0[id]
      invariant Distinct(nextIds)
      invariant forall id :: id in nextIds <==>
                             id in nextIds0 || (id in inDegree && inDegree0[id] > 0 && inDegree[id] == 0)
    {
      var depId := ds[k];
      assert ds[..k + 1] == ds[..k] + [depId];
      TimesPrefix(ds, k, depId);
      var newDegree: nat := if depId in inDegree then inDegree[depId] - 1 else 0;
      inDegree := inDegree[depId := newDegree];
      if newDegree == 0 {
        nextIds := nextIds + [depId];
      }
    }
    assert ds[..|ds|] == ds;
  }

  ghost predicate Degrees(g: Graph, done: set<string>, inDegree: map<string, nat>) {
    inDegree.Keys == g.Keys && forall id :: id in g ==> inDegree[id] == Remaining(g[id].dependsOn, done)
  }

  /** One finished layer. */
  method ReleaseLayer(ghost g: Graph, ghost done: set<string>, layer: seq<Node>,
                      dependents: map<string, seq<string>>, inDegree0: map<string, nat>)
    returns (inDegree: map<string, nat>, nextIds: seq<string>)
    requires Inverts(g, g.Keys, dependents) && Degrees(g, done, inDegree0)
    requires UniqueIds(layer) && IdSet(layer) !! done
    ensures Degrees(g, done + IdSet(layer), inDegree)
    ensures Distinct(nextIds)
    ensures forall id :: id in nextIds <==>
                         id in g && Remaining(g[id].dependsOn, done) > 0 &&
                         Remaining(g[id].dependsOn, done + IdSet(layer)) == 0
  {
    inDegree, nextIds := inDegree0, [];
    ghost var now := done;
    for k := 0 to |layer|
      invariant now == done + IdSet(layer[..k])
      invariant Degrees(g, now, inDegree)
      invariant Distinct(nextIds)
      invariant forall id :: id in nextIds <==> id in g && inDegree0[id] > 0 && inDegree[id] == 0
    {
      var u := layer[k].id;
      assert layer[..k + 1] == layer[..k] + [layer[k]];
      assert u in IdSet(layer) && u !in now;
      forall id | id in g
        ensures Remaining(g[id].dependsOn, now) ==
                Remaining(g[id].dependsOn, now + {u}) + Times(Get(dependents, u), id)
      {
        RemainingAfter(g[id].dependsOn, now, u);
        assert EntryInverts(g, g.Keys, dependents, u, id);
      }
      forall id | id in Get(dependents, u)
        ensures id in g
      {
        TimesMember(Get(dependents, u), id);
        assert EntryInverts(g, g.Keys, dependents, u, id);
      }
      forall id | id in g
        ensures inDegree[id] <= inDegree0[id]
      {
        RemainingShrinks(g[id].dependsOn, done, now);
      }
      inDegree, nextIds := ReleaseDependents(Get(dependents, u), inDegree, nextIds);
      now := now + {u};
      forall id | id in g
        ensures inDegree[id] <= inDegree0[id]
      {
        RemainingShrinks(g[id].dependsOn, done, now);
      }
    }
    assert layer[..|layer|] == layer;
  }

  lemma {:induction false} RemainingShrinks(deps: seq<string>, small: set<string>, big: set<string>)
    requires small <= big
    ensures Remaining(deps, big) <= Remaining(deps, small)
  {
    if deps != [] {
      RemainingShrinks(deps[..|deps| - 1], small, big);
    }
  }

  // ---------------------------------------------------------------------
  // The layer loop
  // ---------------------------------------------------------------------

  ghost function Flatten<T>(layers: seq<seq<T>>): seq<T> {
    if layers == [] then [] else Flatten(layers[..|layers| - 1]) + layers[|layers| - 1]
  }

  /** The list holds each node named by `ids` once, and no other node. */
  ghost predicate Holds(g: Graph, ids: set<string>, layer: seq<Node>) {
    && UniqueIds(layer)
    && (forall n :: n in layer ==> n.id in g && g[n.id] == n)
    && IdSet(layer) == ids
  }

  ghost predicate IsLayer(g: Graph, k: nat, layer: seq<Node>) {
    Holds(g, Level(g, k), layer)
  }

  ghost predicate Lists(ids: seq<string>, s: set<string>) {
    Distinct(ids) && forall id :: id in ids <==> id in s
  }

  /** Every layer holds its level. */
  ghost predicate Layered(g: Graph, layers: seq<seq<Node>>) {
    layers == [] ||
    (var k := |layers| - 1; Layered(g, layers[..k]) && IsLayer(g, k, layers[k]))
  }

  lemma {:induction false} LayeredAt(g: Graph, layers: seq<seq<Node>>, i: nat)
    requires Layered(g, layers) && i < |layers|
    ensures IsLayer(g, i, layers[i])
    decreases |layers|
  {
    if i < |layers| - 1 {
      LayeredAt(g, layers[..|layers| - 1], i);
    }
  }

  ghost predicate NoneEmpty(layers: seq<seq<Node>>) {
    layers == [] || (NoneEmpty(layers[..|layers| - 1]) && layers[|layers| - 1] != [])
  }

  lemma {:induction false} NoneEmptyAt(layers: seq<seq<Node>>)
    requires NoneEmpty(layers)
    ensures forall i :: 0 <= i < |layers| ==> |layers[i]| > 0
  {
    if layers != [] {
      NoneEmptyAt(layers[..|layers| - 1]);
    }
  }

  /** With unique ids every node occurs once, and ids count nodes. */
  lemma {:induction false} UniqueBag(s: seq<Node>)
    requires UniqueIds(s)
    ensures forall n :: multiset(s)[n] == if n in s then 1 else 0
    ensures |s| == |IdSet(s)|
  {
    if s != [] {
      var k := |s| - 1;
      var front, last := s[..k], s[k];
      UniqueBag(front);
      assert s == front + [last];
      assert IdSet(s) == IdSet(front) + {last.id};
      assert last.id !in IdSet(front);
    }
  }

  lemma UniqueConcat(a: seq<Node>, b: seq<Node>)
    requires UniqueIds(a) && UniqueIds(b) && IdSet(a) !! IdSet(b)
    ensures UniqueIds(a + b) && IdSet(a + b) == IdSet(a) + IdSet(b)
  {
    forall i, j | 0 <= i < j < |a + b|
      ensures (a + b)[i].id != (a + b)[j].id
    {
      if i < |a| <= j {
        assert a[i] in a && b[j - |a|] in b;
        assert a[i].id in IdSet(a) && b[j - |a|].id in IdSet(b);
      }
    }
    forall n | n in a || n in b
      ensures n in a + b
    {
    }
  }

  /** The layers so far hold each placed node exactly once. */
  lemma {:induction false} FlattenUnique(g: Graph, layers: seq<seq<Node>>)
    requires Layered(g, layers)
    ensures UniqueIds(Flatten(layers)) && IdSet(Flatten(layers)) == Placed(g, |layers|)
    ensures forall n :: n in Flatten(layers) ==> n.id in g && g[n.id] == n
  {
    if layers != [] {
      var k := |layers| - 1;
      var front, last := Flatten(layers[..k]), layers[k];
      FlattenUnique(g, layers[..k]);
      PlacedMonotone(g, k);
      assert IsLayer(g, k, last);
      assert Level(g, k) == Placed(g, k + 1) - Placed(g, k);
      UniqueConcat(front, last);
      assert Flatten(layers) == front + last;
    }
  }

  lemma SameNodes(g: Graph, nodes: seq<Node>, placed: seq<Node>)
    requires UniqueIds(nodes) && UniqueIds(placed) && Represents(g, nodes) && Represents(g, placed)
    ensures multiset(placed) == multiset(nodes)
  {
    UniqueBag(nodes);
    UniqueBag(placed);
    forall n: Node
      ensures multiset(placed)[n] == multiset(nodes)[n]
    {
      SameMember(g, nodes, placed, n);
      SameMember(g, placed, nodes, n);
    }
  }

  lemma SameMember(g: Graph, a: seq<Node>, b: seq<Node>, n: Node)
    requires Represents(g, a) && Represents(g, b)
    ensures n in a ==> n in b
  {
    if n in a {
      assert n.id in IdSet(b);
      var m :| m in b && m.id == n.id;
    }
  }

  method FindAll(ghost g: Graph, ghost wanted: set<string>, nodes: seq<Node>, ids: seq<string>)
    returns (found: seq<Node>)
    requires Represents(g, nodes) && Lists(ids, wanted) && wanted <= g.Keys
    ensures Holds(g, wanted, found)
  {
    found := [];
    for i := 0 to |ids|
      invariant |found| == i
      invariant forall k :: 0 <= k < i ==> found[k].id == ids[k] && found[k] in nodes
    {
      var k := 0;
      while k < |nodes| && nodes[k].id != ids[i]
        invariant 0 <= k <= |nodes|
        invariant forall m :: 0 <= m < k ==> nodes[m].id != ids[i]
      {
        k := k + 1;
      }
      if k < |nodes| {
        found := found + [nodes[k]];
      } else {
        NoSuchNode(nodes, ids[i]);
        assert false;
      }
    }
    FoundHolds(g, wanted, nodes, ids, found);
  }

  lemma NoSuchNode(nodes: seq<Node>, id: string)
    requires forall m :: 0 <= m < |nodes| ==> nodes[m].id != id
    ensures id !in IdSet(nodes)
  {
  }

  lemma FoundHolds(g: Graph, wanted: set<string>, nodes: seq<Node>, ids: seq<string>, found: seq<Node>)
    requires Represents(g, nodes) && Lists(ids, wanted)
    requires |found| == |ids|
    requires forall k :: 0 <= k < |ids| ==> found[k].id == ids[k] && found[k] in nodes
    ensures Holds(g, wanted, found)
  {
    forall id | id in wanted
      ensures id in IdSet(found)
    {
      assert id in ids;
      var i :| 0 <= i < |ids| && ids[i] == id;
      assert found[i] in found;
    }
    forall n | n in found
      ensures n.id in wanted && n in nodes
    {
      var i :| 0 <= i < |found| && found[i] == n;
      assert ids[i] in ids;
    }
  }

  datatype LayerError = RuntimeCycle

  /** The layers of a workflow, or the runtime-cycle error. */
  method BuildTopologicalLayers(nodes: seq<Node>) returns (r: Result<seq<seq<Node>>, LayerError>)
    requires UniqueIds(nodes)
    ensures r.Err? <==> HasMissingDependency(GraphOf(nodes)) || HasCycle(GraphOf(nodes))
    ensures r.Ok? ==> multiset(Flatten(r.value)) == multiset(nodes)
    ensures r.Ok? ==> forall i, n :: 0 <= i < |r.value| && n in r.value[i] ==>
                        LongestChain(GraphOf(nodes), n.id, i + 1)
    ensures r.Ok? ==> forall i :: 0 <= i < |r.value| ==> |r.value[i]| > 0
    ensures r.Ok? ==> Layered(GraphOf(nodes), r.value)
    ensures r.Ok? ==> Placed(GraphOf(nodes), |r.value|) == GraphOf(nodes).Keys
  {
    ghost var g := GraphOf(nodes);
    GraphRepresents(nodes);
    var layers := PlaceLayers(g, nodes);
    var totalPlaced := CountPlaced(layers);
    Finish(g, nodes, layers);
    if totalPlaced < |nodes| {
      return Err(RuntimeCycle);
    }
    LayersAreLongestChains(g, layers);
    NoneEmptyAt(layers);
    r := Ok(layers);
  }

  /** Place layer after layer until no node is ready. */
  method PlaceLayers(ghost g: Graph, nodes: seq<Node>) returns (layers: seq<seq<Node>>)
    requires UniqueIds(nodes) && Represents(g, nodes)
    ensures Layered(g, layers) && Level(g, |layers|) == {} && NoneEmpty(layers)
  {
    layers := [];
    var inDegree, dependents, ready := Start(g, nodes);
    ghost var left := |g.Keys - Placed(g, 0)|;
    while ready != []
      invariant Degrees(g, Placed(g, |layers|), inDegree)
      invariant Layered(g, layers + [ready])
      invariant left == |g.Keys - Placed(g, |layers|)|
      invariant NoneEmpty(layers)
      decreases left
    {
      assert (layers + [ready])[..|layers|] == layers;
      layers := layers + [ready];
      inDegree, ready, left := NextReady(g, nodes, layers, dependents, inDegree);
    }
    LayeredAt(g, layers + [ready], |layers|);
    assert (layers + [ready])[..|layers|] == layers;
    assert IdSet(ready) == {};
  }

  method Start(ghost g: Graph, nodes: seq<Node>)
    returns (inDegree: map<string, nat>, dependents: map<string, seq<string>>, ready: seq<Node>)
    requires UniqueIds(nodes) && Represents(g, nodes)
    ensures Degrees(g, Placed(g, 0), inDegree) && Inverts(g, g.Keys, dependents) && Layered(g, [ready])
  {
    inDegree, dependents := InitDegrees(g, nodes);
    ready := ReadyAtStart(g, nodes, inDegree);
    DegreesAtStart(g, inDegree);
  }

  lemma DegreesAtStart(g: Graph, inDegree: map<string, nat>)
    requires DegreesOf(g, g.Keys, inDegree)
    ensures Degrees(g, Placed(g, 0), inDegree)
  {
    forall id | id in g
      ensures inDegree[id] == Remaining(g[id].dependsOn, {})
    {
      RemainingZero(g[id].dependsOn, {});
    }
  }

  method CountPlaced(layers: seq<seq<Node>>) returns (total: nat)
    ensures total == |Flatten(layers)|
  {
    total := 0;
    for i := 0 to |layers|
      invariant total == |Flatten(layers[..i])|
    {
      assert layers[..i + 1][..i] == layers[..i];
      total := total + |layers[i]|;
    }
    assert layers[..|layers|] == layers;
  }

  /** One turn of the loop: finish the last layer and find the nodes that it made ready. */
  method NextReady(ghost g: Graph, nodes: seq<Node>, layers: seq<seq<Node>>,
                   dependents: map<string, seq<string>>, inDegree0: map<string, nat>)
    returns (inDegree: map<string, nat>, ready: seq<Node>, ghost left: nat)
    requires UniqueIds(nodes) && Represents(g, nodes) && Inverts(g, g.Keys, dependents)
    requires layers != [] && |layers[|layers| - 1]| > 0 && Layered(g, layers)
    requires Degrees(g, Placed(g, |layers| - 1), inDegree0)
    ensures Degrees(g, Placed(g, |layers|), inDegree) && Layered(g, layers + [ready])
    ensures left == |g.Keys - Placed(g, |layers|)| < |g.Keys - Placed(g, |layers| - 1)|
  {
    ghost var k := |layers| - 1;
    var layer := layers[|layers| - 1];
    LayeredAt(g, layers, k);
    LayerMakesProgress(g, k, layer);
    var nextIds;
    inDegree, nextIds := ReleaseLayer(g, Placed(g, k), layer, dependents, inDegree0);
    NextLevel(g, k, nextIds);
    ready := FindAll(g, Level(g, |layers|), nodes, nextIds);
    left := |g.Keys - Placed(g, |layers|)|;
    assert (layers + [ready])[..|layers|] == layers;
  }

  lemma LayerMakesProgress(g: Graph, k: nat, layer: seq<Node>)
    requires IsLayer(g, k, layer) && layer != []
    ensures |g.Keys - Placed(g, k + 1)| < |g.Keys - Placed(g, k)|
    ensures IdSet(layer) !! Placed(g, k) && Placed(g, k) + IdSet(layer) == Placed(g, k + 1)
  {
    hide Placed;
    PlacedMonotone(g, k);
    PlacedMonotone(g, k + 1);
    assert layer[0].id in IdSet(layer);
    SmallerSet(g.Keys - Placed(g, k + 1), g.Keys - Placed(g, k));
  }

  /** The nodes whose in-degree drops to zero while layer k finishes are exactly level k+1. */
  lemma NextLevel(g: Graph, k: nat, nextIds: seq<string>)
    requires Distinct(nextIds)
    requires forall id :: id in nextIds <==>
                           id in g && Remaining(g[id].dependsOn, Placed(g, k)) > 0 &&
                           Remaining(g[id].dependsOn, Placed(g, k + 1)) == 0
    ensures Lists(nextIds, Level(g, k + 1)) && Level(g, k + 1) <= g.Keys
  {
    PlacedMonotone(g, k + 1);
    forall id | id in g
      ensures Remaining(g[id].dependsOn, Placed(g, k)) == 0 <==> id in Placed(g, k + 1)
      ensures Remaining(g[id].dependsOn, Placed(g, k + 1)) == 0 <==> id in Placed(g, k + 2)
    {
      RemainingZero(g[id].dependsOn, Placed(g, k));
      RemainingZero(g[id].dependsOn, Placed(g, k + 1));
    }
  }

  /** When a round would be empty, the count of placed nodes tells a broken graph from a
      finished one. */
  lemma Finish(g: Graph, nodes: seq<Node>, layers: seq<seq<Node>>)
    requires UniqueIds(nodes) && Represents(g, nodes)
    requires Layered(g, layers) && Level(g, |layers|) == {}
    ensures |Flatten(layers)| < |nodes| <==> HasMissingDependency(g) || HasCycle(g)
    ensures |Flatten(layers)| >= |nodes| ==>
              multiset(Flatten(layers)) == multiset(nodes) && Placed(g, |layers|) == g.Keys
  {
    var k := |layers|;
    EmptyLevelIsStuck(g, k);
    Counts(g, nodes, layers);
    if Placed(g, k) == g.Keys {
      AllPlacedIsSound(g, k);
      SameNodes(g, nodes, Flatten(layers));
    } else {
      SmallerSet(Placed(g, k), g.Keys);
      var id :| id in g.Keys && id !in Placed(g, k);
      StuckIsBroken(g, k, id);
    }
  }

  lemma Counts(g: Graph, nodes: seq<Node>, layers: seq<seq<Node>>)
    requires UniqueIds(nodes) && Represents(g, nodes) && Layered(g, layers)
    ensures |Flatten(layers)| == |Placed(g, |layers|)| && |nodes| == |g.Keys|
    ensures UniqueIds(Flatten(layers))
    ensures Placed(g, |layers|) == g.Keys ==> Represents(g, Flatten(layers))
  {
    FlattenUnique(g, layers);
    UniqueBag(nodes);
    UniqueBag(Flatten(layers));
  }

  lemma LayersAreLongestChains(g: Graph, layers: seq<seq<Node>>)
    requires !HasMissingDependency(g)
    requires Layered(g, layers)
    ensures forall i, n :: 0 <= i < |layers| && n in layers[i] ==> LongestChain(g, n.id, i + 1)
  {
    forall i, n | 0 <= i < |layers| && n in layers[i]
      ensures LongestChain(g, n.id, i + 1)
    {
      LayeredAt(g, layers, i);
      assert n.id in IdSet(layers[i]);
      LevelIsLongestChain(g, i, n.id);
    }
  }

  method ReadyAtStart(ghost g: Graph, nodes: seq<Node>, inDegree: map<string, nat>) returns (ready: seq<Node>)
    requires UniqueIds(nodes) && Represents(g, nodes)
    requires DegreesOf(g, g.Keys, inDegree)
    ensures IsLayer(g, 0, ready)
  {
    ready := [];
    for i := 0 to |nodes|
      invariant UniqueIds(ready)
      invariant forall n :: n in ready <==> n in nodes[..i] && |n.dependsOn| == 0
    {
      assert nodes[..i + 1] == nodes[..i] + [nodes[i]];
      assert nodes[i] in nodes;
      if (if nodes[i].id in inDegree then inDegree[nodes[i].id] else 0) == 0 {
        ready := ready + [nodes[i]];
      }
    }
    assert nodes[..|nodes|] == nodes;
    forall id | id in g
      ensures id in Level(g, 0) <==> id in IdSet(ready)
    {
      var n :| n in nodes && n.id == id;
      RemainingZero(n.dependsOn, {});
    }
    assert IdSet(ready) == Level(g, 0);
  }

  lemma SmallerSet(a: set<string>, b: set<string>)
    requires a < b
    ensures |a| < |b|
    ensures exists x :: x in b && x !in a
  {
    var x :| x in b && x !in a;
    assert b == (b - a) + a;
  }
}
