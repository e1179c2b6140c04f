/** Dependency graphs shared by the workflow, governance and policy packages:
    walks, cycles, topological orders, and the two facts that connect them. */
module Graphs {
  /** Step ids are compared and used as map keys, never taken apart. */
  datatype Id = Id(name: string)
  type Graph = map<Id, seq<Id>>

  /** A step as every checker sees it: an id and the ids it depends on. */
  datatype Step = Step(id: Id, dependsOn: seq<Id>)

  /** A node that is not a key has no outgoing edges, as with a Go map's zero value. */
  function Deps(g: Graph, id: Id): seq<Id> {
    if id in g then g[id] else []
  }

  predicate Edge(g: Graph, a: Id, b: Id) {
    b in Deps(g, a)
  }

  predicate Walk(g: Graph, p: seq<Id>) {
    |p| > 0 && forall i :: 0 <= i < |p| - 1 ==> Edge(g, p[i], p[i + 1])
  }

  predicate Cycle(g: Graph, p: seq<Id>) {
    |p| > 1 && Walk(g, p) && p[0] == p[|p| - 1]
  }

  ghost predicate Acyclic(g: Graph) {
    forall p :: !Cycle(g, p)
  }

  ghost predicate OnCycle(g: Graph, x: Id) {
    exists p :: Cycle(g, p) && p[0] == x
  }

  predicate NoRepeats<T(==)>(s: seq<T>) {
    forall i, j :: 0 <= i < j < |s| ==> s[i] != s[j]
  }

  function Members<T(==)>(s: seq<T>): set<T> {
    set x | x in s
  }

  /** Every dependency of a member stands earlier in the list. */
  predicate TopoOrder(g: Graph, order: seq<Id>) {
    forall i :: 0 <= i < |order| ==> forall d :: d in Deps(g, order[i]) ==> d in order[..i]
  }

  function Ids(steps: seq<Step>): set<Id> {
    set s | s in steps :: s.id
  }

  predicate DistinctIds(steps: seq<Step>) {
    forall i, j :: 0 <= i < j < |steps| ==> steps[i].id != steps[j].id
  }

  /** Every dependency names some step of the list. */
  predicate Resolved(steps: seq<Step>) {
    forall i :: 0 <= i < |steps| ==> forall d :: d in steps[i].dependsOn ==> d in Ids(steps)
  }

  /** The `byID` map: a later step with the same id replaces an earlier one. */
  function ById(steps: seq<Step>): (g: Graph)
    ensures g.Keys == Ids(steps)
  {
    if steps == [] then map[]
    else
      var last := steps[|steps| - 1];
      IdsSnoc(steps);
      ById(steps[..|steps| - 1])[last.id := last.dependsOn]
  }

  /** The adjacency that accumulates: steps with the same id pool their dependencies. */
  function Pooled(steps: seq<Step>): (g: Graph)
    ensures g.Keys == Ids(steps)
  {
    if steps == [] then map[]
    else
      var last := steps[|steps| - 1];
      var before := Pooled(steps[..|steps| - 1]);
      IdsSnoc(steps);
      before[last.id := Deps(before, last.id) + last.dependsOn]
  }

  lemma IdsSnoc(steps: seq<Step>)
    requires steps != []
    ensures Ids(steps) == Ids(steps[..|steps| - 1]) + {steps[|steps| - 1].id}
  {
    var n := |steps| - 1;
    assert steps == steps[..n] + [steps[n]];
  }

  /** The index keeps the last list given for an id. */
  lemma {:induction false} LastWins(steps: seq<Step>, i: nat)
    requires i < |steps| && forall j :: i < j < |steps| ==> steps[j].id != steps[i].id
    ensures Deps(ById(steps), steps[i].id) == steps[i].dependsOn
  {
    var n := |steps| - 1;
    if i < n {
      var init := steps[..n];
      assert init[i] == steps[i];
      LastWins(init, i);
    }
  }

  lemma PooledSnoc(steps: seq<Step>, i: nat)
    requires i < |steps|
    ensures Pooled(steps[..i + 1])
         == Pooled(steps[..i])[steps[i].id := Deps(Pooled(steps[..i]), steps[i].id) + steps[i].dependsOn]
  {
    assert steps[..i + 1][..i] == steps[..i];
  }

  /** With distinct ids the two graphs are the step list itself. */
  lemma {:induction false} DistinctGraphs(steps: seq<Step>)
    requires DistinctIds(steps)
    ensures ById(steps) == Pooled(steps)
  {
    if steps != [] {
      var n := |steps| - 1;
      DistinctGraphs(steps[..n]);
      assert steps[n].id !in Ids(steps[..n]);
      var before, last := ById(steps[..n]), steps[n];
      assert Deps(before, last.id) + last.dependsOn == last.dependsOn;
      assert ById(steps) == before[last.id := last.dependsOn];
      assert Pooled(steps) == before[last.id := Deps(before, last.id) + last.dependsOn];
    }
  }

  /** Every `byID` entry is the dependency list of some step. */
  lemma {:induction false} ByIdWitness(steps: seq<Step>, id: Id) returns (i: nat)
    requires id in ById(steps)
    ensures i < |steps| && steps[i].id == id && steps[i].dependsOn == ById(steps)[id]
  {
    var n := |steps| - 1;
    if steps[n].id == id {
      i := n;
    } else {
      i := ByIdWitness(steps[..n], id);
    }
  }

  predicate Lists(s: Step, id: Id, d: Id) {
    s.id == id && d in s.dependsOn
  }

  /** Pooling keeps exactly the listed dependencies. */
  lemma {:induction false} PooledEdges(steps: seq<Step>, id: Id, d: Id)
    ensures Edge(Pooled(steps), id, d) <==> exists i :: 0 <= i < |steps| && Lists(steps[i], id, d)
  {
    if steps != [] {
      var n := |steps| - 1;
      var init := steps[..n];
      PooledEdges(init, id, d);
      assert Edge(Pooled(steps), id, d) <==> Edge(Pooled(init), id, d) || Lists(steps[n], id, d);
      if i :| 0 <= i < n && Lists(init[i], id, d) { assert Lists(steps[i], id, d); }
      if i :| 0 <= i < n && Lists(steps[i], id, d) { assert Lists(init[i], id, d); }
    }
  }

  /** A walk that starts inside a topological order only moves towards its front. */
  lemma {:induction false} WalkDescends(g: Graph, order: seq<Id>, p: seq<Id>, k: nat, a: nat) returns (j: nat)
    requires TopoOrder(g, order) && Walk(g, p) && k < |p|
    requires a < |order| && order[a] == p[0]
    ensures j + k <= a && order[j] == p[k]
  {
    if k == 0 {
      j := a;
    } else {
      var i := WalkDescends(g, order, p, k - 1, a);
      assert Edge(g, p[k - 1], p[k]);
      j :| 0 <= j < i && order[j] == p[k];
    }
  }

  lemma TopoOrderNoCycle(g: Graph, order: seq<Id>, p: seq<Id>)
    requires TopoOrder(g, order) && NoRepeats(order) && Cycle(g, p)
    ensures p[0] !in order
  {
    if a: nat :| a < |order| && order[a] == p[0] {
      var j := WalkDescends(g, order, p, |p| - 1, a);
    }
  }

  /** An order that lists every node with dependencies rules every cycle out. */
  lemma TopoOrderAcyclic(g: Graph, order: seq<Id>)
    requires TopoOrder(g, order) && NoRepeats(order)
    requires forall x :: x in g && g[x] != [] ==> x in order
    ensures Acyclic(g)
  {
    forall p ensures !Cycle(g, p) {
      if Cycle(g, p) {
        assert Edge(g, p[0], p[1]);
        TopoOrderNoCycle(g, order, p);
      }
    }
  }

  lemma WalkEdge(g: Graph, p: seq<Id>, i: nat)
    requires Walk(g, p) && i < |p| - 1
    ensures Edge(g, p[i], p[i + 1])
  {
  }

  ghost predicate HasDepIn(g: Graph, y: Id, within: set<Id>) {
    exists d :: d in Deps(g, y) && d in within
  }

  /** Every node of the set depends on some node of the set. */
  ghost predicate Stuck(g: Graph, within: set<Id>) {
    forall y {:trigger HasDepIn(g, y, within)} :: y in within ==> HasDepIn(g, y, within)
  }

  lemma SliceWalk(g: Graph, p: seq<Id>, i: nat, j: nat)
    requires Walk(g, p) && i < j <= |p|
    ensures Walk(g, p[i..j])
  {
    var c := p[i..j];
    forall k | 0 <= k < |c| - 1 ensures Edge(g, c[k], c[k + 1]) {
      assert Edge(g, p[i + k], p[i + k + 1]);
    }
  }

  lemma PrependWalk(g: Graph, x: Id, p: seq<Id>)
    requires Walk(g, p) && Edge(g, x, p[0])
    ensures Walk(g, [x] + p)
  {
    var c := [x] + p;
    forall k | 0 <= k < |c| - 1 ensures Edge(g, c[k], c[k + 1]) {
      if k > 0 { assert Edge(g, p[k - 1], p[k]); }
    }
  }

  /** In a set where every node depends on a member, walks of any length stay inside. */
  lemma {:induction false} LongWalk(g: Graph, stuck: set<Id>, x: Id, n: nat) returns (p: seq<Id>)
    requires x in stuck && Stuck(g, stuck)
    ensures |p| == n + 1 && p[0] == x && Walk(g, p) && forall i :: 0 <= i < |p| ==> p[i] in stuck
    decreases n
  {
    if n == 0 {
      p := [x];
    } else {
      assert HasDepIn(g, x, stuck);
      var d :| d in Deps(g, x) && d in stuck;
      var rest := LongWalk(g, stuck, d, n - 1);
      p := [x] + rest;
      PrependWalk(g, x, rest);
    }
  }

  /** The number of distinct members of a repetition-free list is its length. */
  lemma {:induction false} NoRepeatsCount<T>(s: seq<T>)
    requires NoRepeats(s)
    ensures |Members(s)| == |s|
  {
    if s != [] {
      var n := |s| - 1;
      NoRepeatsCount(s[..n]);
      assert Members(s) == Members(s[..n]) + {s[n]};
    }
  }

  lemma {:induction false} SubsetCount<T>(a: set<T>, b: set<T>)
    requires a <= b
    ensures |a| <= |b|
    ensures |a| == |b| ==> a == b
  {
    var rest := b - a;
    assert b == a + rest;
    assert |b| == |a| + |rest|;
    if |rest| == 0 { assert b == a; }
  }

  /** A walk longer than the set it stays in closes a cycle. */
  lemma CrowdedWalk(g: Graph, within: set<Id>, p: seq<Id>)
    requires Walk(g, p) && |p| > |within| && forall i :: 0 <= i < |p| ==> p[i] in within
    ensures !Acyclic(g)
  {
    if NoRepeats(p) {
      NoRepeatsCount(p);
      SubsetCount(Members(p), within);
      assert false;
    }
    var i, j :| 0 <= i < j < |p| && p[i] == p[j];
    SliceWalk(g, p, i, j + 1);
    assert Cycle(g, p[i..j + 1]);
  }

  /** A nonempty finite set whose every node depends on a member contains a cycle. */
  lemma StuckSetHasCycle(g: Graph, stuck: set<Id>)
    requires stuck != {} && Stuck(g, stuck)
    ensures !Acyclic(g)
  {
    var x :| x in stuck;
    var p := LongWalk(g, stuck, x, |stuck|);
    CrowdedWalk(g, stuck, p);
  }

  ghost predicate HasDependentIn(g: Graph, y: Id, within: set<Id>) {
    exists z :: Edge(g, z, y) && z in within
  }

  /** Every node of the set has a dependent in the set. */
  ghost predicate Trapped(g: Graph, within: set<Id>) {
    forall y {:trigger HasDependentIn(g, y, within)} :: y in within ==> HasDependentIn(g, y, within)
  }

  lemma {:induction false} LongWalkBack(g: Graph, trapped: set<Id>, x: Id, n: nat) returns (p: seq<Id>)
    requires x in trapped && Trapped(g, trapped)
    ensures |p| == n + 1 && Walk(g, p) && forall i :: 0 <= i < |p| ==> p[i] in trapped
    decreases n
  {
    if n == 0 {
      p := [x];
    } else {
      var rest := LongWalkBack(g, trapped, x, n - 1);
      assert HasDependentIn(g, rest[0], trapped);
      var z :| Edge(g, z, rest[0]) && z in trapped;
      p := [z] + rest;
      PrependWalk(g, z, rest);
    }
  }

  lemma TrappedSetHasCycle(g: Graph, trapped: set<Id>)
    requires trapped != {} && Trapped(g, trapped)
    ensures !Acyclic(g)
  {
    var x :| x in trapped;
    var p := LongWalkBack(g, trapped, x, |trapped|);
    CrowdedWalk(g, trapped, p);
  }

  /** `x` depends on `y`, directly or through other steps, or is `y`. */
  ghost predicate Reaches(g: Graph, x: Id, y: Id) {
    exists p :: Walk(g, p) && p[0] == x && p[|p| - 1] == y
  }

  lemma ReachesSelf(g: Graph, x: Id)
    ensures Reaches(g, x, x)
  {
    assert Walk(g, [x]);
  }

  lemma ReachesStep(g: Graph, x: Id, d: Id, y: Id)
    requires Edge(g, x, d) && Reaches(g, d, y)
    ensures Reaches(g, x, y)
  {
    var p :| Walk(g, p) && p[0] == d && p[|p| - 1] == y;
    PrependWalk(g, x, p);
    assert ([x] + p)[|p|] == y;
  }

  lemma ReachesExtend(g: Graph, x: Id, d: Id, y: Id)
    requires Reaches(g, x, d) && Edge(g, d, y)
    ensures Reaches(g, x, y)
  {
    var p :| Walk(g, p) && p[0] == x && p[|p| - 1] == d;
    AppendWalk(g, p, y);
    assert (p + [y])[|p|] == y;
  }

  lemma AppendWalk(g: Graph, p: seq<Id>, y: Id)
    requires Walk(g, p) && Edge(g, p[|p| - 1], y)
    ensures Walk(g, p + [y])
  {
    var c := p + [y];
    forall k | 0 <= k < |c| - 1 ensures Edge(g, c[k], c[k + 1]) {
      if k < |p| - 1 { assert Edge(g, p[k], p[k + 1]); }
    }
  }

  lemma ExtendOrder(g: Graph, order: seq<Id>, cur: Id)
    requires TopoOrder(g, order) && forall d :: d in Deps(g, cur) ==> d in order
    ensures TopoOrder(g, order + [cur])
  {
    var next := order + [cur];
    forall i, d | 0 <= i < |next| && d in Deps(g, next[i])
      ensures d in next[..i]
    {
      if i < |order| {
        assert next[..i] == order[..i];
      } else {
        assert next[..i] == order;
      }
    }
  }

  /** All ids a search can meet. */
  function Nodes(g: Graph): set<Id> {
    g.Keys + set x, d | x in g && d in g[x] :: d
  }
}
