/** server/internal/workflow/graph.go: the topological sort behind `validateDefinition`. */
module Kahn {
  import opened Graphs

  datatype SortResult = Sorted(order: seq<Id>) | CycleDetected

  function Dependents(m: Graph, d: Id): seq<Id> {
    Deps(m, d)
  }

  /** How many entries of a dependency list are not finished yet, repetitions included. */
  function Remaining(deps: seq<Id>, done: set<Id>): nat {
    if deps == [] then 0
    else Remaining(deps[..|deps| - 1], done) + (if deps[|deps| - 1] in done then 0 else 1)
  }

  lemma {:induction false} RemainingAll(deps: seq<Id>)
    ensures Remaining(deps, {}) == |deps|
  {
    if deps != [] { RemainingAll(deps[..|deps| - 1]); }
  }

  lemma {:induction false} RemainingZero(deps: seq<Id>, done: set<Id>)
    ensures Remaining(deps, done) == 0 <==> forall d :: d in deps ==> d in done
  {
    if deps != [] {
      var n := |deps| - 1;
      RemainingZero(deps[..n], done);
      assert deps == deps[..n] + [deps[n]];
    }
  }

  /** Finishing a step removes exactly its occurrences. */
  lemma {:induction false} RemainingFinish(deps: seq<Id>, done: set<Id>, cur: Id)
    requires cur !in done
    ensures Remaining(deps, done) == Remaining(deps, done + {cur}) + Times(deps, cur)
  {
    if deps != [] {
      var n := |deps| - 1;
      RemainingFinish(deps[..n], done, cur);
      assert deps == deps[..n] + [deps[n]];
    }
  }

  /** The two tables built so far describe the adjacency `g`: in-degrees with repetitions,
      and the reversed edges with the same multiplicity. */
  ghost predicate Tables(inDeg: map<Id, int>, deps: Graph, g: Graph) {
    && inDeg.Keys == g.Keys
    && (forall x :: x in g ==> inDeg[x] == |g[x]|)
    && Reversed(deps, g)
  }

  /** How often `x` occurs in the list. */
  function Times(s: seq<Id>, x: Id): nat {
    multiset(s)[x]
  }

  ghost predicate Reversed(deps: Graph, g: Graph) {
    forall d, x :: Times(Dependents(deps, d), x) == Times(Deps(g, x), d)
  }

  lemma CountSnoc(s: seq<Id>, last: Id, x: Id)
    ensures Times(s + [last], x) == Times(s, x) + (if x == last then 1 else 0)
  {
  }

  lemma AddDependency(inDeg: map<Id, int>, deps: Graph, g: Graph, id: Id, d: Id)
    requires Tables(inDeg, deps, g) && id in g
    ensures Tables(inDeg[id := inDeg[id] + 1], deps[d := Dependents(deps, d) + [id]], g[id := g[id] + [d]])
  {
    var deps', g' := deps[d := Dependents(deps, d) + [id]], g[id := g[id] + [d]];
    forall e, x ensures Times(Dependents(deps', e), x) == Times(Deps(g', x), e) {
      assert Times(Dependents(deps, e), x) == Times(Deps(g, x), e);
      if e == d { CountSnoc(Dependents(deps, d), id, x); }
      if x == id { CountSnoc(g[id], d, e); }
    }
  }

  lemma StartStep(inDeg: map<Id, int>, deps: Graph, g: Graph, id: Id)
    requires Tables(inDeg, deps, g)
    ensures id in g ==> g[id := Deps(g, id)] == g
    ensures id !in g ==> Tables(inDeg[id := 0], deps, g[id := Deps(g, id)])
  {
    if id !in g {
      forall d, x ensures Times(Dependents(deps, d), x) == Times(Deps(g[id := []], x), d) {
        assert Times(Dependents(deps, d), x) == Times(Deps(g, x), d);
      }
    }
  }

  /** Inner loop over one step's dependencies. */
  method CountDependencies(s: Step, inDeg0: map<Id, int>, deps0: Graph, ghost g: Graph)
      returns (inDeg: map<Id, int>, deps: Graph)
    requires Tables(inDeg0, deps0, g) && s.id in g
    ensures Tables(inDeg, deps, g[s.id := g[s.id] + s.dependsOn])
  {
    inDeg, deps := inDeg0, deps0;
    ghost var cur := g;
    assert g[s.id] + s.dependsOn[..0] == g[s.id];
    for j := 0 to |s.dependsOn|
      invariant Tables(inDeg, deps, cur)
      invariant cur == g[s.id := g[s.id] + s.dependsOn[..j]]
    {
      var d := s.dependsOn[j];
      AddDependency(inDeg, deps, cur, s.id, d);
      inDeg := inDeg[s.id := inDeg[s.id] + 1];
      deps := deps[d := Dependents(deps, d) + [s.id]];
      cur := cur[s.id := cur[s.id] + [d]];
      assert g[s.id] + s.dependsOn[..j] + [d] == g[s.id] + s.dependsOn[..j + 1];
    }
    assert s.dependsOn[..|s.dependsOn|] == s.dependsOn;
  }

  method AddStep(s: Step, inDeg0: map<Id, int>, deps0: Graph, ghost g: Graph)
      returns (inDeg: map<Id, int>, deps: Graph)
    requires Tables(inDeg0, deps0, g)
    ensures Tables(inDeg, deps, g[s.id := Deps(g, s.id) + s.dependsOn])
  {
    inDeg, deps := inDeg0, deps0;
    StartStep(inDeg, deps, g, s.id);
    if s.id !in inDeg {
      inDeg := inDeg[s.id := 0];
    }
    ghost var started := g[s.id := Deps(g, s.id)];
    inDeg, deps := CountDependencies(s, inDeg, deps, started);
    assert started[s.id := started[s.id] + s.dependsOn] == g[s.id := Deps(g, s.id) + s.dependsOn];
  }

  /** First loop of `ValidateDAG`: in-degrees and dependents of every step. */
  method BuildTables(steps: seq<Step>) returns (inDeg: map<Id, int>, deps: Graph)
    ensures Tables(inDeg, deps, Pooled(steps))
  {
    inDeg, deps := map[], map[];
    for i := 0 to |steps|
      invariant Tables(inDeg, deps, Pooled(steps[..i]))
    {
      PooledSnoc(steps, i);
      inDeg, deps := AddStep(steps[i], inDeg, deps, Pooled(steps[..i]));
    }
    assert steps[..|steps|] == steps;
  }

  /** Second loop: the steps without dependencies, in whatever order the map yields them. */
  method SeedQueue(inDeg: map<Id, int>) returns (queue: seq<Id>)
    ensures NoRepeats(queue)
    ensures forall x :: x in queue <==> x in inDeg && inDeg[x] == 0
  {
    queue := [];
    var todo := inDeg.Keys;
    while todo != {}
      invariant todo <= inDeg.Keys && NoRepeats(queue)
      invariant forall x :: x in queue <==> x in inDeg.Keys - todo && inDeg[x] == 0
      decreases |todo|
    {
      var id :| id in todo;
      todo := todo - {id};
      if inDeg[id] == 0 {
        queue := queue + [id];
      }
    }
  }

  /** While the dependents of the last listed step are being released: in-degrees count the
      unlisted dependencies plus the decrements still to come, and exactly the steps at zero
      are listed or queued. */
  ghost predicate Releasing(g: Graph, inDeg: map<Id, int>, queue: seq<Id>, listed: seq<Id>, pending: seq<Id>) {
    && inDeg.Keys == g.Keys
    && NoRepeats(listed + queue)
    && (forall x :: x in g ==> inDeg[x] == Remaining(g[x], Members(listed)) + Times(pending, x))
    && (forall x :: x in listed + queue <==> x in g && inDeg[x] == 0)
  }

  /** Between two pops nothing is pending, and the listed steps stand after their dependencies. */
  ghost predicate Progress(g: Graph, inDeg: map<Id, int>, queue: seq<Id>, order: seq<Id>) {
    Releasing(g, inDeg, queue, order, []) && TopoOrder(g, order)
  }

  lemma FreshHead(order: seq<Id>, cur: Id, queue: seq<Id>)
    requires NoRepeats(order + ([cur] + queue))
    ensures cur !in order && cur in order + ([cur] + queue)
    ensures order + ([cur] + queue) == (order + [cur]) + queue
  {
    var all := order + ([cur] + queue);
    assert all[|order|] == cur;
    assert forall i :: 0 <= i < |order| ==> all[i] == order[i];
  }

  lemma Pop(g: Graph, inDeg: map<Id, int>, order: seq<Id>, cur: Id, queue: seq<Id>, children: seq<Id>)
    requires Progress(g, inDeg, [cur] + queue, order)
    requires forall x :: Times(children, x) == Times(Deps(g, x), cur)
    ensures Releasing(g, inDeg, queue, order + [cur], children)
    ensures TopoOrder(g, order + [cur])
  {
    FreshHead(order, cur, queue);
    var done := Members(order);
    assert Members(order + [cur]) == done + {cur};
    forall x | x in g
      ensures inDeg[x] == Remaining(g[x], done + {cur}) + Times(children, x)
    {
      RemainingFinish(g[x], done, cur);
    }
    RemainingZero(g[cur], done);
    ExtendOrder(g, order, cur);
  }

  lemma Decrement(g: Graph, inDeg: map<Id, int>, queue: seq<Id>, listed: seq<Id>, child: Id, rest: seq<Id>)
    requires Releasing(g, inDeg, queue, listed, [child] + rest) && child in g
    ensures var left := inDeg[child] - 1;
            Releasing(g, inDeg[child := left], if left == 0 then queue + [child] else queue, listed, rest)
  {
    var left := inDeg[child] - 1;
    assert multiset([child] + rest) == multiset{child} + multiset(rest);
    assert child !in listed + queue;
    if left == 0 {
      assert listed + (queue + [child]) == (listed + queue) + [child];
    }
  }

  /** One pop: decrement every dependent of `cur`, queueing those that reach zero. */
  method Release(ghost g: Graph, deps: Graph, cur: Id, inDeg0: map<Id, int>, queue0: seq<Id>, ghost order: seq<Id>)
      returns (inDeg: map<Id, int>, queue: seq<Id>)
    requires Progress(g, inDeg0, [cur] + queue0, order)
    requires Reversed(deps, g)
    ensures Progress(g, inDeg, queue, order + [cur])
  {
    inDeg, queue := inDeg0, queue0;
    var children := Dependents(deps, cur);
    Pop(g, inDeg, order, cur, queue, children);
    assert children[0..] == children;
    for j := 0 to |children|
      invariant Releasing(g, inDeg, queue, order + [cur], children[j..])
    {
      var child := children[j];
      assert children[j..] == [child] + children[j + 1..];
      assert child in g by {
        assert child in multiset(children);
        assert Times(children, child) == Times(Deps(g, child), cur);
      }
      Decrement(g, inDeg, queue, order + [cur], child, children[j + 1..]);
      inDeg := inDeg[child := inDeg[child] - 1];
      if inDeg[child] == 0 {
        queue := queue + [child];
      }
    }
  }

  /** `ValidateDAG` on any step list at all: it succeeds exactly when every dependency is
      listed and the graph has no cycle, and then lists every id once, dependencies first. */
  method ValidateDAG(steps: seq<Step>) returns (r: SortResult)
    ensures r.Sorted? <==> Resolved(steps) && Acyclic(Pooled(steps))
    ensures r.Sorted? ==> NoRepeats(r.order) && (forall x :: x in r.order <==> x in Ids(steps))
    ensures r.Sorted? ==> TopoOrder(Pooled(steps), r.order)
  {
    ghost var g := Pooled(steps);
    var inDeg, deps := BuildTables(steps);
    var queue := SeedQueue(inDeg);
    var order: seq<Id> := [];
    Seeded(g, inDeg, deps, queue);
    while |queue| > 0
      invariant Progress(g, inDeg, queue, order)
      decreases |g| - |order|
    {
      var cur := queue[0];
      assert queue == [cur] + queue[1..];
      ListedFits(g, inDeg, queue, order);
      inDeg, queue := Release(g, deps, cur, inDeg, queue[1..], order);
      order := order + [cur];
    }
    if |order| != |inDeg| {
      Unfinished(steps, inDeg, order);
      r := CycleDetected;
    } else {
      Finished(steps, inDeg, order);
      r := Sorted(order);
    }
  }

  lemma Seeded(g: Graph, inDeg: map<Id, int>, deps: Graph, queue: seq<Id>)
    requires Tables(inDeg, deps, g) && NoRepeats(queue)
    requires forall x :: x in queue <==> x in inDeg && inDeg[x] == 0
    ensures Progress(g, inDeg, queue, [])
  {
    var none: seq<Id> := [];
    forall x | x in g ensures inDeg[x] == Remaining(g[x], Members(none)) + Times(none, x) {
      RemainingAll(g[x]);
      assert Members(none) == {};
    }
    assert [] + queue == queue;
  }

  lemma Finished(steps: seq<Step>, inDeg: map<Id, int>, order: seq<Id>)
    requires Progress(Pooled(steps), inDeg, [], order) && |order| == |inDeg|
    ensures Resolved(steps) && Acyclic(Pooled(steps))
    ensures NoRepeats(order) && (forall x :: x in order <==> x in Ids(steps))
  {
    var g := Pooled(steps);
    assert order + [] == order;
    NoRepeatsCount(order);
    assert |inDeg| == |inDeg.Keys|;
    SubsetCount(Members(order), g.Keys);
    assert forall x :: x in order <==> x in Members(order);
    TopoOrderAcyclic(g, order);
    CompleteResolved(steps, order);
  }

  lemma ListedFits(g: Graph, inDeg: map<Id, int>, queue: seq<Id>, order: seq<Id>)
    requires Progress(g, inDeg, queue, order) && queue != []
    ensures |order| < |g|
  {
    var all := order + queue;
    NoRepeatsCount(all);
    SubsetCount(Members(all), g.Keys);
  }

  lemma Leftover(g: Graph, inDeg: map<Id, int>, order: seq<Id>)
    requires Progress(g, inDeg, [], order) && |order| != |inDeg|
    ensures Members(order) <= g.Keys && g.Keys - Members(order) != {}
  {
    assert order + [] == order;
    NoRepeatsCount(order);
    assert |inDeg| == |inDeg.Keys|;
    assert Members(order) <= g.Keys && Members(order) != g.Keys;
    var x :| x in g.Keys && x !in Members(order);
    assert x in g.Keys - Members(order);
  }

  /** An unfinished sort leaves a step with a missing dependency, or a cycle. */
  lemma Unfinished(steps: seq<Step>, inDeg: map<Id, int>, order: seq<Id>)
    requires Progress(Pooled(steps), inDeg, [], order) && |order| != |inDeg|
    ensures !(Resolved(steps) && Acyclic(Pooled(steps)))
  {
    var g := Pooled(steps);
    Leftover(g, inDeg, order);
    var stuck := g.Keys - Members(order);
    if Resolved(steps) {
      forall y | y in stuck ensures HasDepIn(g, y, stuck) {
        assert y !in order + [];
        RemainingZero(g[y], Members(order));
        var d :| d in g[y] && d !in Members(order);
        assert Edge(g, y, d);
        PooledEdges(steps, y, d);
      }
      StuckSetHasCycle(g, stuck);
    }
  }

  lemma CompleteResolved(steps: seq<Step>, order: seq<Id>)
    requires TopoOrder(Pooled(steps), order)
    requires forall x :: x in order <==> x in Ids(steps)
    ensures Resolved(steps)
  {
    forall i, d | 0 <= i < |steps| && d in steps[i].dependsOn
      ensures d in Ids(steps)
    {
      var id := steps[i].id;
      assert Lists(steps[i], id, d);
      PooledEdges(steps, id, d);
      assert Edge(Pooled(steps), id, d);
      assert id in Ids(steps);
      var k :| 0 <= k < |order| && order[k] == id;
      assert d in order[..k];
    }
  }
}
