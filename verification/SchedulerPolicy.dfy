/** server/internal/policy/scheduler_policy.go: the execution-plan check, which ignores
    dependencies that name no unit of the plan. */
module SchedulerPolicy {
  import opened Graphs
  import opened Coloring

  /** A unit as the check sees it; its cost is computed elsewhere. */
  datatype Unit = Unit(step: Step, cost: real)

  datatype PlanResult = PlanOk | TooCostly(unit: Id) | CyclicFrom(unit: Id)

  function StepsOf(units: seq<Unit>): (steps: seq<Step>)
    ensures |steps| == |units| && forall i :: 0 <= i < |units| ==> steps[i] == units[i].step
  {
    seq(|units|, i requires 0 <= i < |units| => units[i].step)
  }

  function KeepKnown(deps: seq<Id>, known: set<Id>): (kept: seq<Id>)
    ensures forall d :: d in kept <==> d in deps && d in known
  {
    if deps == [] then []
    else KeepKnown(deps[..|deps| - 1], known) + if deps[|deps| - 1] in known then [deps[|deps| - 1]] else []
  }

  /** The edges the search follows: external dependencies are skipped. */
  function Internal(adj: Graph): (g: Graph)
    ensures g.Keys == adj.Keys
    ensures forall a, b :: Edge(g, a, b) <==> Edge(adj, a, b) && b in adj
  {
    map id | id in adj :: KeepKnown(adj[id], adj.Keys)
  }

  /** Skipping external dependencies hides no cycle and invents none. */
  lemma ExternalHarmless(adj: Graph)
    ensures Acyclic(Internal(adj)) <==> Acyclic(adj)
  {
    var g := Internal(adj);
    forall p ensures Cycle(g, p) <==> Cycle(adj, p) {
      if Cycle(adj, p) {
        forall i | 0 <= i < |p| - 1 ensures Edge(g, p[i], p[i + 1]) {
          assert Edge(adj, p[i], p[i + 1]);
          if i + 1 < |p| - 1 {
            assert Edge(adj, p[i + 1], p[i + 2]);
          } else {
            assert Edge(adj, p[0], p[1]);
          }
        }
      }
      if Cycle(g, p) {
        forall i | 0 <= i < |p| - 1 ensures Edge(adj, p[i], p[i + 1]) {
          assert Edge(g, p[i], p[i + 1]);
        }
      }
    }
    if Acyclic(g) {
      forall p ensures !Cycle(adj, p) { assert !Cycle(g, p); }
    }
    if Acyclic(adj) {
      forall p ensures !Cycle(g, p) { assert !Cycle(adj, p); }
    }
  }

  /** Some walk from `x` runs into a cycle. */
  ghost predicate LeadsToCycle(g: Graph, x: Id) {
    exists y :: Reaches(g, x, y) && OnCycle(g, y)
  }

  class PlanSearch {
    const adj: Graph
    var visited: Colors
    ghost var trail: Trail

    constructor (adj: Graph)
      ensures this.adj == adj && Valid() && trail.stack == Bottom
    {
      this.adj, visited := adj, map[];
      trail := Trail(Bottom, map[], 0);
    }

    ghost function Followed(): Graph {
      Internal(adj)
    }

    ghost predicate Valid()
      reads this
    {
      Consistent(Followed(), visited, trail)
    }

    /** `dfs`: true only when `node` leads to a cycle; otherwise `node` is finished. */
    method Visit(node: Id) returns (cyclic: bool)
      requires Valid() && ColorOf(visited, node) == White && node in adj
      requires trail.stack.Entered? ==> Edge(Followed(), trail.stack.top, node)
      modifies this
      ensures cyclic ==> LeadsToCycle(Followed(), node)
      ensures !cyclic ==> Valid() && trail.stack == old(trail.stack) && node in trail.finished
      ensures !cyclic ==> Keeps(old(trail.finished), trail.finished) && old(visited).Keys <= visited.Keys
      decreases WhiteCount(Followed(), visited), 1
    {
      Enter(Followed(), visited, trail, node);
      visited := visited[node := Gray];
      trail := Push(trail, node);
      OneFewerWhite(Followed(), old(visited), node, visited);
      cyclic := FollowAll(node);
      if cyclic { return; }
      Leave(Followed(), visited, trail, old(trail.stack), node);
      visited := visited[node := Black];
      trail := Finish(trail, node).(stack := old(trail.stack));
    }

    /** The loop over the listed neighbours. */
    method FollowAll(node: Id) returns (cyclic: bool)
      requires Valid() && node in adj && trail.stack.Entered? && trail.stack.top == node
      modifies this
      ensures cyclic ==> LeadsToCycle(Followed(), node)
      ensures !cyclic ==> Valid() && trail.stack == old(trail.stack)
      ensures !cyclic ==> forall d :: d in Deps(Followed(), node) ==> d in trail.finished
      ensures !cyclic ==> Keeps(old(trail.finished), trail.finished) && old(visited).Keys <= visited.Keys
      decreases WhiteCount(Followed(), visited), 3
    {
      var neighbors := adj[node];
      for i := 0 to |neighbors|
        invariant Valid() && trail.stack == old(trail.stack)
        invariant KnownFinished(neighbors, i, adj.Keys, trail.finished)
        invariant Keeps(old(trail.finished), trail.finished) && old(visited).Keys <= visited.Keys
      {
        var neighbor := neighbors[i];
        ghost var before := trail.finished;
        if neighbor in adj {
          FewerWhite(Followed(), old(visited), visited);
          assert Edge(adj, node, neighbor);
          cyclic := Follow(node, neighbor);
          if cyclic { return; }
        }
        OneMoreKnown(neighbors, i, adj.Keys, before, trail.finished);
      }
      cyclic := false;
      AllKnown(adj, node, trail.finished);
    }

    method Follow(node: Id, neighbor: Id) returns (cyclic: bool)
      requires Valid() && Edge(Followed(), node, neighbor)
      requires trail.stack.Entered? && trail.stack.top == node
      modifies this
      ensures cyclic ==> LeadsToCycle(Followed(), node)
      ensures !cyclic ==> Valid() && trail.stack == old(trail.stack) && neighbor in trail.finished
      ensures !cyclic ==> Keeps(old(trail.finished), trail.finished) && old(visited).Keys <= visited.Keys
      decreases WhiteCount(Followed(), visited), 2
    {
      if ColorOf(visited, neighbor) == Gray {
        BackEdge(Followed(), visited, trail, neighbor);
        ReachesSelf(Followed(), node);
        return true;
      }
      if ColorOf(visited, neighbor) == White {
        cyclic := Visit(neighbor);
        if cyclic { LeadsStep(Followed(), node, neighbor); }
        return;
      }
      cyclic := false;
    }
  }

  lemma LeadsStep(g: Graph, x: Id, d: Id)
    requires Edge(g, x, d) && LeadsToCycle(g, d)
    ensures LeadsToCycle(g, x)
  {
    var y :| Reaches(g, d, y) && OnCycle(g, y);
    ReachesStep(g, x, d, y);
  }

  ghost predicate KnownFinished(deps: seq<Id>, i: nat, known: set<Id>, finished: map<Id, nat>) {
    i <= |deps| && forall k :: 0 <= k < i ==> deps[k] in known ==> deps[k] in finished
  }

  lemma OneMoreKnown(deps: seq<Id>, i: nat, known: set<Id>, before: map<Id, nat>, after: map<Id, nat>)
    requires i < |deps| && KnownFinished(deps, i, known, before) && Keeps(before, after)
    requires deps[i] in known ==> deps[i] in after
    ensures KnownFinished(deps, i + 1, known, after)
  {
    forall k | 0 <= k < i + 1 && deps[k] in known ensures deps[k] in after {
      if k < i { assert deps[k] in before; }
    }
  }

  lemma AllKnown(adj: Graph, node: Id, finished: map<Id, nat>)
    requires node in adj && KnownFinished(adj[node], |adj[node]|, adj.Keys, finished)
    ensures forall d :: d in Deps(Internal(adj), node) ==> d in finished
  {
    forall d | d in Deps(Internal(adj), node) ensures d in finished {
      assert Edge(Internal(adj), node, d);
      var k :| 0 <= k < |adj[node]| && adj[node][k] == d;
    }
  }

  /** The inner loop: one unit's dependencies join those already pooled under its id. */
  method AppendDependencies(adj0: Graph, s: Step) returns (adj: Graph)
    ensures adj == adj0[s.id := Deps(adj0, s.id) + s.dependsOn]
  {
    var pooled := Deps(adj0, s.id);
    ghost var before := pooled;
    for j := 0 to |s.dependsOn|
      invariant pooled == before + s.dependsOn[..j]
    {
      pooled := pooled + [s.dependsOn[j]];
      assert s.dependsOn[..j + 1] == s.dependsOn[..j] + [s.dependsOn[j]];
    }
    assert s.dependsOn[..|s.dependsOn|] == s.dependsOn;
    adj := adj0[s.id := pooled];
  }

  method BuildAdjacency(units: seq<Unit>) returns (adj: Graph)
    ensures adj == Pooled(StepsOf(units))
  {
    adj := map[];
    ghost var steps := StepsOf(units);
    for i := 0 to |units|
      invariant adj == Pooled(steps[..i])
    {
      PooledSnoc(steps, i);
      adj := AppendDependencies(adj, units[i].step);
    }
    assert steps[..|units|] == steps;
  }

  /** `ValidateDAG` on any plan: it passes exactly when no unit is over the threshold and the
      plan has no cycle; an over-cost report names the first such unit, and a cycle report
      names a unit that leads to a cycle. */
  method ValidateDAG(units: seq<Unit>, maxCost: real) returns (r: PlanResult)
    ensures r.PlanOk? <==>
              (forall i :: 0 <= i < |units| ==> units[i].cost <= maxCost) && Acyclic(Pooled(StepsOf(units)))
    ensures r.TooCostly? <==> exists i :: 0 <= i < |units| && units[i].cost > maxCost
    ensures r.TooCostly? ==> exists i :: FirstOver(units, maxCost, i) && r.unit == units[i].step.id
    ensures r.CyclicFrom? ==> LeadsToCycle(Internal(Pooled(StepsOf(units))), r.unit)
  {
    if |units| == 0 {
      TopoOrderAcyclic(Pooled(StepsOf(units)), []);
      return PlanOk;
    }
    for i := 0 to |units|
      invariant forall k :: 0 <= k < i ==> units[k].cost <= maxCost
    {
      if units[i].cost > maxCost {
        assert FirstOver(units, maxCost, i);
        return TooCostly(units[i].step.id);
      }
    }
    var adj := BuildAdjacency(units);
    ExternalHarmless(adj);
    r := SearchAll(adj);
  }

  ghost predicate FirstOver(units: seq<Unit>, maxCost: real, i: int) {
    0 <= i < |units| && units[i].cost > maxCost && forall k :: 0 <= k < i ==> units[k].cost <= maxCost
  }

  /** The outer loop over all nodes, in any map order. */
  method SearchAll(adj: Graph) returns (r: PlanResult)
    ensures !r.TooCostly?
    ensures r.PlanOk? <==> Acyclic(Internal(adj))
    ensures r.CyclicFrom? ==> LeadsToCycle(Internal(adj), r.unit)
  {
    var search := new PlanSearch(adj);
    var todo := adj.Keys;
    while todo != {}
      invariant fresh(search) && search.adj == adj && search.Valid() && search.trail.stack == Bottom
      invariant todo <= adj.Keys && forall x :: x in adj.Keys - todo ==> x in search.trail.finished
      decreases |todo|
    {
      var node :| node in todo;
      todo := todo - {node};
      assert ColorOf(search.visited, node) != Gray;
      if ColorOf(search.visited, node) == White {
        var cyclic := search.Visit(node);
        if cyclic {
          LeadsRefutes(Internal(adj), node);
          return CyclicFrom(node);
        }
      }
    }
    AllFinished(Internal(adj), search.trail.finished);
    r := PlanOk;
  }

  lemma LeadsRefutes(g: Graph, x: Id)
    requires LeadsToCycle(g, x)
    ensures !Acyclic(g)
  {
    var y :| Reaches(g, x, y) && OnCycle(g, y);
    var p :| Cycle(g, p) && p[0] == y;
  }
}
