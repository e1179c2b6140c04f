/** The three cycle checkers of the repository give one verdict. */
module DagAgreement {
  import opened Graphs
  import Kahn
  import Governance
  import SchedulerPolicy

  /** With no unit over the threshold, on every list of steps: the workflow sort accepts exactly
      the resolved plans that the policy search accepts, and what that one accepts passes the
      governance search; on distinct ids and resolved dependencies all three accept and reject
      together. */
  method Agree(steps: seq<Step>, units: seq<SchedulerPolicy.Unit>, maxCost: real)
      returns (sorted: Kahn.SortResult, report: Governance.CycleReport, plan: SchedulerPolicy.PlanResult)
    requires SchedulerPolicy.StepsOf(units) == steps
    requires forall i :: 0 <= i < |units| ==> units[i].cost <= maxCost
    ensures plan.PlanOk? <==> Acyclic(Pooled(steps))
    ensures report.NoCycle? <==> Acyclic(ById(steps))
    ensures sorted.Sorted? <==> Resolved(steps) && plan.PlanOk?
    ensures plan.PlanOk? ==> report.NoCycle?
    ensures DistinctIds(steps) ==> (report.NoCycle? <==> plan.PlanOk?)
    ensures DistinctIds(steps) && Resolved(steps) ==>
              sorted.Sorted? == report.NoCycle? == plan.PlanOk? == Acyclic(ById(steps))
  {
    if DistinctIds(steps) { DistinctGraphs(steps); }
    PooledAcyclicSuffices(steps);
    sorted := Kahn.ValidateDAG(steps);
    report := Governance.CheckAcyclic(steps, ById(steps));
    plan := SchedulerPolicy.ValidateDAG(units, maxCost);
  }

  /** Each list of the index is pooled too, so a cycle through the index is one through the pool. */
  lemma PooledAcyclicSuffices(steps: seq<Step>)
    ensures Acyclic(Pooled(steps)) ==> Acyclic(ById(steps))
  {
    forall p | Cycle(ById(steps), p) ensures Cycle(Pooled(steps), p) {
      forall k | 0 <= k < |p| - 1 ensures Edge(Pooled(steps), p[k], p[k + 1]) {
        IndexedIsPooled(steps, p[k], p[k + 1]);
      }
    }
  }

  lemma IndexedIsPooled(steps: seq<Step>, a: Id, b: Id)
    requires Edge(ById(steps), a, b)
    ensures Edge(Pooled(steps), a, b)
  {
    var i := ByIdWitness(steps, a);
    assert Lists(steps[i], a, b);
    PooledEdges(steps, a, b);
  }

  /** Three steps on two ids. */
  function Repeated(a: Id, b: Id): seq<Step> {
    [Step(a, [b]), Step(b, [a]), Step(b, [])]
  }

  /** Without distinct ids they can disagree: the sort pools the dependencies of `b`, while
      the governance index keeps only the last list, and the pooled graph has the cycle. */
  lemma RepeatedIdsDisagree(a: Id, b: Id)
    requires a != b
    ensures var steps := Repeated(a, b);
            Resolved(steps) && Acyclic(ById(steps)) && !Acyclic(Pooled(steps))
  {
    hide Acyclic, Resolved, ById, Pooled;
    LastListsAcyclic(a, b);
    PooledListsCyclic(a, b);
  }

  lemma LastListsAcyclic(a: Id, b: Id)
    requires a != b
    ensures Resolved(Repeated(a, b)) && Acyclic(ById(Repeated(a, b)))
  {
    hide Acyclic;
    var steps := Repeated(a, b);
    assert steps[0] in steps && steps[1] in steps;
    LastWins(steps, 0);
    LastWins(steps, 2);
    OneEdge(ById(steps), a, b);
  }

  lemma PooledListsCyclic(a: Id, b: Id)
    requires a != b
    ensures !Acyclic(Pooled(Repeated(a, b)))
  {
    hide Acyclic;
    var steps := Repeated(a, b);
    assert Lists(steps[0], a, b) && Lists(steps[1], b, a);
    PooledEdges(steps, a, b);
    PooledEdges(steps, b, a);
    TwoEdges(Pooled(steps), a, b);
  }

  lemma OneEdge(g: Graph, a: Id, b: Id)
    requires a != b && g.Keys <= {a, b} && Deps(g, a) == [b] && Deps(g, b) == []
    ensures Acyclic(g)
  {
    assert [b, a][..1] == [b];
    TopoOrderAcyclic(g, [b, a]);
  }

  lemma TwoEdges(g: Graph, a: Id, b: Id)
    requires Edge(g, a, b) && Edge(g, b, a)
    ensures !Acyclic(g)
  {
    assert Cycle(g, [a, b, a]);
  }
}
