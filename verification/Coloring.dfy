/** The three-colour depth-first search that the governance and policy packages both use:
    what the colours mean, and the three moves of a visit. */
module Coloring {
  import opened Graphs

  datatype Color = White | Gray | Black

  /** Colours live in a map whose zero value is white. */
  type Colors = map<Id, Color>

  function ColorOf(color: Colors, x: Id): Color {
    if x in color then color[x] else White
  }

  /** The gray nodes, innermost first: each was entered along an edge from the one below. */
  datatype Stack = Bottom | Entered(top: Id, below: Stack)

  ghost predicate On(s: Stack, x: Id) {
    s.Entered? && (x == s.top || On(s.below, x))
  }

  ghost predicate Chained(g: Graph, s: Stack) {
    s.Entered? ==> Chained(g, s.below) && (s.below.Entered? ==> Edge(g, s.below.top, s.top))
  }

  lemma {:induction false} ChainReaches(g: Graph, s: Stack, x: Id)
    requires Chained(g, s) && On(s, x)
    ensures Reaches(g, x, s.top)
  {
    if x == s.top {
      ReachesSelf(g, x);
    } else {
      ChainReaches(g, s.below, x);
      ReachesExtend(g, x, s.below.top, s.top);
    }
  }

  /** Ghost record of a search: the stack of gray nodes, and for every black node the moment
      it was finished. */
  datatype Trail = Trail(stack: Stack, finished: map<Id, nat>, clock: nat)

  /** Finished nodes depend only on nodes finished earlier. */
  ghost predicate Ranked(g: Graph, finished: map<Id, nat>) {
    forall x, d {:trigger Edge(g, x, d)} :: x in finished && Edge(g, x, d) ==>
      d in finished && finished[d] < finished[x]
  }

  ghost predicate Consistent(g: Graph, color: Colors, t: Trail) {
    && Chained(g, t.stack)
    && Ranked(g, t.finished)
    && (forall x :: x in t.finished ==> t.finished[x] < t.clock)
    && (forall x :: x in color ==> color[x] != White)
    && (forall x :: ColorOf(color, x) == Gray <==> On(t.stack, x))
    && (forall x :: ColorOf(color, x) == Black <==> x in t.finished)
  }

  /** Nothing finished is forgotten. */
  ghost predicate Keeps(before: map<Id, nat>, after: map<Id, nat>) {
    forall x :: x in before ==> x in after
  }

  ghost predicate FinishedUpTo(deps: seq<Id>, i: nat, finished: map<Id, nat>) {
    i <= |deps| && forall k :: 0 <= k < i ==> deps[k] in finished
  }

  lemma OneMoreFinished(deps: seq<Id>, i: nat, before: map<Id, nat>, after: map<Id, nat>)
    requires i < |deps| && FinishedUpTo(deps, i, before) && Keeps(before, after) && deps[i] in after
    ensures FinishedUpTo(deps, i + 1, after)
  {
    forall k | 0 <= k < i + 1 ensures deps[k] in after {
      if k < i { assert deps[k] in before; }
    }
  }

  function Push(t: Trail, id: Id): Trail {
    t.(stack := Entered(id, t.stack))
  }

  function Finish(t: Trail, id: Id): Trail {
    t.(finished := t.finished[id := t.clock], clock := t.clock + 1)
  }

  lemma Enter(g: Graph, color: Colors, t: Trail, id: Id)
    requires Consistent(g, color, t) && ColorOf(color, id) == White
    requires t.stack.Entered? ==> Edge(g, t.stack.top, id)
    ensures Consistent(g, color[id := Gray], Push(t, id)) && !On(t.stack, id)
  {
    var color' := color[id := Gray];
    assert forall x :: x != id ==> ColorOf(color', x) == ColorOf(color, x);
  }

  /** An edge from the node being visited to a gray node closes a cycle through it. */
  lemma BackEdge(g: Graph, color: Colors, t: Trail, dep: Id)
    requires Consistent(g, color, t) && t.stack.Entered?
    requires Edge(g, t.stack.top, dep) && ColorOf(color, dep) == Gray
    ensures OnCycle(g, t.stack.top)
  {
    var top := t.stack.top;
    ChainReaches(g, t.stack, dep);
    var p :| Walk(g, p) && p[0] == dep && p[|p| - 1] == top;
    PrependWalk(g, top, p);
    assert Cycle(g, [top] + p);
  }

  lemma Leave(g: Graph, color: Colors, t: Trail, outer: Stack, id: Id)
    requires Consistent(g, color, t) && t.stack == Entered(id, outer) && !On(outer, id)
    requires forall d :: d in Deps(g, id) ==> d in t.finished
    ensures Consistent(g, color[id := Black], Finish(t, id).(stack := outer))
  {
    var color' := color[id := Black];
    assert On(t.stack, id);
    assert forall x :: x != id ==> ColorOf(color', x) == ColorOf(color, x);
  }

  /** Along a walk between finished nodes the finishing moments fall. */
  lemma {:induction false} RanksFall(g: Graph, finished: map<Id, nat>, p: seq<Id>, k: nat)
    requires Ranked(g, finished) && Walk(g, p) && k < |p| && p[0] in finished
    ensures p[k] in finished && finished[p[k]] + k <= finished[p[0]]
  {
    if k > 0 {
      RanksFall(g, finished, p, k - 1);
      assert Edge(g, p[k - 1], p[k]);
    }
  }

  /** A search that has finished every node with dependencies has ruled all cycles out. */
  lemma AllFinished(g: Graph, finished: map<Id, nat>)
    requires Ranked(g, finished)
    requires forall x :: x in g && g[x] != [] ==> x in finished
    ensures Acyclic(g)
  {
    forall p ensures !Cycle(g, p) {
      if Cycle(g, p) {
        assert Edge(g, p[0], p[1]);
        RanksFall(g, finished, p, |p| - 1);
      }
    }
  }

  /** How many nodes a search has not entered yet. */
  ghost function WhiteCount(g: Graph, color: Colors): nat {
    |Nodes(g) - color.Keys|
  }

  lemma FewerWhite(g: Graph, before: Colors, after: Colors)
    requires before.Keys <= after.Keys
    ensures WhiteCount(g, after) <= WhiteCount(g, before)
  {
    SubsetCount(Nodes(g) - after.Keys, Nodes(g) - before.Keys);
  }

  lemma OneFewerWhite(g: Graph, before: Colors, id: Id, after: Colors)
    requires id in Nodes(g) && id !in before && before.Keys + {id} <= after.Keys
    ensures WhiteCount(g, after) < WhiteCount(g, before)
  {
    var left := Nodes(g) - before.Keys;
    assert id in left;
    SubsetCount(Nodes(g) - after.Keys, left - {id});
  }
}
