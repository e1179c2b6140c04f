/** server/internal/governance/dag.go: the five structural checks of a custom pipeline. */
module Governance {
  import opened Graphs
  import opened Coloring

  datatype ValidationError =
    | UnresolvedDependency(step: Id, dep: Id)
    | CycleAt(step: Id)
    | NoEntry
    | MultipleEntries(entries: seq<Id>)
    | UnreachableStep(step: Id)
    | DeadEndStep(step: Id)

  /** Check 1. Every missing dependency is reported, and nothing else. */
  method CheckDepsResolve(steps: seq<Step>, byId: Graph) returns (errs: seq<ValidationError>)
    requires byId.Keys == Ids(steps)
    ensures forall e :: e in errs <==>
              e.UnresolvedDependency? && e.dep !in Ids(steps)
              && exists i :: 0 <= i < |steps| && Lists(steps[i], e.step, e.dep)
    ensures errs == [] <==> Resolved(steps)
  {
    errs := [];
    for i := 0 to |steps|
      invariant forall e :: e in errs <==> MissingBefore(steps, i, 0, byId, e)
    {
      var s := steps[i];
      for j := 0 to |s.dependsOn|
        invariant forall e :: e in errs <==> MissingBefore(steps, i, j, byId, e)
      {
        var dep := s.dependsOn[j];
        if dep !in byId {
          errs := errs + [UnresolvedDependency(s.id, dep)];
        }
      }
      assert s.dependsOn[..|s.dependsOn|] == s.dependsOn;
    }
    ResolvedMeansNoError(steps, byId, errs);
  }

  /** `e` reports a dependency missing from the first `i` steps or the first `j` entries of the next. */
  ghost predicate MissingBefore(steps: seq<Step>, i: nat, j: nat, byId: Graph, e: ValidationError) {
    && e.UnresolvedDependency? && e.dep !in byId
    && ((exists k :: 0 <= k < i <= |steps| && Lists(steps[k], e.step, e.dep))
        || (i < |steps| && j <= |steps[i].dependsOn| && e.step == steps[i].id && e.dep in steps[i].dependsOn[..j]))
  }

  lemma ResolvedMeansNoError(steps: seq<Step>, byId: Graph, errs: seq<ValidationError>)
    requires byId.Keys == Ids(steps)
    requires forall e :: e in errs <==> MissingBefore(steps, |steps|, 0, byId, e)
    ensures errs == [] <==> Resolved(steps)
  {
    if errs != [] {
      var e := errs[0];
      assert MissingBefore(steps, |steps|, 0, byId, e);
    }
    if !Resolved(steps) {
      var i, d :| 0 <= i < |steps| && d in steps[i].dependsOn && d !in Ids(steps);
      assert Lists(steps[i], steps[i].id, d);
      assert MissingBefore(steps, |steps|, 0, byId, UnresolvedDependency(steps[i].id, d));
    }
  }

  /** The state of `checkAcyclic`: the colour map, the step it will name, and a ghost trail
      that says what the colours mean. */
  class CycleSearch {
    const byId: Graph
    var color: Colors
    var cycleStep: Id
    ghost var trail: Trail

    constructor (g: Graph)
      ensures byId == g && Valid() && trail.stack == Bottom
    {
      byId, color, cycleStep := g, map[], Id("");
      trail := Trail(Bottom, map[], 0);
    }

    ghost predicate Valid()
      reads this
    {
      Consistent(byId, color, trail)
    }

    /** `visit`: true only when it names a step on a cycle; otherwise `id` is finished. */
    method Visit(id: Id) returns (found: bool)
      requires Valid() && ColorOf(color, id) == White && id in Nodes(byId)
      requires trail.stack.Entered? ==> Edge(byId, trail.stack.top, id)
      modifies this
      ensures found ==> OnCycle(byId, cycleStep)
      ensures !found ==> Valid() && trail.stack == old(trail.stack) && id in trail.finished
      ensures !found ==> Keeps(old(trail.finished), trail.finished) && old(color).Keys <= color.Keys
      decreases WhiteCount(byId, color), 1
    {
      Enter(byId, color, trail, id);
      color := color[id := Gray];
      trail := Push(trail, id);
      OneFewerWhite(byId, old(color), id, color);
      found := FollowAll(id, Deps(byId, id));
      if found { return; }
      Leave(byId, color, trail, old(trail.stack), id);
      color := color[id := Black];
      trail := Finish(trail, id).(stack := old(trail.stack));
    }

    /** The loop over one step's dependencies. */
    method FollowAll(id: Id, deps: seq<Id>) returns (found: bool)
      requires Valid() && forall d :: d in deps ==> Edge(byId, id, d)
      requires trail.stack.Entered? && trail.stack.top == id
      modifies this
      ensures found ==> OnCycle(byId, cycleStep)
      ensures !found ==> Valid() && trail.stack == old(trail.stack) && (forall d :: d in deps ==> d in trail.finished)
      ensures !found ==> Keeps(old(trail.finished), trail.finished) && old(color).Keys <= color.Keys
      decreases WhiteCount(byId, color), 3
    {
      for i := 0 to |deps|
        invariant Valid() && trail.stack == old(trail.stack)
        invariant FinishedUpTo(deps, i, trail.finished)
        invariant Keeps(old(trail.finished), trail.finished) && old(color).Keys <= color.Keys
      {
        FewerWhite(byId, old(color), color);
        ghost var before := trail.finished;
        found := Follow(id, deps[i]);
        if found { return; }
        OneMoreFinished(deps, i, before, trail.finished);
      }
      found := false;
    }

    /** The `switch` on one dependency's colour. */
    method Follow(id: Id, dep: Id) returns (found: bool)
      requires Valid() && Edge(byId, id, dep)
      requires trail.stack.Entered? && trail.stack.top == id
      modifies this
      ensures found ==> OnCycle(byId, cycleStep)
      ensures !found ==> Valid() && trail.stack == old(trail.stack) && dep in trail.finished
      ensures !found ==> Keeps(old(trail.finished), trail.finished) && old(color).Keys <= color.Keys
      decreases WhiteCount(byId, color), 2
    {
      match ColorOf(color, dep)
      case Gray =>
        BackEdge(byId, color, trail, dep);
        cycleStep := id;
        found := true;
      case White =>
        found := Visit(dep);
      case Black =>
        found := false;
    }
  }

  lemma DepIsNode(g: Graph, id: Id, dep: Id)
    requires Edge(g, id, dep)
    ensures dep in Nodes(g)
  {
  }

  datatype CycleReport = NoCycle | CycleReport(step: Id)

  /** Check 2, on any step list: silent exactly when the graph has no cycle, and the step
      it names lies on one. */
  method CheckAcyclic(steps: seq<Step>, byId: Graph) returns (r: CycleReport)
    requires byId.Keys == Ids(steps)
    ensures r.NoCycle? <==> Acyclic(byId)
    ensures r.CycleReport? ==> OnCycle(byId, r.step)
  {
    var search := new CycleSearch(byId);
    for i := 0 to |steps|
      invariant fresh(search) && search.Valid() && search.trail.stack == Bottom && search.byId == byId
      invariant forall k :: 0 <= k < i ==> steps[k].id in search.trail.finished
    {
      var id := steps[i].id;
      assert ColorOf(search.color, id) != Gray;
      if ColorOf(search.color, id) == White {
        var found := search.Visit(id);
        if found {
          return CycleReport(search.cycleStep);
        }
      }
    }
    assert forall x :: x in byId ==> x in search.trail.finished;
    AllFinished(byId, search.trail.finished);
    r := NoCycle;
  }

  /** The ids of the steps without dependencies, in list order. */
  function Entries(steps: seq<Step>): seq<Id> {
    if steps == [] then []
    else
      var n := |steps| - 1;
      Entries(steps[..n]) + if steps[n].dependsOn == [] then [steps[n].id] else []
  }

  lemma {:induction false} EntryMember(steps: seq<Step>, i: nat)
    requires i < |steps| && steps[i].dependsOn == []
    ensures steps[i].id in Entries(steps)
  {
    var n := |steps| - 1;
    if i < n { EntryMember(steps[..n], i); }
  }

  method FindEntries(steps: seq<Step>) returns (entries: seq<Id>)
    ensures entries == Entries(steps)
  {
    entries := [];
    for i := 0 to |steps|
      invariant entries == Entries(steps[..i])
    {
      assert steps[..i + 1][..i] == steps[..i];
      if steps[i].dependsOn == [] {
        entries := entries + [steps[i].id];
      }
    }
    assert steps[..|steps|] == steps;
  }

  /** Check 3. */
  function CheckSingleEntry(entries: seq<Id>): (errs: seq<ValidationError>)
    ensures errs == [] <==> |entries| == 1
  {
    if |entries| == 1 then []
    else if |entries| == 0 then [NoEntry]
    else [MultipleEntries(entries)]
  }

  /** Reverse adjacency: who depends on each id, gathered in any map order. */
  method CollectDependents(byId: Graph) returns (dependents: Graph)
    ensures forall d, x :: x in Deps(dependents, d) <==> Edge(byId, x, d)
  {
    dependents := map[];
    var todo := byId.Keys;
    while todo != {}
      invariant todo <= byId.Keys
      invariant forall d, x :: x in Deps(dependents, d) <==> x !in todo && Edge(byId, x, d)
      decreases |todo|
    {
      var id :| id in todo;
      dependents := AddDependent(dependents, id, byId[id]);
      todo := todo - {id};
    }
  }

  /** The inner loop: `id` joins the dependents of each of its dependencies. */
  method AddDependent(before: Graph, id: Id, deps: seq<Id>) returns (dependents: Graph)
    ensures forall d, x :: x in Deps(dependents, d) <==> x in Deps(before, d) || (x == id && d in deps)
  {
    dependents := before;
    for j := 0 to |deps|
      invariant forall d, x :: x in Deps(dependents, d) <==>
                  x in Deps(before, d) || (x == id && d in deps[..j])
    {
      var dep := deps[j];
      dependents := dependents[dep := Deps(dependents, dep) + [id]];
    }
    assert deps[..|deps|] == deps;
  }

  /** The search knows only dependents of `entry`, and has every dependent of the ids it is
      done with, apart from `cur`, of which it has the first `j`. */
  ghost predicate Exploring(g: Graph, entry: Id, seen: set<Id>, queue: seq<Id>, cur: Id, nexts: seq<Id>, j: nat) {
    && entry in seen && cur in seen && seen <= Nodes(g) + {entry}
    && (forall x :: x in queue ==> x in seen)
    && (forall x :: x in seen ==> Reaches(g, x, entry))
    && (forall x, z {:trigger x in seen, Edge(g, z, x)} :: x in seen && x != cur && x !in queue && Edge(g, z, x) ==>
          z in seen)
    && j <= |nexts| && (forall k :: 0 <= k < j ==> nexts[k] in seen)
  }

  lemma ExploreOne(g: Graph, entry: Id, seen: set<Id>, queue: seq<Id>, cur: Id, nexts: seq<Id>, j: nat)
    requires Exploring(g, entry, seen, queue, cur, nexts, j) && j < |nexts| && Edge(g, nexts[j], cur)
    ensures var next := nexts[j];
            if next in seen then Exploring(g, entry, seen, queue, cur, nexts, j + 1)
            else Exploring(g, entry, seen + {next}, queue + [next], cur, nexts, j + 1)
  {
    ReachesStep(g, nexts[j], cur, entry);
  }

  /** `reachableFrom`: exactly the ids that depend on `entry`, directly or not, and `entry`. */
  method ReachableFrom(entry: Id, byId: Graph) returns (seen: set<Id>)
    ensures forall x :: x in seen <==> Reaches(byId, x, entry)
  {
    var dependents := CollectDependents(byId);
    seen := {entry};
    ReachesSelf(byId, entry);
    var queue := [entry];
    while |queue| > 0
      invariant Exploring(byId, entry, seen, queue, entry, [], 0)
      invariant forall z :: entry !in queue && Edge(byId, z, entry) ==> z in seen
      decreases |Nodes(byId) + {entry} - seen|, |queue|
    {
      var cur := queue[0];
      seen, queue := Spread(entry, byId, cur, Deps(dependents, cur), seen, queue[1..]);
    }
    forall x | Reaches(byId, x, entry) ensures x in seen {
      var p :| Walk(byId, p) && p[0] == x && p[|p| - 1] == entry;
      ClosedBackwards(byId, seen, p);
    }
  }

  /** The inner loop of the breadth-first search, over the dependents of `cur`. */
  method Spread(ghost entry: Id, ghost byId: Graph, ghost cur: Id, nexts: seq<Id>, seen0: set<Id>, queue0: seq<Id>)
      returns (seen: set<Id>, queue: seq<Id>)
    requires forall z :: z in nexts <==> Edge(byId, z, cur)
    requires Exploring(byId, entry, seen0, queue0, cur, nexts, 0)
    ensures Exploring(byId, entry, seen, queue, cur, nexts, |nexts|)
    ensures |Nodes(byId) + {entry} - seen| < |Nodes(byId) + {entry} - seen0| || (seen == seen0 && queue == queue0)
  {
    seen, queue := seen0, queue0;
    for j := 0 to |nexts|
      invariant Exploring(byId, entry, seen, queue, cur, nexts, j)
      invariant seen0 <= seen && (seen == seen0 ==> queue == queue0)
    {
      var next := nexts[j];
      ExploreOne(byId, entry, seen, queue, cur, nexts, j);
      if next !in seen {
        seen := seen + {next};
        queue := queue + [next];
      }
    }
    if seen != seen0 {
      FewerUnseen(Nodes(byId) + {entry}, seen0, seen);
    }
  }

  lemma FewerUnseen(all: set<Id>, before: set<Id>, after: set<Id>)
    requires before < after <= all
    ensures |all - after| < |all - before|
  {
    SubsetCount(all - after, all - before);
    var x :| x in after && x !in before;
    assert x in all - before && x !in all - after;
  }

  /** A set closed under "depends on a member" contains every walk that ends in it. */
  lemma {:induction false} ClosedBackwards(g: Graph, seen: set<Id>, p: seq<Id>)
    requires Walk(g, p) && p[|p| - 1] in seen
    requires forall x, z :: x in seen && Edge(g, z, x) ==> z in seen
    ensures p[0] in seen
    decreases |p|
  {
    if |p| > 1 {
      SliceWalk(g, p, 1, |p|);
      ClosedBackwards(g, seen, p[1..|p|]);
      assert Edge(g, p[0], p[1]);
    }
  }

  /** Check 4, given the reachable set. */
  method CheckReachability(steps: seq<Step>, reachable: set<Id>) returns (errs: seq<ValidationError>)
    ensures forall e :: e in errs <==> e.UnreachableStep? && e.step in Ids(steps) && e.step !in reachable
  {
    errs := [];
    for i := 0 to |steps|
      invariant forall e :: e in errs <==> e.UnreachableStep? && e.step in Ids(steps[..i]) && e.step !in reachable
    {
      assert steps[..i + 1][..i] == steps[..i];
      IdsSnoc(steps[..i + 1]);
      if steps[i].id !in reachable {
        errs := errs + [UnreachableStep(steps[i].id)];
      }
    }
    assert steps[..|steps|] == steps;
  }

  /** No step of the list depends on `x`. */
  ghost predicate IsTerminal(steps: seq<Step>, x: Id) {
    x in Ids(steps) && forall i :: 0 <= i < |steps| ==> x !in steps[i].dependsOn
  }

  method FindTerminals(steps: seq<Step>) returns (terminals: set<Id>)
    ensures forall x :: x in terminals <==> IsTerminal(steps, x)
  {
    var hasDependent: set<Id> := {};
    for i := 0 to |steps|
      invariant forall x :: x in hasDependent <==> exists k :: 0 <= k < i && x in steps[k].dependsOn
    {
      ghost var before := hasDependent;
      var deps := steps[i].dependsOn;
      for j := 0 to |deps|
        invariant forall x :: x in hasDependent <==> x in before || x in deps[..j]
      {
        hasDependent := hasDependent + {deps[j]};
      }
      assert deps[..|deps|] == deps;
    }
    terminals := {};
    for i := 0 to |steps|
      invariant forall x :: x in terminals <==> x in Ids(steps[..i]) && x !in hasDependent
    {
      assert steps[..i + 1][..i] == steps[..i];
      IdsSnoc(steps[..i + 1]);
      if steps[i].id !in hasDependent {
        terminals := terminals + {steps[i].id};
      }
    }
    assert steps[..|steps|] == steps;
  }

  /** The state of `checkNoDeadEnds`: the ids marked so far. */
  class Marker {
    const byId: Graph
    var canReach: set<Id>

    constructor (g: Graph)
      ensures byId == g && canReach == {}
    {
      byId, canReach := g, {};
    }

    /** `mark`: adds `id` and everything it depends on; every added id has its own
        dependencies marked too, and nothing unrelated is added. */
    method Mark(id: Id)
      requires id in Nodes(byId)
      modifies this
      ensures id in canReach && old(canReach) <= canReach
      ensures forall x, d :: x in canReach && x !in old(canReach) && Edge(byId, x, d) ==> d in canReach
      ensures forall x :: x in canReach ==> x in old(canReach) || Reaches(byId, id, x)
      decreases |Nodes(byId) - canReach|
    {
      if id in canReach {
        return;
      }
      var deps := Deps(byId, id);
      SubsetCount(Nodes(byId) - (canReach + {id}), Nodes(byId) - canReach);
      assert id in Nodes(byId) - canReach && id !in Nodes(byId) - (canReach + {id});
      canReach := canReach + {id};
      ReachesSelf(byId, id);
      label Added:
      for i := 0 to |deps|
        invariant old@Added(canReach) <= canReach
        invariant forall k :: 0 <= k < i ==> deps[k] in canReach
        invariant forall x, d :: x in canReach && x !in old@Added(canReach) && Edge(byId, x, d) ==> d in canReach
        invariant forall x :: x in canReach ==> x in old(canReach) || Reaches(byId, id, x)
      {
        var dep := deps[i];
        assert Edge(byId, id, dep);
        DepIsNode(byId, id, dep);
        SubsetCount(Nodes(byId) - canReach, Nodes(byId) - old@Added(canReach));
        label Before:
        Mark(dep);
        forall x | x in canReach && x !in old@Before(canReach) ensures Reaches(byId, id, x) {
          ReachesStep(byId, id, dep, x);
        }
      }
    }
  }

  /** Some step nothing depends on reaches `x`. */
  ghost predicate Drained(steps: seq<Step>, byId: Graph, x: Id) {
    exists t :: IsTerminal(steps, t) && Reaches(byId, t, x)
  }

  /** Marking from every terminal step, in any map order, marks exactly the drained ids. */
  method MarkDrained(steps: seq<Step>, byId: Graph, terminals: set<Id>) returns (canReach: set<Id>)
    requires byId.Keys == Ids(steps)
    requires forall x :: x in terminals <==> IsTerminal(steps, x)
    ensures forall x :: x in canReach <==> Drained(steps, byId, x)
  {
    var marker := new Marker(byId);
    var todo := terminals;
    while todo != {}
      invariant fresh(marker) && marker.byId == byId && todo <= terminals
      invariant forall t :: t in terminals - todo ==> t in marker.canReach
      invariant forall x, d :: x in marker.canReach && Edge(byId, x, d) ==> d in marker.canReach
      invariant forall x :: x in marker.canReach ==> Drained(steps, byId, x)
      decreases |todo|
    {
      var t :| t in todo;
      assert t in Nodes(byId);
      marker.Mark(t);
      todo := todo - {t};
    }
    canReach := marker.canReach;
    forall x | Drained(steps, byId, x) ensures x in canReach {
      var t :| IsTerminal(steps, t) && Reaches(byId, t, x);
      var p :| Walk(byId, p) && p[0] == t && p[|p| - 1] == x;
      ClosedForwards(byId, canReach, p);
    }
  }

  /** Check 5, given the terminal steps: exactly the steps no terminal reaches are reported. */
  method CheckNoDeadEnds(steps: seq<Step>, byId: Graph, terminals: set<Id>) returns (errs: seq<ValidationError>)
    requires byId.Keys == Ids(steps)
    requires forall x :: x in terminals <==> IsTerminal(steps, x)
    ensures forall e :: e in errs <==> e.DeadEndStep? && e.step in Ids(steps) && !Drained(steps, byId, e.step)
  {
    var canReach := MarkDrained(steps, byId, terminals);
    errs := [];
    for i := 0 to |steps|
      invariant forall e :: e in errs <==> e.DeadEndStep? && e.step in Ids(steps[..i]) && e.step !in canReach
    {
      assert steps[..i + 1][..i] == steps[..i];
      IdsSnoc(steps[..i + 1]);
      if steps[i].id !in canReach {
        errs := errs + [DeadEndStep(steps[i].id)];
      }
    }
    assert steps[..|steps|] == steps;
  }

  lemma {:induction false} ClosedForwards(g: Graph, marked: set<Id>, p: seq<Id>)
    requires Walk(g, p) && p[0] in marked
    requires forall x, d :: x in marked && Edge(g, x, d) ==> d in marked
    ensures p[|p| - 1] in marked
    decreases |p|
  {
    if |p| > 1 {
      assert Edge(g, p[0], p[1]);
      SliceWalk(g, p, 1, |p|);
      ClosedForwards(g, marked, p[1..|p|]);
    }
  }

  /** Checks 1 to 3 imply check 4: with one entry, every step depends on it. */
  lemma NothingUnreachable(steps: seq<Step>, entry: Id, x: Id)
    requires Resolved(steps) && Acyclic(ById(steps)) && Entries(steps) == [entry] && x in Ids(steps)
    ensures Reaches(ById(steps), x, entry)
  {
    hide ById, Entries, Resolved, Acyclic, Reaches;
    var g := ById(steps);
    if !Reaches(g, x, entry) {
      var stuck := set y | y in g && !Reaches(g, y, entry);
      assert x in stuck;
      forall y | y in stuck ensures HasDepIn(g, y, stuck) {
        var d := LostDependency(steps, entry, y);
      }
      StuckSetHasCycle(g, stuck);
    }
  }

  /** A step that does not depend on the only entry depends on another such step. */
  lemma LostDependency(steps: seq<Step>, entry: Id, y: Id) returns (d: Id)
    requires Resolved(steps) && Entries(steps) == [entry] && y in Ids(steps) && !Reaches(ById(steps), y, entry)
    ensures Edge(ById(steps), y, d) && d in ById(steps) && !Reaches(ById(steps), d, entry)
  {
    var g := ById(steps);
    hide ById, Entries, Reaches;
    var i := ByIdWitness(steps, y);
    if g[y] == [] {
      EntryMember(steps, i);
      ReachesSelf(g, y);
      assert false;
    }
    d := g[y][0];
    assert Edge(g, y, d) && d in steps[i].dependsOn;
    if Reaches(g, d, entry) { ReachesStep(g, y, d, entry); }
  }

  ghost predicate ListedIn(steps: seq<Step>, x: Id) {
    exists i :: 0 <= i < |steps| && x in steps[i].dependsOn
  }

  ghost predicate HasDependent(g: Graph, x: Id) {
    exists z :: Edge(g, z, x)
  }

  /** No step is left with shadowed dependents only: who is listed as a dependency is listed in a
      list that the index keeps. */
  ghost predicate NothingShadowed(steps: seq<Step>) {
    forall x :: x in Ids(steps) && ListedIn(steps, x) ==> HasDependent(ById(steps), x)
  }

  /** Without cycles, check 5 passes exactly when no step has shadowed dependents only. */
  lemma DrainedExactly(steps: seq<Step>)
    requires Acyclic(ById(steps))
    ensures (forall x :: x in Ids(steps) ==> Drained(steps, ById(steps), x)) <==> NothingShadowed(steps)
  {
    hide ById, Acyclic, Drained;
    if NothingShadowed(steps) {
      AllDrainedUnlessTrapped(steps);
    }
    if forall x :: x in Ids(steps) ==> Drained(steps, ById(steps), x) {
      forall x | x in Ids(steps) && ListedIn(steps, x) ensures HasDependent(ById(steps), x) {
        DrainedHasDependent(steps, x);
      }
    }
  }

  lemma AllDrainedUnlessTrapped(steps: seq<Step>)
    requires Acyclic(ById(steps)) && NothingShadowed(steps)
    ensures forall x :: x in Ids(steps) ==> Drained(steps, ById(steps), x)
  {
    hide ById, Acyclic, Reaches;
    var g := ById(steps);
    var trapped := set y | y in g && !Drained(steps, g, y);
    forall y | y in trapped ensures HasDependentIn(g, y, trapped) {
      ReachesSelf(g, y);
      assert ListedIn(steps, y);
      var z :| Edge(g, z, y);
      if Drained(steps, g, z) {
        var t :| IsTerminal(steps, t) && Reaches(g, t, z);
        ReachesExtend(g, t, z, y);
      }
    }
    if trapped != {} { TrappedSetHasCycle(g, trapped); }
    assert forall x :: x in Ids(steps) ==> x !in trapped;
  }

  lemma DrainedHasDependent(steps: seq<Step>, x: Id)
    requires Drained(steps, ById(steps), x) && ListedIn(steps, x)
    ensures HasDependent(ById(steps), x)
  {
    hide ById;
    var g := ById(steps);
    var t :| IsTerminal(steps, t) && Reaches(g, t, x);
    var p :| Walk(g, p) && p[0] == t && p[|p| - 1] == x;
    if |p| > 1 { WalkEdge(g, p, |p| - 2); }
  }

  /** Checks 1 and 2 and distinct ids imply check 5. */
  lemma NoDeadEnd(steps: seq<Step>, x: Id)
    requires DistinctIds(steps) && Acyclic(ById(steps)) && x in Ids(steps)
    ensures Drained(steps, ById(steps), x)
  {
    hide ById, Acyclic, Drained;
    DistinctShadowsNothing(steps);
    DrainedExactly(steps);
  }

  lemma DistinctShadowsNothing(steps: seq<Step>)
    requires DistinctIds(steps)
    ensures NothingShadowed(steps)
  {
    forall x | x in Ids(steps) && ListedIn(steps, x) ensures HasDependent(ById(steps), x) {
      var i :| 0 <= i < |steps| && x in steps[i].dependsOn;
      LastWins(steps, i);
      assert Edge(ById(steps), steps[i].id, x);
    }
  }

  /** `ValidateDAG` reports nothing exactly when the pipeline is empty, or resolved, acyclic and
      single-rooted with no step that has shadowed dependents only; no step is ever reported
      unreachable; with distinct ids no step is ever a dead end. */
  method ValidateDAG(steps: seq<Step>) returns (errs: seq<ValidationError>)
    ensures errs == [] <==>
              || steps == []
              || (Resolved(steps) && Acyclic(ById(steps)) && |Entries(steps)| == 1 && NothingShadowed(steps))
    ensures forall e :: e in errs ==> Justified(steps, e)
    ensures DistinctIds(steps) ==>
              (errs == [] <==> steps == [] || (Resolved(steps) && Acyclic(ById(steps)) && |Entries(steps)| == 1))
    ensures DistinctIds(steps) ==> forall e :: e in errs ==> !e.DeadEndStep?
  {
    if |steps| == 0 {
      return [];
    }
    var byId := IndexSteps(steps);
    errs := CheckDepsResolve(steps, byId);
    if |errs| > 0 {
      forall e | e in errs ensures Justified(steps, e) {}
      return;
    }
    var cyc := CheckAcyclic(steps, byId);
    if cyc.CycleReport? {
      return [CycleAt(cyc.step)];
    }
    var entries := FindEntries(steps);
    errs := CheckSingleEntry(entries);
    if |entries| != 1 {
      return;
    }
    assert entries == [entries[0]];
    errs := CheckEnds(steps, byId, entries[0]);
    DrainedExactly(steps);
    if DistinctIds(steps) { DistinctShadowsNothing(steps); }
  }

  /** Checks 4 and 5 once checks 1 to 3 have passed: only dead ends can be left to report. */
  method CheckEnds(steps: seq<Step>, byId: Graph, entry: Id) returns (errs: seq<ValidationError>)
    requires byId == ById(steps) && Resolved(steps) && Acyclic(byId) && Entries(steps) == [entry]
    ensures forall e :: e in errs <==> e.DeadEndStep? && e.step in Ids(steps) && !Drained(steps, byId, e.step)
    ensures errs == [] <==> forall x :: x in Ids(steps) ==> Drained(steps, byId, x)
  {
    var reachable := ReachableFrom(entry, byId);
    var unreachable := CheckReachability(steps, reachable);
    forall x | x in Ids(steps) ensures x in reachable { NothingUnreachable(steps, entry, x); }
    NoMembers(unreachable);
    var terminals := FindTerminals(steps);
    var deadEnds := CheckNoDeadEnds(steps, byId, terminals);
    errs := unreachable + deadEnds;
    assert errs == deadEnds;
    AllDrained(steps, byId, errs);
  }

  lemma NoMembers<T>(s: seq<T>)
    requires forall x :: x !in s
    ensures s == []
  {
    if s != [] { HasMember(s); }
  }

  lemma HasMember<T>(s: seq<T>)
    requires s != []
    ensures exists x :: x in s
  {
    assert s[0] in s;
  }

  lemma AllDrained(steps: seq<Step>, byId: Graph, errs: seq<ValidationError>)
    requires forall e :: e in errs <==> e.DeadEndStep? && e.step in Ids(steps) && !Drained(steps, byId, e.step)
    ensures errs == [] <==> forall x :: x in Ids(steps) ==> Drained(steps, byId, x)
  {
    if errs != [] { assert errs[0] in errs; }
    if x :| x in Ids(steps) && !Drained(steps, byId, x) { assert DeadEndStep(x) in errs; }
  }

  /** The `byID` loop. */
  method IndexSteps(steps: seq<Step>) returns (byId: Graph)
    ensures byId == ById(steps)
  {
    byId := map[];
    for i := 0 to |steps|
      invariant byId == ById(steps[..i])
    {
      assert steps[..i + 1][..i] == steps[..i];
      byId := byId[steps[i].id := steps[i].dependsOn];
    }
    assert steps[..|steps|] == steps;
  }

  /** What each report promises about the pipeline. */
  ghost predicate Justified(steps: seq<Step>, e: ValidationError) {
    match e
    case UnresolvedDependency(s, d) => d !in Ids(steps) && exists i :: 0 <= i < |steps| && Lists(steps[i], s, d)
    case CycleAt(s) => OnCycle(ById(steps), s)
    case NoEntry => Entries(steps) == []
    case MultipleEntries(es) => es == Entries(steps) && |es| > 1
    case UnreachableStep(_) => false
    case DeadEndStep(s) => s in Ids(steps) && !Drained(steps, ById(steps), s)
  }

  lemma {:induction false} OnlyFirstEntry(steps: seq<Step>)
    requires steps != [] && steps[0].dependsOn == [] && forall i :: 0 < i < |steps| ==> steps[i].dependsOn != []
    ensures Entries(steps) == [steps[0].id]
  {
    var n := |steps| - 1;
    if n == 0 {
      assert Entries(steps[..n]) == [];
    } else {
      OnlyFirstEntry(steps[..n]);
    }
  }

  /** Four steps on three ids; `d` has a dependent in a list that the index drops. */
  function Shadowed(e: Id, d: Id, f: Id): seq<Step> {
    [Step(e, []), Step(d, [e]), Step(f, [d]), Step(f, [e])]
  }

  lemma ShadowedShape(e: Id, d: Id, f: Id)
    requires e != d && e != f && d != f
    ensures var steps, g := Shadowed(e, d, f), ById(Shadowed(e, d, f));
            && Ids(steps) == {e, d, f} && Resolved(steps) && |Entries(steps)| == 1
            && g.Keys == {e, d, f} && Deps(g, e) == [] && Deps(g, d) == [e] && Deps(g, f) == [e]
  {
    hide ById, Entries;
    var steps := Shadowed(e, d, f);
    assert steps[0] in steps && steps[1] in steps && steps[2] in steps && steps[3] in steps;
    OnlyFirstEntry(steps);
    LastWins(steps, 0);
    LastWins(steps, 1);
    LastWins(steps, 3);
  }

  lemma OnlyTerminal(e: Id, d: Id, f: Id, t: Id)
    requires IsTerminal(Shadowed(e, d, f), t)
    ensures t != e && t != d
  {
    var steps := Shadowed(e, d, f);
    assert d in steps[2].dependsOn && e in steps[1].dependsOn;
  }

  /** With repeated ids the last list wins in the index while every list counts for the
      terminals: here `d` has a shadowed dependent only, and is reported as a dead end. */
  lemma RepeatedIdMakesDeadEnd(e: Id, d: Id, f: Id)
    requires e != d && e != f && d != f
    ensures var steps := Shadowed(e, d, f);
            && Resolved(steps) && Acyclic(ById(steps)) && |Entries(steps)| == 1
            && d in Ids(steps) && !Drained(steps, ById(steps), d)
  {
    hide ById, Entries, Resolved, Acyclic, Reaches, Ids;
    var steps := Shadowed(e, d, f);
    ShadowedShape(e, d, f);
    var g := ById(steps);
    ShallowGraph(g, e, d, f);
    forall t | IsTerminal(steps, t) ensures !(t in Ids(steps) && Reaches(g, t, d)) {
      OnlyTerminal(e, d, f, t);
      OnlyEntryAbove(g, e, d, f);
    }
  }

  lemma OnlyEntryAbove(g: Graph, e: Id, d: Id, f: Id)
    requires e != d && e != f && d != f && Deps(g, e) == [] && Deps(g, f) == [e]
    ensures !Reaches(g, f, d)
  {
    forall p | Walk(g, p) && p[0] == f ensures p[|p| - 1] != d {
      if |p| > 1 { WalkEdge(g, p, 0); }
      if |p| > 2 { WalkEdge(g, p, 1); }
    }
  }

  lemma ShallowGraph(g: Graph, e: Id, d: Id, f: Id)
    requires e != d && e != f && d != f && g.Keys <= {e, d, f}
    requires Deps(g, e) == [] && Deps(g, d) == [e] && Deps(g, f) == [e]
    ensures Acyclic(g)
  {
    var order := [e, d, f];
    assert order[..1] == [e] && order[..2] == [e, d];
    TopoOrderAcyclic(g, order);
  }
}
