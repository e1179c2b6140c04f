/** server/internal/orchestrator/decomposition.go: a parent task whose ordered children run one at a time. */
module Decomposition {
  import opened Options
  import opened TaskTracker

  type World = map<TaskId, Task>

  /** Who belongs to whom; fixed once splits are approved. `listing` is the stored order of a
      parent's sub-tasks, `sequence` their SequenceIndex, `depth` witnesses that parent chains end. */
  datatype Tree = Tree(parent: map<TaskId, TaskId>, decomposed: set<TaskId>, listing: map<TaskId, seq<TaskId>>,
                       sequence: map<TaskId, int>, depth: map<TaskId, nat>)

  /** `a` must come before `b`: a smaller index, or any index against none. */
  predicate Precedes(seqs: map<TaskId, int>, a: TaskId, b: TaskId) {
    a in seqs && (b in seqs ==> seqs[a] < seqs[b])
  }

  /** `SortBySequenceIndex`, a stable sort. */
  function Insert(seqs: map<TaskId, int>, x: TaskId, sorted: seq<TaskId>): seq<TaskId> {
    if sorted == [] || Precedes(seqs, x, sorted[0]) then [x] + sorted
    else [sorted[0]] + Insert(seqs, x, sorted[1..])
  }

  function SortBySequence(seqs: map<TaskId, int>, ids: seq<TaskId>): seq<TaskId> {
    if ids == [] then [] else Insert(seqs, ids[|ids| - 1], SortBySequence(seqs, ids[..|ids| - 1]))
  }

  ghost predicate InOrder(seqs: map<TaskId, int>, ids: seq<TaskId>) {
    forall i, j :: 0 <= i < j < |ids| ==> !Precedes(seqs, ids[j], ids[i])
  }

  lemma {:induction false} InsertKeeps(seqs: map<TaskId, int>, x: TaskId, sorted: seq<TaskId>)
    requires InOrder(seqs, sorted)
    ensures InOrder(seqs, Insert(seqs, x, sorted))
    ensures multiset(Insert(seqs, x, sorted)) == multiset(sorted) + multiset{x}
  {
    if sorted == [] || Precedes(seqs, x, sorted[0]) {
      FrontKeeps(seqs, x, sorted);
    } else {
      var rest := sorted[1..];
      InsertKeeps(seqs, x, rest);
      assert sorted == [sorted[0]] + rest;
      BehindKeeps(seqs, x, sorted[0], rest, Insert(seqs, x, rest));
    }
  }

  lemma FrontKeeps(seqs: map<TaskId, int>, x: TaskId, sorted: seq<TaskId>)
    requires InOrder(seqs, sorted) && (sorted == [] || Precedes(seqs, x, sorted[0]))
    ensures InOrder(seqs, [x] + sorted)
  {
    var r := [x] + sorted;
    forall i, j | 0 <= i < j < |r| ensures !Precedes(seqs, r[j], r[i]) {
      assert r[j] == sorted[j - 1];
      if i == 0 && j > 1 { assert !Precedes(seqs, sorted[j - 1], sorted[0]); }
    }
  }

  lemma BehindKeeps(seqs: map<TaskId, int>, x: TaskId, first: TaskId, rest: seq<TaskId>, tail: seq<TaskId>)
    requires InOrder(seqs, [first] + rest) && InOrder(seqs, tail) && !Precedes(seqs, x, first)
    requires multiset(tail) == multiset(rest) + multiset{x}
    ensures InOrder(seqs, [first] + tail)
  {
    var before, r := [first] + rest, [first] + tail;
    forall j | 0 <= j < |tail| ensures !Precedes(seqs, tail[j], first) {
      assert tail[j] in multiset(tail);
      if tail[j] != x {
        var i :| 0 <= i < |rest| && rest[i] == tail[j];
        assert !Precedes(seqs, before[i + 1], before[0]);
      }
    }
    forall i, j | 0 <= i < j < |r| ensures !Precedes(seqs, r[j], r[i]) {
      assert r[j] == tail[j - 1];
    }
  }

  /** The dispatch order is a permutation of the stored one, in index order with missing indices last. */
  lemma {:induction false} SortedBySequence(seqs: map<TaskId, int>, ids: seq<TaskId>)
    ensures InOrder(seqs, SortBySequence(seqs, ids))
    ensures multiset(SortBySequence(seqs, ids)) == multiset(ids)
  {
    if ids != [] {
      var rest := ids[..|ids| - 1];
      SortedBySequence(seqs, rest);
      InsertKeeps(seqs, ids[|ids| - 1], SortBySequence(seqs, rest));
      assert ids == rest + [ids[|ids| - 1]];
    }
  }

  function IndexOf(seqs: map<TaskId, int>, x: TaskId): Option<int> {
    if x in seqs then Some(seqs[x]) else None
  }

  /** The ids with this index, in order. */
  function WithIndex(seqs: map<TaskId, int>, ids: seq<TaskId>, k: Option<int>): seq<TaskId> {
    if ids == [] then []
    else (if IndexOf(seqs, ids[0]) == k then [ids[0]] else []) + WithIndex(seqs, ids[1..], k)
  }

  lemma {:induction false} WithIndexSnoc(seqs: map<TaskId, int>, ids: seq<TaskId>, x: TaskId, k: Option<int>)
    ensures WithIndex(seqs, ids + [x], k) == WithIndex(seqs, ids, k) + if IndexOf(seqs, x) == k then [x] else []
  {
    hide Precedes, IndexOf;
    if ids == [] {
      assert ids + [x] == [x];
      OneWithIndex(seqs, x, k);
    } else {
      WithIndexSnoc(seqs, ids[1..], x, k);
      assert (ids + [x])[1..] == ids[1..] + [x];
    }
  }

  lemma OneWithIndex(seqs: map<TaskId, int>, x: TaskId, k: Option<int>)
    ensures WithIndex(seqs, [x], k) == if IndexOf(seqs, x) == k then [x] else []
  {
    hide IndexOf;
    assert [x][1..] == [];
  }

  lemma {:induction false} NoneBeyond(seqs: map<TaskId, int>, ids: seq<TaskId>, x: TaskId)
    requires forall i :: 0 <= i < |ids| ==> IndexOf(seqs, ids[i]) != IndexOf(seqs, x)
    ensures WithIndex(seqs, ids, IndexOf(seqs, x)) == []
  {
    if ids != [] { NoneBeyond(seqs, ids[1..], x); }
  }

  lemma {:induction false} InsertStable(seqs: map<TaskId, int>, x: TaskId, sorted: seq<TaskId>, k: Option<int>)
    requires InOrder(seqs, sorted)
    ensures WithIndex(seqs, Insert(seqs, x, sorted), k)
            == WithIndex(seqs, sorted, k) + if IndexOf(seqs, x) == k then [x] else []
  {
    if sorted == [] || Precedes(seqs, x, sorted[0]) {
      var r := [x] + sorted;
      assert r[1..] == sorted;
      if IndexOf(seqs, x) == k {
        forall i | 0 <= i < |sorted| ensures IndexOf(seqs, sorted[i]) != k {
          if i > 0 { assert !Precedes(seqs, sorted[i], sorted[0]); }
        }
        NoneBeyond(seqs, sorted, x);
      }
    } else {
      InsertStable(seqs, x, sorted[1..], k);
      assert ([sorted[0]] + Insert(seqs, x, sorted[1..]))[1..] == Insert(seqs, x, sorted[1..]);
    }
  }

  /** Ids with equal or missing indices keep their stored order. */
  lemma {:induction false} SortIsStable(seqs: map<TaskId, int>, ids: seq<TaskId>, k: Option<int>)
    ensures WithIndex(seqs, SortBySequence(seqs, ids), k) == WithIndex(seqs, ids, k)
  {
    if ids != [] {
      var rest, x := ids[..|ids| - 1], ids[|ids| - 1];
      SortIsStable(seqs, rest, k);
      SortedBySequence(seqs, rest);
      InsertStable(seqs, x, SortBySequence(seqs, rest), k);
      WithIndexSnoc(seqs, rest, x, k);
      assert rest + [x] == ids;
    }
  }

  /** `p`'s children in dispatch order. */
  function Children(tree: Tree, p: TaskId): seq<TaskId> {
    if p in tree.listing then SortBySequence(tree.sequence, tree.listing[p]) else []
  }

  /** Listings hold exactly the children, once each, and every parent is nearer the root. */
  ghost predicate WellFormed(tree: Tree) {
    && (forall p, c :: p in tree.listing && c in tree.listing[p] ==> c in tree.parent && tree.parent[c] == p)
    && (forall p, i, j :: p in tree.listing && 0 <= i < j < |tree.listing[p]| ==>
          tree.listing[p][i] != tree.listing[p][j])
    && (forall c :: c in tree.parent ==>
          && tree.parent[c] in tree.listing && c in tree.listing[tree.parent[c]]
          && Depth(tree, tree.parent[c]) < Depth(tree, c))
  }

  function Depth(tree: Tree, t: TaskId): nat {
    if t in tree.depth then tree.depth[t] else 0
  }

  predicate Fresh(s: Status) {
    s.Todo? || s.Unset?
  }

  /** How many children from the front have merged. */
  function MergedPrefix(w: World, cs: seq<TaskId>): (k: nat)
    requires forall c :: c in cs ==> c in w
    ensures k <= |cs|
    ensures forall i :: 0 <= i < k ==> w[cs[i]].status.Merged?
    ensures k < |cs| ==> !w[cs[k]].status.Merged?
  {
    if cs == [] || !w[cs[0]].status.Merged? then 0 else 1 + MergedPrefix(w, cs[1..])
  }

  /** A family's layout: merged up to `k`, child `k` in any state, the rest not started; a merged
      parent has children and all have merged. */
  ghost predicate Layout(w: World, p: TaskId, cs: seq<TaskId>)
    requires p in w && forall c :: c in cs ==> c in w
  {
    var k := MergedPrefix(w, cs);
    && (forall i :: k < i < |cs| ==> Fresh(w[cs[i]].status))
    && (w[p].status.Merged? ==> k == |cs| > 0)
  }

  /** The layout, and a recorded blocked child is child `k` and has failed. */
  ghost predicate FamilyOk(w: World, p: TaskId, cs: seq<TaskId>)
    requires p in w && forall c :: c in cs ==> c in w
  {
    var k := MergedPrefix(w, cs);
    && Layout(w, p, cs)
    && (w[p].blockedChild.Some? ==> k < |cs| && cs[k] == w[p].blockedChild.value && w[cs[k]].status.Failed?)
  }

  /** Every task of the tree is in the world. */
  ghost predicate Covers(tree: Tree, w: World) {
    && (forall c :: c in tree.parent ==> c in w && tree.parent[c] in w)
    && (forall p :: p in tree.decomposed ==> p in w)
  }

  lemma ChildrenAreListed(tree: Tree, p: TaskId)
    requires WellFormed(tree)
    ensures forall c :: c in Children(tree, p) <==> c in tree.parent && tree.parent[c] == p
    ensures forall i, j :: 0 <= i < j < |Children(tree, p)| ==> Children(tree, p)[i] != Children(tree, p)[j]
  {
    hide SortBySequence, InOrder;
    if p in tree.listing {
      var ids, cs := tree.listing[p], Children(tree, p);
      SortedBySequence(tree.sequence, ids);
      SameMembers(ids, cs);
      SameCountsDistinct(ids, cs);
    }
  }

  lemma SameMembers(a: seq<TaskId>, b: seq<TaskId>)
    requires multiset(a) == multiset(b)
    ensures forall c :: c in a <==> c in b
  {
    forall c ensures c in a <==> c in b {
      assert c in a <==> c in multiset(a);
      assert c in b <==> c in multiset(b);
    }
  }

  lemma SameCountsDistinct(a: seq<TaskId>, b: seq<TaskId>)
    requires multiset(a) == multiset(b)
    requires forall i, j :: 0 <= i < j < |a| ==> a[i] != a[j]
    ensures forall i, j :: 0 <= i < j < |b| ==> b[i] != b[j]
  {
    forall i, j | 0 <= i < j < |b| ensures b[i] != b[j] {
      OccursOnce(a, b[i]);
      if b[i] == b[j] { OccursTwice(b, i, j); }
    }
  }

  lemma {:induction false} OccursOnce(a: seq<TaskId>, x: TaskId)
    requires forall i, j :: 0 <= i < j < |a| ==> a[i] != a[j]
    ensures multiset(a)[x] <= 1
  {
    if a != [] {
      OccursOnce(a[1..], x);
      assert a == [a[0]] + a[1..];
      if x == a[0] { assert x !in a[1..]; }
    }
  }

  lemma OccursTwice(b: seq<TaskId>, i: nat, j: nat)
    requires i < j < |b| && b[i] == b[j]
    ensures multiset(b)[b[i]] >= 2
  {
    var front, back := b[..j], b[j..];
    assert b == front + back;
    assert front[i] in multiset(front) && back[0] in multiset(back);
  }

  /** Where a call to the repository or the job table can fail, and on which task. */
  datatype Site =
    | LoadForUpdate | SaveStatus | LoadParent | RecordBlocked | ListChildren | LoadForReduce
    | LoadForExecute | ResumeJob | LoadForRetry | ClearBlocked | LoadForRerun | Enqueue | Reload

  datatype Job = Idle | Active | Paused

  /** Everything one call meets from outside: the clock, project limits, job states, failures. */
  datatype Env = Env(now: int, project: TaskId -> Option<Limits>, job: TaskId -> Job, broken: set<(Site, TaskId)>)

  predicate Fails(e: Env, site: Site, t: TaskId) {
    (site, t) in e.broken
  }

  ghost predicate Sized(tree: Tree, w: World) {
    WellFormed(tree) && Covers(tree, w)
  }

  /** The status write of `updateTaskStatus`; `None` when it reports an error. */
  ghost function Write(e: Env, w: World, t: TaskId, s: Status): (r: Option<World>)
    ensures r.Some? ==> t in w && r.value.Keys == w.Keys
  {
    if t !in w || Fails(e, LoadForUpdate, t) then None
    else
      var u := Updated(w[t], s, Effective(e.project(t)), e.now);
      if u.None? || Fails(e, SaveStatus, t) then None else Some(w[t := u.value])
  }

  ghost function Written(e: Env, w: World, t: TaskId, s: Status): (r: World)
    ensures r.Keys == w.Keys
  {
    var r := Write(e, w, t, s);
    if r.Some? then r.value else w
  }

  /** A failed child's mark on its parent. */
  ghost function ParentBlocked(e: Env, w: World, p: TaskId, child: TaskId): (r: World)
    requires p in w
    ensures r.Keys == w.Keys
  {
    Written(e, if Fails(e, RecordBlocked, p) then w else w[p := w[p].(blockedChild := Some(child))], p, Blocked)
  }

  /** `Execute`, as far as task records go. */
  ghost function Started(e: Env, w: World, c: TaskId): (r: World)
    ensures r.Keys == w.Keys
  {
    if c !in w || Fails(e, LoadForExecute, c) || e.job(c).Active? || (e.job(c).Paused? && Fails(e, ResumeJob, c)) then w
    else if Fresh(w[c].status) || w[c].status.Failed? then Written(e, w, c, ContextLoading)
    else w
  }

  /** What follows the status just written to `t`: it climbs the parent chain, one family at a time. */
  ghost function Settled(tree: Tree, e: Env, w: World, t: TaskId): (r: World)
    requires Sized(tree, w) && t in w
    ensures r.Keys == w.Keys
    decreases Depth(tree, t), 0
  {
    if !(w[t].status.Merged? || w[t].status.Failed?) || t !in tree.parent then w
    else
      var p := tree.parent[t];
      if Fails(e, LoadParent, p) || p !in tree.decomposed then w
      else if w[t].status.Failed? then ParentBlocked(e, w, p, t)
      else Advanced(tree, e, w, p)
  }

  /** The next step of `p`'s family: start the first child that has not merged, or finish the parent. */
  ghost function Advanced(tree: Tree, e: Env, w: World, p: TaskId): (r: World)
    requires Sized(tree, w)
    ensures r.Keys == w.Keys
    decreases Depth(tree, p), 1
  {
    ChildrenAreListed(tree, p);
    var cs := Children(tree, p);
    var k := MergedPrefix(w, cs);
    if Fails(e, ListChildren, p) || cs == [] then w
    else if k < |cs| then
      if Fresh(w[cs[k]].status) then Started(e, w, cs[k]) else w
    else if Fails(e, LoadForReduce, p) then w
    else
      var done := Write(e, w, p, Merged);
      if done.Some? then Settled(tree, e, done.value, p) else w
  }

  /** `RetryFromLastStep`, as far as task records go, and whether it succeeded. */
  ghost function Rerun(e: Env, w: World, c: TaskId): (r: (bool, World))
    ensures r.1.Keys == w.Keys
  {
    if c !in w || Fails(e, LoadForRerun, c)
       || !(w[c].status.Failed? || w[c].status.SpecReview? || w[c].status.Analyzing?) then (false, w)
    else
      var run := Write(e, w, c, Analyzing);
      if run.None? then (false, w) else (!Fails(e, Enqueue, c), run.value)
  }

  /** `RetryBlockedParent`. */
  ghost function Retried(e: Env, w: World, p: TaskId): (r: (bool, World))
    ensures r.1.Keys == w.Keys
  {
    if p !in w || Fails(e, LoadForRetry, p) || !w[p].status.Blocked? || w[p].blockedChild.None? then (false, w)
    else
      var resumed := Write(e, w, p, Coding);
      if resumed.None? then (false, w)
      else
        var w1 := resumed.value;
        var rerun := Rerun(e, Cleared(e, w1, p), w[p].blockedChild.value);
        (rerun.0 && !Fails(e, Reload, p), rerun.1)
  }

  ghost function Cleared(e: Env, w: World, p: TaskId): (r: World)
    requires p in w
    ensures r.Keys == w.Keys
  {
    if Fails(e, ClearBlocked, p) then w else w[p := w[p].(blockedChild := None)]
  }

  /** A call from outside: a worker's status update, a forced block, an approved split, a retry of a
      blocked parent, and the two that a user may send for any task, retry and execute. */
  datatype Action =
    | Work(task: TaskId, request: Status)
    | ForceBlock(task: TaskId, reason: Reason)
    | Dispatch(task: TaskId)
    | Retry(task: TaskId)
    | RetryStep(task: TaskId)
    | Execute(task: TaskId)

  ghost function Act(tree: Tree, e: Env, w: World, a: Action): (r: World)
    requires Sized(tree, w)
    ensures r.Keys == w.Keys
  {
    match a
    case Work(t, s) =>
      var r := Write(e, w, t, s);
      if r.Some? then Settled(tree, e, r.value, t) else w
    case ForceBlock(t, reason) => Forcibly(e, w, t, reason)
    case Dispatch(p) => Advanced(tree, e, w, p)
    case Retry(p) => Retried(e, w, p).1
    case RetryStep(t) => Rerun(e, w, t).1
    case Execute(t) => Started(e, w, t)
  }

  ghost function Forcibly(e: Env, w: World, t: TaskId, reason: Reason): (r: World)
    ensures r.Keys == w.Keys
  {
    if t !in w || Fails(e, LoadForUpdate, t) || Fails(e, SaveStatus, t) || Forced(w[t], reason).None? then w
    else w[t := Forced(w[t], reason).value]
  }

  /** Every family has its layout, and only decomposed parents record a blocked child. */
  ghost predicate Sound(tree: Tree, w: World) {
    && Sized(tree, w)
    && (forall p :: p in tree.decomposed ==> Family(tree, w, p))
    && (forall t :: t in w && t !in tree.decomposed ==> w[t].blockedChild.None?)
  }

  ghost predicate Family(tree: Tree, w: World, p: TaskId) {
    && p in w && (forall c :: c in Children(tree, p) ==> c in w)
    && FamilyOk(w, p, Children(tree, p))
  }

  /** `p`'s first child that has not merged. */
  ghost predicate IsNext(tree: Tree, w: World, p: TaskId, c: TaskId) {
    && (forall d :: d in Children(tree, p) ==> d in w)
    && var k := MergedPrefix(w, Children(tree, p));
       k < |Children(tree, p)| && Children(tree, p)[k] == c
  }

  ghost predicate AllMerged(tree: Tree, w: World, p: TaskId) {
    Children(tree, p) != [] && forall c :: c in Children(tree, p) ==> c in w && w[c].status.Merged?
  }

  /** A change of `t`'s record that respects its place in both families it may belong to. */
  ghost predicate FairStep(tree: Tree, w: World, t: TaskId, x: Task) {
    && t in w && x.blockedChild == w[t].blockedChild && (w[t].status.Merged? ==> x.status.Merged?)
    && (t in tree.parent && tree.parent[t] in tree.decomposed && tree.parent[t] in w ==>
          && (Fresh(w[t].status) && !Fresh(x.status) ==> IsNext(tree, w, tree.parent[t], t))
          && (w[t].status.Failed? ==> x.status.Failed? || w[tree.parent[t]].blockedChild.None?))
    && (t in tree.decomposed && x.status.Merged? && !w[t].status.Merged? ==> AllMerged(tree, w, t))
  }

  lemma PrefixIs(w: World, cs: seq<TaskId>, k: nat)
    requires k <= |cs| && forall c :: c in cs ==> c in w
    requires forall i :: 0 <= i < k ==> w[cs[i]].status.Merged?
    requires k < |cs| ==> !w[cs[k]].status.Merged?
    ensures MergedPrefix(w, cs) == k
  {
  }

  /** A family is not disturbed by changes elsewhere, nor by its parent's own status. */
  lemma FamilyFrame(w: World, v: World, p: TaskId, cs: seq<TaskId>)
    requires p in w && p in v && (forall c :: c in cs ==> c in w && c in v && v[c] == w[c]) && FamilyOk(w, p, cs)
    requires v[p].blockedChild == w[p].blockedChild
    requires v[p].status.Merged? ==> w[p].status.Merged? || (cs != [] && forall c :: c in cs ==> w[c].status.Merged?)
    ensures FamilyOk(v, p, cs)
  {
    PrefixIs(v, cs, MergedPrefix(w, cs));
  }

  /** The family of the task that moved: only its first unmerged child may. */
  lemma ChildMoves(w: World, p: TaskId, cs: seq<TaskId>, j: nat, x: Task)
    requires p in w && (forall c :: c in cs ==> c in w) && FamilyOk(w, p, cs)
    requires j < |cs| && p !in cs && forall i :: 0 <= i < |cs| && i != j ==> cs[i] != cs[j]
    requires w[cs[j]].status.Merged? ==> x.status.Merged?
    requires Fresh(w[cs[j]].status) && !Fresh(x.status) ==> j == MergedPrefix(w, cs)
    requires w[cs[j]].status.Failed? ==> x.status.Failed? || w[p].blockedChild.None?
    ensures FamilyOk(w[cs[j] := x], p, cs)
  {
    var v, k := w[cs[j] := x], MergedPrefix(w, cs);
    assert forall i :: 0 <= i < |cs| && i != j ==> v[cs[i]] == w[cs[i]];
    if w[cs[j]].status.Merged? || j > k {
      PrefixIs(v, cs, k);
    } else {
      assert j == k;
      PrefixIs(v, cs, if x.status.Merged? then k + 1 else k);
    }
  }

  lemma StepKeepsFamily(tree: Tree, w: World, t: TaskId, x: Task, p: TaskId)
    requires Sized(tree, w) && FairStep(tree, w, t, x) && p in tree.decomposed && Family(tree, w, p)
    ensures Family(tree, w[t := x], p)
  {
    hide Children, FamilyOk, MergedPrefix;
    ChildrenAreListed(tree, p);
    var cs := Children(tree, p);
    if t in cs {
      var j: nat :| j < |cs| && cs[j] == t;
      OnlyOne(cs, j);
      NextIndex(tree, w, p, j);
      ChildMoves(w, p, cs, j, x);
    } else {
      FamilyFrame(w, w[t := x], p, cs);
    }
  }

  lemma OnlyOne(cs: seq<TaskId>, j: nat)
    requires j < |cs| && forall a, b :: 0 <= a < b < |cs| ==> cs[a] != cs[b]
    ensures forall i :: 0 <= i < |cs| && i != j ==> cs[i] != cs[j]
  {
  }

  lemma NextIndex(tree: Tree, w: World, p: TaskId, j: nat)
    requires WellFormed(tree) && j < |Children(tree, p)| && forall c :: c in Children(tree, p) ==> c in w
    ensures IsNext(tree, w, p, Children(tree, p)[j]) <==> j == MergedPrefix(w, Children(tree, p))
  {
    ChildrenAreListed(tree, p);
    OnlyOne(Children(tree, p), j);
  }

  lemma StepKeeps(tree: Tree, w: World, t: TaskId, x: Task)
    requires Sound(tree, w) && FairStep(tree, w, t, x)
    ensures Sound(tree, w[t := x])
  {
    hide Family, WellFormed;
    var v := w[t := x];
    forall p | p in tree.decomposed ensures Family(tree, v, p) {
      StepKeepsFamily(tree, w, t, x, p);
    }
  }

  /** Why a status request respects the families: what the callers of `updateTaskStatus` look at first. */
  ghost predicate FairRequest(tree: Tree, w: World, t: TaskId, s: Status) {
    && t in w
    && (t in tree.parent && tree.parent[t] in tree.decomposed && tree.parent[t] in w ==>
          && (Fresh(w[t].status) && Listed(Todo, s) ==> IsNext(tree, w, tree.parent[t], t))
          && (w[t].status.Failed? && Listed(Failed, s) ==> w[tree.parent[t]].blockedChild.None?))
    && (t in tree.decomposed && s.Merged? ==> AllMerged(tree, w, t))
  }

  /** Guardrails and the transition table leave a fair request a fair step. */
  lemma FairWrite(tree: Tree, e: Env, w: World, t: TaskId, s: Status)
    requires Sound(tree, w) && FairRequest(tree, w, t, s)
    ensures Sound(tree, Written(e, w, t, s))
  {
    hide Sound, IsNext, AllMerged, Effective;
    var r := Write(e, w, t, s);
    if r.Some? {
      var x := Updated(w[t], s, Effective(e.project(t)), e.now).value;
      assert FairStep(tree, w, t, x);
      StepKeeps(tree, w, t, x);
    }
  }

  lemma ForcedIsFair(tree: Tree, e: Env, w: World, t: TaskId, reason: Reason)
    requires Sound(tree, w)
    ensures Sound(tree, Forcibly(e, w, t, reason))
  {
    hide Sound, IsNext, AllMerged;
    if t in w && Forced(w[t], reason).Some? {
      assert FairStep(tree, w, t, Forced(w[t], reason).value);
      StepKeeps(tree, w, t, Forced(w[t], reason).value);
    }
  }

  lemma RecordKeeps(tree: Tree, w: World, p: TaskId, recorded: Option<TaskId>)
    requires Sound(tree, w) && p in tree.decomposed
    requires recorded.Some? ==>
               IsNext(tree, w, p, recorded.value) && recorded.value in w && w[recorded.value].status.Failed?
    ensures Sound(tree, w[p := w[p].(blockedChild := recorded)])
  {
    hide WellFormed, Children, FamilyOk;
    var v := w[p := w[p].(blockedChild := recorded)];
    forall q | q in tree.decomposed ensures Family(tree, v, q) {
      assert Family(tree, w, q);
      RecordFrame(w, p, recorded, q, Children(tree, q));
    }
  }

  lemma RecordFrame(w: World, p: TaskId, recorded: Option<TaskId>, q: TaskId, cs: seq<TaskId>)
    requires p in w && q in w && (forall c :: c in cs ==> c in w) && FamilyOk(w, q, cs)
    requires q == p && recorded.Some? ==>
               var k := MergedPrefix(w, cs); k < |cs| && cs[k] == recorded.value && w[cs[k]].status.Failed?
    ensures FamilyOk(w[p := w[p].(blockedChild := recorded)], q, cs)
  {
    PrefixIs(w[p := w[p].(blockedChild := recorded)], cs, MergedPrefix(w, cs));
  }

  /** A failed child is its family's first unmerged one. */
  lemma FailedIsNext(tree: Tree, w: World, t: TaskId)
    requires Sound(tree, w) && t in tree.parent && tree.parent[t] in tree.decomposed && t in w && w[t].status.Failed?
    ensures IsNext(tree, w, tree.parent[t], t) && !w[tree.parent[t]].status.Merged?
  {
    hide WellFormed, Children;
    var p := tree.parent[t];
    assert Family(tree, w, p);
    ChildrenAreListed(tree, p);
  }

  lemma ParentBlockedKeeps(tree: Tree, e: Env, w: World, t: TaskId)
    requires Sound(tree, w) && t in tree.parent && tree.parent[t] in tree.decomposed && t in w && w[t].status.Failed?
    ensures Sound(tree, ParentBlocked(e, w, tree.parent[t], t))
  {
    hide Sound, IsNext, AllMerged, Write;
    var p := tree.parent[t];
    SoundCovers(tree, w);
    FailedIsNext(tree, w, t);
    RecordKeeps(tree, w, p, Some(t));
    FairWrite(tree, e, if Fails(e, RecordBlocked, p) then w else w[p := w[p].(blockedChild := Some(t))], p, Blocked);
  }

  lemma SoundCovers(tree: Tree, w: World)
    requires Sound(tree, w)
    ensures Sized(tree, w) && forall c :: c in tree.parent ==> c in w && tree.parent[c] in w
  {
  }

  lemma StartedKeeps(tree: Tree, e: Env, w: World, p: TaskId, c: TaskId)
    requires Sound(tree, w) && IsNext(tree, w, p, c) && c in w && Fresh(w[c].status) && c in tree.parent
             && tree.parent[c] == p
    ensures Sound(tree, Started(e, w, c))
  {
    hide Sound, IsNext, AllMerged, Write;
    FairWrite(tree, e, w, c, ContextLoading);
  }

  /** Climbing keeps every family's layout, whatever fails on the way. */
  lemma {:induction false} SettledKeeps(tree: Tree, e: Env, w: World, t: TaskId)
    requires Sound(tree, w) && t in w
    ensures Sound(tree, Settled(tree, e, w, t))
    decreases Depth(tree, t), 0
  {
    hide WellFormed, Family;
    if (w[t].status.Merged? || w[t].status.Failed?) && t in tree.parent {
      var p := tree.parent[t];
      ParentNearer(tree, t);
      if p in tree.decomposed && w[t].status.Failed? {
        ParentBlockedKeeps(tree, e, w, t);
      }
      AdvancedKeeps(tree, e, w, p);
    }
  }

  lemma ParentNearer(tree: Tree, t: TaskId)
    requires WellFormed(tree) && t in tree.parent
    ensures Depth(tree, tree.parent[t]) < Depth(tree, t)
  {
  }

  lemma {:induction false} AdvancedKeeps(tree: Tree, e: Env, w: World, p: TaskId)
    requires Sound(tree, w)
    ensures Sound(tree, Advanced(tree, e, w, p))
    decreases Depth(tree, p), 1
  {
    hide Sound, WellFormed, Children, Write;
    SoundCovers(tree, w);
    ChildrenAreListed(tree, p);
    var cs := Children(tree, p);
    var k := MergedPrefix(w, cs);
    if k < |cs| {
      if Fresh(w[cs[k]].status) { StartedKeeps(tree, e, w, p, cs[k]); }
    } else if cs != [] {
      assert cs[0] in cs;
      assert AllMerged(tree, w, p);
      var done := Write(e, w, p, Merged);
      FairWrite(tree, e, w, p, Merged);
      if done.Some? { WriteStays(e, w, p, Merged); SettledKeeps(tree, e, done.value, p); }
    }
  }

  lemma WriteStays(e: Env, w: World, t: TaskId, s: Status)
    ensures var r := Write(e, w, t, s); r.Some? ==> t in w && t in r.value && r.value == Written(e, w, t, s)
  {
  }

  /** The guards that turn down every move of a task that has not started, or has failed, to work. */
  ghost predicate Refused(e: Env, w: World, t: TaskId) {
    || t !in w || Fails(e, LoadForUpdate, t) || Fails(e, SaveStatus, t)
    || RetriesSpent(w[t].retries, Effective(e.project(t)).retries)
    || TimedOut(w[t].started, e.now, Effective(e.project(t)).minutes)
  }

  lemma RefusedExactly(e: Env, w: World, t: TaskId, s: Status)
    requires t in w
    requires (Fresh(w[t].status) && Listed(Todo, s)) || (w[t].status.Failed? && Listed(Failed, s))
    ensures Write(e, w, t, s).None? <==> Refused(e, w, t)
    ensures Write(e, w, t, s).Some? ==>
              Write(e, w, t, s).value[t].status == s && Write(e, w, t, s).value == w[t := Write(e, w, t, s).value[t]]
  {
    hide Effective;
  }

  /** The parent is resumed and its failed child restarted: no call fails and no guardrail of the
      child has tripped. */
  ghost predicate Restarts(e: Env, w: World, p: TaskId) {
    && p in w && !Fails(e, LoadForRetry, p) && w[p].status.Blocked? && w[p].blockedChild.Some?
    && !Fails(e, LoadForUpdate, p) && !Fails(e, SaveStatus, p)
    && !Fails(e, LoadForRerun, w[p].blockedChild.value) && !Refused(e, w, w[p].blockedChild.value)
  }

  /** A blocked parent's guardrails never stop the write: they write blocked once more. */
  lemma ResumeWrites(e: Env, w: World, p: TaskId)
    requires p in w && w[p].status.Blocked?
    ensures Write(e, w, p, Coding).Some? <==> !Fails(e, LoadForUpdate, p) && !Fails(e, SaveStatus, p)
  {
    hide Effective;
  }

  lemma RecordedChild(tree: Tree, w: World, p: TaskId)
    requires Sound(tree, w) && p in w && w[p].blockedChild.Some?
    ensures var c := w[p].blockedChild.value;
            p in tree.decomposed && c in w && w[c].status.Failed? && c in tree.parent && tree.parent[c] == p && c != p
  {
    hide WellFormed, Children;
    assert p in tree.decomposed;
    assert Family(tree, w, p);
    ChildrenAreListed(tree, p);
    assert w[p].blockedChild.value in Children(tree, p);
    ParentNearer(tree, w[p].blockedChild.value);
  }

  /** `RetryBlockedParent` keeps the families exactly when the record of the failed child is cleared
      or the child does not restart: a failed clear is only logged, and leaves a stale record. */
  lemma RetryExact(tree: Tree, e: Env, w: World, p: TaskId)
    requires Sound(tree, w)
    ensures Sound(tree, Retried(e, w, p).1) <==> !Fails(e, ClearBlocked, p) || !Restarts(e, w, p)
  {
    hide Sound, Write, AllMerged, IsNext, Refused;
    if p in w && w[p].status.Blocked? { ResumeWrites(e, w, p); }
    if p in w && !Fails(e, LoadForRetry, p) && w[p].status.Blocked? && w[p].blockedChild.Some?
       && Write(e, w, p, Coding).Some? {
      var c := w[p].blockedChild.value;
      RecordedChild(tree, w, p);
      RefusedExactly(e, w, c, Analyzing);
      FairWrite(tree, e, w, p, Coding);
      var w1 := Write(e, w, p, Coding).value;
      WriteTouches(e, w, p, Coding);
      WriteLocal(e, w, w1, c, Analyzing);
      if Fails(e, ClearBlocked, p) {
        WriteTouches(e, w1, c, Analyzing);
        LeavesFailed(tree, e, w1, p, c, Analyzing);
      } else {
        RecordKeeps(tree, w1, p, None);
        var w2 := Cleared(e, w1, p);
        WriteLocal(e, w1, w2, c, Analyzing);
        FairWrite(tree, e, w2, c, Analyzing);
      }
    }
  }

  /** A write changes one record, and depends on that record alone. */
  lemma WriteTouches(e: Env, w: World, t: TaskId, s: Status)
    ensures var v := Written(e, w, t, s);
            (forall u :: u in w && u != t ==> v[u] == w[u]) && (t in w ==> v[t].blockedChild == w[t].blockedChild)
  {
  }

  lemma WriteLocal(e: Env, w: World, v: World, t: TaskId, s: Status)
    requires w.Keys == v.Keys && (t in w ==> v[t] == w[t])
    ensures Write(e, v, t, s).Some? == Write(e, w, t, s).Some?
  {
  }

  /** A failed child that restarts while still recorded breaks its family's layout. */
  lemma LeavesFailed(tree: Tree, e: Env, w: World, p: TaskId, c: TaskId, s: Status)
    requires Sound(tree, w) && p in tree.decomposed && p in w && c in w && c != p && Listed(Failed, s)
    requires w[p].blockedChild == Some(c) && w[c].status.Failed?
    ensures Write(e, w, c, s).Some? ==> !Sound(tree, Write(e, w, c, s).value)
  {
    hide Sound, Effective;
    var r := Write(e, w, c, s);
    if r.Some? {
      RecordedHasFailed(tree, r.value, p);
    }
  }

  lemma RecordedHasFailed(tree: Tree, w: World, p: TaskId)
    requires p in tree.decomposed && p in w && w[p].blockedChild.Some?
    ensures Sound(tree, w) ==> w[p].blockedChild.value in w && w[w[p].blockedChild.value].status.Failed?
  {
    hide WellFormed, Children;
    if Sound(tree, w) {
      assert Family(tree, w, p);
    }
  }

  ghost predicate ChildOfSplit(tree: Tree, t: TaskId) {
    t in tree.parent && tree.parent[t] in tree.decomposed
  }

  /** If `t` is a child that has not been started, it is the next one. */
  ghost predicate InTurn(tree: Tree, w: World, t: TaskId) {
    t in w && ChildOfSplit(tree, t) && Fresh(w[t].status) ==> IsNext(tree, w, tree.parent[t], t)
  }

  /** `Execute` writes nothing: the task has a running job, or cannot be resumed, or is refused. */
  ghost predicate NotExecuted(e: Env, w: World, t: TaskId) {
    || Fails(e, LoadForExecute, t) || e.job(t).Active? || (e.job(t).Paused? && Fails(e, ResumeJob, t))
    || Refused(e, w, t)
  }

  ghost predicate Unmergeable(e: Env, w: World, t: TaskId) {
    t !in w || Fails(e, LoadForUpdate, t) || Fails(e, SaveStatus, t) || !CanMove(w[t].status, Merged)
  }

  /** No child is started out of turn, and no decomposed parent is merged before its children. */
  ghost predicate Orderly(tree: Tree, e: Env, w: World, a: Action) {
    match a
    case Work(t, s) =>
      && (InTurn(tree, w, t) || !Listed(Todo, s) || Refused(e, w, t))
      && (t in tree.decomposed && s.Merged? ==> AllMerged(tree, w, t) || Unmergeable(e, w, t))
    case Execute(t) => InTurn(tree, w, t) || NotExecuted(e, w, t)
    case _ => true
  }

  /** `t` is not a failed child that its parent has on record. */
  ghost predicate Unrecorded(tree: Tree, w: World, t: TaskId) {
    t in w && ChildOfSplit(tree, t) && tree.parent[t] in w && w[t].status.Failed? ==>
      w[tree.parent[t]].blockedChild.None?
  }

  /** And what the record needs besides: a failed child on record is left to `RetryBlockedParent`,
      whose clearing write succeeds unless nothing restarts. */
  ghost predicate RecordSafe(tree: Tree, e: Env, w: World, a: Action) {
    match a
    case Work(t, s) => Unrecorded(tree, w, t) || !Listed(Failed, s) || Refused(e, w, t)
    case RetryStep(t) => Unrecorded(tree, w, t) || Fails(e, LoadForRerun, t) || Refused(e, w, t)
    case Execute(t) => Unrecorded(tree, w, t) || NotExecuted(e, w, t)
    case Retry(p) => !Fails(e, ClearBlocked, p) || !Restarts(e, w, p)
    case _ => true
  }

  ghost predicate Allowed(tree: Tree, e: Env, w: World, a: Action) {
    Orderly(tree, e, w, a) && RecordSafe(tree, e, w, a)
  }

  lemma ActKeeps(tree: Tree, e: Env, w: World, a: Action)
    requires Sound(tree, w) && Allowed(tree, e, w, a)
    ensures Sound(tree, Act(tree, e, w, a))
  {
    hide Sound, Write, IsNext, AllMerged, Settled, Advanced, Retried, Forcibly, Sized, Restarts, Refused, Started,
         Rerun, InTurn, Unrecorded;
    SoundCovers(tree, w);
    match a
    case Work(t, s) =>
      WriteNeedsTask(e, w, t, s);
      if Write(e, w, t, s).Some? {
        WorkIsFair(tree, e, w, t, s);
        FairWrite(tree, e, w, t, s);
        WriteStays(e, w, t, s);
        SettledKeeps(tree, e, Write(e, w, t, s).value, t);
      }
    case ForceBlock(t, reason) => ForcedIsFair(tree, e, w, t, reason);
    case Dispatch(p) => AdvancedKeeps(tree, e, w, p);
    case Retry(p) => RetryExact(tree, e, w, p);
    case RetryStep(t) => RerunExact(tree, e, w, t);
    case Execute(t) => StartKeeps(tree, e, w, t);
  }

  lemma WorkIsFair(tree: Tree, e: Env, w: World, t: TaskId, s: Status)
    requires t in w && Write(e, w, t, s).Some? && Allowed(tree, e, w, Work(t, s))
    ensures FairRequest(tree, w, t, s)
  {
    hide IsNext, AllMerged, Effective;
    if (Fresh(w[t].status) && Listed(Todo, s)) || (w[t].status.Failed? && Listed(Failed, s)) {
      RefusedExactly(e, w, t, s);
    }
  }

  lemma StartKeeps(tree: Tree, e: Env, w: World, t: TaskId)
    requires Sound(tree, w) && Allowed(tree, e, w, Action.Execute(t))
    ensures Sound(tree, Started(e, w, t))
  {
    hide Sound, IsNext, AllMerged, Refused, Write;
    if t in w && (Fresh(w[t].status) || w[t].status.Failed?) {
      RefusedExactly(e, w, t, ContextLoading);
      WriteNothing(e, w, t, ContextLoading);
      if !NotExecuted(e, w, t) { FairWrite(tree, e, w, t, ContextLoading); }
    }
  }

  /** A direct retry of a task keeps families and records exactly when the task is not a failed child
      on record, or the retry is turned down. */
  lemma RerunExact(tree: Tree, e: Env, w: World, t: TaskId)
    requires Sound(tree, w)
    ensures Sound(tree, Rerun(e, w, t).1) <==> Unrecorded(tree, w, t) || Fails(e, LoadForRerun, t) || Refused(e, w, t)
  {
    hide Sound, IsNext, AllMerged, Rerun, Write, Written, Refused;
    RerunWrites(e, w, t);
    if Unrecorded(tree, w, t) {
      if t in w && !Fresh(w[t].status) { FairWrite(tree, e, w, t, Analyzing); }
    } else {
      var p := tree.parent[t];
      OnRecord(tree, w, t);
      RefusedExactly(e, w, t, Analyzing);
      WriteNothing(e, w, t, Analyzing);
      RerunOfFailed(e, w, t);
      LeavesFailed(tree, e, w, p, t, Analyzing);
    }
  }

  /** A failed child whose parent has a record is the recorded one. */
  lemma OnRecord(tree: Tree, w: World, t: TaskId)
    requires Sound(tree, w) && !Unrecorded(tree, w, t)
    ensures w[tree.parent[t]].blockedChild == Some(t) && t != tree.parent[t]
  {
    hide Sound, IsNext, AllMerged;
    var p := tree.parent[t];
    FailedIsNext(tree, w, t);
    RecordedIsNext(tree, w, p);
    OneNext(tree, w, p, t, w[p].blockedChild.value);
    RecordedChild(tree, w, p);
  }

  lemma RerunOfFailed(e: Env, w: World, t: TaskId)
    requires t in w && w[t].status.Failed?
    ensures Rerun(e, w, t).1 == if Fails(e, LoadForRerun, t) then w else Written(e, w, t, Analyzing)
  {
  }

  lemma RecordedIsNext(tree: Tree, w: World, p: TaskId)
    requires Sound(tree, w) && p in tree.decomposed && p in w && w[p].blockedChild.Some?
    ensures IsNext(tree, w, p, w[p].blockedChild.value)
  {
    hide WellFormed, Children;
    assert Family(tree, w, p);
  }

  lemma OneNext(tree: Tree, w: World, p: TaskId, a: TaskId, b: TaskId)
    requires IsNext(tree, w, p, a) && IsNext(tree, w, p, b)
    ensures a == b
  {
  }

  lemma WriteNothing(e: Env, w: World, t: TaskId, s: Status)
    ensures Write(e, w, t, s).None? ==> Written(e, w, t, s) == w
    ensures Write(e, w, t, s).Some? ==> Written(e, w, t, s) == Write(e, w, t, s).value
  {
  }

  lemma RerunWrites(e: Env, w: World, t: TaskId)
    ensures Rerun(e, w, t).1 == w || (t in w && !Fresh(w[t].status) && Rerun(e, w, t).1 == Written(e, w, t, Analyzing))
  {
  }

  lemma StartedWrites(e: Env, w: World, t: TaskId)
    ensures Started(e, w, t) == w || (t in w && Started(e, w, t) == Written(e, w, t, ContextLoading))
  {
  }

  lemma WriteNeedsTask(e: Env, w: World, t: TaskId, s: Status)
    ensures Write(e, w, t, s).Some? ==> t in w
  {
  }

  datatype Event = Event(env: Env, action: Action)

  ghost function WorldAfter(tree: Tree, w: World, events: seq<Event>): (r: World)
    requires Sized(tree, w)
    ensures r.Keys == w.Keys
    decreases |events|
  {
    if events == [] then w else WorldAfter(tree, Act(tree, events[0].env, w, events[0].action), events[1..])
  }

  ghost predicate AllAllowed(tree: Tree, w: World, events: seq<Event>)
    requires Sized(tree, w)
    decreases |events|
  {
    events != [] ==>
      && Allowed(tree, events[0].env, w, events[0].action)
      && AllAllowed(tree, Act(tree, events[0].env, w, events[0].action), events[1..])
  }

  /** Over every run of such calls: each family keeps its layout, and a recorded child is the first
      unmerged one and has failed. */
  lemma {:induction false} EveryRun(tree: Tree, w: World, events: seq<Event>)
    requires Sound(tree, w) && AllAllowed(tree, w, events)
    ensures Sound(tree, WorldAfter(tree, w, events))
    decreases |events|
  {
    if events != [] {
      ActKeeps(tree, events[0].env, w, events[0].action);
      EveryRun(tree, Act(tree, events[0].env, w, events[0].action), events[1..]);
    }
  }

  /** Approved splits start sound: no child started, no record, no decomposed parent merged. */
  lemma FreshSplitsAreSound(tree: Tree, w: World)
    requires Sized(tree, w)
    requires forall t :: t in w ==> w[t].blockedChild.None?
    requires forall p :: p in tree.decomposed ==> !w[p].status.Merged?
    requires forall c :: c in tree.parent && tree.parent[c] in tree.decomposed ==> Fresh(w[c].status)
    ensures Sound(tree, w)
  {
    hide WellFormed, Children;
    forall p | p in tree.decomposed ensures Family(tree, w, p) {
      ChildrenAreListed(tree, p);
    }
  }

  /** Every task is within its project's retry limit. */
  ghost predicate AllWithin(e: Env, w: World) {
    forall t :: t in w ==> WithinLimit(w[t], Effective(e.project(t)).retries)
  }

  /** No task is taken out of merged, and none is put past its limit. */
  ghost predicate Kept(e: Env, w: World, v: World) {
    && w.Keys == v.Keys && (forall t :: t in w && w[t].status.Merged? ==> v[t].status.Merged?)
    && (AllWithin(e, w) ==> AllWithin(e, v))
  }

  lemma WrittenKept(e: Env, w: World, t: TaskId, s: Status)
    ensures Kept(e, w, Written(e, w, t, s))
  {
    hide Effective, CanMove, Guarded;
    var r := Write(e, w, t, s);
    if r.Some? {
      var limits := Effective(e.project(t));
      MergedStays(w[t], s, limits, e.now);
      if AllWithin(e, w) { CallKeepsLimit(w[t], Update(s, e.now, limits), limits.retries); }
    }
  }

  lemma MergedStays(task: Task, s: Status, limits: Limits, now: int)
    ensures task.status.Merged? && Updated(task, s, limits, now).Some? ==>
              Updated(task, s, limits, now).value.status.Merged?
  {
  }

  lemma RecordKept(e: Env, w: World, p: TaskId, recorded: Option<TaskId>)
    ensures p in w ==> Kept(e, w, w[p := w[p].(blockedChild := recorded)])
  {
    hide Effective;
  }

  lemma ParentBlockedKept(e: Env, w: World, p: TaskId, child: TaskId)
    ensures p in w ==> Kept(e, w, ParentBlocked(e, w, p, child))
  {
    hide Written;
    if p in w {
      RecordKept(e, w, p, Some(child));
      WrittenKept(e, w, p, Blocked);
      WrittenKept(e, w[p := w[p].(blockedChild := Some(child))], p, Blocked);
    }
  }

  lemma {:induction false} SettledKept(tree: Tree, e: Env, w: World, t: TaskId)
    requires Sized(tree, w) && t in w
    ensures Kept(e, w, Settled(tree, e, w, t))
    decreases Depth(tree, t), 0
  {
    hide WellFormed, Children, ParentBlocked;
    if (w[t].status.Merged? || w[t].status.Failed?) && t in tree.parent {
      ParentNearer(tree, t);
      ParentBlockedKept(e, w, tree.parent[t], t);
      AdvancedKept(tree, e, w, tree.parent[t]);
    }
  }

  lemma {:induction false} AdvancedKept(tree: Tree, e: Env, w: World, p: TaskId)
    requires Sized(tree, w)
    ensures Kept(e, w, Advanced(tree, e, w, p))
    decreases Depth(tree, p), 1
  {
    hide WellFormed, Children, Write, AllWithin, Written;
    ChildrenAreListed(tree, p);
    var cs := Children(tree, p);
    forall c | c in cs ensures Kept(e, w, Started(e, w, c)) { WrittenKept(e, w, c, ContextLoading); }
    var done := Write(e, w, p, Merged);
    if done.Some? {
      WriteStays(e, w, p, Merged);
      WrittenKept(e, w, p, Merged);
      SettledKept(tree, e, done.value, p);
    }
  }

  /** Merged is final, and the retry limit holds of every task, through every call with its climb. */
  lemma EveryCallKeeps(tree: Tree, e: Env, w: World, a: Action)
    requires Sized(tree, w)
    ensures Kept(e, w, Act(tree, e, w, a))
  {
    hide Sized, Settled, Advanced, AllWithin, Written, Effective, Write;
    match a
    case Work(t, s) =>
      var r := Write(e, w, t, s);
      if r.Some? {
        WriteStays(e, w, t, s);
        WrittenKept(e, w, t, s);
        SizedStays(tree, w, r.value);
        SettledKept(tree, e, r.value, t);
      }
    case ForceBlock(t, reason) => ForcedKept(e, w, t, reason);
    case Dispatch(p) => AdvancedKept(tree, e, w, p);
    case Retry(p) => RetriedKept(e, w, p);
    case RetryStep(t) => WrittenKept(e, w, t, Analyzing); RerunWrites(e, w, t); SameKept(e, w);
    case Execute(t) => WrittenKept(e, w, t, ContextLoading); StartedWrites(e, w, t); SameKept(e, w);
  }

  lemma SameKept(e: Env, w: World)
    ensures Kept(e, w, w)
  {
  }

  lemma ForcedKept(e: Env, w: World, t: TaskId, reason: Reason)
    ensures Kept(e, w, Forcibly(e, w, t, reason))
  {
    hide Effective;
    if t in w && AllWithin(e, w) { CallKeepsLimit(w[t], Block(reason), Effective(e.project(t)).retries); }
  }

  lemma RetriedKept(e: Env, w: World, p: TaskId)
    ensures Kept(e, w, Retried(e, w, p).1)
  {
    hide AllWithin, Written, Effective, Write;
    WrittenKept(e, w, p, Coding);
    WriteStays(e, w, p, Coding);
    if p in w && w[p].blockedChild.Some? && Write(e, w, p, Coding).Some? {
      var w1, c := Write(e, w, p, Coding).value, w[p].blockedChild.value;
      RecordKept(e, w1, p, None);
      WrittenKept(e, w1, c, Analyzing);
      WriteStays(e, w1, c, Analyzing);
      WrittenKept(e, Cleared(e, w1, p), c, Analyzing);
      WriteStays(e, Cleared(e, w1, p), c, Analyzing);
    }
  }

  lemma SizedStays(tree: Tree, w: World, v: World)
    requires Sized(tree, w) && v.Keys == w.Keys
    ensures Sized(tree, v)
  {
  }

  /** With nothing failing, merging child `k` starts child `k + 1` in the same call when that child
      has no job and no spent guardrail; merging the last one merges the parent. */
  lemma MergeMovesOn(tree: Tree, e: Env, w: World, p: TaskId, k: nat)
    requires Sound(tree, w) && p in tree.decomposed && e.broken == {}
    requires k < |Children(tree, p)| && IsNext(tree, w, p, Children(tree, p)[k])
             && CanMove(w[Children(tree, p)[k]].status, Merged)
    ensures var cs := Children(tree, p);
            var v := Act(tree, e, w, Work(cs[k], Merged));
            && v[cs[k]].status.Merged?
            && (k + 1 == |cs| && CanMove(w[p].status, Merged) ==> v[p].status.Merged?)
            && (k + 1 < |cs| && CanStart(e, w, cs[k + 1]) ==> v[cs[k + 1]].status.ContextLoading?)
  {
    hide WellFormed, Children, Sound, Advanced, IsNext, Sized, Write;
    var cs := Children(tree, p);
    var c := cs[k];
    SoundCovers(tree, w);
    ChildrenAreListed(tree, p);
    ParentNearer(tree, c);
    NextIndex(tree, w, p, k);
    MergedPrefixGrows(tree, e, w, p, k);
    var w1 := Written(e, w, c, Merged);
    SizedStays(tree, w, w1);
    AdvancedKept(tree, e, w1, p);
    if k + 1 == |cs| {
      LastMerge(tree, e, w1, p);
      CanMerge(e, w, w1, p);
    } else {
      NextStart(tree, e, w1, p, k + 1);
    }
  }

  /** No job, never run, and retries left. */
  predicate CanStart(e: Env, w: World, c: TaskId) {
    c in w && e.job(c).Idle? && w[c].started.None? && w[c].retries < Effective(e.project(c)).retries
  }

  lemma CanMerge(e: Env, w: World, v: World, p: TaskId)
    requires p in w && p in v && v[p] == w[p] && e.broken == {}
    ensures CanMove(w[p].status, Merged) ==>
              Write(e, v, p, Merged).Some? && Write(e, v, p, Merged).value[p].status.Merged?
  {
  }

  lemma MergedPrefixGrows(tree: Tree, e: Env, w: World, p: TaskId, k: nat)
    requires Sound(tree, w) && p in tree.decomposed && e.broken == {}
    requires k < |Children(tree, p)| && k == MergedPrefix(w, Children(tree, p))
             && CanMove(w[Children(tree, p)[k]].status, Merged)
    ensures var cs := Children(tree, p);
            var r := Write(e, w, cs[k], Merged);
            && r.Some? && r.value == Written(e, w, cs[k], Merged) && r.value[cs[k]].status.Merged? && cs[k] != p
            && (forall t :: t in w && t != cs[k] ==> r.value[t] == w[t])
            && MergedPrefix(r.value, cs) == k + 1
            && (k + 1 < |cs| ==> cs[k + 1] != cs[k] && Fresh(w[cs[k + 1]].status))
  {
    hide WellFormed, Children, Effective;
    var cs := Children(tree, p);
    assert Family(tree, w, p);
    ChildrenAreListed(tree, p);
    OnlyOne(cs, k);
    ParentNearer(tree, cs[k]);
    var w1 := Write(e, w, cs[k], Merged).value;
    assert forall i :: 0 <= i < |cs| && i != k ==> w1[cs[i]] == w[cs[i]];
    if k + 1 < |cs| { assert Fresh(w[cs[k + 1]].status); }
    PrefixIs(w1, cs, k + 1);
  }

  lemma LastMerge(tree: Tree, e: Env, w: World, p: TaskId)
    requires Sized(tree, w) && e.broken == {} && p in w && Children(tree, p) != []
    requires (forall c :: c in Children(tree, p) ==> c in w)
             && MergedPrefix(w, Children(tree, p)) == |Children(tree, p)|
    ensures Write(e, w, p, Merged).Some? && Write(e, w, p, Merged).value[p].status.Merged? ==>
              Advanced(tree, e, w, p)[p].status.Merged?
  {
    hide Sized, Children, MergedPrefix, Settled, Write;
    var done := Write(e, w, p, Merged);
    if done.Some? {
      WriteStays(e, w, p, Merged);
      SizedStays(tree, w, done.value);
      SettledKept(tree, e, done.value, p);
    }
  }

  lemma NextStart(tree: Tree, e: Env, w: World, p: TaskId, k: nat)
    requires Sized(tree, w) && e.broken == {} && k < |Children(tree, p)|
    requires (forall c :: c in Children(tree, p) ==> c in w) && MergedPrefix(w, Children(tree, p)) == k
    requires Fresh(w[Children(tree, p)[k]].status)
    ensures CanStart(e, w, Children(tree, p)[k]) ==>
              Advanced(tree, e, w, p)[Children(tree, p)[k]].status.ContextLoading?
  {
    hide Sized, Children, MergedPrefix, Settled, Effective;
  }

  /** A parent with two children, in this order. */
  function Pair(p: TaskId, a: TaskId, b: TaskId): Tree {
    Tree(map[a := p, b := p], {p}, map[p := [a, b]], map[a := 0, b := 1], map[a := 1, b := 1, p := 0])
  }

  function Calm(broken: set<(Site, TaskId)>): Env {
    Env(0, (_: TaskId) => None, (_: TaskId) => Idle, broken)
  }

  function Plain(s: Status, blockedChild: Option<TaskId>): Task {
    Task(s, 0, Some(0), NoReason, blockedChild)
  }

  function Trio(p: TaskId, a: TaskId, b: TaskId, parent: Status, first: Status, second: Status): World {
    map[p := Plain(parent, Some(a)), a := Plain(first, None), b := Plain(second, None)]
  }

  lemma PairShape(p: TaskId, a: TaskId, b: TaskId)
    requires p != a && p != b && a != b
    ensures WellFormed(Pair(p, a, b)) && Children(Pair(p, a, b), p) == [a, b]
  {
    var seqs := map[a := 0, b := 1];
    assert [a, b][..1] == [a] && [a][..0] == [];
    assert SortBySequence(seqs, []) == [];
    assert Insert(seqs, a, []) == [a] && Insert(seqs, b, []) == [b];
    assert SortBySequence(seqs, [a]) == [a];
    assert [a][1..] == [];
    assert Insert(seqs, b, [a]) == [a] + Insert(seqs, b, []);
    assert [a] + [b] == [a, b];
  }

  /** Away from the guardrails an allowed write just sets the status. */
  lemma PlainWrite(e: Env, w: World, t: TaskId, to: Status)
    requires t in w && w[t] == Plain(w[t].status, w[t].blockedChild) && CanMove(w[t].status, to)
             && !w[t].status.Testing? && !to.Fixing?
    requires e.now == 0 && e.project(t).None? && !Fails(e, LoadForUpdate, t) && !Fails(e, SaveStatus, t)
    ensures Write(e, w, t, to) == Some(w[t := Plain(to, w[t].blockedChild)])
  {
  }

  lemma RetryWithoutClearing(p: TaskId, a: TaskId, b: TaskId)
    requires p != a && p != b && a != b
    ensures Retried(Calm({(ClearBlocked, p)}), Trio(p, a, b, Blocked, Failed, Todo), p).1
            == Trio(p, a, b, Coding, Analyzing, Todo)
  {
    hide Write;
    var e := Calm({(ClearBlocked, p)});
    var w, w1 := Trio(p, a, b, Blocked, Failed, Todo), Trio(p, a, b, Coding, Failed, Todo);
    PlainWrite(e, w, p, Coding);
    PlainWrite(e, w1, a, Analyzing);
    assert w[p := Plain(Coding, Some(a))] == w1;
    assert w1[a := Plain(Analyzing, None)] == Trio(p, a, b, Coding, Analyzing, Todo);
  }

  lemma FirstMerges(p: TaskId, a: TaskId, b: TaskId)
    requires p != a && p != b && a != b && Sized(Pair(p, a, b), Trio(p, a, b, Coding, Analyzing, Todo))
    requires Children(Pair(p, a, b), p) == [a, b]
    ensures Act(Pair(p, a, b), Calm({}), Trio(p, a, b, Coding, Analyzing, Todo), Work(a, Merged))
            == Trio(p, a, b, Coding, Merged, ContextLoading)
  {
    hide Sized, Children, WellFormed, Write, Advanced;
    var tree, e, w := Pair(p, a, b), Calm({}), Trio(p, a, b, Coding, Analyzing, Todo);
    var w1 := Trio(p, a, b, Coding, Merged, Todo);
    PlainWrite(e, w, a, Merged);
    assert w[a := Plain(Merged, None)] == w1;
    SizedStays(tree, w, w1);
    SecondStarts(p, a, b);
  }

  lemma SecondStarts(p: TaskId, a: TaskId, b: TaskId)
    requires p != a && p != b && a != b && Sized(Pair(p, a, b), Trio(p, a, b, Coding, Merged, Todo))
    requires Children(Pair(p, a, b), p) == [a, b]
    ensures Advanced(Pair(p, a, b), Calm({}), Trio(p, a, b, Coding, Merged, Todo), p)
            == Trio(p, a, b, Coding, Merged, ContextLoading)
  {
    hide Sized, Children, WellFormed, Write, Settled;
    var e, w := Calm({}), Trio(p, a, b, Coding, Merged, Todo);
    PrefixIs(w, [a, b], 1);
    PlainWrite(e, w, b, ContextLoading);
    assert w[b := Plain(ContextLoading, None)] == Trio(p, a, b, Coding, Merged, ContextLoading);
  }

  /** A retry whose clearing write fails leaves `a` recorded after `a` has merged and `b` has become
      the child that runs: the recorded child is then not the one in progress. */
  lemma FailedClearGoesStale(p: TaskId, a: TaskId, b: TaskId)
    requires p != a && p != b && a != b
    ensures var tree, w := Pair(p, a, b), Trio(p, a, b, Blocked, Failed, Todo);
            Sound(tree, w)
            && var v := WorldAfter(tree, w,
                                   [Event(Calm({(ClearBlocked, p)}), Retry(p)), Event(Calm({}), Work(a, Merged))]);
               v[p].blockedChild == Some(a) && v[a].status.Merged? && v[b].status.ContextLoading?
  {
    hide Act, Children, WellFormed, Retried;
    var tree, w := Pair(p, a, b), Trio(p, a, b, Blocked, Failed, Todo);
    PairShape(p, a, b);
    PrefixIs(w, [a, b], 0);
    assert Family(tree, w, p);
    var one, two := Event(Calm({(ClearBlocked, p)}), Retry(p)), Event(Calm({}), Work(a, Merged));
    RetryActs(tree, one.env, w, p);
    RetryWithoutClearing(p, a, b);
    FirstMerges(p, a, b);
    TwoEvents(tree, w, one, two);
  }

  lemma RetryActs(tree: Tree, e: Env, w: World, p: TaskId)
    requires Sized(tree, w)
    ensures Act(tree, e, w, Retry(p)) == Retried(e, w, p).1
  {
  }

  lemma TwoEvents(tree: Tree, w: World, one: Event, two: Event)
    requires Sized(tree, w)
    ensures WorldAfter(tree, w, [one, two]) == Act(tree, two.env, Act(tree, one.env, w, one.action), two.action)
  {
    hide Act;
    var w1 := Act(tree, one.env, w, one.action);
    assert [one, two][1..] == [two] && [two][1..] == [];
    assert WorldAfter(tree, w1, [two]) == Act(tree, two.env, w1, two.action);
  }
}
