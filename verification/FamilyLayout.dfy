/** server/internal/orchestrator/decomposition.go: what holds of a family whatever becomes of the
    parent's record of a failed child. */
module FamilyLayout {
  import opened Options
  import opened TaskTracker
  import opened Decomposition

  /** Every family has its layout. */
  ghost predicate LaidOut(tree: Tree, w: World) {
    Sized(tree, w) && forall p :: p in tree.decomposed ==> LaidOutFamily(tree, w, p)
  }

  ghost predicate LaidOutFamily(tree: Tree, w: World, p: TaskId) {
    p in w && (forall c :: c in Children(tree, p) ==> c in w) && Layout(w, p, Children(tree, p))
  }

  /** The world without its records. */
  ghost function Stripped(w: World): (v: World)
    ensures v.Keys == w.Keys && forall t :: t in w ==> v[t] == w[t].(blockedChild := None)
  {
    map t | t in w :: w[t].(blockedChild := None)
  }

  lemma LayoutStripped(w: World, v: World, p: TaskId, cs: seq<TaskId>)
    requires p in w && p in v && forall c :: c in cs ==> c in w && c in v && v[c].status == w[c].status
    requires v[p].status == w[p].status
    ensures Layout(w, p, cs) <==> Layout(v, p, cs)
  {
    PrefixIs(v, cs, MergedPrefix(w, cs));
  }

  /** A laid out world is a sound one but for its records. */
  lemma SoundStripped(tree: Tree, w: World)
    ensures LaidOut(tree, w) <==> Sound(tree, Stripped(w))
  {
    hide WellFormed, Children, Layout;
    var v := Stripped(w);
    forall p | p in tree.decomposed ensures LaidOutFamily(tree, w, p) <==> Family(tree, v, p) {
      if p in w && forall c :: c in Children(tree, p) ==> c in w {
        LayoutStripped(w, v, p, Children(tree, p));
      }
    }
  }

  /** Nobody but the dispatcher starts a child, and a decomposed parent is merged after its children. */
  ghost predicate OrderlyRequest(tree: Tree, w: World, t: TaskId, s: Status) {
    && t in w
    && (ChildOfSplit(tree, t) && Fresh(w[t].status) && Listed(Todo, s) ==> IsNext(tree, w, tree.parent[t], t))
    && (t in tree.decomposed && s.Merged? ==> AllMerged(tree, w, t))
  }

  lemma NextStripped(tree: Tree, w: World, p: TaskId, c: TaskId)
    ensures IsNext(tree, w, p, c) ==> IsNext(tree, Stripped(w), p, c)
    ensures AllMerged(tree, w, p) ==> AllMerged(tree, Stripped(w), p)
  {
    var cs := Children(tree, p);
    hide Children;
    if forall d :: d in cs ==> d in w {
      PrefixIs(Stripped(w), cs, MergedPrefix(w, cs));
    }
  }

  lemma WriteKeeps(tree: Tree, e: Env, w: World, t: TaskId, s: Status)
    requires LaidOut(tree, w) && OrderlyRequest(tree, w, t, s)
    ensures LaidOut(tree, Written(e, w, t, s))
  {
    hide LaidOut, Sound, IsNext, AllMerged, Effective;
    var r := Write(e, w, t, s);
    if r.Some? {
      var x := Updated(w[t], s, Effective(e.project(t)), e.now).value;
      StepLaidOut(tree, w, t, x, s);
    }
  }

  lemma StepLaidOut(tree: Tree, w: World, t: TaskId, x: Task, s: Status)
    requires LaidOut(tree, w) && OrderlyRequest(tree, w, t, s) && CanMove(w[t].status, x.status)
    requires x.status == s || (x.status.Blocked? && !Exempt(s))
    ensures LaidOut(tree, w[t := x])
  {
    hide LaidOut, Sound, IsNext, AllMerged;
    var v, y := Stripped(w), x.(blockedChild := None);
    SoundStripped(tree, w);
    NextStripped(tree, w, t, t);
    if t in tree.parent { NextStripped(tree, w, tree.parent[t], t); }
    assert FairStep(tree, v, t, y);
    StepKeeps(tree, v, t, y);
    assert Stripped(w[t := x]) == v[t := y];
    SoundStripped(tree, w[t := x]);
  }

  lemma RecordKeeps(tree: Tree, w: World, p: TaskId, recorded: Option<TaskId>)
    requires LaidOut(tree, w) && p in w
    ensures LaidOut(tree, w[p := w[p].(blockedChild := recorded)])
  {
    hide LaidOut, Sound;
    var v := w[p := w[p].(blockedChild := recorded)];
    SoundStripped(tree, w);
    SoundStripped(tree, v);
    assert Stripped(v) == Stripped(w);
  }

  lemma Covered(tree: Tree, w: World)
    requires LaidOut(tree, w)
    ensures Sized(tree, w) && forall c :: c in tree.parent ==> c in w && tree.parent[c] in w
  {
  }

  lemma BlockedKeeps(tree: Tree, e: Env, w: World, p: TaskId, child: TaskId)
    requires LaidOut(tree, w) && p in w
    ensures LaidOut(tree, ParentBlocked(e, w, p, child))
  {
    hide LaidOut, IsNext, AllMerged, Write;
    RecordKeeps(tree, w, p, Some(child));
    var marked := if Fails(e, RecordBlocked, p) then w else w[p := w[p].(blockedChild := Some(child))];
    WriteKeeps(tree, e, marked, p, Blocked);
  }

  lemma {:induction false} ClimbKeeps(tree: Tree, e: Env, w: World, t: TaskId)
    requires LaidOut(tree, w) && t in w
    ensures Sized(tree, w) && LaidOut(tree, Settled(tree, e, w, t))
    decreases Depth(tree, t), 0
  {
    hide LaidOut, WellFormed, ParentBlocked;
    Covered(tree, w);
    if (w[t].status.Merged? || w[t].status.Failed?) && t in tree.parent {
      ParentNearer(tree, t);
      BlockedKeeps(tree, e, w, tree.parent[t], t);
      DispatchKeeps(tree, e, w, tree.parent[t]);
    }
  }

  lemma {:induction false} DispatchKeeps(tree: Tree, e: Env, w: World, p: TaskId)
    requires LaidOut(tree, w)
    ensures Sized(tree, w) && LaidOut(tree, Advanced(tree, e, w, p))
    decreases Depth(tree, p), 1
  {
    hide LaidOut, WellFormed, Children, Write, Written;
    Covered(tree, w);
    ChildrenAreListed(tree, p);
    var cs := Children(tree, p);
    var k := MergedPrefix(w, cs);
    if k < |cs| {
      WriteKeeps(tree, e, w, cs[k], ContextLoading);
      StartedWrites(e, w, cs[k]);
    } else if cs != [] {
      assert cs[0] in cs;
      WriteKeeps(tree, e, w, p, Merged);
      WriteStays(e, w, p, Merged);
      var done := Write(e, w, p, Merged);
      if done.Some? { ClimbKeeps(tree, e, done.value, p); }
    }
  }

  lemma RetryKeeps(tree: Tree, e: Env, w: World, p: TaskId)
    requires LaidOut(tree, w)
    ensures LaidOut(tree, Retried(e, w, p).1)
  {
    hide LaidOut, Write, IsNext, AllMerged, Written, Rerun;
    if p in w && w[p].status.Blocked? && w[p].blockedChild.Some? && Write(e, w, p, Coding).Some? {
      WriteKeeps(tree, e, w, p, Coding);
      WriteStays(e, w, p, Coding);
      var w1 := Write(e, w, p, Coding).value;
      RecordKeeps(tree, w1, p, None);
      RerunKeeps(tree, e, Cleared(e, w1, p), w[p].blockedChild.value);
    }
  }

  lemma RerunKeeps(tree: Tree, e: Env, w: World, t: TaskId)
    requires LaidOut(tree, w)
    ensures LaidOut(tree, Rerun(e, w, t).1)
  {
    hide LaidOut, IsNext, AllMerged, Written, Rerun;
    RerunWrites(e, w, t);
    if t in w && !Fresh(w[t].status) { WriteKeeps(tree, e, w, t, Analyzing); }
  }

  lemma ForceKeeps(tree: Tree, e: Env, w: World, t: TaskId, reason: Reason)
    requires LaidOut(tree, w)
    ensures LaidOut(tree, Forcibly(e, w, t, reason))
  {
    hide LaidOut, IsNext, AllMerged;
    if t in w && Forced(w[t], reason).Some? {
      var x := Forced(w[t], reason).value;
      if Exempt(w[t].status) { assert w[t := x] == w; } else { StepLaidOut(tree, w, t, x, Blocked); }
    }
  }

  /** One orderly call. */
  lemma ActLaidOut(tree: Tree, e: Env, w: World, a: Action)
    requires LaidOut(tree, w) && Orderly(tree, e, w, a)
    ensures Sized(tree, w) && LaidOut(tree, Act(tree, e, w, a))
  {
    hide LaidOut, Write, IsNext, AllMerged, Settled, Advanced, Retried, Forcibly, Sized, Rerun, Started, InTurn,
         Refused;
    Covered(tree, w);
    match a
    case Work(t, s) =>
      WriteNeedsTask(e, w, t, s);
      if Write(e, w, t, s).Some? {
        WorkIsOrderly(tree, e, w, t, s);
        WriteKeeps(tree, e, w, t, s);
        WriteStays(e, w, t, s);
        ClimbKeeps(tree, e, Write(e, w, t, s).value, t);
      }
    case ForceBlock(t, reason) => ForceKeeps(tree, e, w, t, reason);
    case Dispatch(p) => DispatchKeeps(tree, e, w, p);
    case Retry(p) => RetryKeeps(tree, e, w, p);
    case RetryStep(t) => RerunKeeps(tree, e, w, t);
    case Execute(t) => ExecuteExact(tree, e, w, t);
  }

  lemma WorkIsOrderly(tree: Tree, e: Env, w: World, t: TaskId, s: Status)
    requires t in w && Write(e, w, t, s).Some? && Orderly(tree, e, w, Work(t, s))
    ensures OrderlyRequest(tree, w, t, s)
  {
    hide IsNext, AllMerged, Effective;
    if Fresh(w[t].status) && Listed(Todo, s) { RefusedExactly(e, w, t, s); }
  }

  ghost predicate AllOrderly(tree: Tree, w: World, events: seq<Event>)
    requires Sized(tree, w)
    decreases |events|
  {
    events != [] ==>
      && Orderly(tree, events[0].env, w, events[0].action)
      && AllOrderly(tree, Act(tree, events[0].env, w, events[0].action), events[1..])
  }

  /** Over every orderly run, whatever fails and whoever retries: each family stays merged up to some
      child, that child in any state, the rest not started, and its parent is merged only when all
      of it is. */
  lemma {:induction false} EveryRunLaidOut(tree: Tree, w: World, events: seq<Event>)
    requires LaidOut(tree, w) && AllOrderly(tree, w, events)
    ensures LaidOut(tree, WorldAfter(tree, w, events))
    decreases |events|
  {
    hide LaidOut, Act, Orderly, Sized;
    Covered(tree, w);
    if events != [] {
      var next := Act(tree, events[0].env, w, events[0].action);
      ActLaidOut(tree, events[0].env, w, events[0].action);
      Covered(tree, next);
      EveryRunLaidOut(tree, next, events[1..]);
    }
  }

  /** The layout in full: a position `k` before which all have merged and after which none has started. */
  lemma LayoutHas(tree: Tree, w: World, p: TaskId) returns (k: nat)
    requires LaidOut(tree, w) && p in tree.decomposed
    ensures p in w && k <= |Children(tree, p)| && forall i :: 0 <= i < |Children(tree, p)| ==> Children(tree, p)[i] in w
    ensures forall i :: 0 <= i < k ==> w[Children(tree, p)[i]].status.Merged?
    ensures forall i :: k < i < |Children(tree, p)| ==> Fresh(w[Children(tree, p)[i]].status)
    ensures w[p].status.Merged? ==> k == |Children(tree, p)| > 0
  {
    hide Children, WellFormed;
    assert LaidOutFamily(tree, w, p);
    k := MergedPrefix(w, Children(tree, p));
  }

  /** `Execute` takes any task. It keeps the layout exactly when the task is in turn, or nothing is
      written. */
  lemma ExecuteExact(tree: Tree, e: Env, w: World, t: TaskId)
    requires LaidOut(tree, w)
    ensures LaidOut(tree, Started(e, w, t)) <==> InTurn(tree, w, t) || NotExecuted(e, w, t)
  {
    hide LaidOut, IsNext, AllMerged, Written, Started, Refused, Write;
    StartedWrites(e, w, t);
    if InTurn(tree, w, t) {
      if t in w { WriteKeeps(tree, e, w, t, ContextLoading); }
    } else {
      RefusedExactly(e, w, t, ContextLoading);
      StartOfFresh(e, w, t);
      if !NotExecuted(e, w, t) { OutOfTurn(tree, w, t, Started(e, w, t)[t]); }
    }
  }

  lemma StartOfFresh(e: Env, w: World, t: TaskId)
    requires t in w && Fresh(w[t].status)
    ensures NotExecuted(e, w, t) && Write(e, w, t, ContextLoading).None? == Refused(e, w, t) ==> Started(e, w, t) == w
    ensures !NotExecuted(e, w, t) && Write(e, w, t, ContextLoading).Some? ==>
              Started(e, w, t) == Write(e, w, t, ContextLoading).value
  {
    hide Write, Refused;
    WriteNothing(e, w, t, ContextLoading);
  }

  lemma OutOfTurn(tree: Tree, w: World, t: TaskId, x: Task)
    requires LaidOut(tree, w) && !InTurn(tree, w, t) && Listed(Todo, x.status)
    ensures !LaidOut(tree, w[t := x])
  {
    hide WellFormed, Children;
    var p, v := tree.parent[t], w[t := x];
    var cs := Children(tree, p);
    assert LaidOutFamily(tree, w, p);
    ChildrenAreListed(tree, p);
    ParentNearer(tree, t);
    var j: nat :| j < |cs| && cs[j] == t;
    OnlyOne(cs, j);
    NextIndex(tree, w, p, j);
    assert forall i :: 0 <= i < |cs| && i != j ==> v[cs[i]] == w[cs[i]];
    assert MergedPrefix(w, cs) < j;
    PrefixIs(v, cs, MergedPrefix(w, cs));
    assert !LaidOutFamily(tree, v, p);
  }

  /** A climb from `t` changes nothing below `t`. */
  lemma {:induction false} ClimbLeaves(tree: Tree, e: Env, w: World, t: TaskId, u: TaskId)
    requires Sized(tree, w) && t in w && u in tree.parent && Depth(tree, tree.parent[u]) >= Depth(tree, t)
    ensures u in w && Settled(tree, e, w, t)[u] == w[u]
    decreases Depth(tree, t), 0
  {
    hide WellFormed, Write, Advanced;
    ParentNearer(tree, u);
    if t in tree.parent {
      ParentNearer(tree, t);
      var p := tree.parent[t];
      if p in tree.parent { ParentNearer(tree, p); }
      WriteTouches(e, w, p, Blocked);
      WriteTouches(e, w[p := w[p].(blockedChild := Some(t))], p, Blocked);
      DispatchLeaves(tree, e, w, p, u);
    }
  }

  lemma {:induction false} DispatchLeaves(tree: Tree, e: Env, w: World, p: TaskId, u: TaskId)
    requires Sized(tree, w) && u in tree.parent && Depth(tree, tree.parent[u]) > Depth(tree, p)
    ensures u in w && Advanced(tree, e, w, p)[u] == w[u]
    decreases Depth(tree, p), 1
  {
    hide WellFormed, Children, Write, Started;
    SizedCovers(tree, w);
    ChildrenAreListed(tree, p);
    ParentNearer(tree, u);
    var cs := Children(tree, p);
    var k := MergedPrefix(w, cs);
    if k < |cs| {
      StartedWrites(e, w, cs[k]);
      WriteTouches(e, w, cs[k], ContextLoading);
    } else {
      var done := Write(e, w, p, Merged);
      WriteTouches(e, w, p, Merged);
      WriteNothing(e, w, p, Merged);
      if done.Some? {
        SizedStays(tree, w, done.value);
        ClimbLeaves(tree, e, done.value, p, u);
      }
    }
  }

  lemma SizedCovers(tree: Tree, w: World)
    requires Sized(tree, w)
    ensures WellFormed(tree) && forall c :: c in tree.parent ==> c in w && tree.parent[c] in w
  {
  }

  /** A status update keeps the layout exactly when it does not start a child out of turn nor merge
      a decomposed parent before its children, unless it is turned down. */
  lemma WorkExact(tree: Tree, e: Env, w: World, t: TaskId, s: Status)
    requires LaidOut(tree, w)
    ensures Sized(tree, w) && (LaidOut(tree, Act(tree, e, w, Work(t, s))) <==> Orderly(tree, e, w, Work(t, s)))
  {
    hide LaidOut, Sized, IsNext, AllMerged, Write, Refused, Unmergeable, InTurn, Settled;
    Covered(tree, w);
    if Orderly(tree, e, w, Work(t, s)) {
      ActLaidOut(tree, e, w, Work(t, s));
    } else if !InTurn(tree, w, t) && Listed(Todo, s) && !Refused(e, w, t) {
      StartsOutOfTurn(tree, e, w, t, s);
    } else {
      MergesTooEarly(tree, e, w, t);
    }
  }

  lemma StartsOutOfTurn(tree: Tree, e: Env, w: World, t: TaskId, s: Status)
    requires LaidOut(tree, w) && Sized(tree, w) && !InTurn(tree, w, t) && Listed(Todo, s) && !Refused(e, w, t)
    ensures !LaidOut(tree, Act(tree, e, w, Work(t, s)))
  {
    hide LaidOut, Sized, IsNext, Write, Refused;
    RefusedExactly(e, w, t, s);
    OutOfTurn(tree, w, t, Write(e, w, t, s).value[t]);
  }

  lemma MergesTooEarly(tree: Tree, e: Env, w: World, t: TaskId)
    requires Sized(tree, w) && t in tree.decomposed && !AllMerged(tree, w, t) && !Unmergeable(e, w, t)
    ensures !LaidOut(tree, Act(tree, e, w, Work(t, Merged)))
  {
    hide LaidOut, Sized, AllMerged, Write, Settled;
    MergeWrites(e, w, t);
    var w1 := Write(e, w, t, Merged).value;
    SizedStays(tree, w, w1);
    SettledKept(tree, e, w1, t);
    var v := Settled(tree, e, w1, t);
    ChildrenBelow(tree, w, t);
    forall c | c in Children(tree, t) ensures c in w && v[c] == w[c] { ClimbLeaves(tree, e, w1, t, c); }
    if LaidOut(tree, v) { MergedNeedsAll(tree, w, v, t); }
  }

  lemma ChildrenBelow(tree: Tree, w: World, t: TaskId)
    requires Sized(tree, w)
    ensures forall c :: c in Children(tree, t) ==> c in tree.parent && tree.parent[c] == t && c != t && c in w
  {
    hide Children, WellFormed;
    ChildrenAreListed(tree, t);
    forall c | c in Children(tree, t) ensures c != t { ParentNearer(tree, c); }
  }

  lemma MergeWrites(e: Env, w: World, t: TaskId)
    requires !Unmergeable(e, w, t)
    ensures Write(e, w, t, Merged).Some? && Write(e, w, t, Merged).value[t].status.Merged?
    ensures forall u :: u in w && u != t ==> Write(e, w, t, Merged).value[u] == w[u]
  {
    hide Effective;
  }

  lemma MergedNeedsAll(tree: Tree, w: World, v: World, t: TaskId)
    requires LaidOut(tree, v) && t in tree.decomposed && t in v && v[t].status.Merged?
    requires forall c :: c in Children(tree, t) ==> c in w && c in v && v[c] == w[c]
    ensures AllMerged(tree, w, t)
  {
    hide Children, WellFormed;
    assert LaidOutFamily(tree, v, t);
  }

  lemma SoundIsLaidOut(tree: Tree, w: World)
    requires Sound(tree, w)
    ensures LaidOut(tree, w)
  {
    hide WellFormed, Children, Layout;
    forall p | p in tree.decomposed ensures LaidOutFamily(tree, w, p) { assert Family(tree, w, p); }
  }

  /** Every call, in full: families and records stay right exactly when the call is allowed. */
  lemma ActExact(tree: Tree, e: Env, w: World, a: Action)
    requires Sound(tree, w)
    ensures Sized(tree, w) && (Sound(tree, Act(tree, e, w, a)) <==> Allowed(tree, e, w, a))
  {
    hide Sound, LaidOut, Sized, Settled, Advanced, Retried, Forcibly, Rerun, Started, Write, Refused, NotExecuted,
         Restarts, InTurn, Unrecorded, Unmergeable, AllMerged;
    SoundCovers(tree, w);
    SoundIsLaidOut(tree, w);
    if Allowed(tree, e, w, a) {
      ActKeeps(tree, e, w, a);
    } else {
      match a
      case Retry(p) => RetryExact(tree, e, w, p);
      case RetryStep(t) => RerunExact(tree, e, w, t);
      case Execute(t) => ExecuteBreaks(tree, e, w, t);
      case Work(t, s) => WorkBreaks(tree, e, w, t, s);
      case _ =>
    }
  }

  lemma ExecuteBreaks(tree: Tree, e: Env, w: World, t: TaskId)
    requires Sound(tree, w) && LaidOut(tree, w) && !Allowed(tree, e, w, Action.Execute(t))
    ensures !Sound(tree, Started(e, w, t))
  {
    hide Sound, LaidOut, Started, Refused, Write, InTurn;
    ExecuteExact(tree, e, w, t);
    if Orderly(tree, e, w, Action.Execute(t)) {
      OnRecord(tree, w, t);
      RefusedExactly(e, w, t, ContextLoading);
      StartOfFailed(e, w, t);
      LeavesFailed(tree, e, w, tree.parent[t], t, ContextLoading);
    } else if Sound(tree, Started(e, w, t)) {
      SoundIsLaidOut(tree, Started(e, w, t));
    }
  }

  lemma StartOfFailed(e: Env, w: World, t: TaskId)
    requires t in w && w[t].status.Failed? && !NotExecuted(e, w, t)
    ensures Started(e, w, t) == Written(e, w, t, ContextLoading)
  {
    hide Write, Refused;
  }

  lemma WorkBreaks(tree: Tree, e: Env, w: World, t: TaskId, s: Status)
    requires Sound(tree, w) && LaidOut(tree, w) && Sized(tree, w) && !Allowed(tree, e, w, Work(t, s))
    ensures !Sound(tree, Act(tree, e, w, Work(t, s)))
  {
    hide Sound, LaidOut, Sized, Refused, Write, Orderly, Settled;
    WorkExact(tree, e, w, t, s);
    if Orderly(tree, e, w, Work(t, s)) {
      OnRecord(tree, w, t);
      RefusedExactly(e, w, t, s);
      LeavesFailed(tree, e, w, tree.parent[t], t, s);
      SizedStays(tree, w, Write(e, w, t, s).value);
      SettledStays(tree, e, Write(e, w, t, s).value, t);
    } else if Sound(tree, Act(tree, e, w, Work(t, s))) {
      SoundIsLaidOut(tree, Act(tree, e, w, Work(t, s)));
    }
  }

  /** Nothing climbs from a status that is neither merged nor failed. */
  lemma SettledStays(tree: Tree, e: Env, w: World, t: TaskId)
    requires Sized(tree, w) && t in w && !w[t].status.Merged? && !w[t].status.Failed?
    ensures Settled(tree, e, w, t) == w
  {
  }

  /** So a second child executed by hand, before the first has run, breaks it. */
  lemma SecondFirst(p: TaskId, a: TaskId, b: TaskId)
    requires p != a && p != b && a != b
    ensures var w := map[p := Plain(Coding, None), a := Plain(Todo, None), b := Plain(Todo, None)];
            LaidOut(Pair(p, a, b), w) && !LaidOut(Pair(p, a, b), Act(Pair(p, a, b), Calm({}), w, Action.Execute(b)))
  {
    hide Children, WellFormed, Write, LaidOut;
    var tree, e := Pair(p, a, b), Calm({});
    var w := map[p := Plain(Coding, None), a := Plain(Todo, None), b := Plain(Todo, None)];
    PairShape(p, a, b);
    PrefixIs(w, [a, b], 0);
    PairLaidOut(p, a, b, w);
    PlainWrite(e, w, b, ContextLoading);
    ExecuteExact(tree, e, w, b);
  }

  lemma PairLaidOut(p: TaskId, a: TaskId, b: TaskId, w: World)
    requires p != a && p != b && a != b && WellFormed(Pair(p, a, b)) && Children(Pair(p, a, b), p) == [a, b]
    requires p in w && a in w && b in w && w[p].status.Coding? && w[a].status.Todo? && w[b].status.Todo?
    ensures LaidOut(Pair(p, a, b), w)
  {
    hide Children, WellFormed;
    PrefixIs(w, [a, b], 0);
  }
}
