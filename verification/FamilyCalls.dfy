/** server/internal/orchestrator/decomposition.go: what the calls on a family bring about when nothing
    fails. The invariants say what never goes wrong; these say what gets done. */
module FamilyCalls {
  import opened Options
  import opened TaskTracker
  import opened Decomposition

  /** Only these two records differ. */
  ghost predicate OnlyChanged(w: World, v: World, a: TaskId, b: TaskId) {
    v.Keys == w.Keys && forall t :: t in w && t != a && t != b ==> v[t] == w[t]
  }

  /** The guardrails let the task go on working. */
  predicate Unspent(e: Env, w: World, t: TaskId) {
    && t in w && !RetriesSpent(w[t].retries, Effective(e.project(t)).retries)
    && !TimedOut(w[t].started, e.now, Effective(e.project(t)).minutes)
  }

  /** A child that fails is recorded with its parent, and the parent is blocked if it is in a status
      that may be; nothing else changes. */
  lemma FailureIsRecorded(tree: Tree, e: Env, w: World, p: TaskId, c: TaskId)
    requires Sized(tree, w) && p in tree.decomposed && c in tree.parent && tree.parent[c] == p
    requires e.broken == {} && CanMove(w[c].status, Failed)
    ensures var v := Act(tree, e, w, Work(c, Failed));
            && c != p && OnlyChanged(w, v, c, p)
            && v[c].status.Failed? && v[c].blockedChild == w[c].blockedChild && v[c].retries == w[c].retries
            && v[p].blockedChild == Some(c) && v[p].retries == w[p].retries
            && v[p].status == if CanMove(w[p].status, Blocked) then Blocked else w[p].status
  {
    hide WellFormed, Effective, Advanced;
    ParentNearer(tree, c);
    SizedNow(tree, w, c);
    FailWrites(e, w, c);
    var w1 := Write(e, w, c, Failed).value;
    SizedStays(tree, w, w1);
    BlockWrites(e, w1, p, c);
  }

  lemma SizedNow(tree: Tree, w: World, c: TaskId)
    requires Sized(tree, w) && c in tree.parent
    ensures c in w && tree.parent[c] in w
  {
  }

  lemma FailWrites(e: Env, w: World, c: TaskId)
    requires c in w && e.broken == {} && CanMove(w[c].status, Failed)
    ensures var r := Write(e, w, c, Failed);
            && r.Some? && OnlyChanged(w, r.value, c, c)
            && r.value[c].status.Failed? && r.value[c].blockedChild == w[c].blockedChild
            && r.value[c].retries == w[c].retries
  {
    hide Effective;
  }

  lemma BlockWrites(e: Env, w: World, p: TaskId, c: TaskId)
    requires p in w && e.broken == {}
    ensures var v := ParentBlocked(e, w, p, c);
            && OnlyChanged(w, v, p, p) && v[p].blockedChild == Some(c) && v[p].retries == w[p].retries
            && v[p].status == if CanMove(w[p].status, Blocked) then Blocked else w[p].status
  {
    hide Effective;
  }

  /** Retrying a blocked parent resumes it without the record and restarts exactly the recorded child. */
  lemma RetryRestarts(tree: Tree, e: Env, w: World, p: TaskId, c: TaskId)
    requires Sized(tree, w) && e.broken == {} && p in w && w[p].status.Blocked? && w[p].blockedChild == Some(c)
    requires c in w && c != p && w[c].status.Failed? && Unspent(e, w, p) && Unspent(e, w, c)
    ensures Retried(e, w, p).0
    ensures var v := Act(tree, e, w, Retry(p));
            && OnlyChanged(w, v, p, c)
            && v[p].status.Coding? && v[p].blockedChild.None? && v[p].retries == w[p].retries
            && v[c].status.Analyzing? && v[c].blockedChild == w[c].blockedChild && v[c].retries == w[c].retries
  {
    hide Effective;
  }

  /** So a failed child is found and restarted by the next retry of its parent, and by it alone. */
  lemma FailThenRetry(tree: Tree, e: Env, f: Env, w: World, p: TaskId, c: TaskId)
    requires Sized(tree, w) && p in tree.decomposed && c in tree.parent && tree.parent[c] == p
    requires e.broken == {} && f.broken == {} && CanMove(w[c].status, Failed) && CanMove(w[p].status, Blocked)
    requires var v := Act(tree, e, w, Work(c, Failed)); Unspent(f, v, p) && Unspent(f, v, c)
    ensures var v := WorldAfter(tree, w, [Event(e, Work(c, Failed)), Event(f, Retry(p))]);
            && OnlyChanged(w, v, p, c)
            && v[p].status.Coding? && v[p].blockedChild.None? && v[c].status.Analyzing?
  {
    hide Sized, Act, WellFormed;
    FailureIsRecorded(tree, e, w, p, c);
    var v := Act(tree, e, w, Work(c, Failed));
    SizedStays(tree, w, v);
    RetryRestarts(tree, f, v, p, c);
    TwoEvents(tree, w, Event(e, Work(c, Failed)), Event(f, Retry(p)));
  }

  /** When a retry of a blocked parent reports success. */
  lemma RetrySucceedsExactly(tree: Tree, e: Env, w: World, p: TaskId)
    requires Sound(tree, w)
    ensures Retried(e, w, p).0 <==>
              Restarts(e, w, p) && !Fails(e, Enqueue, w[p].blockedChild.value) && !Fails(e, Reload, p)
  {
    hide Sound, Write, AllMerged, IsNext, Refused;
    if p in w && w[p].status.Blocked? { ResumeWrites(e, w, p); }
    if p in w && !Fails(e, LoadForRetry, p) && w[p].status.Blocked? && w[p].blockedChild.Some?
       && Write(e, w, p, Coding).Some? {
      var c := w[p].blockedChild.value;
      RecordedChild(tree, w, p);
      RefusedExactly(e, w, c, Analyzing);
      var w1 := Write(e, w, p, Coding).value;
      WriteTouches(e, w, p, Coding);
      WriteNothing(e, w, p, Coding);
      WriteLocal(e, w, w1, c, Analyzing);
      WriteLocal(e, w1, Cleared(e, w1, p), c, Analyzing);
    }
  }

  /** `Execute` starts a task that has not started or has failed, if it has no running job and its
      guardrails allow, and changes nothing else; any other task it leaves alone. */
  lemma ExecuteStarts(tree: Tree, e: Env, w: World, t: TaskId)
    requires Sized(tree, w) && e.broken == {} && t in w
    ensures var v := Act(tree, e, w, Action.Execute(t));
            if (Fresh(w[t].status) || w[t].status.Failed?) && !e.job(t).Active? && Unspent(e, w, t) then
              && OnlyChanged(w, v, t, t) && v[t].status.ContextLoading? && v[t].retries == w[t].retries
              && v[t].started == (if w[t].status.Todo? && w[t].started.None? then Some(e.now) else w[t].started)
            else v == w
  {
    hide Effective;
  }

  /** `RetryFromLastStep` sends a failed, analysing or spec-reviewed task back to analysing. */
  lemma RetryStepRestarts(tree: Tree, e: Env, w: World, t: TaskId)
    requires Sized(tree, w) && e.broken == {} && t in w && Unspent(e, w, t)
    ensures var v := Act(tree, e, w, RetryStep(t));
            if w[t].status.Failed? || w[t].status.SpecReview? || w[t].status.Analyzing? then
              Rerun(e, w, t).0 && OnlyChanged(w, v, t, t) && v[t].status.Analyzing? && v[t].retries == w[t].retries
            else !Rerun(e, w, t).0 && v == w
  {
    hide Effective;
  }

  /** A status that is neither merged nor failed stays a matter of its own task. */
  lemma WorkStaysLocal(tree: Tree, e: Env, w: World, t: TaskId, s: Status)
    requires Sized(tree, w) && !s.Merged? && !s.Failed?
    ensures OnlyChanged(w, Act(tree, e, w, Work(t, s)), t, t)
  {
    hide Sized, Effective;
    if Write(e, w, t, s).Some? {
      var w1 := Write(e, w, t, s).value;
      SizedStays(tree, w, w1);
      if !w1[t].status.Merged? && !w1[t].status.Failed? { assert Settled(tree, e, w1, t) == w1; }
    }
  }

  /** A dispatch starts the first child that has not merged, if it has not started; or merges the
      parent when all have. */
  lemma DispatchStarts(tree: Tree, e: Env, w: World, p: TaskId, c: TaskId)
    requires Sized(tree, w) && e.broken == {} && IsNext(tree, w, p, c) && c in w
    ensures var v := Act(tree, e, w, Dispatch(p));
            if Fresh(w[c].status) && !e.job(c).Active? && Unspent(e, w, c) then
              OnlyChanged(w, v, c, c) && v[c].status.ContextLoading?
            else v == w
  {
    hide Children, WellFormed, Settled, Write;
    ExecuteStarts(tree, e, w, c);
  }

  /** A forced block of a task that is being worked on: blocked, for the reason given. */
  lemma ForceBlocks(tree: Tree, e: Env, w: World, t: TaskId, reason: Reason)
    requires Sized(tree, w) && e.broken == {} && t in w
    ensures var v := Act(tree, e, w, ForceBlock(t, reason));
            if w[t].status in {Coding, Reviewing, Fixing, Testing} then
              OnlyChanged(w, v, t, t) && v[t] == w[t].(status := Blocked, reason := reason)
            else v == w
  {
  }

  /** What a failing call stops. A read that fails leaves all as it was, and so does a status that
      cannot be saved; a parent that cannot be read ends the climb; ... */
  lemma FailedReadsStop(tree: Tree, e: Env, w: World, t: TaskId, s: Status, reason: Reason)
    requires Sized(tree, w)
    ensures Fails(e, LoadForUpdate, t) || Fails(e, SaveStatus, t) ==>
              Act(tree, e, w, Work(t, s)) == w && Act(tree, e, w, ForceBlock(t, reason)) == w
    ensures t in tree.parent && Fails(e, LoadParent, tree.parent[t]) ==>
              OnlyChanged(w, Act(tree, e, w, Work(t, s)), t, t)
    ensures Fails(e, LoadForExecute, t) || (e.job(t).Paused? && Fails(e, ResumeJob, t)) || e.job(t).Active? ==>
              Act(tree, e, w, Action.Execute(t)) == w
    ensures Fails(e, LoadForRerun, t) ==> Act(tree, e, w, RetryStep(t)) == w && !Rerun(e, w, t).0
    ensures Fails(e, LoadForRetry, t) ==> Act(tree, e, w, Retry(t)) == w && !Retried(e, w, t).0
    ensures Fails(e, ListChildren, t) ==> Act(tree, e, w, Dispatch(t)) == w
  {
    hide WellFormed, Children, Effective;
    ChildrenAreListed(tree, t);
  }

  /** ... a child that cannot be recorded still blocks its parent; a record that cannot be cleared
      stays; a restart that cannot be queued, or a parent that cannot be read back, is reported. */
  lemma FailedWritesTold(tree: Tree, e: Env, w: World, p: TaskId, c: TaskId)
    requires Sized(tree, w) && p in w
    ensures Fails(e, RecordBlocked, p) ==> ParentBlocked(e, w, p, c) == Written(e, w, p, Blocked)
    ensures Fails(e, ClearBlocked, p) ==> Retried(e, w, p).1[p].blockedChild == w[p].blockedChild
    ensures Fails(e, Reload, p) ==> !Retried(e, w, p).0
    ensures Fails(e, Enqueue, c) ==> !Rerun(e, w, c).0
    ensures Fails(e, Enqueue, c) && w[p].blockedChild == Some(c) ==> !Retried(e, w, p).0
  {
    hide Effective, WellFormed;
  }

  /** A parent whose children have all merged is merged by a dispatch only if it can be read. */
  lemma UnreadableParentWaits(tree: Tree, e: Env, w: World, p: TaskId)
    requires Sized(tree, w) && AllMerged(tree, w, p) && Fails(e, LoadForReduce, p)
    ensures Act(tree, e, w, Dispatch(p)) == w
  {
    hide WellFormed, Children;
    ChildrenAreListed(tree, p);
    PrefixIs(w, Children(tree, p), |Children(tree, p)|);
  }

  /** Outside decomposed families a status stays a matter of its own task, whatever it is. */
  lemma UndividedStaysLocal(tree: Tree, e: Env, w: World, t: TaskId, s: Status)
    requires Sized(tree, w) && !ChildOfSplit(tree, t)
    ensures OnlyChanged(w, Act(tree, e, w, Work(t, s)), t, t)
  {
    hide Sized, Effective, Advanced;
    if Write(e, w, t, s).Some? {
      var w1 := Write(e, w, t, s).value;
      SizedStays(tree, w, w1);
      assert Settled(tree, e, w1, t) == w1;
    }
  }

  /** Merging a child that is not the last touches that child and the next one, and no other task. */
  lemma MergeTouches(tree: Tree, e: Env, w: World, p: TaskId, k: nat)
    requires Sound(tree, w) && p in tree.decomposed && e.broken == {}
    requires k + 1 < |Children(tree, p)| && IsNext(tree, w, p, Children(tree, p)[k])
    requires CanMove(w[Children(tree, p)[k]].status, Merged)
    ensures var cs := Children(tree, p);
            OnlyChanged(w, Act(tree, e, w, Work(cs[k], Merged)), cs[k], cs[k + 1])
  {
    hide WellFormed, Children, Sound, IsNext, Sized, Write, Effective;
    var cs := Children(tree, p);
    SoundCovers(tree, w);
    ChildrenOf(tree, p);
    NextIndex(tree, w, p, k) by { Unfold(tree, w, p, cs[k]); }
    MergedPrefixGrows(tree, e, w, p, k);
    var w1 := Write(e, w, cs[k], Merged).value;
    SizedStays(tree, w, w1);
    AdvancedAt(tree, e, w1, p, k + 1);
    StartedWrites(e, w1, cs[k + 1]);
    WriteTouches(e, w1, cs[k + 1], ContextLoading);
    hide Advanced, Started;
  }

  lemma AdvancedAt(tree: Tree, e: Env, w: World, p: TaskId, k: nat)
    requires Sized(tree, w) && e.broken == {} && k < |Children(tree, p)|
    requires (forall c :: c in Children(tree, p) ==> c in w) && MergedPrefix(w, Children(tree, p)) == k
    ensures var c := Children(tree, p)[k];
            Advanced(tree, e, w, p) == if Fresh(w[c].status) then Started(e, w, c) else w
  {
    hide Sized, Children, MergedPrefix, Settled, Started;
  }

  lemma ChildrenOf(tree: Tree, p: TaskId)
    requires WellFormed(tree)
    ensures forall c :: c in Children(tree, p) ==> c in tree.parent && tree.parent[c] == p
  {
    hide Children;
    ChildrenAreListed(tree, p);
  }

  lemma Unfold(tree: Tree, w: World, p: TaskId, c: TaskId)
    requires IsNext(tree, w, p, c)
    ensures forall d :: d in Children(tree, p) ==> d in w
  {
  }
}
