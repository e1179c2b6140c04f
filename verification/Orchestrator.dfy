/** server/internal/orchestrator: the methods that read and write task records, calling one another. */
module Orchestration {
  import opened Options
  import opened TaskTracker
  import opened Decomposition

  class Orchestrator {
    const tree: Tree
    var tasks: World

    constructor (tree: Tree, tasks: World)
      ensures this.tree == tree && this.tasks == tasks
    {
      this.tree, this.tasks := tree, tasks;
    }

    ghost predicate Valid()
      reads this
    {
      Sized(tree, tasks)
    }

    /** `updateTaskStatus`: guardrails, the transition check, one write, then the climb. */
    method UpdateTaskStatus(e: Env, id: TaskId, request: Status) returns (ok: bool)
      requires Valid()
      modifies this
      ensures Valid()
      ensures ok == Write(e, old(tasks), id, request).Some?
      ensures tasks == Act(tree, e, old(tasks), Work(id, request))
      decreases if request.Merged? || request.Failed? then Depth(tree, id) + 1 else 0, 0
    {
      if id !in tasks || Fails(e, LoadForUpdate, id) {
        return false;
      }
      var task := tasks[id];
      var status, retries, started, reason := ApplyGuardrails(task, request, e.project(id), e.now);
      if !CanMove(task.status, status) || Fails(e, SaveStatus, id) {
        return false;
      }
      tasks := tasks[id := task.(status := status,
                                 retries := if retries.Some? then retries.value else task.retries,
                                 started := if started.Some? then started else task.started,
                                 reason := reason)];
      assert tasks == Write(e, old(tasks), id, request).value;
      if id in tree.parent && (status.Merged? || status.Failed?) {
        ParentNearer(tree, id);
        OnChildTaskTerminal(e, id, status.Merged?);
      }
      ok := true;
    }

    /** `onChildTaskTerminal`. */
    method OnChildTaskTerminal(e: Env, child: TaskId, success: bool)
      requires Valid() && child in tasks && child in tree.parent
      requires if success then tasks[child].status.Merged? else tasks[child].status.Failed?
      modifies this
      ensures Valid()
      ensures tasks == Settled(tree, e, old(tasks), child)
      decreases Depth(tree, child), 3
    {
      var parent := tree.parent[child];
      ParentNearer(tree, child);
      if Fails(e, LoadParent, parent) || parent !in tree.decomposed {
        return;
      }
      if !success {
        if !Fails(e, RecordBlocked, parent) {
          tasks := tasks[parent := tasks[parent].(blockedChild := Some(child))];
        }
        NotTerminal(tree, e, tasks, parent, Blocked);
        var _ := UpdateTaskStatus(e, parent, Blocked);
        return;
      }
      DispatchNextChildOrReduce(e, parent);
    }

    /** `dispatchNextChildOrReduce`. */
    method DispatchNextChildOrReduce(e: Env, parent: TaskId)
      requires Valid()
      modifies this
      ensures Valid()
      ensures tasks == Advanced(tree, e, old(tasks), parent)
      decreases Depth(tree, parent) + 1, 2
    {
      if Fails(e, ListChildren, parent) {
        return;
      }
      var ordered := Children(tree, parent);
      ChildrenAreListed(tree, parent);
      var allSucceeded := true;
      var i := 0;
      while i < |ordered|
        invariant i <= |ordered| && allSucceeded && tasks == old(tasks)
        invariant forall j :: 0 <= j < i ==> tasks[ordered[j]].status.Merged?
      {
        var c := ordered[i];
        var status := tasks[c].status;
        if !status.Merged? {
          allSucceeded := false;
        }
        if status.Merged? {
          i := i + 1;
          continue;
        }
        PrefixIs(tasks, ordered, i);
        if status.Failed? {
          return;
        }
        if status.Todo? || status.Unset? {
          Execute(e, c);
        }
        return;
      }
      PrefixIs(tasks, ordered, |ordered|);
      if allSucceeded && |ordered| > 0 {
        CompleteDecomposedParent(e, parent);
      }
    }

    /** `completeDecomposedParent`, without the summary it stores. */
    method CompleteDecomposedParent(e: Env, parent: TaskId)
      requires Valid()
      modifies this
      ensures Valid()
      ensures tasks == if Fails(e, LoadForReduce, parent) then old(tasks)
              else Act(tree, e, old(tasks), Work(parent, Merged))
      decreases Depth(tree, parent) + 1, 1
    {
      if Fails(e, LoadForReduce, parent) {
        return;
      }
      var _ := UpdateTaskStatus(e, parent, Merged);
    }

    /** `Execute`. */
    method Execute(e: Env, id: TaskId)
      requires Valid()
      modifies this
      ensures Valid()
      ensures tasks == Started(e, old(tasks), id)
      decreases 0, 1
    {
      if id !in tasks || Fails(e, LoadForExecute, id) {
        return;
      }
      var task := tasks[id];
      var job := e.job(id);
      if job.Active? {
        return;
      }
      NotTerminal(tree, e, tasks, id, ContextLoading);
      if job.Paused? {
        if Fails(e, ResumeJob, id) {
          return;
        }
        if task.status.Todo? || task.status.Failed? || task.status.Unset? {
          var _ := UpdateTaskStatus(e, id, ContextLoading);
        }
        return;
      }
      if task.status.Todo? || task.status.Failed? || task.status.Unset? {
        var _ := UpdateTaskStatus(e, id, ContextLoading);
      }
    }

    /** `RetryFromLastStep`. */
    method RetryFromLastStep(e: Env, id: TaskId) returns (ok: bool)
      requires Valid()
      modifies this
      ensures Valid()
      ensures (ok, tasks) == Rerun(e, old(tasks), id)
    {
      if id !in tasks || Fails(e, LoadForRerun, id) {
        return false;
      }
      var status := tasks[id].status;
      if !status.Failed? && !status.SpecReview? && !status.Analyzing? {
        return false;
      }
      NotTerminal(tree, e, tasks, id, Analyzing);
      var moved := UpdateTaskStatus(e, id, Analyzing);
      ok := moved && !Fails(e, Enqueue, id);
    }

    /** `RetryBlockedParent`. */
    method RetryBlockedParent(e: Env, parent: TaskId) returns (ok: bool)
      requires Valid()
      modifies this
      ensures Valid()
      ensures (ok, tasks) == Retried(e, old(tasks), parent)
    {
      if parent !in tasks || Fails(e, LoadForRetry, parent) {
        return false;
      }
      if !tasks[parent].status.Blocked? || tasks[parent].blockedChild.None? {
        return false;
      }
      var failedChild := tasks[parent].blockedChild.value;
      NotTerminal(tree, e, tasks, parent, Coding);
      var resumed := UpdateTaskStatus(e, parent, Coding);
      if !resumed {
        return false;
      }
      if !Fails(e, ClearBlocked, parent) {
        tasks := tasks[parent := tasks[parent].(blockedChild := None)];
      }
      var rerun := RetryFromLastStep(e, failedChild);
      ok := rerun && !Fails(e, Reload, parent);
    }

    /** `blockTask`. */
    method BlockTask(e: Env, id: TaskId, reason: Reason) returns (ok: bool)
      requires Valid()
      modifies this
      ensures Valid()
      ensures tasks == Act(tree, e, old(tasks), ForceBlock(id, reason))
      ensures ok && id in old(tasks) ==> Exempt(tasks[id].status)
    {
      if id !in tasks || Fails(e, LoadForUpdate, id) {
        return false;
      }
      var task := tasks[id];
      if task.status.Blocked? || task.status.Failed? || task.status.Merged? {
        return true;
      }
      if !CanMove(task.status, Blocked) || Fails(e, SaveStatus, id) {
        return false;
      }
      tasks := tasks[id := task.(status := Blocked, reason := reason)];
      ok := true;
    }
  }

  /** A request that is neither merged nor failed is one write and no climb. */
  lemma NotTerminal(tree: Tree, e: Env, w: World, t: TaskId, s: Status)
    requires Sized(tree, w) && !s.Merged? && !s.Failed?
    ensures Act(tree, e, w, Work(t, s)) == Written(e, w, t, s)
  {
  }
}
