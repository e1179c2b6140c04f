/** server/internal/orchestrator/tracker.go: the guardrails that every task status change passes through. */
module TaskTracker {
  import opened Options

  /** server/pkg/models/task.go; `Unset` is the empty string and `Other` any text that is no status. */
  datatype Status =
    | Unset | Todo | ContextLoading | Analyzing | SpecReview | Coding | Reviewing | Fixing
    | Testing | PrReady | HumanReview | Merged | Failed | Blocked | Other(text: string)

  /** `ValidTaskTransitions`. */
  predicate Listed(from: Status, to: Status) {
    match from
    case Todo => to in {ContextLoading, Analyzing, Coding}
    case ContextLoading => to in {Analyzing, SpecReview, Coding, Reviewing, Testing, PrReady, Failed}
    case Analyzing => to in {SpecReview, Coding, Reviewing, Fixing, Testing, HumanReview, PrReady, Merged, Failed}
    case SpecReview => to in {Coding, Todo, Failed, Analyzing}
    case Coding => to in {Reviewing, Testing, HumanReview, Failed, Analyzing, Blocked, Merged}
    case Reviewing => to in {Fixing, Testing, Failed, Analyzing, Blocked}
    case Fixing => to in {Reviewing, Testing, Failed, Analyzing, Blocked}
    case Testing => to in {PrReady, Fixing, Failed, Merged, Reviewing, Analyzing, Blocked}
    case PrReady => to in {HumanReview, Merged, Failed, Fixing, Analyzing}
    case HumanReview => to in {PrReady, Merged, Fixing, Failed, Analyzing}
    case Failed => to in {Todo, ContextLoading, Analyzing, SpecReview, Coding, Reviewing, Fixing, Testing, PrReady,
                          HumanReview}
    case Blocked => to in {Coding, Fixing, Merged, Failed}
    case _ => false
  }

  /** `ValidateTaskTransition`: an empty status counts as todo, and staying put is always allowed. */
  predicate CanMove(from: Status, to: Status) {
    var effective := if from.Unset? then Todo else from;
    effective == to || Listed(effective, to)
  }

  /** The statuses no guardrail overrides. */
  predicate Exempt(s: Status) {
    s.Blocked? || s.Failed? || s.Merged?
  }

  /** What a task record holds for the guardrails; times are in nanoseconds. */
  datatype Task = Task(status: Status, retries: int, started: Option<int>, reason: Reason, blockedChild: Option<TaskId>)

  /** The block reason column; `NoReason` is its empty text. */
  datatype Reason = NoReason | MaxRetriesExceeded | ExecutionTimeout | Stated(text: string)

  datatype TaskId = TaskId(uuid: string)

  datatype Limits = Limits(retries: int, minutes: int)

  const MINUTE: int := 60_000_000_000

  /** The project's own limits where they are positive, else the defaults; `None` is an unreadable project. */
  function Effective(project: Option<Limits>): (r: Limits)
    ensures r.retries >= 1 && r.minutes >= 1
    ensures project.Some? && project.value.retries > 0 ==> r.retries == project.value.retries
    ensures project.Some? && project.value.minutes > 0 ==> r.minutes == project.value.minutes
    ensures project.None? || project.value.retries <= 0 ==> r.retries == 5
    ensures project.None? || project.value.minutes <= 0 ==> r.minutes == 120
  {
    match project
    case None => Limits(5, 120)
    case Some(p) => Limits(if p.retries > 0 then p.retries else 5, if p.minutes > 0 then p.minutes else 120)
  }

  /** `EvalMaxRetries` and `EvalExecutionTimeout`. */
  predicate RetriesSpent(retries: int, limit: int) {
    limit > 0 && retries >= limit
  }

  predicate TimedOut(started: Option<int>, now: int, minutes: int) {
    started.Some? && minutes > 0 && now - started.value > minutes * MINUTE
  }

  /** Re-entering the fix loop, and leaving testing with success. */
  predicate IsRetry(from: Status, request: Status) {
    request.Fixing? && (from.Testing? || from.Reviewing?)
  }

  predicate IsReset(from: Status, request: Status) {
    from.Testing? && (request.PrReady? || request.Merged? || request.HumanReview?)
  }

  /** What an update of `task` to `request` would write, guardrails applied. */
  function Guarded(task: Task, request: Status, limits: Limits, now: int): Task {
    var retries := if IsRetry(task.status, request) then task.retries + 1
                   else if IsReset(task.status, request) then 0 else task.retries;
    var started := if task.status.Todo? && task.started.None? then Some(now) else task.started;
    var reason := if Exempt(request) then NoReason
                  else if RetriesSpent(retries, limits.retries) then MaxRetriesExceeded
                  else if TimedOut(started, now, limits.minutes) then ExecutionTimeout
                  else NoReason;
    var status := if !reason.NoReason? then Blocked else request;
    task.(status := status, retries := retries, started := started, reason := reason)
  }

  /** `applyGuardrails`: rewrites the requested status in place and fills an update record. */
  method ApplyGuardrails(task: Task, request: Status, project: Option<Limits>, now: int)
      returns (status: Status, retries: Option<int>, started: Option<int>, reason: Reason)
    ensures var g := Guarded(task, request, Effective(project), now);
            && status == g.status && reason == g.reason
            && (if retries.Some? then retries.value else task.retries) == g.retries
            && (if started.Some? then started else task.started) == g.started
  {
    status, retries, started, reason := request, None, None, NoReason;
    var retryCount := task.retries;
    if status.Fixing? && (task.status.Testing? || task.status.Reviewing?) {
      retryCount := retryCount + 1;
    }
    if task.status.Testing? && (status.PrReady? || status.Merged? || status.HumanReview?) {
      retryCount := 0;
    }
    if retryCount != task.retries {
      retries := Some(retryCount);
    }
    var executionStarted := task.started;
    if task.status.Todo? && executionStarted.None? {
      executionStarted := Some(now);
      started := Some(now);
    }
    if !status.Blocked? && !status.Failed? && !status.Merged? {
      var maxRetries, maxMinutes := 5, 120;
      if project.Some? {
        if project.value.retries > 0 { maxRetries := project.value.retries; }
        if project.value.minutes > 0 { maxMinutes := project.value.minutes; }
      }
      if RetriesSpent(retryCount, maxRetries) {
        reason := MaxRetriesExceeded;
      } else if TimedOut(executionStarted, now, maxMinutes) {
        reason := ExecutionTimeout;
      }
    }
    if !reason.NoReason? {
      status := Blocked;
    }
  }

  /** The record after `updateTaskStatus`; `None` when the transition is refused and nothing is written. */
  function Updated(task: Task, request: Status, limits: Limits, now: int): Option<Task> {
    var g := Guarded(task, request, limits, now);
    if CanMove(task.status, g.status) then Some(g) else None
  }

  /** The record after `blockTask`. */
  function Forced(task: Task, reason: Reason): Option<Task> {
    if Exempt(task.status) then Some(task)
    else if CanMove(task.status, Blocked) then Some(task.(status := Blocked, reason := reason))
    else None
  }

  /** The statuses the table lets into blocked, and blocked itself. */
  predicate Blockable(s: Status) {
    s.Coding? || s.Reviewing? || s.Fixing? || s.Testing? || s.Blocked?
  }

  /** A guardrail that trips takes the task to blocked exactly from those; from any other status the
      rewritten request is refused and nothing is written. A forced block reaches blocked from the
      same statuses only. */
  lemma TrippedExactly(task: Task, request: Status, limits: Limits, now: int, reason: Reason)
    ensures !Guarded(task, request, limits, now).reason.NoReason? ==>
              match Updated(task, request, limits, now)
              case None => !Blockable(task.status)
              case Some(t) => Blockable(task.status) && t.status.Blocked?
    ensures !Exempt(task.status) ==> (Forced(task, reason).Some? <==> Blockable(task.status))
    ensures Forced(task, reason).Some? ==> Exempt(Forced(task, reason).value.status)
  {
  }

  /** So a task that times out while it is being analysed is never blocked: each move other than
      failing or merging it is refused from then on. */
  lemma TimedOutAnalysisIsStuck(request: Status, now: int)
    ensures var task := Task(Analyzing, 0, Some(0), NoReason, None);
            now > 120 * MINUTE && !Exempt(request) ==>
              Updated(task, request, Effective(None), now).None? && Forced(task, Stated("event_volume_exceeded")).None?
  {
  }

  /** One call on a task: a status update at some time, under the limits in force then, or a forced block. */
  datatype Call = Update(request: Status, now: int, limits: Limits) | Block(reason: Reason)

  /** The record after a call; a refused call leaves it as it was. */
  function After(task: Task, c: Call): Task {
    var r := match c
      case Update(request, now, limits) => Updated(task, request, limits, now)
      case Block(reason) => Forced(task, reason);
    if r.Some? then r.value else task
  }

  /** The records of a run, one before each call and one after the last. */
  function Records(task: Task, calls: seq<Call>): (r: seq<Task>)
    ensures |r| == |calls| + 1 && r[0] == task
    decreases |calls|
  {
    if calls == [] then [task] else [task] + Records(After(task, calls[0]), calls[1..])
  }

  lemma {:induction false} RecordsStep(task: Task, calls: seq<Call>, i: nat)
    requires i < |calls|
    ensures var r := Records(task, calls); r[i + 1] == After(r[i], calls[i])
    decreases i
  {
    if i > 0 { RecordsStep(After(task, calls[0]), calls[1..], i - 1); }
  }

  predicate WithinBounds(c: Call, m: int) {
    c.Update? ==> 1 <= c.limits.retries <= m
  }

  /** No call is made under a higher limit than `m`. */
  predicate AllUnder(calls: seq<Call>, m: int) {
    m >= 1 && forall i :: 0 <= i < |calls| ==> WithinBounds(calls[i], m)
  }

  /** The retry count is within the limit, and at the limit the task has been taken out of the loop. */
  predicate WithinLimit(task: Task, m: int) {
    0 <= task.retries <= m && (task.retries == m ==> Exempt(task.status))
  }

  lemma CallKeepsLimit(task: Task, c: Call, m: int)
    requires m >= 1 && WithinBounds(c, m) && WithinLimit(task, m)
    ensures WithinLimit(After(task, c), m)
    ensures task.retries == m ==> After(task, c).retries == m
  {
  }

  /** Over every run from retry count 0, the limits changing as they may: the count never passes the
      largest limit in force, and once it is there it stays there and the task is only ever blocked,
      failed or merged again. */
  lemma {:induction false} RetryGuard(task: Task, calls: seq<Call>, m: int, i: nat, j: nat)
    requires AllUnder(calls, m) && task.retries == 0 && i <= j <= |calls|
    ensures var r := Records(task, calls);
            && 0 <= r[j].retries <= m
            && (r[i].retries == m ==> r[j].retries == m && Exempt(r[j].status))
  {
    hide After;
    RunWithinLimit(task, calls, m, i);
    if i < j {
      RetryGuard(task, calls, m, i, j - 1);
      RunWithinLimit(task, calls, m, j - 1);
      RunWithinLimit(task, calls, m, j);
      RecordsStep(task, calls, j - 1);
      CallKeepsLimit(Records(task, calls)[j - 1], calls[j - 1], m);
    }
  }

  lemma {:induction false} RunWithinLimit(task: Task, calls: seq<Call>, m: int, j: nat)
    requires AllUnder(calls, m) && task.retries == 0 && j <= |calls|
    ensures WithinLimit(Records(task, calls)[j], m)
  {
    hide After;
    if j > 0 {
      RunWithinLimit(task, calls, m, j - 1);
      RecordsStep(task, calls, j - 1);
      CallKeepsLimit(Records(task, calls)[j - 1], calls[j - 1], m);
    }
  }

  /** The call put the task into fixing from testing or reviewing. */
  predicate EnteredFixing(task: Task, c: Call) {
    c.Update? && (task.status.Testing? || task.status.Reviewing?) && After(task, c).status.Fixing?
  }

  /** The call cleared the count. */
  predicate Reset(task: Task, c: Call) {
    c.Update? && IsReset(task.status, c.request) && Updated(task, c.request, c.limits, c.now).Some?
  }

  /** How often calls `i` to `j - 1` of the run entered fixing. */
  function Entries(task: Task, calls: seq<Call>, i: nat, j: nat): nat
    requires i <= j <= |calls|
    decreases j
  {
    if i == j then 0
    else Entries(task, calls, i, j - 1)
         + if EnteredFixing(Records(task, calls)[j - 1], calls[j - 1]) then 1 else 0
  }

  lemma CallCounts(task: Task, c: Call, m: int)
    requires m >= 1 && WithinBounds(c, m) && WithinLimit(task, m) && !Reset(task, c)
    ensures After(task, c).retries >= task.retries
    ensures EnteredFixing(task, c) ==> After(task, c).retries == task.retries + 1 < m
  {
  }

  /** Between two resets a task enters the fix loop at most one time fewer than the largest limit. */
  lemma {:induction false} FixLoopBounded(task: Task, calls: seq<Call>, m: int, i: nat, j: nat)
    requires AllUnder(calls, m) && task.retries == 0 && i <= j <= |calls|
    requires forall k :: i <= k < j ==> !Reset(Records(task, calls)[k], calls[k])
    ensures Entries(task, calls, i, j) <= m - 1
    ensures Entries(task, calls, i, j) <= Records(task, calls)[j].retries
    decreases j
  {
    hide After, Reset, EnteredFixing;
    RunWithinLimit(task, calls, m, j);
    if i < j {
      FixLoopBounded(task, calls, m, i, j - 1);
      RunWithinLimit(task, calls, m, j - 1);
      RecordsStep(task, calls, j - 1);
      CallCounts(Records(task, calls)[j - 1], calls[j - 1], m);
    }
  }

  /** The bound is reached: a run of `m - 1` trips round the loop is accepted in full. */
  function Trips(n: nat, now: int, limits: Limits): seq<Call> {
    if n == 0 then [] else [Update(Fixing, now, limits), Update(Testing, now, limits)] + Trips(n - 1, now, limits)
  }

  lemma {:induction false} BoundReached(task: Task, limits: Limits, now: int, n: nat)
    requires task.status.Testing? && 0 <= task.retries && task.retries + n < limits.retries
    requires !TimedOut(task.started, now, limits.minutes)
    ensures |Trips(n, now, limits)| == 2 * n
    ensures Records(task, Trips(n, now, limits))[2 * n]
            == task.(retries := task.retries + n, reason := if n == 0 then task.reason else NoReason)
    decreases n
  {
    if n > 0 {
      var fixing := After(task, Update(Fixing, now, limits));
      assert fixing == task.(status := Fixing, retries := task.retries + 1, reason := NoReason);
      var again := After(fixing, Update(Testing, now, limits));
      BoundReached(again, limits, now, n - 1);
      var calls := Trips(n, now, limits);
      assert calls[1..][1..] == Trips(n - 1, now, limits);
      assert Records(task, calls) == [task] + Records(fixing, calls[1..]);
      assert Records(fixing, calls[1..]) == [fixing] + Records(again, calls[1..][1..]);
    }
  }

  /** It is the largest limit that counts: when the project cannot be read the default limit of 5
      applies, and a task whose limit is two stays in the loop with its count at two. */
  lemma UnreadableProjectLifts(now: int)
    ensures var strict := Effective(Some(Limits(2, 120)));
            var lax := Effective(None);
            var task := Task(Testing, 0, None, NoReason, None);
            var one := After(After(task, Update(Fixing, now, strict)), Update(Testing, now, strict));
            After(one, Update(Fixing, now, strict)).status == Blocked
            && After(one, Update(Fixing, now, lax)).status == Fixing
            && After(one, Update(Fixing, now, lax)).retries == 2
  {
  }

  /** What an accepted update does to the count: going back to fixing from testing or reviewing adds
      one, leaving testing for the better clears it, and every other move leaves it. */
  lemma CountTold(task: Task, request: Status, now: int, limits: Limits)
    requires Updated(task, request, limits, now).Some?
    ensures var count := After(task, Update(request, now, limits)).retries;
            && (request.Fixing? && (task.status.Testing? || task.status.Reviewing?) ==> count == task.retries + 1)
            && (task.status.Testing? && (request.PrReady? || request.Merged? || request.HumanReview?) ==> count == 0)
            && (!request.Fixing? && !task.status.Testing? ==> count == task.retries)
            && (request.Fixing? && !task.status.Testing? && !task.status.Reviewing? ==> count == task.retries)
            && (request in {Failed, Blocked, Testing, Reviewing, Analyzing} ==> count == task.retries)
  {
  }

  /** The clock starts with the first accepted move out of todo, and is never set again. */
  lemma ClockStarts(task: Task, request: Status, now: int, limits: Limits)
    requires task.status.Todo? && task.started.None? && Updated(task, request, limits, now).Some?
    ensures After(task, Update(request, now, limits)).started == Some(now)
  {
  }

  lemma {:induction false} ClockStays(task: Task, calls: seq<Call>, i: nat, j: nat)
    requires i <= j <= |calls| && Records(task, calls)[i].started.Some?
    ensures Records(task, calls)[j].started == Records(task, calls)[i].started
    decreases j
  {
    hide After;
    if i < j {
      ClockStays(task, calls, i, j - 1);
      RecordsStep(task, calls, j - 1);
      ClockKept(Records(task, calls)[j - 1], calls[j - 1]);
    }
  }

  lemma ClockKept(task: Task, c: Call)
    requires task.started.Some?
    ensures After(task, c).started == task.started
  {
  }

  /** Over every run: once the time since the clock started is over the limit in force, no call takes
      the task anywhere but to blocked, failed or merged. */
  lemma TimeoutGuard(task: Task, calls: seq<Call>, i: nat, j: nat)
    requires i <= j < |calls| && Records(task, calls)[i].started.Some?
    requires calls[j].Update? && calls[j].limits.minutes > 0
    requires calls[j].now - Records(task, calls)[i].started.value > calls[j].limits.minutes * MINUTE
    ensures var before, after := Records(task, calls)[j], Records(task, calls)[j + 1];
            after == before || Exempt(after.status)
    ensures !Exempt(calls[j].request) && Records(task, calls)[j + 1] != Records(task, calls)[j] ==>
              Records(task, calls)[j + 1].status.Blocked? && !Records(task, calls)[j + 1].reason.NoReason?
  {
    ClockStays(task, calls, i, j);
    RecordsStep(task, calls, j);
  }

  /** A forced block says why, and changes nothing else; a final or blocked task keeps its record. */
  lemma ForcedTold(task: Task, reason: Reason)
    ensures After(task, Block(reason)) ==
              if !Exempt(task.status) && Blockable(task.status)
              then Task(Blocked, task.retries, task.started, reason, task.blockedChild) else task
  {
  }

  /** Why a guardrail has blocked a task: its trips are used up, or else its time is. */
  lemma ReasonTold(task: Task, request: Status, now: int, limits: Limits)
    requires limits.retries >= 1 && limits.minutes >= 1 && Updated(task, request, limits, now).Some?
    ensures var after := After(task, Update(request, now, limits));
            && (after.reason == MaxRetriesExceeded <==> !Exempt(request) && after.retries >= limits.retries)
            && (after.reason == ExecutionTimeout <==>
                  !Exempt(request) && after.retries < limits.retries && after.started.Some?
                  && now - after.started.value > limits.minutes * MINUTE)
            && (!after.reason.NoReason? ==> after.status.Blocked?)
            && (after.reason.NoReason? ==> after.status == request)
  {
  }

  /** The table read the other way: where each status can be reached from, staying put aside. */
  lemma ReachedFrom(from: Status, to: Status)
    requires from != to && !(from.Unset? && to.Todo?)
    ensures CanMove(from, to) <==>
              match to
              case Todo => from in {SpecReview, Failed}
              case ContextLoading => from in {Unset, Todo, Failed}
              case Analyzing => !(from in {Merged, Analyzing, Blocked}) && !from.Other?
              case SpecReview => from in {ContextLoading, Analyzing, Failed}
              case Coding => from in {Unset, Todo, ContextLoading, Analyzing, SpecReview, Failed, Blocked}
              case Reviewing => from in {ContextLoading, Analyzing, Coding, Fixing, Testing, Failed}
              case Fixing => from in {Analyzing, Reviewing, Testing, PrReady, HumanReview, Failed, Blocked}
              case Testing => from in {ContextLoading, Analyzing, Coding, Reviewing, Fixing, Failed}
              case PrReady => from in {ContextLoading, Analyzing, Testing, HumanReview, Failed}
              case HumanReview => from in {Analyzing, Coding, PrReady, Failed}
              case Merged => from in {Analyzing, Coding, Testing, PrReady, HumanReview, Blocked}
              case Failed => !(from in {Unset, Todo, Failed, Merged}) && !from.Other?
              case Blocked => from in {Coding, Reviewing, Fixing, Testing}
              case _ => false
  {
  }
}
