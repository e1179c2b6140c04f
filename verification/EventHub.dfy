/** server/internal/repository/task_event.go: the table of task events, its numbering, and the
    subscriber registry. One call is one atomic step here. */
module EventHub {
  import opened Numbering
  import opened EventStream

  datatype TaskEvent = TaskEvent(taskId: string, number: int, body: string)

  /** The subscribers of one task and what waits in each one's channel. */
  type Channels = map<nat, seq<TaskEvent>>

  function At(m: map<string, Channels>, taskId: string): Channels {
    if taskId in m then m[taskId] else map[]
  }

  ghost predicate Registry(m: map<string, Channels>, nextChan: nat, closed: set<nat>) {
    && (forall ch :: ch in closed ==> ch < nextChan)
    && (forall t :: t in m ==> m[t] != map[] && AllOpen(m[t].Keys, nextChan, closed))
  }

  ghost predicate AllOpen(chans: set<nat>, nextChan: nat, closed: set<nat>) {
    forall ch :: ch in chans ==> ch < nextChan && ch !in closed
  }

  function Without(m: map<string, Channels>, taskId: string, ch: nat): map<string, Channels> {
    if taskId !in m then m
    else if |m[taskId] - {ch}| == 0 then m - {taskId}
    else m[taskId := m[taskId] - {ch}]
  }

  lemma WithoutAt(m: map<string, Channels>, taskId: string, ch: nat)
    ensures var m' := Without(m, taskId, ch);
            && m'.Keys <= m.Keys && At(m', taskId) == At(m, taskId) - {ch}
            && (forall t :: t != taskId ==> At(m', t) == At(m, t))
            && (forall t :: t in m' ==> m[t] == map[] || m'[t] != map[])
  {
    if taskId in m {
      var subs := m[taskId] - {ch};
      if |subs| == 0 { EmptyMap(subs); }
      WithoutOthers(m, taskId, subs);
    }
  }

  lemma WithoutOthers(m: map<string, Channels>, taskId: string, subs: Channels)
    requires taskId in m
    ensures At(m - {taskId}, taskId) == map[] && At(m[taskId := subs], taskId) == subs
    ensures forall t :: t != taskId ==> At(m - {taskId}, t) == At(m, t) == At(m[taskId := subs], t)
  {
  }

  lemma EmptyMap(subs: Channels)
    requires |subs| == 0
    ensures subs == map[]
  {
    assert subs.Keys == {};
  }

  lemma RemoveKeeps(m: map<string, Channels>, taskId: string, ch: nat, nextChan: nat, closed: set<nat>)
    requires Registry(m, nextChan, closed) && ch < nextChan && forall t :: t != taskId ==> ch !in At(m, t)
    ensures var m' := Without(m, taskId, ch);
            && Registry(m', nextChan, closed + {ch})
  {
    hide Without;
    var m' := Without(m, taskId, ch);
    WithoutAt(m, taskId, ch);
    forall t | t in m' ensures AllOpen(m'[t].Keys, nextChan, closed + {ch}) {
      if t != taskId { assert ch !in At(m, t); }
      OpenWithout(m[t].Keys, m'[t].Keys, nextChan, closed, ch);
    }
  }

  lemma OpenWithout(chans: set<nat>, left: set<nat>, nextChan: nat, closed: set<nat>, ch: nat)
    requires AllOpen(chans, nextChan, closed) && left <= chans - {ch}
    ensures AllOpen(left, nextChan, closed + {ch})
  {
  }

  class Hub {
    var subscribers: map<string, Channels>
    var nextChan: nat
    var closed: set<nat>

    constructor ()
      ensures subscribers == map[] && closed == {} && Valid()
    {
      subscribers, nextChan, closed := map[], 0, {};
    }

    /** Channel identities are never reused, no subscriber's channel is closed, and no task is kept
        without subscribers. */
    ghost predicate Valid()
      reads this
    {
      Registry(subscribers, nextChan, closed)
    }

    function Of(taskId: string): Channels
      reads this
    {
      At(subscribers, taskId)
    }

    method Subscribe(taskId: string) returns (ch: nat)
      requires Valid()
      modifies this
      ensures Valid() && ch !in old(Of(taskId)) && ch !in closed && closed == old(closed)
      ensures forall t :: t != taskId ==> ch !in Of(t)
      ensures Of(taskId) == old(Of(taskId))[ch := []]
      ensures forall t :: t != taskId ==> Of(t) == old(Of(t))
    {
      ch := nextChan;
      nextChan := nextChan + 1;
      subscribers := subscribers[taskId := Of(taskId)[ch := []]];
      assert ch in subscribers[taskId];
    }

    /** The channel is closed, once; sending to a closed channel or closing it again would panic, so
        it must not be subscribed elsewhere. */
    method Unsubscribe(taskId: string, ch: nat)
      requires Valid() && ch < nextChan && ch !in closed && forall t :: t != taskId ==> ch !in At(subscribers, t)
      modifies this
      ensures Valid() && closed == old(closed) + {ch} && nextChan == old(nextChan)
      ensures Of(taskId) == old(Of(taskId)) - {ch}
      ensures forall t :: t != taskId ==> Of(t) == old(Of(t))
    {
      ghost var next := Without(subscribers, taskId, ch);
      RemoveKeeps(subscribers, taskId, ch, nextChan, closed);
      WithoutAt(subscribers, taskId, ch);
      if taskId in subscribers {
        var subs := subscribers[taskId] - {ch};
        if |subs| == 0 {
          subscribers := subscribers - {taskId};
        } else {
          subscribers := subscribers[taskId := subs];
        }
      }
      assert subscribers == next;
      closed := closed + {ch};
    }

    /** Every subscriber of the task gets the event unless its channel is full; no other
        channel changes. The map order does not matter. */
    method Broadcast(taskId: string, event: TaskEvent)
      requires Valid()
      modifies this
      ensures Valid() && nextChan == old(nextChan) && closed == old(closed)
      ensures Of(taskId).Keys == old(Of(taskId)).Keys
      ensures forall ch :: ch in old(Of(taskId)) ==> Of(taskId)[ch] == Delivered(old(Of(taskId))[ch], event)
      ensures forall t :: t != taskId ==> Of(t) == old(Of(t))
    {
      if taskId !in subscribers { return; }
      var subs := subscribers[taskId];
      ghost var before := subs;
      var todo := subs.Keys;
      while todo != {}
        invariant todo <= subs.Keys == before.Keys
        invariant forall ch :: ch in before ==>
                    subs[ch] == if ch in todo then before[ch] else Delivered(before[ch], event)
        decreases |todo|
      {
        var ch :| ch in todo;
        todo := todo - {ch};
        if |subs[ch]| < CAPACITY {
          subs := subs[ch := subs[ch] + [event]];
        }
      }
      subscribers := subscribers[taskId := subs];
    }
  }

  function Numbers(rows: seq<TaskEvent>): (r: seq<int>)
    ensures |r| == |rows| && forall i :: 0 <= i < |r| ==> r[i] == rows[i].number
  {
    seq(|rows|, i requires 0 <= i < |rows| => rows[i].number)
  }

  /** The numbers of a task's rows are 1, 2, 3, ... in insertion order. */
  predicate Numbered(rows: seq<TaskEvent>) {
    FromOne(Numbers(rows))
  }

  class TaskEventRepo {
    var rows: map<string, seq<TaskEvent>>
    const hub: Hub

    constructor ()
      ensures fresh(hub) && rows == map[] && Valid()
    {
      rows := map[];
      hub := new Hub();
    }

    ghost predicate Valid()
      reads this, hub
    {
      hub.Valid() && forall t :: t in rows ==> Numbered(rows[t])
    }

    function Rows(taskId: string): seq<TaskEvent>
      reads this
    {
      if taskId in rows then rows[taskId] else []
    }

    /** `CreateEvent`: the row gets the next number and reaches every subscriber with room. */
    method CreateEvent(event: TaskEvent)
      requires Valid()
      modifies this, hub
      ensures Valid()
      ensures var stored := event.(number := |old(Rows(event.taskId))| + 1);
              && Rows(event.taskId) == old(Rows(event.taskId)) + [stored]
              && forall ch :: ch in old(hub.Of(event.taskId)) ==>
                   ch in hub.Of(event.taskId)
                   && hub.Of(event.taskId)[ch] == Delivered(old(hub.Of(event.taskId))[ch], stored)
      ensures forall t :: t != event.taskId ==> Rows(t) == old(Rows(t)) && hub.Of(t) == old(hub.Of(t))
    {
      HighestFromOne(Numbers(Rows(event.taskId)));
      var stored := event.(number := Highest(Numbers(Rows(event.taskId))) + 1);
      rows := rows[event.taskId := Rows(event.taskId) + [stored]];
      hub.Broadcast(event.taskId, stored);
    }

    /** `ListByTaskIDAfter`: exactly the rows after `after`, in number order. */
    method ListByTaskIdAfter(taskId: string, after: int) returns (events: seq<TaskEvent>)
      requires Valid()
      ensures events == var all := Rows(taskId); all[if after < 0 then 0 else if after > |all| then |all| else after..]
    {
      var all := Rows(taskId);
      events := [];
      for i := 0 to |all|
        invariant events == if after < 0 then all[..i] else if after >= i then [] else all[after..i]
      {
        if all[i].number > after {
          events := events + [all[i]];
        }
      }
      assert all[..|all|] == all;
    }
  }
}
