/** The ready query, and what repeatedly completing ready tasks achieves. */
module Scheduling {
  import opened Tasks
  import opened TaskGraphs

  predicate DependenciesDone(t: AgentTask, done: seq<TaskId>) {
    forall d :: d in t.dependsOn ==> d in done
  }

  /** The tasks whose dependencies are all done, in list order. */
  function Ready(tasks: seq<AgentTask>, done: seq<TaskId>): seq<AgentTask> {
    if tasks == [] then []
    else (if DependenciesDone(tasks[0], done) then [tasks[0]] else []) + Ready(tasks[1..], done)
  }

  lemma {:induction false} ReadyIff(tasks: seq<AgentTask>, done: seq<TaskId>, t: AgentTask)
    ensures t in Ready(tasks, done) <==> t in tasks && DependenciesDone(t, done)
  {
    if tasks != [] {
      ReadyIff(tasks[1..], done, t);
      assert tasks == [tasks[0]] + tasks[1..];
    }
  }

  /** Every dependency of a live task is live or done. */
  ghost predicate Closed(tasks: seq<AgentTask>, done: seq<TaskId>) {
    forall i, d :: 0 <= i < |tasks| && d in tasks[i].dependsOn ==> Live(tasks, d) || d in done
  }

  /** The first live task that is not done yet is ready. */
  lemma FirstNotDoneIsReady(tasks: seq<AgentTask>, done: seq<TaskId>, i: nat)
    requires GraphOk(tasks) && Closed(tasks, done)
    requires i < |tasks| && forall j :: 0 <= j < i ==> tasks[j].id in done
    ensures tasks[i] in Ready(tasks, done)
  {
    forall d | d in tasks[i].dependsOn ensures d in done {
      if Live(tasks, d) {
        var j :| 0 <= j < |tasks| && tasks[j].id == d;
        assert tasks[j].id in tasks[i].dependsOn;
      }
    }
    ReadyIff(tasks, done, tasks[i]);
  }

  /** `order` completes ready tasks one after the other; each completed id counts as done from then on. */
  ghost predicate Schedule(tasks: seq<AgentTask>, done: seq<TaskId>, order: seq<TaskId>)
    decreases |order|
  {
    order == [] ||
    (var p := Position(tasks, order[0]);
     && p < |tasks| && tasks[p] in Ready(tasks, done)
     && Schedule(Removed(tasks, order[0]), done + [order[0]], order[1..]))
  }

  function Remaining(tasks: seq<AgentTask>, order: seq<TaskId>): seq<AgentTask>
    decreases |order|
  {
    if order == [] then tasks else Remaining(Removed(tasks, order[0]), order[1..])
  }

  lemma ClosedAfterCompletion(tasks: seq<AgentTask>, done: seq<TaskId>, id: TaskId)
    requires GraphOk(tasks) && Closed(tasks, done)
    ensures Closed(Removed(tasks, id), done + [id])
  {
    RemoveKeeps(tasks, id);
    var r := Removed(tasks, id);
    forall i, d | 0 <= i < |r| && d in r[i].dependsOn
      ensures Live(r, d) || d in done + [id]
    {
      assert r[i] in tasks;
    }
  }

  /**
   However the ready tasks are picked, each completion shrinks the graph by one, and as long
   as tasks remain another one is ready: the graph is empty after exactly as many steps as it
   had tasks.
   */
  lemma {:induction false} ScheduleDrains(tasks: seq<AgentTask>, done: seq<TaskId>, order: seq<TaskId>)
    requires GraphOk(tasks) && Closed(tasks, done) && Schedule(tasks, done, order)
    ensures |Remaining(tasks, order)| == |tasks| - |order|
    ensures Remaining(tasks, order) == [] <==> |order| == |tasks|
    ensures Remaining(tasks, order) != [] ==> Ready(Remaining(tasks, order), done + order) != []
    decreases |order|
  {
    if order == [] {
      assert done + order == done;
      if tasks != [] { FirstNotDoneIsReady(tasks, done, 0); }
    } else {
      var id := order[0];
      RemoveKeeps(tasks, id);
      ClosedAfterCompletion(tasks, done, id);
      ScheduleDrains(Removed(tasks, id), done + [id], order[1..]);
      assert done + [id] + order[1..] == done + order;
    }
  }

  lemma FoundIsLive(tasks: seq<AgentTask>, id: TaskId)
    requires Position(tasks, id) < |tasks|
    ensures Live(tasks, id)
  {
    assert tasks[Position(tasks, id)].id == id;
  }

  /** A schedule names live tasks, none of them twice. */
  lemma {:induction false} ScheduleIsDistinct(tasks: seq<AgentTask>, done: seq<TaskId>, order: seq<TaskId>)
    requires GraphOk(tasks) && Schedule(tasks, done, order)
    ensures forall k :: 0 <= k < |order| ==> Live(tasks, order[k])
    ensures forall i, j :: 0 <= i < j < |order| ==> order[i] != order[j]
    decreases |order|
  {
    hide GraphOk, Ready, Removed, Position, Live;
    if order != [] {
      var id := order[0];
      var rest := order[1..];
      RemoveKeeps(tasks, id);
      ScheduleIsDistinct(Removed(tasks, id), done + [id], rest);
      assert Live(tasks, id) by { FoundIsLive(tasks, id); }
      forall k | 1 <= k < |order| ensures Live(tasks, order[k]) && order[k] != id {
        assert order[k] == rest[k - 1];
      }
      forall i, j | 1 <= i < j < |order| ensures order[i] != order[j] {
        assert order[i] == rest[i - 1] && order[j] == rest[j - 1];
      }
    }
  }

  /** Each task runs after everything it depends on: a dependency was done at the start or comes earlier. */
  lemma {:induction false} ScheduleRespectsDependencies(tasks: seq<AgentTask>, done: seq<TaskId>, order: seq<TaskId>,
                                                         k: nat, i: nat, d: TaskId)
    requires GraphOk(tasks) && Schedule(tasks, done, order)
    requires k < |order| && i < |tasks| && tasks[i].id == order[k] && d in tasks[i].dependsOn
    ensures d in done || d in order[..k]
    decreases |order|
  {
    hide GraphOk, Ready, Removed;
    if k == 0 {
      UniquePosition(tasks, i);
      ReadyIff(tasks, done, tasks[i]);
    } else {
      var id := order[0];
      RemoveKeeps(tasks, id);
      ScheduleIsDistinct(tasks, done, order);
      var i' := StillThere(tasks, id, i);
      ScheduleRespectsDependencies(Removed(tasks, id), done + [id], order[1..], k - 1, i', d);
      assert order[..k] == [id] + order[1..][..k - 1];
    }
  }

  lemma UniquePosition(tasks: seq<AgentTask>, i: nat)
    requires GraphOk(tasks) && i < |tasks|
    ensures Position(tasks, tasks[i].id) == i
  {
  }

  /** Removing one task keeps the others. */
  lemma StillThere(tasks: seq<AgentTask>, id: TaskId, i: nat) returns (i': nat)
    requires i < |tasks| && tasks[i].id != id
    ensures i' < |Removed(tasks, id)| && Removed(tasks, id)[i'] == tasks[i]
  {
    i' := if i < Position(tasks, id) then i else i - 1;
  }

  /** Always completing the first task of the list is such a schedule, so one exists. */
  lemma {:induction false} ListOrderIsSchedule(tasks: seq<AgentTask>, done: seq<TaskId>) returns (order: seq<TaskId>)
    requires GraphOk(tasks) && Closed(tasks, done)
    ensures Schedule(tasks, done, order) && Remaining(tasks, order) == []
    ensures |order| == |tasks| && forall k :: 0 <= k < |order| ==> order[k] == tasks[k].id
    decreases |tasks|
  {
    if tasks == [] {
      order := [];
    } else {
      var id := tasks[0].id;
      FirstNotDoneIsReady(tasks, done, 0);
      RemoveKeeps(tasks, id);
      ClosedAfterCompletion(tasks, done, id);
      assert Removed(tasks, id) == tasks[1..];
      var rest := ListOrderIsSchedule(tasks[1..], done + [id]);
      order := [id] + rest;
      assert order[1..] == rest;
    }
  }

  lemma {:induction false} NotRunRemains(tasks: seq<AgentTask>, order: seq<TaskId>, i: nat) returns (i': nat)
    requires i < |tasks| && tasks[i].id !in order
    ensures i' < |Remaining(tasks, order)| && Remaining(tasks, order)[i'] == tasks[i]
    decreases |order|
  {
    if order == [] {
      i' := i;
    } else {
      assert order == [order[0]] + order[1..];
      var j := StillThere(tasks, order[0], i);
      i' := NotRunRemains(Removed(tasks, order[0]), order[1..], j);
    }
  }

  /** A graph can be run to the end exactly when every dependency of a live task is live or done. */
  lemma DrainsIffClosed(tasks: seq<AgentTask>, done: seq<TaskId>)
    requires GraphOk(tasks)
    ensures (exists order :: Schedule(tasks, done, order) && Remaining(tasks, order) == []) <==> Closed(tasks, done)
  {
    if Closed(tasks, done) {
      var order := ListOrderIsSchedule(tasks, done);
    }
    if order :| Schedule(tasks, done, order) && Remaining(tasks, order) == [] {
      forall i, d | 0 <= i < |tasks| && d in tasks[i].dependsOn
        ensures Live(tasks, d) || d in done
      {
        DrainedIsClosed(tasks, done, order, i, d);
      }
    }
  }

  lemma DrainedIsClosed(tasks: seq<AgentTask>, done: seq<TaskId>, order: seq<TaskId>, i: nat, d: TaskId)
    requires GraphOk(tasks) && Schedule(tasks, done, order) && Remaining(tasks, order) == []
    requires i < |tasks| && d in tasks[i].dependsOn
    ensures Live(tasks, d) || d in done
  {
    hide GraphOk, Schedule, Remaining;
    if tasks[i].id !in order {
      var left := NotRunRemains(tasks, order, i);
    }
    var k :| 0 <= k < |order| && order[k] == tasks[i].id;
    ScheduleRespectsDependencies(tasks, done, order, k, i, d);
    ScheduleIsDistinct(tasks, done, order);
  }
}
