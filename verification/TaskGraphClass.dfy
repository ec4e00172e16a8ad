/** The task graph as the runtime holds it: a list changed in place. */
module TaskGraphClass {
  import opened Prelude
  import opened Tasks
  import opened TaskGraphs

  class TaskGraph {
    var tasks: seq<AgentTask>

    constructor ()
      ensures tasks == [] && GraphOk(tasks)
    {
      tasks := [];
    }

    function Get(id: TaskId): (r: Option<AgentTask>)
      reads this
      ensures r.Some? <==> Live(tasks, id)
      ensures r.Some? ==> r.value in tasks && r.value.id == id
    {
      var p := Position(tasks, id);
      if p == |tasks| then None else Some(tasks[p])
    }

    method Insert(task: AgentTask) returns (r: Result<(), TaskDependencyError>)
      requires GraphOk(tasks)
      modifies this
      ensures GraphOk(tasks) && tasks == Inserted(old(tasks), task)
      ensures match InsertError(old(tasks), task) case Some(e) => r == Err(e) case None => r == Ok(())
    {
      InsertKeeps(tasks, task);
      if task.id == "" { return Err(EmptyTaskId); }
      if exists i :: 0 <= i < |tasks| && tasks[i].id == task.id { return Err(Duplicate(task.id)); }
      var missing := FindMissing(task.dependsOn);
      if missing.Some? { return Err(UnknownDependency(task.id, missing.value)); }
      ReachedIffNamed(tasks, task.id);
      for i := 0 to |tasks|
        invariant tasks == old(tasks)
        invariant forall j :: 0 <= j < i ==> !Reaches(tasks, tasks[j].id, task.id)
      {
        var reached := TransitivelyDependsOn(i, task.id);
        if reached { return Err(Cycle(task.id)); }
      }
      tasks := tasks + [task];
      r := Ok(());
    }

    method FindMissing(deps: seq<TaskId>) returns (missing: Option<TaskId>)
      ensures missing == FirstMissing(tasks, deps)
    {
      for k := 0 to |deps|
        invariant FirstMissing(tasks, deps) == FirstMissing(tasks, deps[k..])
      {
        assert deps[k..][1..] == deps[k + 1..];
        if !Live(tasks, deps[k]) { return Some(deps[k]); }
      }
      missing := None;
    }

    /**
     Depth-first search through the dependencies of the task at position `i`. It terminates
     because every live dependency sits at a smaller position.
     */
    method TransitivelyDependsOn(i: nat, target: TaskId) returns (r: bool)
      requires GraphOk(tasks) && i < |tasks|
      ensures r <==> Reaches(tasks, tasks[i].id, target)
      decreases i
    {
      var deps := tasks[i].dependsOn;
      for k := 0 to |deps|
        invariant forall j :: 0 <= j < k ==> deps[j] != target && !Reaches(tasks, deps[j], target)
      {
        var dep := deps[k];
        assert Edge(tasks, tasks[i].id, dep);
        if dep == target {
          EdgeReaches(tasks, tasks[i].id, target);
          return true;
        }
        var p := Position(tasks, dep);
        if p < |tasks| {
          assert tasks[p].id in tasks[i].dependsOn;
          var deeper := TransitivelyDependsOn(p, target);
          if deeper {
            EdgeThenReaches(tasks, tasks[i].id, dep, target);
            return true;
          }
        } else if Reaches(tasks, dep, target) {
          ReachesFirst(tasks, dep, target);
          assert false;
        }
      }
      if Reaches(tasks, tasks[i].id, target) {
        ReachesFirst(tasks, tasks[i].id, target);
        assert false;
      }
      r := false;
    }

    method Remove(id: TaskId) returns (r: Option<AgentTask>)
      requires GraphOk(tasks)
      modifies this
      ensures GraphOk(tasks) && tasks == Removed(old(tasks), id)
      ensures r.Some? <==> Live(old(tasks), id)
      ensures r.Some? ==> r.value in old(tasks) && r.value.id == id
      ensures forall x :: Live(tasks, x) <==> Live(old(tasks), x) && x != id
    {
      RemoveKeeps(tasks, id);
      var p := Position(tasks, id);
      if p == |tasks| { return None; }
      r := Some(tasks[p]);
      tasks := tasks[..p] + tasks[p + 1..];
    }
  }
}
