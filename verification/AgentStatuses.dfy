/** The agent's state: the live task graph, and bounded logs of finished tasks and observations. */
module AgentStatuses {
  import opened Prelude
  import opened Tasks
  import opened TaskGraphs
  import opened TaskGraphClass
  import opened BoundedLogs

  const MAX_TASK_HISTORY: nat := 64
  const OBSERVATION_LOG_LIMIT: nat := 256

  datatype TaskStage = Proposed | Approved | Executing | Done | Failed | Cancelled

  predicate IsTerminal(s: TaskStage) {
    s == Done || s == Failed || s == Cancelled
  }

  datatype HistoryEntry = HistoryEntry(task: AgentTask, stage: TaskStage, timestamp: nat, note: Option<string>)

  datatype Observation = Observation(id: string, component: string, summary: string, timestamp: nat)

  class AgentStatus {
    const graph: TaskGraph
    var history: seq<HistoryEntry>
    var observations: seq<Observation>
    /** Everything ever recorded. */
    ghost var finished: seq<HistoryEntry>
    ghost var observed: seq<Observation>

    ghost predicate Valid()
      reads this, graph
    {
      && GraphOk(graph.tasks)
      && history == Last(finished, MAX_TASK_HISTORY)
      && observations == Last(observed, OBSERVATION_LOG_LIMIT)
    }

    constructor ()
      ensures Valid() && graph.tasks == [] && finished == [] && observed == [] && fresh(graph)
    {
      graph := new TaskGraph();
      history, observations, finished, observed := [], [], [], [];
    }

    method RecordHistory(entry: HistoryEntry)
      requires Valid() && IsTerminal(entry.stage)
      modifies this`history, this`finished
      ensures Valid() && finished == old(finished) + [entry] && history == Last(finished, 64)
    {
      history := history + [entry];
      if |history| > MAX_TASK_HISTORY {
        var drop := |history| - MAX_TASK_HISTORY;
        history := history[drop..];
      }
      LastThenPush(finished, MAX_TASK_HISTORY, entry);
      finished := finished + [entry];
    }

    method AddObservation(o: Observation)
      requires Valid()
      modifies this`observations, this`observed
      ensures Valid() && observed == old(observed) + [o] && observations == Last(observed, 256)
    {
      observations := observations + [o];
      if |observations| > OBSERVATION_LOG_LIMIT {
        var drop := |observations| - OBSERVATION_LOG_LIMIT;
        observations := observations[drop..];
      }
      LastThenPush(observed, OBSERVATION_LOG_LIMIT, o);
      observed := observed + [o];
    }

    method InsertTask(task: AgentTask) returns (r: Result<(), TaskDependencyError>)
      requires Valid()
      modifies graph
      ensures Valid() && graph.tasks == Inserted(old(graph.tasks), task)
      ensures match InsertError(old(graph.tasks), task) case Some(e) => r == Err(e) case None => r == Ok(())
    {
      r := graph.Insert(task);
    }

    /** Takes a task off the graph and into the history. */
    method CompleteTask(id: TaskId, stage: TaskStage, timestamp: nat, note: Option<string>) returns (r: Option<AgentTask>)
      requires Valid() && IsTerminal(stage)
      modifies this`history, this`finished, graph
      ensures Valid() && graph.tasks == Removed(old(graph.tasks), id)
      ensures r.Some? <==> Live(old(graph.tasks), id)
      ensures r.Some? ==> r.value in old(graph.tasks) && r.value.id == id
      ensures finished == if r.Some? then old(finished) + [HistoryEntry(r.value, stage, timestamp, note)] else old(finished)
    {
      r := graph.Remove(id);
      if r.Some? {
        RecordHistory(HistoryEntry(r.value, stage, timestamp, note));
      }
    }
  }
}
