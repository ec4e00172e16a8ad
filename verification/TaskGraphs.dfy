/**
 The task graph: tasks in insertion order, each naming the tasks it depends on. Removing a
 task leaves dangling dependencies behind, and an id may be used again after removal.
 */
module TaskGraphs {
  import opened Prelude
  import opened Tasks

  // ---- the invariant ----

  ghost predicate UniqueIds(tasks: seq<AgentTask>) {
    forall i, j :: 0 <= i < j < |tasks| ==> tasks[i].id != tasks[j].id
  }

  /** Every dependency that is live sits strictly earlier. */
  ghost predicate Topological(tasks: seq<AgentTask>) {
    forall i, j :: 0 <= i < |tasks| && 0 <= j < |tasks| && tasks[j].id in tasks[i].dependsOn ==> j < i
  }

  ghost predicate GraphOk(tasks: seq<AgentTask>) {
    UniqueIds(tasks) && Topological(tasks) && forall i :: 0 <= i < |tasks| ==> tasks[i].id != ""
  }

  predicate Live(tasks: seq<AgentTask>, id: TaskId) {
    exists i :: 0 <= i < |tasks| && tasks[i].id == id
  }

  /** Where a task sits, or the length of the list. */
  function Position(tasks: seq<AgentTask>, id: TaskId): (p: nat)
    ensures p <= |tasks|
    ensures p < |tasks| ==> tasks[p].id == id
    ensures forall i :: 0 <= i < p ==> tasks[i].id != id
  {
    if tasks == [] then 0
    else if tasks[0].id == id then 0
    else 1 + Position(tasks[1..], id)
  }

  // ---- paths: what "transitively depends on" means ----

  /** `x` is live and names `y` as a dependency. */
  predicate Edge(tasks: seq<AgentTask>, x: TaskId, y: TaskId) {
    exists i :: 0 <= i < |tasks| && tasks[i].id == x && y in tasks[i].dependsOn
  }

  ghost predicate IsPath(tasks: seq<AgentTask>, p: seq<TaskId>) {
    |p| >= 2 && forall k :: 0 <= k < |p| - 1 ==> Edge(tasks, p[k], p[k + 1])
  }

  ghost predicate Reaches(tasks: seq<AgentTask>, x: TaskId, y: TaskId) {
    exists p :: IsPath(tasks, p) && p[0] == x && p[|p| - 1] == y
  }

  lemma EdgeReaches(tasks: seq<AgentTask>, x: TaskId, y: TaskId)
    requires Edge(tasks, x, y)
    ensures Reaches(tasks, x, y)
  {
    assert IsPath(tasks, [x, y]);
  }

  lemma EdgeThenReaches(tasks: seq<AgentTask>, x: TaskId, y: TaskId, z: TaskId)
    requires Edge(tasks, x, y) && Reaches(tasks, y, z)
    ensures Reaches(tasks, x, z)
  {
    var p :| IsPath(tasks, p) && p[0] == y && p[|p| - 1] == z;
    var q := [x] + p;
    assert forall k :: 1 <= k < |q| ==> q[k] == p[k - 1];
    assert IsPath(tasks, q);
  }

  /** A path is an edge, or an edge followed by a path. */
  lemma ReachesFirst(tasks: seq<AgentTask>, x: TaskId, z: TaskId)
    requires Reaches(tasks, x, z)
    ensures exists y :: Edge(tasks, x, y) && (y == z || Reaches(tasks, y, z))
  {
    var p :| IsPath(tasks, p) && p[0] == x && p[|p| - 1] == z;
    assert Edge(tasks, p[0], p[1]);
    if |p| > 2 {
      var q := p[1..];
      assert forall k :: 0 <= k < |q| ==> q[k] == p[k + 1];
      assert IsPath(tasks, q) && q[0] == p[1] && q[|q| - 1] == z;
    }
  }

  /** Every path ends with an edge into its last node. */
  lemma ReachesLast(tasks: seq<AgentTask>, x: TaskId, z: TaskId)
    requires Reaches(tasks, x, z)
    ensures exists y :: Edge(tasks, y, z)
  {
    var p :| IsPath(tasks, p) && p[0] == x && p[|p| - 1] == z;
    assert Edge(tasks, p[|p| - 2], p[|p| - 1]);
  }

  /** Along a path between live tasks the position strictly drops. */
  lemma {:induction false} PathDescends(tasks: seq<AgentTask>, p: seq<TaskId>)
    requires GraphOk(tasks) && IsPath(tasks, p) && Live(tasks, p[|p| - 1])
    ensures Position(tasks, p[|p| - 1]) < Position(tasks, p[0])
    decreases |p|
  {
    assert Edge(tasks, p[0], p[1]);
    var i :| 0 <= i < |tasks| && tasks[i].id == p[0] && p[1] in tasks[i].dependsOn;
    assert Position(tasks, p[0]) == i;
    if |p| > 2 {
      var q := p[1..];
      assert forall k :: 0 <= k < |q| ==> q[k] == p[k + 1];
      assert Edge(tasks, q[0], q[1]);
      PathDescends(tasks, q);
    }
    var j := Position(tasks, p[1]);
    assert tasks[j].id in tasks[i].dependsOn;
  }

  /** No task of such a graph depends on itself, however indirectly, dangling edges or not. */
  lemma Acyclic(tasks: seq<AgentTask>, x: TaskId)
    requires GraphOk(tasks)
    ensures !Reaches(tasks, x, x)
  {
    if Reaches(tasks, x, x) {
      var p :| IsPath(tasks, p) && p[0] == x && p[|p| - 1] == x;
      assert Edge(tasks, p[0], p[1]);
      PathDescends(tasks, p);
      assert false;
    }
  }

  // ---- operations on the list ----

  datatype TaskDependencyError =
    | EmptyTaskId
    | UnknownDependency(task: TaskId, missing: TaskId)
    | Cycle(task: TaskId)
    | Duplicate(id: TaskId)

  predicate DirectlyNamed(tasks: seq<AgentTask>, id: TaskId) {
    exists i :: 0 <= i < |tasks| && id in tasks[i].dependsOn
  }

  /** The first dependency that is not live. */
  function FirstMissing(tasks: seq<AgentTask>, deps: seq<TaskId>): Option<TaskId> {
    if deps == [] then None
    else if !Live(tasks, deps[0]) then Some(deps[0])
    else FirstMissing(tasks, deps[1..])
  }

  function InsertError(tasks: seq<AgentTask>, t: AgentTask): Option<TaskDependencyError> {
    if t.id == "" then Some(EmptyTaskId)
    else if Live(tasks, t.id) then Some(Duplicate(t.id))
    else match FirstMissing(tasks, t.dependsOn)
      case Some(d) => Some(UnknownDependency(t.id, d))
      case None => if DirectlyNamed(tasks, t.id) then Some(Cycle(t.id)) else None
  }

  function Inserted(tasks: seq<AgentTask>, t: AgentTask): seq<AgentTask> {
    if InsertError(tasks, t).None? then tasks + [t] else tasks
  }

  function Removed(tasks: seq<AgentTask>, id: TaskId): seq<AgentTask> {
    var p := Position(tasks, id);
    if p == |tasks| then tasks else tasks[..p] + tasks[p + 1..]
  }

  lemma {:induction false} NoneMissing(tasks: seq<AgentTask>, deps: seq<TaskId>)
    ensures FirstMissing(tasks, deps).None? <==> forall d :: d in deps ==> Live(tasks, d)
  {
    if deps != [] {
      NoneMissing(tasks, deps[1..]);
      assert deps == [deps[0]] + deps[1..];
    }
  }

  lemma InsertKeeps(tasks: seq<AgentTask>, t: AgentTask)
    requires GraphOk(tasks)
    ensures GraphOk(Inserted(tasks, t))
  {
    if InsertError(tasks, t).None? {
      NoneMissing(tasks, t.dependsOn);
    }
  }

  /** The list without the task at `p`, position by position. */
  lemma RemovedAt(tasks: seq<AgentTask>, id: TaskId)
    requires Live(tasks, id)
    ensures var p := Position(tasks, id);
            var r := Removed(tasks, id);
            && p < |tasks| && |r| == |tasks| - 1
            && (forall i :: 0 <= i < p ==> r[i] == tasks[i])
            && (forall i :: p <= i < |r| ==> r[i] == tasks[i + 1])
  {
    hide Position;
    var i :| 0 <= i < |tasks| && tasks[i].id == id;
    var p := Position(tasks, id);
    assert p <= i;
    CutOut(tasks, p);
  }

  lemma CutOut<T>(s: seq<T>, p: nat)
    requires p < |s|
    ensures var r := s[..p] + s[p + 1..];
            && |r| == |s| - 1
            && (forall i :: 0 <= i < p ==> r[i] == s[i])
            && (forall i :: p <= i < |r| ==> r[i] == s[i + 1])
  {
  }

  lemma RemoveKeeps(tasks: seq<AgentTask>, id: TaskId)
    requires GraphOk(tasks)
    ensures GraphOk(Removed(tasks, id))
    ensures forall x :: Live(Removed(tasks, id), x) <==> Live(tasks, x) && x != id
  {
    hide Removed, Position;
    if Live(tasks, id) {
      RemovedAt(tasks, id);
      forall x ensures Live(Removed(tasks, id), x) <==> Live(tasks, x) && x != id { LiveAfterRemoval(tasks, id, x); }
    } else {
      RemoveAbsent(tasks, id);
    }
  }

  lemma RemoveAbsent(tasks: seq<AgentTask>, id: TaskId)
    requires !Live(tasks, id)
    ensures Removed(tasks, id) == tasks
  {
    assert Position(tasks, id) == |tasks|;
  }

  lemma LiveAfterRemoval(tasks: seq<AgentTask>, id: TaskId, x: TaskId)
    requires UniqueIds(tasks) && Live(tasks, id)
    ensures Live(Removed(tasks, id), x) <==> Live(tasks, x) && x != id
  {
    hide Removed;
    RemovedAt(tasks, id);
    var p := Position(tasks, id);
    var r := Removed(tasks, id);
    if Live(tasks, x) && x != id {
      var i :| 0 <= i < |tasks| && tasks[i].id == x;
      assert r[if i < p then i else i - 1].id == x;
    }
    if Live(r, x) {
      var i :| 0 <= i < |r| && r[i].id == x;
      assert tasks[if i < p then i else i + 1].id == x;
    }
  }

  datatype GraphOp = Insert(task: AgentTask) | Remove(id: TaskId)

  function Applied(tasks: seq<AgentTask>, op: GraphOp): seq<AgentTask> {
    match op
    case Insert(t) => Inserted(tasks, t)
    case Remove(id) => Removed(tasks, id)
  }

  function After(ops: seq<GraphOp>): seq<AgentTask> {
    if ops == [] then [] else Applied(After(ops[..|ops| - 1]), ops[|ops| - 1])
  }

  /** Every graph any mix of insertions and removals can build is in topological order, hence acyclic. */
  lemma {:induction false} EveryGraphOk(ops: seq<GraphOp>)
    ensures GraphOk(After(ops))
    ensures forall x :: !Reaches(After(ops), x, x)
  {
    if ops != [] {
      EveryGraphOk(ops[..|ops| - 1]);
      match ops[|ops| - 1]
      case Insert(t) => InsertKeeps(After(ops[..|ops| - 1]), t);
      case Remove(id) => RemoveKeeps(After(ops[..|ops| - 1]), id);
    }
    forall x ensures !Reaches(After(ops), x, x) { Acyclic(After(ops), x); }
  }

  // ---- when does insertion report a cycle? ----

  /** Some live task reaches a dead id exactly when some live task names it directly. */
  lemma ReachedIffNamed(tasks: seq<AgentTask>, id: TaskId)
    ensures DirectlyNamed(tasks, id) <==> exists i :: 0 <= i < |tasks| && Reaches(tasks, tasks[i].id, id)
  {
    if DirectlyNamed(tasks, id) {
      var i :| 0 <= i < |tasks| && id in tasks[i].dependsOn;
      EdgeReaches(tasks, tasks[i].id, id);
    }
    if i :| 0 <= i < |tasks| && Reaches(tasks, tasks[i].id, id) {
      ReachesLast(tasks, tasks[i].id, id);
    }
  }

  /** The graph with `t` added would have a cycle. */
  ghost predicate WouldCycle(tasks: seq<AgentTask>, t: AgentTask) {
    exists x :: Reaches(tasks + [t], x, x)
  }

  lemma EdgeOfExtended(tasks: seq<AgentTask>, t: AgentTask, x: TaskId, y: TaskId)
    ensures Edge(tasks + [t], x, y) <==> Edge(tasks, x, y) || (x == t.id && y in t.dependsOn)
  {
    var more := tasks + [t];
    assert more[|tasks|] == t;
    if Edge(tasks, x, y) {
      var i :| 0 <= i < |tasks| && tasks[i].id == x && y in tasks[i].dependsOn;
      assert more[i] == tasks[i];
    }
  }

  lemma ReachesInExtended(tasks: seq<AgentTask>, t: AgentTask, x: TaskId, y: TaskId)
    requires Reaches(tasks, x, y)
    ensures Reaches(tasks + [t], x, y)
  {
    var p :| IsPath(tasks, p) && p[0] == x && p[|p| - 1] == y;
    forall k | 0 <= k < |p| - 1 ensures Edge(tasks + [t], p[k], p[k + 1]) {
      EdgeOfExtended(tasks, t, p[k], p[k + 1]);
    }
    assert IsPath(tasks + [t], p);
  }

  /** A path of the extended graph that does not leave from the new task is a path of the old one. */
  lemma PathOfOld(tasks: seq<AgentTask>, t: AgentTask, p: seq<TaskId>)
    requires IsPath(tasks + [t], p)
    requires forall k :: 0 <= k < |p| - 1 ==> p[k] != t.id
    ensures IsPath(tasks, p)
  {
    forall k | 0 <= k < |p| - 1 ensures Edge(tasks, p[k], p[k + 1]) {
      EdgeOfExtended(tasks, t, p[k], p[k + 1]);
    }
  }

  /** A cycle can be entered at any of its nodes. */
  lemma Rotate(tasks: seq<AgentTask>, p: seq<TaskId>, k: nat) returns (q: seq<TaskId>)
    requires IsPath(tasks, p) && p[0] == p[|p| - 1] && k < |p| - 1
    ensures IsPath(tasks, q) && q[0] == p[k] && q[|q| - 1] == p[k]
  {
    q := p[k..] + p[1..k + 1];
    var n := |p| - k;
    forall m | 0 <= m < |q| - 1 ensures Edge(tasks, q[m], q[m + 1]) {
      if m < n - 1 {
        assert q[m] == p[k + m] && q[m + 1] == p[k + m + 1];
      } else if m == n - 1 {
        assert q[m] == p[|p| - 1] == p[0] && q[m + 1] == p[1];
      } else {
        assert q[m] == p[1 + (m - n)] && q[m + 1] == p[1 + (m + 1 - n)];
      }
    }
  }

  /** A walk from the new task back to itself shows one of its dependencies reaching it in the old graph. */
  lemma {:induction false} FirstReturn(tasks: seq<AgentTask>, t: AgentTask, q: seq<TaskId>) returns (d: TaskId)
    requires !Live(tasks, t.id) && t.id !in t.dependsOn
    requires IsPath(tasks + [t], q) && q[0] == t.id && q[|q| - 1] == t.id
    ensures d in t.dependsOn && Reaches(tasks, d, t.id)
    decreases |q|
  {
    EdgeOfExtended(tasks, t, q[0], q[1]);
    assert Edge(tasks + [t], q[0], q[1]);
    d := q[1];
    if m :| 1 <= m < |q| - 1 && q[m] == t.id {
      var shorter := q[..m + 1];
      assert forall k :: 0 <= k < |shorter| ==> shorter[k] == q[k];
      assert IsPath(tasks + [t], shorter);
      d := FirstReturn(tasks, t, shorter);
    } else {
      var r := q[1..];
      assert forall k :: 0 <= k < |r| ==> r[k] == q[k + 1];
      assert |r| >= 2;
      assert IsPath(tasks + [t], r);
      PathOfOld(tasks, t, r);
    }
  }

  /** Adding a task closes a cycle exactly when one of its dependencies already reaches its id. */
  lemma WouldCycleIff(tasks: seq<AgentTask>, t: AgentTask)
    requires GraphOk(tasks) && !Live(tasks, t.id) && FirstMissing(tasks, t.dependsOn).None?
    ensures WouldCycle(tasks, t) <==> exists d :: d in t.dependsOn && Reaches(tasks, d, t.id)
  {
    NoneMissing(tasks, t.dependsOn);
    if d :| d in t.dependsOn && Reaches(tasks, d, t.id) {
      ReachesInExtended(tasks, t, d, t.id);
      EdgeOfExtended(tasks, t, t.id, d);
      EdgeThenReaches(tasks + [t], t.id, d, t.id);
    }
    if WouldCycle(tasks, t) {
      var x :| Reaches(tasks + [t], x, x);
      var p :| IsPath(tasks + [t], p) && p[0] == x && p[|p| - 1] == x;
      if k :| 0 <= k < |p| - 1 && p[k] == t.id {
        var q := Rotate(tasks + [t], p, k);
        var d := FirstReturn(tasks, t, q);
      } else {
        PathOfOld(tasks, t, p);
        Acyclic(tasks, x);
      }
    }
  }

  /** Dependency `i` is not live, and all before it are. */
  predicate FirstDead(tasks: seq<AgentTask>, deps: seq<TaskId>, i: nat)
    requires i < |deps|
  {
    !Live(tasks, deps[i]) && forall j :: 0 <= j < i ==> Live(tasks, deps[j])
  }

  lemma {:induction false} FirstMissingIs(tasks: seq<AgentTask>, deps: seq<TaskId>, i: nat)
    requires i < |deps| && FirstDead(tasks, deps, i)
    ensures FirstMissing(tasks, deps) == Some(deps[i])
  {
    if i > 0 {
      assert Live(tasks, deps[0]);
      assert forall j :: 0 <= j < i - 1 ==> deps[1..][j] == deps[j + 1];
      FirstMissingIs(tasks, deps[1..], i - 1);
    }
  }

  /**
   Which error an insertion reports: a missing id, an id in use, the first dependency that is
   not live, or a cycle when everything else is in order and a live task names the id.
   */
  lemma InsertErrorIff(tasks: seq<AgentTask>, t: AgentTask)
    ensures var e := InsertError(tasks, t);
            && (e == Some(EmptyTaskId) <==> t.id == "")
            && (e == Some(Duplicate(t.id)) <==> t.id != "" && Live(tasks, t.id))
            && (e.Some? && e.value.UnknownDependency? <==> t.id != "" && !Live(tasks, t.id) && exists d :: d in t.dependsOn && !Live(tasks, d))
            && (e == Some(Cycle(t.id)) <==>
                  && t.id != "" && !Live(tasks, t.id) && (forall d :: d in t.dependsOn ==> Live(tasks, d))
                  && exists i :: 0 <= i < |tasks| && t.id in tasks[i].dependsOn)
            && (e.Some? && e.value.Duplicate? ==> e.value == Duplicate(t.id)) && (e.Some? && e.value.Cycle? ==> e.value == Cycle(t.id))
    ensures t.id != "" && !Live(tasks, t.id) ==>
              forall i: nat :: i < |t.dependsOn| && FirstDead(tasks, t.dependsOn, i) ==>
                InsertError(tasks, t) == Some(UnknownDependency(t.id, t.dependsOn[i]))
  {
    hide Live;
    NoneMissing(tasks, t.dependsOn);
    forall i: nat | i < |t.dependsOn| && FirstDead(tasks, t.dependsOn, i)
      ensures FirstMissing(tasks, t.dependsOn) == Some(t.dependsOn[i])
    {
      FirstMissingIs(tasks, t.dependsOn, i);
    }
  }

  /** Whatever would close a cycle is reported as one. */
  lemma NoCycleSlipsThrough(tasks: seq<AgentTask>, t: AgentTask)
    requires GraphOk(tasks) && InsertError(tasks, t).None?
    ensures !WouldCycle(tasks, t)
  {
    InsertKeeps(tasks, t);
    forall x ensures !Reaches(tasks + [t], x, x) { Acyclic(tasks + [t], x); }
  }

  /**
   The report is not always right: an id that a live task still names cannot be used again,
   even by a task without dependencies. `CycleReportGenuineIff` says when a report is genuine.
   */
  lemma FalseAlarm() returns (ops: seq<GraphOp>, t: AgentTask)
    ensures InsertError(After(ops), t) == Some(Cycle(t.id)) && !WouldCycle(After(ops), t)
  {
    t := AgentTask("a", Notify, "t", "d", [], TaskRisk.Low, None, None);
    var b := t.(id := "b", dependsOn := ["a"]);
    ops := [Insert(t), Insert(b), Remove("a")];
    ReuseAfterRemoval(t, b);
    EveryGraphOk(ops);
    hide After, InsertError, GraphOk;
    WouldCycleIff([b], t);
  }

  /** In every graph that can be built, a reported cycle is one exactly when the new task depends on something that reaches its id. */
  lemma CycleReportGenuineIff(ops: seq<GraphOp>, t: AgentTask)
    requires InsertError(After(ops), t) == Some(Cycle(t.id))
    ensures WouldCycle(After(ops), t) <==> exists d :: d in t.dependsOn && Reaches(After(ops), d, t.id)
  {
    hide After, GraphOk;
    EveryGraphOk(ops);
    WouldCycleIff(After(ops), t);
  }

  /** Some reports are right: the removed task comes back depending on the one that still names it. */
  lemma GenuineAlarm() returns (ops: seq<GraphOp>, t: AgentTask)
    ensures InsertError(After(ops), t) == Some(Cycle(t.id)) && WouldCycle(After(ops), t)
  {
    var a := AgentTask("a", Notify, "t", "d", [], TaskRisk.Low, None, None);
    var b := a.(id := "b", dependsOn := ["a"]);
    t := a.(dependsOn := ["b"]);
    ops := [Insert(a), Insert(b), Remove("a")];
    ReuseAfterRemoval(a, b);
    assert [b][0].id == "b" && "a" in [b][0].dependsOn;
    assert FirstMissing([b], t.dependsOn) == None;
    EdgeReaches([b], "b", "a");
    CycleReportGenuineIff(ops, t);
  }

  /** `b` depends on `t`, which is removed: the graph is left with the dangling edge. */
  lemma ReuseAfterRemoval(t: AgentTask, b: AgentTask)
    requires t.id != "" && b.id != "" && t.id != b.id && t.dependsOn == [] && b.dependsOn == [t.id]
    ensures After([Insert(t), Insert(b), Remove(t.id)]) == [b]
    ensures InsertError([b], t) == Some(Cycle(t.id))
  {
    var ops := [Insert(t), Insert(b), Remove(t.id)];
    assert ops[..2] == [Insert(t), Insert(b)] && ops[..2][..1] == [Insert(t)] && ops[..2][..1][..0] == [];
    assert After(ops[..2][..1]) == [t];
    assert [t][0].id == t.id;
    assert FirstMissing([t], b.dependsOn) == None;
    assert After(ops[..2]) == [t, b];
    assert Removed([t, b], t.id) == [b];
    assert t.id in [b][0].dependsOn;
  }
}
