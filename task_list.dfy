/**
 * The task-list aggregate: a list of tasks rebuilt by replaying the events of
 * the `tasks` stream, commands validated against it, and the events that
 * accepted commands produce.
 *
 * `State` keeps its tasks in a field that `Apply` updates in place, as the
 * `&mut self` method does; the queries (`GetTask`, `Execute`, ...) only read
 * it. `Applied` and `Replay` are the functions `Apply` and `Load` are proved
 * against, and the lemmas state what they promise.
 */
module TaskList {
  import opened Wrappers

  /** A point in time (`DateTime<Utc>`); the aggregate only stores it. */
  type Date(==)

  /** The argument records shared by commands and events. */
  datatype AddTaskArgs = AddTaskArgs(id: nat, name: string, dueDate: Option<Date>)
  datatype RemoveTaskArgs = RemoveTaskArgs(id: nat)
  datatype CompleteTaskArgs = CompleteTaskArgs(id: nat)
  datatype ChangeTaskDueDateArgs = ChangeTaskDueDateArgs(id: nat, dueDate: Option<Date>)

  datatype Command =
    | AddTask(add: AddTaskArgs)
    | RemoveTask(remove: RemoveTaskArgs)
    | ClearAllTasks
    | CompleteTask(complete: CompleteTaskArgs)
    | ChangeTaskDueDate(change: ChangeTaskDueDateArgs)

  datatype Event =
    | TaskAdded(added: AddTaskArgs)
    | TaskRemoved(removed: RemoveTaskArgs)
    | AllTasksCleared
    | TaskCompleted(completed: CompleteTaskArgs)
    | TaskDueDateChanged(changed: ChangeTaskDueDateArgs)

  datatype Task = Task(id: nat, name: string, dueDate: Option<Date>, isComplete: bool)

  datatype DomainError = TaskAlreadyExists | TaskDoesNotExist | TaskAlreadyFinished

  /** What one command produced: its events, or why it was rejected. */
  type Outcome = Result<seq<Event>, DomainError>

  // ---------------------------------------------------------------------------
  // Queries on a list of tasks

  /** Some task in `ts` has id `id`. */
  predicate HasTask(ts: seq<Task>, id: nat) {
    exists k :: 0 <= k < |ts| && ts[k].id == id
  }

  /** `k` is the position of the first task in `ts` whose id is `id`. */
  predicate IsFirstMatch(ts: seq<Task>, k: int, id: nat) {
    0 <= k < |ts| && ts[k].id == id && forall j :: 0 <= j < k ==> ts[j].id != id
  }

  /** No two tasks of `ts` share an id. */
  predicate IdsDistinct(ts: seq<Task>) {
    forall i, j :: 0 <= i < j < |ts| ==> ts[i].id != ts[j].id
  }

  /** The linear search from the front: the position of the first task with
      id `id`, or `|ts|` when no task has it. */
  function IndexOf(ts: seq<Task>, id: nat): (k: nat)
    ensures k <= |ts|
    ensures forall j :: 0 <= j < k ==> ts[j].id != id
    ensures k < |ts| ==> ts[k].id == id
    ensures k == |ts| <==> !HasTask(ts, id)
    ensures forall j :: IsFirstMatch(ts, j, id) ==> j == k
  {
    if ts == [] then 0
    else if ts[0].id == id then 0
    else 1 + IndexOf(ts[1..], id)
  }

  // ---------------------------------------------------------------------------
  // What applying an event does to the list

  /** `ts` without the tasks whose id is `id`, the others kept in order. */
  function Without(ts: seq<Task>, id: nat): seq<Task>
  {
    if ts == [] then []
    else
      var rest := Without(ts[..|ts| - 1], id);
      if ts[|ts| - 1].id == id then rest else rest + [ts[|ts| - 1]]
  }

  /** `ts` with the first task of id `id` marked complete. */
  function MarkFirstComplete(ts: seq<Task>, id: nat): seq<Task>
  {
    var k := IndexOf(ts, id);
    if k < |ts| then ts[k := ts[k].(isComplete := true)] else ts
  }

  /** `ts` with the due date of the first task of id `id` set to `due`. */
  function SetFirstDueDate(ts: seq<Task>, id: nat, due: Option<Date>): seq<Task>
  {
    var k := IndexOf(ts, id);
    if k < |ts| then ts[k := ts[k].(dueDate := due)] else ts
  }

  /** The task list after one event. */
  function Applied(ts: seq<Task>, e: Event): seq<Task>
  {
    match e
    case TaskAdded(args) => ts + [Task(args.id, args.name, args.dueDate, false)]
    case TaskRemoved(args) => Without(ts, args.id)
    case AllTasksCleared => []
    case TaskCompleted(args) => MarkFirstComplete(ts, args.id)
    case TaskDueDateChanged(args) => SetFirstDueDate(ts, args.id, args.dueDate)
  }

  /** The task list a stored history projects to: `Applied` folded over the
      events in order, starting from the empty list of `State::default`. */
  function Replay(history: seq<Event>): seq<Task>
  {
    if history == [] then []
    else Applied(Replay(history[..|history| - 1]), history[|history| - 1])
  }

  // ---------------------------------------------------------------------------
  // The aggregate

  class State {
    var tasks: seq<Task>

    /** `State::default`: no tasks. */
    constructor ()
      ensures tasks == []
    {
      tasks := [];
    }

    /** True exactly when no task has id `id` (a search that stops at the
        first match). */
    function OnlyIfTaskDoesNotAlreadyExist(id: nat): (r: bool)
      reads this
      ensures r <==> !HasTask(tasks, id)
    {
      IndexOf(tasks, id) == |tasks|
    }

    /** The first task with id `id`, if there is one. */
    function GetTask(id: nat): (r: Option<Task>)
      reads this
      ensures r.None? <==> !HasTask(tasks, id)
      ensures r.Some? ==> exists k :: IsFirstMatch(tasks, k, id) && r.value == tasks[k]
    {
      var k := IndexOf(tasks, id);
      if k < |tasks| then Some(tasks[k]) else None
    }

    /** Decides a command against the current tasks, without changing them:
        exactly one event when accepted, otherwise the failed precondition. */
    function Execute(cmd: Command): (r: Outcome)
      reads this
      ensures r.Ok? ==> |r.value| == 1
      ensures cmd.AddTask? ==>
        r == if HasTask(tasks, cmd.add.id) then Err(TaskAlreadyExists) else Ok([TaskAdded(cmd.add)])
      ensures cmd.RemoveTask? ==>
        r == if HasTask(tasks, cmd.remove.id) then Ok([TaskRemoved(cmd.remove)]) else Err(TaskDoesNotExist)
      ensures cmd.ClearAllTasks? ==> r == Ok([AllTasksCleared])
      ensures cmd.CompleteTask? ==>
        r == if HasTask(tasks, cmd.complete.id) then Ok([TaskCompleted(cmd.complete)]) else Err(TaskDoesNotExist)
      ensures cmd.ChangeTaskDueDate? ==>
        r == if !HasTask(tasks, cmd.change.id) then Err(TaskDoesNotExist)
             else if exists k :: IsFirstMatch(tasks, k, cmd.change.id) && tasks[k].isComplete then Err(TaskAlreadyFinished)
             else Ok([TaskDueDateChanged(cmd.change)])
    {
      var decided: Result<Event, DomainError> :=
        match cmd
        case AddTask(args) =>
          if OnlyIfTaskDoesNotAlreadyExist(args.id) then Ok(TaskAdded(args)) else Err(TaskAlreadyExists)
        case RemoveTask(args) =>
          if GetTask(args.id).Some? then Ok(TaskRemoved(args)) else Err(TaskDoesNotExist)
        case ClearAllTasks =>
          Ok(AllTasksCleared)
        case CompleteTask(args) =>
          if GetTask(args.id).Some? then Ok(TaskCompleted(args)) else Err(TaskDoesNotExist)
        case ChangeTaskDueDate(args) =>
          match GetTask(args.id)
          case Some(task) =>
            if task.isComplete then Err(TaskAlreadyFinished) else Ok(TaskDueDateChanged(args))
          case None => Err(TaskDoesNotExist);
      match decided
      case Ok(event) => Ok([event])
      case Err(e) => Err(e)
    }

    /** Folds one event into the tasks in place: push, retain, clear, or set
        a field of the first matching task and stop. */
    method Apply(e: Event)
      modifies this
      ensures tasks == Applied(old(tasks), e)
    {
      match e
      case TaskAdded(args) =>
        tasks := tasks + [Task(args.id, args.name, args.dueDate, false)];
      case TaskRemoved(args) =>
        var kept: seq<Task> := [];
        var i := 0;
        while i < |tasks|
          invariant 0 <= i <= |tasks|
          invariant kept == Without(tasks[..i], args.id)
        {
          assert tasks[..i + 1][..i] == tasks[..i];
          if tasks[i].id != args.id {
            kept := kept + [tasks[i]];
          }
          i := i + 1;
        }
        assert tasks[..|tasks|] == tasks;
        tasks := kept;
      case AllTasksCleared =>
        tasks := [];
      case TaskCompleted(args) =>
        var i := 0;
        while i < |tasks| && tasks[i].id != args.id
          invariant 0 <= i <= |tasks|
          invariant forall j :: 0 <= j < i ==> tasks[j].id != args.id
        {
          i := i + 1;
        }
        if i < |tasks| {
          tasks := tasks[i := tasks[i].(isComplete := true)];
        }
      case TaskDueDateChanged(args) =>
        var i := 0;
        while i < |tasks| && tasks[i].id != args.id
          invariant 0 <= i <= |tasks|
          invariant forall j :: 0 <= j < i ==> tasks[j].id != args.id
        {
          i := i + 1;
        }
        if i < |tasks| {
          tasks := tasks[i := tasks[i].(dueDate := args.dueDate)];
        }
    }

    /** The command loop: every command is executed against this same loaded
        state, which is never updated between commands; one outcome per
        command, in input order. */
    method RunCommands(cmds: seq<Command>) returns (outcomes: seq<Outcome>)
      ensures |outcomes| == |cmds|
      ensures forall i :: 0 <= i < |cmds| ==> outcomes[i] == Execute(cmds[i])
    {
      outcomes := [];
      for i := 0 to |cmds|
        invariant |outcomes| == i
        invariant forall j :: 0 <= j < i ==> outcomes[j] == Execute(cmds[j])
      {
        outcomes := outcomes + [Execute(cmds[i])];
      }
    }
  }

  /** The projection: a fresh `State::default` with every stored event applied
      in order. */
  method Load(history: seq<Event>) returns (s: State)
    ensures fresh(s)
    ensures s.tasks == Replay(history)
  {
    s := new State();
    var i := 0;
    while i < |history|
      invariant 0 <= i <= |history|
      invariant s.tasks == Replay(history[..i])
    {
      assert history[..i + 1][..i] == history[..i];
      s.Apply(history[i]);
      i := i + 1;
    }
    assert history[..|history|] == history;
  }

  // ---------------------------------------------------------------------------
  // Event type tags: the variant <-> tag table of the stream's codec. The JSON
  // body is modelled as the argument record it decodes to.

  datatype Payload =
    | AddTaskBody(add: AddTaskArgs)
    | RemoveTaskBody(remove: RemoveTaskArgs)
    | CompleteTaskBody(complete: CompleteTaskArgs)
    | ChangeTaskDueDateBody(change: ChangeTaskDueDateArgs)
    | EmptyBody

  /** The tags the stream's events are stored under. */
  const EventTypes: set<string> :=
    {"task-added", "task-removed", "task-completed", "all-tasks-cleared", "task-due-date-changed"}

  /** The tag an event is stored under. */
  function EventType(e: Event): (tag: string)
    ensures tag in EventTypes
  {
    match e
    case TaskAdded(_) => "task-added"
    case TaskRemoved(_) => "task-removed"
    case TaskCompleted(_) => "task-completed"
    case AllTasksCleared => "all-tasks-cleared"
    case TaskDueDateChanged(_) => "task-due-date-changed"
  }

  /** The body an event is stored with (`{}` for `AllTasksCleared`). */
  function PayloadOf(e: Event): Payload
  {
    match e
    case TaskAdded(args) => AddTaskBody(args)
    case TaskRemoved(args) => RemoveTaskBody(args)
    case TaskCompleted(args) => CompleteTaskBody(args)
    case AllTasksCleared => EmptyBody
    case TaskDueDateChanged(args) => ChangeTaskDueDateBody(args)
  }

  /** Decodes a stored event; `None` for a tag outside the table or a body
      that does not decode to the tag's record. */
  function FromEventType(tag: string, body: Payload): (r: Option<Event>)
    ensures tag !in EventTypes ==> r.None?
    ensures r.Some? ==> EventType(r.value) == tag
    ensures r.Some? && !r.value.AllTasksCleared? ==> PayloadOf(r.value) == body
  {
    match tag
    case "task-added" => if body.AddTaskBody? then Some(TaskAdded(body.add)) else None
    case "task-removed" => if body.RemoveTaskBody? then Some(TaskRemoved(body.remove)) else None
    case "task-completed" => if body.CompleteTaskBody? then Some(TaskCompleted(body.complete)) else None
    case "all-tasks-cleared" => Some(AllTasksCleared)
    case "task-due-date-changed" =>
      if body.ChangeTaskDueDateBody? then Some(TaskDueDateChanged(body.change)) else None
    case _ => None
  }

  /** Every event decodes back from its tag and body. */
  lemma EventTypeRoundTrip(e: Event)
    ensures FromEventType(EventType(e), PayloadOf(e)) == Some(e)
  {
  }

  // ---------------------------------------------------------------------------
  // Properties of apply

  /** `TaskAdded` appends one incomplete task and keeps the earlier ones. */
  lemma AddedAppendsIncompleteTask(ts: seq<Task>, args: AddTaskArgs)
    ensures |Applied(ts, TaskAdded(args))| == |ts| + 1
    ensures Applied(ts, TaskAdded(args))[..|ts|] == ts
    ensures Applied(ts, TaskAdded(args))[|ts|] == Task(args.id, args.name, args.dueDate, false)
  {
  }

  /** `AllTasksCleared` leaves no task. */
  lemma ClearedLeavesNothing(ts: seq<Task>)
    ensures Applied(ts, AllTasksCleared) == []
  {
  }

  /** Removing drops exactly the tasks with that id; with none, nothing changes. */
  lemma {:induction false} WithoutSpec(ts: seq<Task>, id: nat)
    ensures |Without(ts, id)| <= |ts|
    ensures forall t :: t in Without(ts, id) ==> t in ts && t.id != id
    ensures forall t :: t in ts && t.id != id ==> t in Without(ts, id)
    ensures !HasTask(ts, id) ==> Without(ts, id) == ts
  {
    if ts != [] {
      var init, last := ts[..|ts| - 1], ts[|ts| - 1];
      WithoutSpec(init, id);
      assert ts == init + [last];
      if HasTask(init, id) {
        var k :| 0 <= k < |init| && init[k].id == id;
        assert ts[k] == init[k];
      }
    }
  }

  /** After removing, no task has the id. */
  lemma WithoutRemovesId(ts: seq<Task>, id: nat)
    ensures !HasTask(Without(ts, id), id)
  {
    WithoutSpec(ts, id);
    var r := Without(ts, id);
    forall k | 0 <= k < |r| ensures r[k].id != id {
      assert r[k] in r;
    }
  }

  /** Removing keeps the order of what is left: it distributes over
      concatenation. */
  lemma {:induction false} WithoutConcat(a: seq<Task>, b: seq<Task>, id: nat)
    ensures Without(a + b, id) == Without(a, id) + Without(b, id)
  {
    if b == [] {
      assert a + b == a;
    } else {
      var init, last := b[..|b| - 1], b[|b| - 1];
      WithoutConcat(a, init, id);
      assert (a + b)[..|a + b| - 1] == a + init;
      assert (a + b)[|a + b| - 1] == last;
    }
  }

  /** Removing keeps ids distinct. */
  lemma {:induction false} WithoutKeepsIdsDistinct(ts: seq<Task>, id: nat)
    requires IdsDistinct(ts)
    ensures IdsDistinct(Without(ts, id))
  {
    if ts != [] {
      var init, last := ts[..|ts| - 1], ts[|ts| - 1];
      assert IdsDistinct(init);
      WithoutKeepsIdsDistinct(init, id);
      WithoutSpec(init, id);
      var rest := Without(init, id);
      if last.id != id {
        forall i | 0 <= i < |rest| ensures rest[i].id != last.id {
          assert rest[i] in rest;
          assert rest[i] in init;
          var k :| 0 <= k < |init| && init[k] == rest[i];
          assert ts[k] == init[k];
        }
      }
    }
  }

  /** `TaskCompleted` marks the first task with the id complete and changes
      nothing else; with no such task, nothing changes. */
  lemma MarkFirstCompleteSpec(ts: seq<Task>, id: nat)
    ensures |MarkFirstComplete(ts, id)| == |ts|
    ensures forall j :: 0 <= j < |ts| ==>
      MarkFirstComplete(ts, id)[j].id == ts[j].id &&
      MarkFirstComplete(ts, id)[j].name == ts[j].name &&
      MarkFirstComplete(ts, id)[j].dueDate == ts[j].dueDate &&
      MarkFirstComplete(ts, id)[j].isComplete == (ts[j].isComplete || IsFirstMatch(ts, j, id))
    ensures !HasTask(ts, id) ==> MarkFirstComplete(ts, id) == ts
  {
  }

  /** `TaskDueDateChanged` sets the due date of the first task with the id
      and changes nothing else; with no such task, nothing changes. */
  lemma SetFirstDueDateSpec(ts: seq<Task>, id: nat, due: Option<Date>)
    ensures |SetFirstDueDate(ts, id, due)| == |ts|
    ensures forall j :: 0 <= j < |ts| ==>
      SetFirstDueDate(ts, id, due)[j].id == ts[j].id &&
      SetFirstDueDate(ts, id, due)[j].name == ts[j].name &&
      SetFirstDueDate(ts, id, due)[j].isComplete == ts[j].isComplete &&
      SetFirstDueDate(ts, id, due)[j].dueDate == (if IsFirstMatch(ts, j, id) then due else ts[j].dueDate)
    ensures !HasTask(ts, id) ==> SetFirstDueDate(ts, id, due) == ts
  {
  }

  // ---------------------------------------------------------------------------
  // Execute, then apply

  /** Applying the event of an accepted command keeps task ids distinct; for
      `AddTask` this is the existence check at work. */
  lemma AcceptedEventKeepsIdsDistinct(s: State, cmd: Command)
    requires IdsDistinct(s.tasks)
    requires s.Execute(cmd).Ok?
    ensures IdsDistinct(Applied(s.tasks, s.Execute(cmd).value[0]))
  {
    var ts := s.tasks;
    match cmd
    case AddTask(args) =>
      var r := Applied(ts, TaskAdded(args));
      forall i, j | 0 <= i < j < |r| ensures r[i].id != r[j].id {
        if j == |ts| {
          assert r[i] == ts[i];
        } else {
          assert r[i] == ts[i] && r[j] == ts[j];
        }
      }
    case RemoveTask(args) =>
      WithoutKeepsIdsDistinct(ts, args.id);
    case ClearAllTasks =>
    case CompleteTask(args) =>
      MarkFirstCompleteSpec(ts, args.id);
    case ChangeTaskDueDate(args) =>
      SetFirstDueDateSpec(ts, args.id, args.dueDate);
  }

  /** Applying the event of an accepted command realizes the command. */
  lemma AcceptedCommandTakesEffect(s: State, cmd: Command)
    requires s.Execute(cmd).Ok?
    ensures
      var ts := Applied(s.tasks, s.Execute(cmd).value[0]);
      match cmd
      case AddTask(args) => HasTask(ts, args.id)
      case RemoveTask(args) => !HasTask(ts, args.id)
      case ClearAllTasks => ts == []
      case CompleteTask(args) => exists k :: IsFirstMatch(ts, k, args.id) && ts[k].isComplete
      case ChangeTaskDueDate(args) => exists k :: IsFirstMatch(ts, k, args.id) && ts[k].dueDate == args.dueDate
  {
    var ts := s.tasks;
    match cmd
    case AddTask(args) =>
      assert s.Execute(cmd).value[0] == TaskAdded(args);
      var r := Applied(ts, TaskAdded(args));
      assert r[|ts|].id == args.id;
    case RemoveTask(args) =>
      assert s.Execute(cmd).value[0] == TaskRemoved(args);
      WithoutRemovesId(ts, args.id);
    case ClearAllTasks =>
    case CompleteTask(args) =>
      assert s.Execute(cmd).value[0] == TaskCompleted(args);
      MarkFirstCompleteSpec(ts, args.id);
      var k := IndexOf(ts, args.id);
      assert k < |ts| && IsFirstMatch(ts, k, args.id);
      var r := MarkFirstComplete(ts, args.id);
      assert r[k].isComplete;
      assert IsFirstMatch(r, k, args.id);
      assert Applied(ts, s.Execute(cmd).value[0]) == r;
    case ChangeTaskDueDate(args) =>
      assert s.Execute(cmd).value[0] == TaskDueDateChanged(args);
      SetFirstDueDateSpec(ts, args.id, args.dueDate);
      var k := IndexOf(ts, args.id);
      assert k < |ts| && IsFirstMatch(ts, k, args.id);
      var r := SetFirstDueDate(ts, args.id, args.dueDate);
      assert r[k].dueDate == args.dueDate;
      assert IsFirstMatch(r, k, args.id);
      assert Applied(ts, s.Execute(cmd).value[0]) == r;
  }

  // ---------------------------------------------------------------------------
  // One snapshot for the whole batch

  /** The first command of the batch in `main`. */
  const MeaningOfLife := AddTaskArgs(42, "Find the meaning of life", None)

  /** Once an `AddTask` is accepted, every other command on that id in the
      same batch is rejected as about a missing task: the batch never sees
      the task it adds. */
  lemma AcceptedAddHidesTaskFromBatch(s: State, args: AddTaskArgs, due: Option<Date>)
    requires s.Execute(AddTask(args)).Ok?
    ensures s.Execute(RemoveTask(RemoveTaskArgs(args.id))) == Err(TaskDoesNotExist)
    ensures s.Execute(CompleteTask(CompleteTaskArgs(args.id))) == Err(TaskDoesNotExist)
    ensures s.Execute(ChangeTaskDueDate(ChangeTaskDueDateArgs(args.id, due))) == Err(TaskDoesNotExist)
    ensures s.Execute(AddTask(args)) == Ok([TaskAdded(args)])
  {
  }

  /** The batch of `main` on an empty stream: the add is accepted and the
      completion is rejected, although it would be accepted against the
      state that applies the add first. */
  lemma MainBatchOnEmptyHistory(loaded: State, sequential: State)
    requires loaded.tasks == Replay([])
    requires sequential.tasks == Applied(loaded.tasks, TaskAdded(MeaningOfLife))
    ensures loaded.Execute(AddTask(MeaningOfLife)) == Ok([TaskAdded(MeaningOfLife)])
    ensures loaded.Execute(CompleteTask(CompleteTaskArgs(42))) == Err(TaskDoesNotExist)
    ensures sequential.Execute(CompleteTask(CompleteTaskArgs(42))) == Ok([TaskCompleted(CompleteTaskArgs(42))])
  {
    assert sequential.tasks[0].id == 42;
  }

  /** Two adds of one id in a batch on an empty stream are both accepted, and
      replaying their events leaves two tasks with that id: the existence check
      holds per command, not across a batch. */
  lemma StaleBatchDuplicatesId(loaded: State, first: AddTaskArgs, second: AddTaskArgs)
    requires loaded.tasks == Replay([])
    requires first.id == second.id
    ensures loaded.Execute(AddTask(first)) == Ok([TaskAdded(first)])
    ensures loaded.Execute(AddTask(second)) == Ok([TaskAdded(second)])
    ensures !IdsDistinct(Replay([TaskAdded(first), TaskAdded(second)]))
  {
    var history := [TaskAdded(first), TaskAdded(second)];
    assert history[..1][..0] == [];
    assert history[..1] == [TaskAdded(first)];
    assert Replay(history[..1][..0]) == [];
    assert Replay(history[..1]) == [Task(first.id, first.name, first.dueDate, false)];
    var ts := Replay(history);
    assert ts == Replay(history[..1]) + [Task(second.id, second.name, second.dueDate, false)];
    assert ts[0].id == first.id && ts[1].id == second.id;
  }
}
