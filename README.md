# Event-sourced aggregates: task list and bank account

This project models the two example aggregates of the `eventful` repository.
Each aggregate is a state plus two operations:

- a decision function, which checks a command against the current state and
  either rejects it with a typed error or produces an event;
- an apply function, which folds one event into the state.

Around them sit a projection and a batch driver. The projection rebuilds the
state by folding apply over the stored history, starting from an empty seed.
The batch driver decides a list of commands, all against the same loaded
snapshot.

- `TaskList` (`task_list.dfy`) models `examples/eventstore-step-by-step/main.rs`.
  `State` is a class whose `tasks: seq<Task>` field stands for the source's
  `Vec<Task>`. `Apply` changes that field in place with `push`, a retain loop
  that rebuilds the list, `clear`, and the "first match, set a field, break"
  loops. It is proved equal to the pure function `Applied`. The read-only
  queries `OnlyIfTaskDoesNotAlreadyExist`, `GetTask` and `Execute` are class
  functions. The projection `Load` applies each event to a fresh
  `State::default` and is proved equal to `Replay`. The command loop
  `RunCommands` decides every command against the same state.
- `BankAccount` (`bank_account.dfy`) models `examples/eventstore-backend/main.rs`.
  Here everything is a value. `ApplyBankEvent` returns the updated account. The
  stream fold is the recursive function `Project`. The `filter_map` batch is the
  recursive function `Batch`.
- `Wrappers` (`wrappers.dfy`) holds `Option` and `Result`.

`Date` (`DateTime<Utc>`) and `Uuid` are opaque types. They are only stored and
compared. Task ids (`usize`) and amounts (`usize`) are `nat`. The balance
(`i64`) is `int`.

Some functions specify others and carry no contract of their own: `Applied`,
`Without`, `MarkFirstComplete`, `SetFirstDueDate`, `Replay`, `Deposited`,
`Withdrawn` and `PayloadOf`. Their properties are the lemmas in the table
below.

Facts about the code that the model keeps:

- The task-list state has no generation counter. Only the bank account counts
  generations.
- The task-list `apply` mutates the state in place (`&mut self`). It does not
  return a new value.
- A second `AddTask(42)`, decided against the same empty snapshot, is
  accepted. `TaskList.StaleBatchDuplicatesId` proves this, and shows that
  replaying both events leaves two tasks with id 42.
- An unknown event type tag is `unreachable!()` in the code. The model decodes
  it to `None`.

## Model

| member | source | states |
|---|---|---|
| TaskList.IndexOf | examples/eventstore-step-by-step/main.rs:132-134 | the search from the front gives the position of the first task with the id, or the list length exactly when no task has it |
| TaskList.State.constructor | examples/eventstore-step-by-step/main.rs:116-120 | `State::default` holds no task |
| TaskList.State.OnlyIfTaskDoesNotAlreadyExist | examples/eventstore-step-by-step/main.rs:122-130 | true if and only if no task has the id |
| TaskList.State.GetTask | examples/eventstore-step-by-step/main.rs:132-134 | none exactly when no task has the id; otherwise the first task with that id |
| TaskList.State.Execute | examples/eventstore-step-by-step/main.rs:136-178 | an accepted command yields exactly one event. AddTask fails with TaskAlreadyExists if and only if the id exists, otherwise it yields TaskAdded with the same args. RemoveTask and CompleteTask fail with TaskDoesNotExist if and only if the id is absent, otherwise they yield their event. ClearAllTasks is always accepted. ChangeTaskDueDate gives TaskDoesNotExist if the id is absent, TaskAlreadyFinished if the first match is complete, and otherwise TaskDueDateChanged. The state is only read |
| TaskList.State.Apply | examples/eventstore-step-by-step/main.rs:180-219 | the tasks after the in-place update equal `Applied` of the old tasks and the event |
| TaskList.State.RunCommands | examples/eventstore-step-by-step/main.rs:252-268 | one outcome per command, in order; outcome i is `Execute(cmds[i])` against the same unchanged state |
| TaskList.Load | examples/eventstore-step-by-step/main.rs:232-238 | the fold over the history gives a fresh state whose tasks are `Replay(history)`; an empty history gives no task |
| TaskList.EventType | examples/eventstore-step-by-step/main.rs:54-81 | every event is stored under one of the five known tags |
| TaskList.FromEventType | examples/eventstore-step-by-step/main.rs:83-94 | an unknown tag decodes to none; a decoded event has the given tag and, apart from all-tasks-cleared, the given body |
| TaskList.EventTypeRoundTrip | examples/eventstore-step-by-step/main.rs:54-94 | decoding an event's tag and body gives back the event |
| TaskList.AddedAppendsIncompleteTask | examples/eventstore-step-by-step/main.rs:182-191 | TaskAdded appends one incomplete task with the event's fields at the end and keeps the earlier tasks |
| TaskList.ClearedLeavesNothing | examples/eventstore-step-by-step/main.rs:197-199 | AllTasksCleared gives the empty list |
| TaskList.WithoutSpec | examples/eventstore-step-by-step/main.rs:193-195 | TaskRemoved keeps exactly the tasks whose id differs and never lengthens the list; with no match the list is unchanged |
| TaskList.WithoutRemovesId | examples/eventstore-step-by-step/main.rs:193-195 | after TaskRemoved no task has the id |
| TaskList.WithoutConcat | examples/eventstore-step-by-step/main.rs:193-195 | removal distributes over concatenation, so the kept tasks stay in their original order |
| TaskList.WithoutKeepsIdsDistinct | examples/eventstore-step-by-step/main.rs:193-195 | removal keeps task ids distinct |
| TaskList.MarkFirstCompleteSpec | examples/eventstore-step-by-step/main.rs:201-208 | TaskCompleted sets only the completion flag of the first task with the id. Length, ids, names and due dates are unchanged. With no match the list is unchanged |
| TaskList.SetFirstDueDateSpec | examples/eventstore-step-by-step/main.rs:210-217 | TaskDueDateChanged sets only the due date of the first task with the id. Length, ids, names and flags are unchanged. With no match the list is unchanged |
| TaskList.AcceptedEventKeepsIdsDistinct | examples/eventstore-step-by-step/main.rs:136-219 | if ids are distinct and a command is accepted, applying its event keeps ids distinct (for AddTask, through the existence check) |
| TaskList.AcceptedCommandTakesEffect | examples/eventstore-step-by-step/main.rs:136-219 | applying an accepted command's event realizes it. An added id is present, a removed id is absent and a clear leaves nothing. After CompleteTask the first match is complete; after ChangeTaskDueDate the first match has the new due date |
| TaskList.AcceptedAddHidesTaskFromBatch | examples/eventstore-step-by-step/main.rs:252-253 | when AddTask is accepted, remove, complete and due-date commands on that id, decided against the same state, are rejected with TaskDoesNotExist |
| TaskList.MainBatchOnEmptyHistory | examples/eventstore-step-by-step/main.rs:232-253 | on an empty history, AddTask(42) is accepted and CompleteTask(42) is rejected with TaskDoesNotExist; against the state with the add applied, it would be accepted |
| TaskList.StaleBatchDuplicatesId | examples/eventstore-step-by-step/main.rs:252-253 | two AddTask commands with one id, decided against an empty snapshot, are both accepted, and replaying their events breaks id distinctness |
| BankAccount.New | examples/eventstore-backend/main.rs:79-85 | a new account has the given id, balance 0 and generation 0 |
| BankAccount.ApplyBankEvent | examples/eventstore-backend/main.rs:98-114 | every event increases generation by exactly one and keeps the account id |
| BankAccount.HandleBankCommand | examples/eventstore-backend/main.rs:116-147 | a deposit is always accepted. A withdrawal is rejected with NotEnoughFunds if and only if balance minus amount is below zero. An accepted event carries the command's account id, amount and correlation. Nothing is stated about the rejection's correlation |
| BankAccount.Project | examples/eventstore-backend/main.rs:179-187 | the fold keeps the account id and adds the number of events to the generation; ProjectTotals, ProjectFromNew and ProjectConcat state the balance and the rest |
| BankAccount.Batch | examples/eventstore-backend/main.rs:193-203 | the batch emits at most one event per command |
| BankAccount.EventType | examples/eventstore-backend/main.rs:26-38 | every event is stored under "funds-withdrawn" or "funds-deposited" |
| BankAccount.FromEventType | examples/eventstore-backend/main.rs:40-58 | decoding succeeds if and only if the tag is one of the two known tags; a decoded event has that tag and the given body |
| BankAccount.EventTypeRoundTrip | examples/eventstore-backend/main.rs:26-58 | decoding an event's tag and body gives back the event |
| BankAccount.AcceptedWithdrawalKeepsBalance | examples/eventstore-backend/main.rs:128-145 | from a non-negative balance, applying the event of an accepted command leaves the balance non-negative |
| BankAccount.AcceptedCommandTakesEffect | examples/eventstore-backend/main.rs:98-145 | applying an accepted command's event raises the balance by a deposit's amount or lowers it by a withdrawal's amount |
| BankAccount.ProjectTotals | examples/eventstore-backend/main.rs:179-187 | folding events from any seed keeps the account id, adds the number of events to the generation, and adds deposits minus withdrawals to the balance |
| BankAccount.ProjectFromNew | examples/eventstore-backend/main.rs:175-187 | from a new account, generation equals the number of events and balance equals deposits minus withdrawals; no events give the seed |
| BankAccount.ProjectConcat | examples/eventstore-backend/main.rs:179-187 | projecting a history equals projecting its prefix and then folding the rest from that state |
| BankAccount.BatchConcat | examples/eventstore-backend/main.rs:193-203 | the batch of concatenated command lists is the concatenation of the batches: no command sees another's event |
| BankAccount.BatchOne | examples/eventstore-backend/main.rs:193-203 | a single command contributes its event if accepted and nothing if rejected |
| BankAccount.BatchIgnoresRandom | examples/eventstore-backend/main.rs:193-203 | the correlations drawn for rejections never affect the emitted events |
| BankAccount.BatchWithdrawalsWithinSnapshot | examples/eventstore-backend/main.rs:189-203 | every withdrawal the batch emits is within the snapshot's balance on its own |
| BankAccount.MainBatchOnEmptyHistory | examples/eventstore-backend/main.rs:165-203 | on an empty history, the batch of Deposit(3000) and Withdraw(500) emits only the deposit |
| BankAccount.StaleBatchCanOverdraw | examples/eventstore-backend/main.rs:189-203 | with balance 500, two withdrawals of 500 in one batch are both accepted, and replaying them gives balance -500 |

## Left out

- Connections and I/O are not modelled: the async runtime, the connection builder, reading and iterating the stream, writing and appending events, printing errors, and the `chunks(1_000)` write batching. `RunCommands` returns each command's outcome; printing an error or appending the events is I/O.
- The JSON payload codec (`EventData::json`, `as_json`) is foreign code. Only the type-tag table is modelled, with the body as the record it decodes to. A body that does not decode is `None`, where the code panics in `unwrap`.
- Stored bodies are told apart by record kind (`Payload`), so `TaskList.FromEventType` rejects a body of another kind under a tag. The JSON decoder is more lenient: it decodes by shape and ignores extra fields, so an id-only body decodes under either "task-removed" or "task-completed".
- A failed read while folding the bank stream (`item.expect`) and the error path of the task stream's `try_fold` are collaborator failures. They are not modelled.
- `Uuid::new_v4()` for a rejection is random. It is a parameter (`random`) of `HandleBankCommand` and `Batch`, and nothing is stated about it.
- BankAccount.HandleBankCommand: `amount as i64` and the `i64` balance are modelled as unbounded integers, so wrap-around on huge amounts is not modelled.
- BankAccount.ApplyBankEvent: the `usize` generation and `i64` balance overflow are not modelled, for the same reason.
- The two payload structs `FundsWithdrawnPayload` and `FundsDepositedPayload` have identical fields. They are modelled by the single datatype `FundsPayload`.
- `handle_bank_command` does not compare the command's account id with the account's, and neither does the model.
