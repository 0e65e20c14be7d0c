# initd: a verified model

`initd` starts and stops the tasks of a system in the order of their dependencies, reads them
from a configuration file and takes requests over a socket. This project models three parts of
it and proves what they are for.

**The supervisor.** Tasks form a graph that may have cycles, loops and repeated edges. A switch
of the run level marks the tasks it needs; each task then starts when its dependencies are up
and stops when its dependants are down. The decision reads counters that are brought up to date
only by a task's completion callback or by the next switch, so they may be stale in between.

- `TaskGraph` has paths, cycles, reachability and counting.
- `SupervisorModel` has the supervisor as a state machine on values: the switch, a child exit and
  a wake-up of a synchronous task, the last two with the callback that re-examines the neighbours.
- `SupervisorInvariant` has the invariant and the proof that each transition keeps it. Its heart
  is that a stale flag errs on one side only: counted up but not up implies not wanted, live but
  not counted live implies wanted. As the wanted tasks are closed under dependencies, no decision
  on stale counters is wrong.
- `SupervisorLiveness` has the configuration at rest and the measure.
- `SupervisorRuns` has the theorems about whole runs from boot, under any interleaving.
- `FunctionQueue`, `Handles`, `Supervisor` and `InitMain` have the program's classes. Their
  methods update objects in place, and each is proved to do what the state machine does.

**The configuration front end.**

- `Lexing` and `Parsing` say, as functions, what tokens a text has and what tree and complaints a
  row of tokens gives, errors and recovery included.
- `Lexer` and `Parser` have the classes with their loops, proved to compute these functions.
- `Layouts` says what a laid out text is, damaged strings and comments included, without reference
  to the lexer. `LexingTheorems` proves that every layout is read as its tokens and complaints,
  tokens touching wherever they do not merge; `LexingExactly` proves that every text is a layout.
- `ParsingTheorems` has the grammar and the exact language, `FirstComplaint` that the first
  complaint is neither early nor late. `Recovery` extends the grammar by tokens that are missing or
  astray and proves that the parser's result for any row of tokens is its one reading there.
- `ReadConfig` has the round trip of trees through any interleaving of their declarations and any
  layout of the text, and the order of complaints.
- `CommandLine` has the splitter of command lines and the exact language it reads.

**Control messages.** `ControlProtocol` has the streams, the frames and the receiver;
`ControlTheorems` proves what the receiver makes of a byte stream cut into chunks.

`Wrappers` has the option type. Run `dafny verify dfyconfig.toml` for the whole project.

## Findings

- A request for an unknown run level during a shutdown cancels the shutdown: `set_runlevel` of
  the context sets its target before the look-up throws (`init/initd-main.cpp:83-88`). All tasks
  still stop, but the program then waits for ever. A run that has come to rest ends exactly when
  no run level, known or unknown, was requested after its last shutdown request
  (`SupervisorRuns.EndsExactly`); that the tasks stop all the same is `ShutdownStops`.
- Tasks that depend on a cycle never start, and a request for one leaves `pending_tasks` above
  zero; shutdown is not affected. See `SupervisorRuns.Convergence` and `ShutdownDrains`.
- The lexer runs past the end of a text that is cut off in a single-line comment. See
  `LexingTheorems.LexableExactly` for the exact condition.
- The receiver of control messages does not accept two messages in one read: it closes the
  connection. It is independent of the chunks only as long as messages end with chunks. See
  `ControlTheorems.DeliveredExactly`.

## Model

| member | source | states |
|---|---|---|
| SupervisorRuns.OrderingSafety | libinitd/task.cpp:58-91 | In every state that boot and any interleaving of child exits, wake-ups and requests can reach, whatever is running, starting or stopping has every dependency running and not in transition. |
| SupervisorRuns.CountersRefineScan | libinitd/task.cpp:58-113 | In every reachable state the counters equal the numbers of edges (with multiplicity) and tasks whose flags say so, hence are never negative, and a counter at zero is never contradicted by the handles: a wanted task with no stopped dependency has all dependencies up, an unwanted one with no live dependant has all dependants stopped. |
| SupervisorRuns.SyncedZeroTests | libinitd/initd_state.cpp:73-81 | Right after a switch has synced all tasks, in every reachable state, the two zero tests are the scans themselves: no stopped dependency is counted exactly when every dependency is up, no running dependant exactly when no dependant is live. |
| SupervisorRuns.CallbacksSafe | libinitd/tasks/async_start_stop_task.cpp:64-106 | In every reachable state the completion callbacks' assertions hold, a task in transition has the wish of its task (so the relaunch inside the callback is right), a readable descriptor finds a function, and a task with stale flags has a completion outstanding. |
| SupervisorRuns.WakeFindsFunction | libsysapi/function_queue.cpp:10-17 | In every reachable state a readable descriptor finds a function in its queue, also when several pushes became one wake-up. |
| SupervisorRuns.CyclesNeverStart | libinitd/task.cpp:82-101 | Tasks on a dependency cycle, or depending on one, are never running or in transition in any reachable state. |
| SupervisorRuns.WishesExact | libinitd/initd_state.cpp:63-91 | After any run a task should work exactly if it can be reached along dependencies from a requisite of the last known run level that was requested (none after a shutdown request). |
| SupervisorRuns.LastSwitchDecides | libinitd/initd_state.cpp:63-91 | After any run nothing is wanted if the last switch was a shutdown; if it was to a known run level, exactly what can be reached from its requisites is; without a switch, what the default level needs. |
| SupervisorRuns.NothingDisturbed | libinitd/task.cpp:82-91 | In every reachable state an event leaves the handle of a task alone that is up and still wanted behind it, or stopped and still unwanted: nothing is restarted or started without need. |
| SupervisorRuns.RunsEnd | libinitd/initd_state.cpp:25-34 | From every reachable state, without new requests, a run has at most two completions for each task and at most twice as many as there are tasks in all; so every such run ends. |
| SupervisorRuns.RestIffNoEvent | libinitd/initd_state.cpp:93-96 | In every reachable state no completion is possible exactly when no task is in transition or announced. |
| SupervisorRuns.RestReached | libinitd/initd_state.cpp:25-34 | From every reachable state some completions alone lead to rest: nothing is deadlocked. |
| SupervisorRuns.Convergence | libinitd/initd_state.cpp:63-91 | At rest, on any graph, exactly the tasks run that the last request asks for and that do not depend on a cycle; `pending_tasks` is the number of requested tasks that do. |
| SupervisorRuns.AcyclicConvergence | libinitd/initd_state.cpp:25-34 | At rest on an acyclic graph every task runs exactly if it should, and `pending_tasks` is zero: no wake-up is lost. |
| SupervisorRuns.CleanExit | init/initd-main.cpp:66-112 | When the main loop's condition is false the target is reboot or power-off and no task is running or in transition, so the handles' destructor assertions hold. |
| SupervisorRuns.ShutdownDrains | libinitd/initd_state.cpp:83-91 | On every graph, cyclic ones included, a shutdown that has come to rest ends the main loop. |
| SupervisorRuns.EndsExactly | init/initd-main.cpp:66-88 | In every run from boot that has come to rest, on any graph, the condition of the main loop is false if and only if there is a shutdown request with no request for a run level, known or unknown, behind it; and then the target is what the last request asks for. |
| SupervisorRuns.TargetExactly | init/initd-main.cpp:71-88 | In every run the target is the one its last request asks for: reboot exactly after a request to reboot, power-off exactly after one to power off, running exactly after one for a run level; without a request it stays as it was. |
| SupervisorRuns.ShutdownStops | libinitd/initd_state.cpp:63-91 | After a shutdown request that only requests for unknown run levels follow, or none, every task is stopped at rest and `pending_tasks` is zero, on any graph. |
| SupervisorRuns.UnknownRunLevel | libinitd/initd_state.cpp:63-71 | A request for an unknown run level leaves all tasks alone; it leaves the whole system alone exactly when no shutdown is under way (what it does to whole runs is `EndsExactly`). |
| SupervisorRuns.RequestCancelsShutdown | init/initd-main.cpp:83-88 | In every run from boot a request for a run level, for an unknown one too, cancels a shutdown: until another shutdown is requested the condition of the main loop stays true. |
| SupervisorRuns.StaysRunning | init/initd-main.cpp:66-88 | Only a shutdown request makes the target something other than running. |
| SupervisorRuns.StepKeepsInv | libinitd/initd_state.cpp:13-91 | Every event keeps the invariant of the supervisor and changes the set of wanted tasks only as a switch asks. |
| SupervisorRuns.BootKeepsInv | init/initd-main.cpp:54-64 | The invariant holds after boot and the wanted tasks are those of the run level called default. |
| TaskGraph.CycleIffLongWalk | libinitd/task.cpp:7-15 | A task depends on a cycle exactly when dependency walks of length n leave it, n being the number of tasks; edges may be repeated and may be loops. |
| TaskGraph.ClosureIsClosed | libinitd/task.cpp:47-56 | The tasks reachable from the requisites contain them and are closed under dependencies. |
| TaskGraph.ClosureIsLeast | libinitd/task.cpp:47-56 | Every closed set with the requisites contains all reachable tasks. |
| SupervisorInvariant.StartSound | libinitd/task.cpp:82-86 | With the counters as stale as the invariant allows, a wanted task whose counter is zero has every dependency up. |
| SupervisorInvariant.StopSound | libinitd/task.cpp:88-90 | Likewise an unwanted task whose counter is zero has no live dependant. |
| SupervisorInvariant.GroundedStep | libinitd/task.cpp:82-86 | A task with dependencies that are up does not depend on a cycle; so starting it keeps the live part of the graph acyclic. |
| SupervisorInvariant.EnqueueKeepsCore | libinitd/task.cpp:82-91 | Enqueueing a task without a sync keeps ordering, exact counters, one-sided staleness and the rest of the invariant. |
| SupervisorInvariant.SyncKeepsCounters | libinitd/task.cpp:58-80 | A sync of one task keeps all counters of all tasks equal to what the flags say. |
| SupervisorInvariant.SyncKeepsCore | libinitd/task.cpp:58-80 | A sync of one task keeps the invariant and makes its flags exact. |
| SupervisorInvariant.SyncKeepsIdle | libinitd/task.cpp:58-80 | A sync can make only neighbours of the task startable or stoppable. |
| SupervisorInvariant.NeighboursSuffice | libinitd/initd_state.cpp:29-32 | Re-examining only the dependants of a task that runs, or only the dependencies of one that does not, misses nobody. |
| SupervisorInvariant.CompleteHarmless | libinitd/tasks/async_start_stop_task.cpp:79-103 | A finished operation with its relaunch changes its handle in a way that keeps the ordering. |
| SupervisorInvariant.StateChangedKeepsInv | libinitd/initd_state.cpp:25-34 | The state-changed callback restores the full invariant. |
| SupervisorInvariant.ChildExitKeepsInv | libinitd/tasks/async_start_stop_task.cpp:79-103 | A child exit, with the relaunch and the callback, keeps the invariant. |
| SupervisorInvariant.QueueWakeKeepsInv | libinitd/tasks/sync_task_adaptor.cpp:48-58 | A wake-up of a synchronous task keeps the invariant. |
| SupervisorInvariant.SyncFirstExact | libinitd/initd_state.cpp:77-78 | After the sync of all tasks every flag agrees with its handle. |
| SupervisorInvariant.ZeroTestsExact | libinitd/task.cpp:93-101 | Wherever the counters and all flags are exact, each zero test holds if and only if the scan over the handles of the neighbours does. |
| SupervisorInvariant.SwitchKeepsInv | libinitd/initd_state.cpp:63-91 | A switch to any set of tasks that is closed under dependencies keeps the invariant. |
| SupervisorInvariant.InitialInv | libinitd/initd_state.cpp:13-58 | The invariant holds for the constructed state. |
| SupervisorLiveness.WantedRuns | libinitd/task.cpp:82-86 | At rest a wanted task from which no walk of length n leaves is running. |
| SupervisorLiveness.RestStarted | libinitd/task.cpp:82-86 | At rest a wanted task with running dependencies is running. |
| SupervisorLiveness.HeldWalk | libinitd/task.cpp:88-90 | At rest an unwanted running task would be held by a walk of dependants of any length. |
| SupervisorLiveness.RestConfiguration | libinitd/task.cpp:82-91 | At rest a task runs exactly if it is wanted and does not depend on a cycle. |
| SupervisorLiveness.RestPending | libinitd/task.cpp:74-79 | At rest `pending_tasks` is the number of wanted tasks that depend on a cycle. |
| SupervisorLiveness.ChildExitProgress | libinitd/tasks/async_start_stop_task.cpp:79-103 | A child exit uses up one of at most two completions of its task and gives no other task more. |
| SupervisorLiveness.QueueWakeProgress | libinitd/tasks/sync_task_adaptor.cpp:48-58 | So does a wake-up of a synchronous task. |
| FunctionQueues.FunctionQueue.Push | libsysapi/function_queue.cpp:19-23 | Appends the function and announces it; the announcements never outnumber the functions. |
| FunctionQueues.FunctionQueue.OnReadable | libsysapi/function_queue.cpp:10-17 | Takes the oldest function and resets all announcements at once; later functions stay. |
| Handles.AsyncStartStopTask.SetShouldWork | libinitd/tasks/async_start_stop_task.cpp:25-29 | Changes the wish and launches an operation, as the state machine's handle does. |
| Handles.AsyncStartStopTask.EnqueueJob | libinitd/tasks/async_start_stop_task.cpp:64-106 | Launches at most one operation, none when nothing is to be done. |
| Handles.AsyncStartStopTask.OnChildExit | libinitd/tasks/async_start_stop_task.cpp:79-103 | Finishes the operation, its assertion holding, and relaunches. |
| Handles.SyncTaskAdaptor.SetShouldWork | libinitd/tasks/sync_task_adaptor.cpp:30-59 | Changes the state at once and queues a report. A task without a task object gets exactly one attempt to create it when it is to work, whose outcome decides whether there is one; a failed one still counts as running. A task that is not to work has no task object. |
| Handles.TaskHandle.SetShouldWork | libinitd/tasks/sync_task_adaptor.cpp:30-59 | The same for a handle of either kind; an asynchronous one never makes an attempt. |
| Handles.SyncTaskAdaptor.OnReadable | libinitd/tasks/sync_task_adaptor.cpp:48-58 | A wake-up finds a queued report. |
| Handles.CreateTaskHandle | libinitd/tasks/create_async_task_handle.cpp:10-27 | A new handle of either kind is stopped and idle. |
| Supervisor.Task.MarkShouldWork | libinitd/task.cpp:47-56 | Terminates on any graph, cycles included; marks this task, keeps marks, leaves no unmarked dependency of what it newly marks. |
| Supervisor.Task.Sync | libinitd/task.cpp:58-80 | The counters of the neighbours, the flags and `pending_tasks` change exactly where a flag disagrees with the handle. |
| Supervisor.Task.EnqueueThis | libinitd/task.cpp:82-91 | Sets the handle to work or not exactly under the two conditions on wish and counters; a synchronous task is attempted exactly once when it starts to run, and not otherwise. |
| Supervisor.AddTaskDependency | libinitd/task.cpp:7-15 | Adds one edge in both directions and counts it. |
| Supervisor.WireTasks | libinitd/initd_state.cpp:39-49 | The wired objects form the graph of the descriptions, both directions agreeing with multiplicity. |
| Supervisor.FindRunLevels | libinitd/initd_state.cpp:51-57 | Every run level keeps its name and refers to the task objects of its requisites, in order. |
| Supervisor.InitdState.constructor | libinitd/initd_state.cpp:13-58 | The constructed objects are the initial state of the state machine for the described graph. |
| Supervisor.InitdState.SyncTask | libinitd/initd_state.cpp:77-78 | The objects move as the state machine's sync does. |
| Supervisor.InitdState.StateChanged | libinitd/initd_state.cpp:25-34 | The objects move as the state machine's callback does. |
| Supervisor.InitdState.MarkOnly | libinitd/initd_state.cpp:73-75 | Clearing and marking leaves exactly the tasks wanted that are reachable from the requisites. |
| Supervisor.InitdState.SetRunLevel | libinitd/initd_state.cpp:63-81 | A known run level moves the objects as the switch to its closure does; an unknown one changes nothing. |
| Supervisor.InitdState.SetEmptyRunLevel | libinitd/initd_state.cpp:83-91 | The objects move as the switch to no tasks does. |
| Supervisor.InitdState.ChildExit | libinitd/tasks/async_start_stop_task.cpp:79-103 | The objects move as the state machine's child exit does. |
| Supervisor.InitdState.QueueWake | libinitd/tasks/sync_task_adaptor.cpp:48-58 | The objects move as the state machine's wake-up does. |
| InitMain.Context.constructor | init/initd-main.cpp:54-64 | The context starts in the initial state with the target running. |
| InitMain.Context.Boot | init/initd-main.cpp:62-64 | Starts the run level called default; fails exactly when there is none, and then nothing has changed. |
| InitMain.Context.SetRunLevel | init/initd-main.cpp:83-88 | Performs the system's step for a run-level request, known or not. |
| InitMain.Context.MainLoop | init/initd-main.cpp:111-112 | Handles the events in order until the context is inactive. The target is then what the last request handled asks for, unchanged without one; if the context is inactive it is reboot or power-off and every task object is stopped and idle. |
| LexingTheorems.RenderLexes | libinitd-readconfig/lexer/lexer.cpp:97-354 | Every layout — any white space and comments, tokens touching wherever they do not merge, strings in quotes, raw or damaged — is read as its tokens, each in its place, and with exactly the complaints about its damage. |
| LexingTheorems.RenderLexesExactly | libinitd-readconfig/lexer/lexer.cpp:97-354 | Spelt tokens lex to themselves, each exactly where it is spelt, if and only if each may come before the text behind it: no word before a letter, digit or underscore, no number before a digit, no `R` before a quote, no slash before a slash or star, no cut-off string before anything it would go on with. |
| LexingExactly.LayoutExactly | libinitd-readconfig/lexer/lexer.cpp:97-354 | A text is read to the end without a failing assertion or an overflowing number if and only if it is a layout: whatever is read as a token is a spelling of it, and a character that begins no spelling is an unknown token. |
| LexingExactly.CleanExactly | libinitd-readconfig/lexer/lexer.cpp:97-354 | A text is read without a complaint if and only if it is a layout in which no string and no comment is damaged. |
| LexingExactly.FormAt | libinitd-readconfig/lexer/lexer.cpp:163-352 | Wherever a token begins there is a spelling of one of the seven kinds, and it ends where the text behind it may begin. |
| LexingExactly.GapAt | libinitd-readconfig/lexer/lexer.cpp:97-162 | What is skipped before a token is white space and complete comments. |
| LexingTheorems.RawStringExact | libinitd-readconfig/lexer/lexer.cpp:163-219 | A raw string over any allowed delimiter is read as its contents, over its whole range, exactly when its closing mark does not occur in the contents. |
| LexingTheorems.QuotedExact | libinitd-readconfig/lexer/lexer.cpp:245-317 | Any characters and backslash pairs in quotes are read as their values, with a complaint for each pair outside the table, up to the quote or, with a complaint, to the end of the line or text. |
| LexingTheorems.EscapeExact | libinitd-readconfig/lexer/lexer.cpp:259-312 | A pair in the table stands for its character without a complaint; any other stands for itself, with a complaint over it. |
| LexingTheorems.RawCutExact | libinitd-readconfig/lexer/lexer.cpp:196-218 | A raw string without its closing mark holds the rest of the text and is complained about. |
| LexingTheorems.RawOpenExact | libinitd-readconfig/lexer/lexer.cpp:170-190 | A raw string whose delimiter is not followed by a parenthesis is empty, ends there and is complained about. |
| LexingTheorems.SymbolExact | libinitd-readconfig/lexer/lexer.cpp:318-352 | A single character that begins nothing else is the punctuation of that character, or an unknown token; a slash unless a comment begins. |
| LexingTheorems.TailRead | libinitd-readconfig/lexer/lexer.cpp:144-162 | Behind the last token a comment that is not closed is complained about at the end of the text. |
| ReadConfig.UnescapeOfEscaped | libinitd-readconfig/lexer/lexer.cpp:270-307 | The printer's escapes are the inverse of the lexer's table, so every value has a spelling in quotes. |
| LexingTheorems.NumberExact | libinitd-readconfig/lexer/lexer.cpp:232-244 | The decimal digits of a number in the range of `int`, with any zeros before them, are read as that number and to their end exactly when no further digit follows. |
| LexingTheorems.WordExact | libinitd-readconfig/lexer/lexer.cpp:220-231 | A word is read to its end and told apart from the keywords, exactly when no character follows that belongs to words, and no quote follows the word `R`. |
| LexingTheorems.SpellingExact | libinitd-readconfig/lexer/lexer.cpp:163-347 | Every spelling, damaged ones included, is read as what it means, to its end and with its complaints, exactly when it may come before the text behind it. |
| LexingTheorems.SkipGap | libinitd-readconfig/lexer/lexer.cpp:97-162 | White space and complete comments are skipped without trace. |
| LexingTheorems.TokensInOrder | libinitd-readconfig/lexer/lexer.cpp:97-120 | Token ranges are not empty, lie in the text one behind the other, and begin with a character that is not white. |
| LexingTheorems.LexableExactly | libinitd-readconfig/lexer/lexer.cpp:130-143 | The assertion of `advance_char` fails exactly for a text in which the lexer comes to a single-line comment that no line break ends. |
| LexingTheorems.EndedLineLexes | libinitd-readconfig/lexer/lexer.cpp:130-143 | A text that ends with a line break never makes it fail. |
| LexingTheorems.CutOffCommentAborts | libinitd-readconfig/lexer/lexer.cpp:130-143 | The text `//` does. |
| ConfigLexer.Lexer.constructor | libinitd-readconfig/lexer/lexer.cpp:61-68 | The lexer will give exactly the tokens, and make the complaints, that the text has. |
| ConfigLexer.Lexer.ReadToken | libinitd-readconfig/lexer/lexer.cpp:85-90 | Gives the token looked at and moves the lookahead on; nothing is lost or read twice. |
| ConfigLexer.Lexer.ReadNextToken | libinitd-readconfig/lexer/lexer.cpp:111-354 | The loop over white space and comments ends at the next token of the text, with its complaints; what that token is, `SpellingExact` and `FormAt` say. |
| ConfigLexer.Lexer.ReadDelimiter | libinitd-readconfig/lexer/lexer.cpp:170-194 | Stops at the first character no delimiter may have. |
| ConfigLexer.Lexer.ReadRawBody | libinitd-readconfig/lexer/lexer.cpp:196-218 | Stops at the first occurrence of the closing mark. |
| ConfigLexer.Lexer.ReadString | libinitd-readconfig/lexer/lexer.cpp:245-317 | Gathers the value and the complaints of a quoted string up to its quote, a line break or the end. |
| ParsingTheorems.ExactAcceptance | libinitd-readconfig/parser/parser.cpp:197-398 | The parser makes no complaint about a row of tokens exactly when the row derives a list of declarations in the grammar (optional last comma in structs, strict non-empty lists elsewhere). |
| ParsingTheorems.DerivedIsResult | libinitd-readconfig/parser/parser.cpp:197-398 | A list of declarations that a row derives is what the parser returns, so derivations are unique. |
| Recovery.RecoveryExactly | libinitd-readconfig/parser/parser.cpp:197-398 | For every row of tokens, the declarations and complaints are those of its one reading in the grammar extended by missing and stray tokens: one complaint for each damage, at its place and with its message, only one about the same token, and everything else kept. |
| Recovery.UndamagedExactly | libinitd-readconfig/parser/parser.cpp:197-398 | The readings without complaints are exactly the derivations in the grammar itself. |
| Recovery.NamesExactly | libinitd-readconfig/parser/parser.cpp:340-359 | Whatever the row, a list of names takes all names and commas that come and keeps every name, with one complaint wherever a name is due and there is none, a name follows a name, or something other than a semicolon follows. |
| Recovery.OneTokenMissing | libinitd-readconfig/parser/parser.cpp:236-248 | A task short of its name, equals sign, value or semicolon, before tokens that derive declarations, costs exactly one complaint, at the place of the missing token; everything behind it is kept, and the task unless name or equals sign is missing. |
| Recovery.DamagedBefore | libinitd-readconfig/parser/parser.cpp:197-398 | Behind any damaged declaration everything is kept, and the complaints are those about it. |
| Recovery.TaskFollows | libinitd-readconfig/parser/parser.cpp:236-248 | A task with any of its parts missing is read to where its last part ends, and kept exactly if name and equals sign are there. |
| Recovery.DependenciesFollow | libinitd-readconfig/parser/parser.cpp:333-364 | Likewise dependencies, which are always kept with the names read. |
| Recovery.RunLevelFollows | libinitd-readconfig/parser/parser.cpp:366-398 | Likewise a run level, which has no name if that is missing. |
| Recovery.ValueFollows | libinitd-readconfig/parser/parser.cpp:250-331 | Likewise values, with damaged properties and stray tokens at any depth and a struct cut off by the end of the text. |
| FirstComplaint.FirstComplaintIsNotLate | libinitd-readconfig/parser/parser.cpp:143-162 | The tokens before the first complaint can be continued to a row without errors. |
| FirstComplaint.FirstComplaintIsNotEarly | libinitd-readconfig/parser/parser.cpp:143-162 | With the token complained about they cannot; at the end of the text the row as it stands is in error. |
| FirstComplaint.DeclarationsAgree | libinitd-readconfig/parser/parser.cpp:197-398 | What the parser does up to its first complaint depends only on the tokens up to it. |
| FirstComplaint.DeclarationsViable | libinitd-readconfig/parser/parser.cpp:197-398 | A completion of the tokens before the first complaint, constructed. |
| ReadConfig.RoundTrip | libinitd-readconfig/parser/parser.cpp:197-398 | The text of any list of declarations, in any layout, lexes and parses to that list, with complaints of the lexer exactly if the layout is damaged. |
| ReadConfig.TreeRoundTrip | libinitd-readconfig/parser/parser.cpp:197-398 | For every whole tree, every interleaving of its tasks, dependencies and run levels and every undamaged layout of their tokens, the text reads as that tree without a complaint. |
| ReadConfig.FileExactly | libinitd-readconfig/parser/parser.cpp:197-398 | A text is read without any complaint of lexer or parser if and only if it is an undamaged layout of tokens that derive a list of declarations. |
| ReadConfig.HasLayout | libinitd-readconfig/lexer/lexer.cpp:111-354 | Every row of tokens with valid names and numbers has an undamaged layout; strings are not limited. |
| ReadConfig.FileSpellable | libinitd-readconfig/lexer/lexer.cpp:220-244 | The tokens of a tree have spellings exactly when its names are words and no keywords and its numbers fit in `int`. |
| ReadConfig.TreeHasText | libinitd-readconfig/parser/parser.cpp:197-398 | For every whole tree whose names and numbers have spellings there is a text that reads as that tree, with no complaint of lexer or parser. |
| ReadConfig.FileHasText | libinitd-readconfig/parser/parser.cpp:197-398 | The same for every list of declarations. |
| ReadConfig.ErrorsIncrease | libinitd-readconfig/parser/parser.cpp:143-162 | The positions of the complaints strictly increase, with at most one for each token and one for the end. |
| ConfigParser.PlacesIncrease | libinitd-readconfig/parser/parser.cpp:143-162 | Moving back over white space keeps the places of different tokens different and in order. |
| ConfigParser.Place | libinitd-readconfig/parser/parser.cpp:143-155 | A complaint is placed before the token, or the end of the text, with only white space between, and behind a character that is not white or at the start of the text. |
| ConfigParser.LastPlaceTells | libinitd-readconfig/parser/parser.cpp:157-161 | Comparing with the last place is the same as asking whether the token has been complained about. |
| ParsingTheorems.ValueSound | libinitd-readconfig/parser/parser.cpp:250-319 | A value read without complaint is derived by the tokens consumed. |
| ParsingTheorems.ValueComplete | libinitd-readconfig/parser/parser.cpp:250-319 | Tokens that derive a value are read as that value, to its end and without complaint, whatever follows; only a plain name must not have an opening brace behind it, which makes it a struct. |
| ParsingTheorems.PropertiesComplete | libinitd-readconfig/parser/parser.cpp:282-309 | Likewise for the properties of a struct, with or without the last comma. |
| ParsingTheorems.NamesComplete | libinitd-readconfig/parser/parser.cpp:340-359 | Likewise for a list of names. |
| Parsing.ParseDeclarations | libinitd-readconfig/parser/parser.cpp:197-234 | Recovery always reaches the end; complaints are only added and stay in the order of their tokens. (What recovery keeps, `Recovery.RecoveryExactly` states.) |
| Parsing.CollectExactly | libinitd-readconfig/parser/parser.cpp:197-234 | A tree holds a list of declarations if and only if its three lists interleave to that list: each kind complete and in order, nothing else. |
| Parsing.InterleavedSizes | libinitd-readconfig/parser/parser.cpp:197-234 | The three lists have as many members as there are declarations. |
| ConfigParser.ParserContext.Error | libinitd-readconfig/parser/parser.cpp:143-162 | Adds a complaint at the trimmed place unless the token has one. |
| ConfigParser.ParserContext.ExpectToken | libinitd-readconfig/parser/parser.cpp:164-183 | Consumes the token or complains. |
| ConfigParser.ParserContext.ParseValue | libinitd-readconfig/parser/parser.cpp:250-319 | Reads what the specification of values says, nested structs included. |
| ConfigParser.ParserContext.ParsePropertyList | libinitd-readconfig/parser/parser.cpp:286-306 | The recovering loop over properties refines its recursive specification. |
| ConfigParser.ParserContext.ParseOneProperty | libinitd-readconfig/parser/parser.cpp:321-331 | Reads a property; none when the equals sign is missing. |
| ConfigParser.ParserContext.ParseTaskDeclaration | libinitd-readconfig/parser/parser.cpp:236-248 | Reads a task as the specification says, which `Recovery.TaskFollows` describes: none when name or equals sign is missing. |
| ConfigParser.ParserContext.ParseNameList | libinitd-readconfig/parser/parser.cpp:340-359 | The recovering loop over names refines its recursive specification. |
| ConfigParser.ParserContext.ParseDependenciesDeclaration | libinitd-readconfig/parser/parser.cpp:333-364 | Reads a dependency declaration. |
| ConfigParser.ParserContext.ParseRunLevelDeclaration | libinitd-readconfig/parser/parser.cpp:366-398 | Reads a run level, whose name may be missing after a complaint. |
| ConfigParser.ParserContext.ParseFile | libinitd-readconfig/parser/parser.cpp:197-234 | The loop over declarations refines its specification; the three lists of the tree are the declarations of each kind, complete and in order. |
| ReadConfig.ReadTree | libinitd-readconfig/read_value_node/read_task_description.cpp:123-126 | Lexer and parser together give the tree whose lists interleave to the declarations of the text's tokens, and all complaints, placed and ordered; for a text that reads as a tree, that tree and no complaint. |
| CommandLine.ReadingExactly | libinitd-readconfig/read_value_node/read_value_node_tasks.cpp:74-145 | A value reads as a command line exactly when it spells at least one word, and then as the words it spells; otherwise it spells none or leaves a quote open, and the error says which. |
| CommandLine.WordsExactly | libinitd-readconfig/read_value_node/read_value_node_tasks.cpp:81-132 | The words are `args` exactly when the value spells `args` by words of plain and quoted segments. |
| CommandLine.UnclosedExactly | libinitd-readconfig/read_value_node/read_value_node_tasks.cpp:94-121 | The splitter gives up at a quote exactly when the value spells words and then opens that quote without closing it. |
| CommandLine.ArgumentsRoundTrip | libinitd-readconfig/read_value_node/read_value_node_tasks.cpp:74-145 | For every non-empty list of arguments of any characters there is a value that reads as exactly that list. |
| CommandLine.ReadCmdLine | libinitd-readconfig/read_value_node/read_value_node_tasks.cpp:74-145 | The outer loop refines the specification, the end of the text reading as NUL. |
| CommandLine.ReadWord | libinitd-readconfig/read_value_node/read_value_node_tasks.cpp:91-129 | So does the loop over the segments of a word. |
| ControlTheorems.DeliveredExactly | libinitd/tasks/synchronous/control_task.cpp:32-92 | A stream of messages within the limit, cut into chunks in any way, is delivered as a whole, leaving an empty buffer on a live connection, if and only if each message ends where a chunk ends and no call fails. |
| ControlTheorems.LivesExactly | libinitd/tasks/synchronous/control_task.cpp:85-91 | The same condition decides whether the connection is alive once the whole stream has come. |
| ControlTheorems.CallsAreComplete | libinitd/tasks/synchronous/control_task.cpp:32-92 | Whatever the chunks and however much has come, the calls are the first messages of the stream, each once and in order, and all their bytes have come. |
| ControlTheorems.RunFrom | libinitd/tasks/synchronous/control_task.cpp:32-92 | The same from the middle of a message, together with what the buffer holds and the exact condition for the connection to live. |
| ControlTheorems.FrameDecodes | libbinstream/ctl_protocol.h:32-39 | A frame decodes to its message exactly when the size in its header, which wraps around at 32 bits, is within the limit. |
| ControlTheorems.PartWaits | libinitd/tasks/synchronous/control_task.cpp:35-55 | A part of a frame makes the receiver wait. |
| ControlTheorems.MoreDrops | libinitd/tasks/synchronous/control_task.cpp:57-83 | Bytes behind a frame make it close the connection before the call. |
| ControlTheorems.CompleteExactly | libinitd/tasks/synchronous/control_task.cpp:32-83 | A buffer with as many bytes as its header says never waits; it makes a call exactly if it is, but for the size in its header, the frame of that call, whose number is 1 for reboot, 2 for power-off, 3 for a run level. |
| ControlTheorems.IncompleteExactly | libinitd/tasks/synchronous/control_task.cpp:35-55 | Any other buffer waits, unless its header asks for more than the limit; then the connection is closed. |
| ControlTheorems.UnknownCloses | libinitd/tasks/synchronous/control_task.cpp:76-81 | A complete message of another number closes the connection without a call. |
| ControlProtocol.U32RoundTrip | libbinstream/binary_stream.h:32-36 | Four bytes written are the number read. |
| ControlProtocol.Payload | libbinstream/binary_stream.h:26-53 | The measure of a message is the number of bytes of its body. |
| ControlProtocol.Serialize | libbinstream/ctl_protocol.h:32-39 | Appends the frame; fails for a name whose length does not fit in 32 bits, with the header already written. |
| ControlProtocol.OutputStream.Write | libbinstream/binary_stream.cpp:16-21 | Appends the bytes in order. |
| ControlProtocol.InputStream.Read | libbinstream/binary_stream.cpp:62-74 | Gives the next bytes or fails without moving. |
| ControlProtocol.ReadMessage | libinitd/tasks/synchronous/control_task.cpp:57-83 | Reads a message of a known kind with nothing behind it, or fails. |
| ControlProtocol.Connection.OnReady | libinitd/tasks/synchronous/control_task.cpp:32-92 | Waits, fails, or makes one call and clears the buffer, as the decision on the buffer says. |
| ControlProtocol.Connection.OnRead | libsysapi/network/stream_socket.cpp:130-136 | A chunk is appended and looked at; a failure disconnects. |

## Left out

- System calls: fork, exec, wait, epoll, signals, sockets, mounts, file reading. Child exits, wake-ups and chunks of bytes come in any order as events; every child is taken to exit, and fork and `set_should_work` not to throw.
- Lifetime of objects: destroying a connection or an operation inside its own callback, and the destructors themselves (the condition of their assertions is proved).
- What the program does with the target behind the main loop, where an exception counts as a request to reboot.
- Status messages, log output and the layout of printed errors.
- The step from the tree to task descriptions (`read_task`, `resolve_task`, the readers of single properties, duplicate reports). The supervisor's theorems hold for every graph and every set of run levels whose references point to tasks; the program makes no others. A run level without a name, which the parser can build after a complaint, is dereferenced there and not modelled.
- `line_map` and the positions of errors as line and column.
- Machine width of counters: they are unbounded integers here and proved equal to counts, so they never underflow; overflow at the width of `size_t` or of the eventfd counter is not modelled.
- Integer literals beyond the program's `int`, whose overflow is undefined there: layouts and the texts described by them are limited to the range of `int`.
- The order in which complaints of the lexer and of the parser are mixed in their common sink: they are kept apart here. The kinds `error`, `eof` and `whitespace` of tokens, which no row of tokens contains, are not modelled.
- Nodes keep the texts of their tokens and not the positions.
- Whether the creation of a synchronous task succeeds is left open, as nothing depends on it.
- Mount tasks, which the configuration cannot describe, and option flags.
- The byte order of 32-bit numbers, which is the machine's in the program, is taken to be little-endian; both ends of the socket are on one machine.
- The calls a control message makes are recorded by a stand-in for the state context; what they do is the subject of `InitMain.Context`.
