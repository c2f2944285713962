# cdn-daemon watcher logic, in Dafny

This project models the core of the cdn-daemon file watcher
(`watcher-logic/src/lib.rs`). The daemon watches a content repository. Each
relevant file change opens, or restarts, a quiet window of four and a half
minutes. When the window passes with no new relevant change, the daemon runs
a synchronisation script. If the script succeeds, it commits and pushes the
repository with git. Every step is appended to a log file with a timestamp.

The model has six modules:

- `Wrappers` (`wrappers.dfy`): the `Option` type the other modules share,
  standing for Rust's `Option`.
- `Relevance` (`relevance.dfy`): the path filter `check_if_relevant`. A path is
  a sequence of components. `Relevant` is the specification. `CheckIfRelevant`
  walks `ancestors()` with an early return, like the source, and is proved
  equal to `Relevant`.
- `Debounce` (`debounce.dfy`): event classification and the debounce state
  machine as pure functions. The state is `last`: `None` (Idle) or `Some(t)`
  (a change pending since `t`). The channel is a finite sequence of
  deliveries. Each delivery gives the clock reading at the top of the loop and
  what `recv_timeout` returned, and when. `RunLoop` is the loop's
  specification. The debounce guarantee is proved about it.
- `EventLoop` (`event_loop.dfy`): the loop as a class. `lastChange` is a field
  the methods update, and there is a ghost trace of what the loop did.
  `Watcher.Run` runs the `loop` with `continue`/`break` over the deliveries and
  is proved equal to `RunLoop`.
- `LogFormat` (`log_format.dfy`): the log entry format
  `[%Y-%m-%d %H:%M:%S] message\n`, with a parser, and proofs that time and
  message read back.
- `Sync` (`sync.dfy`): `run_git`. This covers parsing the configuration
  variable (`splitn(2, ';')`, dropping `"`, turning `\` into `/`), the order of
  the script and the three git commands, what gets logged, and Rust's
  `str::trim` as `log_process_output` uses it. Process results are inputs.
  `run_git` returns the effects it performs, in order (process starts, log
  writes, console prints), and how it ended: a sync, a failed script, or a
  panic with its message.

Time is a natural number of seconds. The clock, the notification channel and
the processes are parameters of the model.

Two behaviours of the code are worth knowing:
- An event on the repository root itself counts as relevant. Its relative
  path is empty, the file name falls back to `""`, no ancestor is named
  `logs`, and the filter returns `true` (lib.rs:99).
- A timeout while a change is pending syncs without checking the elapsed time
  again (lib.rs:70-75). The debounce guarantee therefore rests on two
  assumptions about the environment: the clock never goes back
  (`Debounce.Monotone`), and `recv_timeout` reports a timeout no earlier than
  the wait the loop handed it, `PUSH_INTERVAL - elapsed` at the top of the
  pass (`Debounce.KeepsWaits`). `Debounce.KeepsWaitsHonest` derives from these
  two that every timeout comes at least 270 s after the pending change
  (`Debounce.Honest`), which is what the debounce proof uses.

A `Path` is the list of components Rust's `Path::components` yields for the
path: `.` can only be its first component, `..` can be anywhere.

## Model

| member | source | states |
|---|---|---|
| Relevance.Relevant | watcher-logic/src/lib.rs:84-100 | the filter's definition: the file name (or `""`) is neither ignored name and no component is `logs` |
| Relevance.FileName | watcher-logic/src/lib.rs:85 | `Path::file_name`: the last component exactly when the path is non-empty and that component is not `.` or `..`; otherwise none |
| Relevance.Parent | watcher-logic/src/lib.rs:91 | `Path::parent`: none only for the empty path; otherwise the parent followed by the last component gives the path back |
| Relevance.CheckIfRelevant | watcher-logic/src/lib.rs:84-100 | walking the ancestors with an early return on a component named `logs` returns exactly `Relevant(p)` |
| Relevance.IgnoredNamesAreIrrelevant | watcher-logic/src/lib.rs:85-89 | a path whose last component is `index.html` or `contents.json` is never relevant |
| Relevance.RelevantIff | watcher-logic/src/lib.rs:84-100 | relevant if and only if no component (the last one included) is `logs` and the path is empty or its last component is neither ignored name; the empty path is relevant |
| Debounce.StripPrefix | watcher-logic/src/lib.rs:52-53 | succeeds exactly when the root is a component-wise prefix of the path, and root followed by the result gives the path back |
| Debounce.RelevantUnder | watcher-logic/src/lib.rs:51-56 | one path counts when the root strips off it and the filter accepts the remainder; a path outside the root never counts; stated by `CountsIff` |
| Debounce.IsChangeKind | watcher-logic/src/lib.rs:47-50 | only modifications, creations and removals are considered; stated by `CountsIff` |
| Debounce.AnyRelevant | watcher-logic/src/lib.rs:51-56 | true if and only if some path of the event lies under the root and the filter accepts its remainder |
| Debounce.Counts | watcher-logic/src/lib.rs:47-56 | an event counts when its kind is a modification, creation or removal and `AnyRelevant` holds of its paths |
| Debounce.CountsIff | watcher-logic/src/lib.rs:47-58 | an event counts if and only if it is a Modify, Create or Remove and some path lies under the root with a relevant remainder; paths outside the root and other kinds never count |
| Debounce.Timeout | watcher-logic/src/lib.rs:32-43 | no deadline exactly when Idle; sync now exactly when at least 270 s have elapsed; otherwise a wait of more than 0 and at most 270 s, which ends exactly 270 s after the change |
| Debounce.Handle | watcher-logic/src/lib.rs:45-78 | the state, actions and running flag after what `recv_timeout` returned; its transitions are stated by `HandleTransitions` |
| Debounce.AfterPoll | watcher-logic/src/lib.rs:32-43 | the state after the top of the loop: Idle when the window has passed and the sync fired there (lib.rs:35-38), otherwise unchanged; its use is stated by `Iterate` and `IterateDebounced` |
| Debounce.Iterate | watcher-logic/src/lib.rs:31-78 | one pass of the loop: the sync at the top when the window has passed (then an Idle wait), followed by `Handle` |
| Debounce.Then | watcher-logic/src/lib.rs:31-81 | one pass followed by the rest of the loop, or, when the channel closed in it, the pass followed by the shutdown entry and no further pass |
| Debounce.RunLoop | watcher-logic/src/lib.rs:28-82 | the loop over a finite stretch of deliveries, passes one after the other, ending with the shutdown entry when the channel closes |
| Debounce.HandleTransitions | watcher-logic/src/lib.rs:45-78 | the loop goes on unless the channel closed; a counting change sets the pending time to now even when already pending; other events, notify errors and closing leave the state alone; a timeout syncs and goes Idle when pending and does nothing when Idle |
| Debounce.KeepsWaits | watcher-logic/src/lib.rs:40-45 | the environment's side: a timeout after a wait of `ticks` at `polled` is reported no earlier than `polled + ticks` |
| Debounce.KeepsWaitsHonest | watcher-logic/src/lib.rs:32-45 | with a clock that never goes back and a pending change not after the clock, waits that are kept make every timeout at least 270 s after the pending change |
| Debounce.DebouncedAppend | watcher-logic/src/lib.rs:28-82 | the debounce property of a trace splits at any point, with the change pending at the split |
| Debounce.IterateDebounced | watcher-logic/src/lib.rs:31-78 | one pass of the loop, whose timeout (if any) comes at least 270 s after the pending change, keeps the trace debounced and leaves the pending change in the state |
| Debounce.RunDebounced | watcher-logic/src/lib.rs:28-82 | over any run whose timeouts come at least 270 s after the pending change, every sync follows a logged relevant change, comes at least 270 s after the latest one, and no two syncs share a change; the final state is the change still pending |
| Debounce.InOrderAppend | watcher-logic/src/lib.rs:28-82 | two traces in time order, the second not earlier than the first, join into one in time order |
| Debounce.IterateInOrder | watcher-logic/src/lib.rs:31-78 | one pass acts in time order, between the clock reading at its top and the moment its wait returned |
| Debounce.RunInOrder | watcher-logic/src/lib.rs:28-82 | with a clock that never goes back, the loop's trace is in time order and nothing in it is earlier than the start |
| Debounce.InOrderTail | watcher-logic/src/lib.rs:28-82 | the rest of a trace in time order is in time order and not earlier than its first action |
| Debounce.SyncsAfter | watcher-logic/src/lib.rs:32-43 | in a debounced trace in time order, every sync comes at least 270 s after the change pending at its start |
| Debounce.SyncsWaitOf | watcher-logic/src/lib.rs:28-82 | a debounced trace in time order has no sync less than 270 s after any change logged before it in the trace |
| Debounce.TimedDebounce | watcher-logic/src/lib.rs:28-82 | with a clock that never goes back, a pending change not after the clock and waits that are kept, no sync happens less than 270 s after any relevant change logged before it |
| Debounce.IdleStaysQuiet | watcher-logic/src/lib.rs:31-78 | while Idle, deliveries that do not count never sync and the loop stays Idle |
| Debounce.FiresOnceThenQuiet | watcher-logic/src/lib.rs:70-75 | a timeout while pending fires exactly one sync at that moment, and no further sync follows while nothing relevant arrives |
| Debounce.BurstScenario | watcher-logic/src/lib.rs:28-82 | changes to a.txt at 0 s, logs/x.log at 1 s and b.txt at 2 s produce exactly one sync, at 272 s, then the shutdown entry when the channel closes |
| Debounce.BurstRun | watcher-logic/src/lib.rs:28-82 | the burst above for any two counting changes around one that does not count |
| Debounce.BurstTail | watcher-logic/src/lib.rs:45-81 | a second change restarts the window; its timeout syncs; closing then logs the shutdown |
| Debounce.RunLoopCons | watcher-logic/src/lib.rs:31-79 | the loop over one delivery followed by the rest is that pass followed by the rest of the loop, unless the channel closed |
| Debounce.GeneratedPageScenario | watcher-logic/src/lib.rs:47-64 | changes to the generated `index.html` alone never cause a sync, and the loop never becomes pending |
| EventLoop.Watcher.constructor | watcher-logic/src/lib.rs:13-29 | the watcher starts Idle, with the start-up entry in its trace |
| EventLoop.Watcher.Poll | watcher-logic/src/lib.rs:32-43 | returns the wait `Timeout` gives; when it is sync-now, records the sync and goes Idle; nothing else changes |
| EventLoop.Watcher.Deliver | watcher-logic/src/lib.rs:45-78 | updates the pending time and the trace as `Handle` says, and returns whether the channel is still open |
| EventLoop.Watcher.Pass | watcher-logic/src/lib.rs:31-78 | one pass of the loop, including the `continue` after a sync at the top, leaves the state and trace `Iterate` gives |
| EventLoop.Watcher.Run | watcher-logic/src/lib.rs:28-82 | running the loop over the deliveries leaves the state, trace and running flag `RunLoop` gives, with the shutdown entry when the channel closed |
| EventLoop.RunLoopUnfold | watcher-logic/src/lib.rs:31-79 | the loop invariant of `Run` carries over one delivery |
| EventLoop.LoopIsDebounced | watcher-logic/src/lib.rs:28-82 | given a clock that never goes back and waits that are kept, the part of the trace the imperative loop appends is debounced, has no sync less than 270 s after a change logged before it, and the watcher's `lastChange` is the change still pending |
| LogFormat.Digits | watcher-logic/src/lib.rs:119 | a zero-padded field of exactly the given width, all digits |
| LogFormat.DigitsRoundTrip | watcher-logic/src/lib.rs:119 | a number below 10^width reads back from its padded field |
| LogFormat.FormatTimestamp | watcher-logic/src/lib.rs:119 | `%Y-%m-%d %H:%M:%S` is 19 characters long |
| LogFormat.ParseTimestamp | watcher-logic/src/lib.rs:119 | accepts only 19-character strings |
| LogFormat.TimestampFields | watcher-logic/src/lib.rs:119 | each field of a formatted timestamp sits at its fixed place between the separators |
| LogFormat.TimestampRoundTrip | watcher-logic/src/lib.rs:119 | every valid date and time reads back from its formatted timestamp |
| LogFormat.LogLine | watcher-logic/src/lib.rs:118-120 | a log entry is 23 characters longer than its message |
| LogFormat.LogLineRoundTrip | watcher-logic/src/lib.rs:118-127 | a log entry gives back the time and the message it was written with |
| Sync.SplitOnce | watcher-logic/src/lib.rs:133-137 | `splitn(2, ';')`: the head holds no separator; there is a tail exactly when the string has a separator, and head, separator and tail rebuild the string |
| Sync.SplitOnceUnique | watcher-logic/src/lib.rs:133 | any split at the first separator is the one `SplitOnce` gives |
| Sync.Without | watcher-logic/src/lib.rs:134-138 | removing all quotes: none are left, nothing else is added, and a string without quotes is unchanged |
| Sync.WithoutAppend | watcher-logic/src/lib.rs:134-138 | removal works piece by piece, so every other character is kept, in order |
| Sync.WithoutOne | watcher-logic/src/lib.rs:134-138 | one character is dropped exactly when it is the removed one |
| Sync.ReplaceChar | watcher-logic/src/lib.rs:139 | same length, each occurrence of the character replaced and every other character kept |
| Sync.ReplaceCharAbsent | watcher-logic/src/lib.rs:139 | replacing a character the string does not hold changes nothing |
| Sync.ParseConfig | watcher-logic/src/lib.rs:133-139 | an error exactly when the value has no `;`; otherwise the interpreter holds no `;` or `"`, and the script holds no `"` or `\` |
| Sync.ParseConfigContent | watcher-logic/src/lib.rs:133-139 | any value with a `;` parses to the part before the first `;` with quotes removed, and the part after it with quotes removed and each `\` turned into `/` |
| Sync.QuotedWindowsValue | watcher-logic/src/lib.rs:133-139 | a value `"interpreter";"dir\file"` parses to the interpreter unchanged (its own backslashes kept) and the script `dir/file` |
| Sync.SlashedScript | watcher-logic/src/lib.rs:135-139 | the quoted script part `"dir\file"` becomes `dir/file` |
| Sync.Unquote | watcher-logic/src/lib.rs:134-138 | removing the quotes around a quote-free text gives the text |
| Sync.ReplaceCharAppend | watcher-logic/src/lib.rs:139 | replacement works piece by piece |
| Sync.ParseConfigRoundTrip | watcher-logic/src/lib.rs:133-139 | a configuration with plain fields reads back from `interpreter;script` |
| Sync.RenderParsed | watcher-logic/src/lib.rs:133-139 | a value with a `;` and no `"` or `\` parses, and writing the result back out gives the value |
| Sync.IsWhitespace | watcher-logic/src/lib.rs:205 | the characters `str::trim` cuts: those with the Unicode White_Space property |
| Sync.TrimStart | watcher-logic/src/lib.rs:205 | a suffix of the input that starts with a non-whitespace character or is empty |
| Sync.TrimEnd | watcher-logic/src/lib.rs:205 | a prefix of the input that ends with a non-whitespace character or is empty |
| Sync.Trim | watcher-logic/src/lib.rs:205 | `str::trim`: no longer than the input, and empty or ending with a non-whitespace character |
| Sync.TrimKeepsMiddle | watcher-logic/src/lib.rs:205 | the trimmed text is a contiguous slice of the input that starts and ends with non-whitespace, with only whitespace cut from either end |
| Sync.TrimIdempotent | watcher-logic/src/lib.rs:205 | trimming twice is trimming once |
| Sync.ProcessOutputLog | watcher-logic/src/lib.rs:202-207 | logs one entry, the trimmed stdout, exactly when stdout is non-empty; never stderr |
| Sync.ExitStatus.Success | watcher-logic/src/lib.rs:148 | `ExitStatus::success`: the process exited with code 0; a process with no exit code (ended by a signal) is not a success |
| Sync.ScriptStarted | watcher-logic/src/lib.rs:141-147 | the console line naming the script, then the start of the script; stated by `RunGit` and `GitCommandsInOrder` |
| Sync.GitStarted | watcher-logic/src/lib.rs:171-184 | git add, commit with the timestamped message, and push, started in that order; stated by `GitCommandsInOrder` |
| Sync.ScriptCommand | watcher-logic/src/lib.rs:143-147 | the script runs as the interpreter with the script as its one argument, in the repository directory |
| Sync.CommitMessage | watcher-logic/src/lib.rs:171-172 | `auto: synchronize and update files at ` followed by the local time; its content is stated by `CommitMessageCarriesTime` |
| Sync.GitAdd | watcher-logic/src/lib.rs:174-176 | `git -C <repo> add .` |
| Sync.GitCommit | watcher-logic/src/lib.rs:178-180 | `git -C <repo> commit -m <message>` |
| Sync.GitPush | watcher-logic/src/lib.rs:182-184 | `git -C <repo> push origin master` |
| Sync.StepLog | watcher-logic/src/lib.rs:186-199 | a git step's log: nothing when its spawn failed, else its header then `ProcessOutputLog`; stated by `StepLogWrites` |
| Sync.ScriptFailureLog | watcher-logic/src/lib.rs:149-167 | the three entries of a failed script: status, stdout, stderr |
| Sync.Commands | watcher-logic/src/lib.rs:143-184 | the processes started, read from the effects, at most one per effect |
| Sync.Messages | watcher-logic/src/lib.rs:149-199 | the log entries written, read from the effects, at most one per effect |
| Sync.CommandsAppend | watcher-logic/src/lib.rs:129-200 | the processes started by two effect sequences in a row are those of the first, then those of the second |
| Sync.MessagesAppend | watcher-logic/src/lib.rs:129-200 | the log entries written by two effect sequences in a row are those of the first, then those of the second |
| Sync.ReadBackAppend | watcher-logic/src/lib.rs:129-200 | reading back commands and log entries distributes over concatenation |
| Sync.ReadBackOne | watcher-logic/src/lib.rs:129-200 | one effect reads back as its command or its log entry |
| Sync.ReadBackFive | watcher-logic/src/lib.rs:129-200 | five effects read back one by one |
| Sync.StepLogStartsNothing | watcher-logic/src/lib.rs:186-199 | logging a git step never starts a process |
| Sync.StepLogWrites | watcher-logic/src/lib.rs:186-207 | a git step logs nothing when it could not be spawned; otherwise its header, then its trimmed stdout only when stdout is non-empty |
| Sync.ScriptFailureIssuesNoGit | watcher-logic/src/lib.rs:148-168 | a failed script starts no git command and writes exactly three entries: status, stdout, stderr |
| Sync.GitCommandsInOrder | watcher-logic/src/lib.rs:141-184 | after a successful script, git add, commit (with the timestamped message) and push start in that order, before anything is logged |
| Sync.GitStepsInOrder | watcher-logic/src/lib.rs:174-199 | on success, the commands are the script, add, commit, push, and the log holds the add, commit and push entries in that order |
| Sync.CommitMessageCarriesTime | watcher-logic/src/lib.rs:171-172 | the commit message ends with the sync's local time, which reads back unchanged |
| Sync.RunGit | watcher-logic/src/lib.rs:129-200 | the variable unset panics with `expect`'s message followed by `: NotPresent`, and no `;` in it panics with the bare message, both before anything is done; a script that cannot be spawned panics after the console line, with the message followed by `: ` and the spawn error; a failed script logs its status and streams and stops; otherwise the three git commands start and each spawned step is logged in order |

## Left out

- Watcher setup with the operating system's notification API and the mpsc channel (lib.rs:17-25): the channel is an abstract sequence of deliveries, and setup failure (a panic) is not modelled.
- Real clocks: `Instant` and `chrono::Local::now` become natural-number seconds and a `DateTime` argument. Sub-second precision, time zones and chrono's years beyond 9999 are not modelled.
- `Duration::from_secs(u64::MAX)` (lib.rs:42) is modelled as waiting with no deadline, which is what `recv_timeout` does with a deadline it cannot represent.
- File I/O in `setup_logger` and `log` (lib.rs:102-127): creating the log directory, naming the log file by date, opening it, and the swallowed write errors. The model keeps the log as a ghost trace of actions, plus the format of one entry (`LogFormat.LogLine`).
- Debounce.Action: the change and notify-error entries (lib.rs:62, 68) keep the event or error itself, not Rust's `Debug` rendering of it.
- EventLoop.Watcher: a sync in the loop is recorded as an action. The loop does not call `Sync.RunGit`. A panic inside `run_git` would end the loop thread, and that is not modelled.
- Sync.RunGit: process spawning and waiting are inputs (`Spawn` values), and the streams are given already decoded, so `String::from_utf8_lossy` is not modelled. The exit status's `Display` text is an abstract string (`shown`). The `expect("Missing Python path")` at lib.rs:134 cannot fail, because `splitn` always yields a first part, so it has no outcome of its own. A variable that is set but is not valid Unicode (`VarError::NotUnicode`) is not modelled: the variable is a string or absent. The spawn error's `Debug` text is an abstract string.
- Relevance.FileName: a `Path` is taken to be the component list Rust's `components()` yields, where `.` can only come first; the normalisation that produces that list (dropping `.` elsewhere, repeated separators) is not modelled, nor is `to_str` on non-UTF-8 names. Components are strings.
- The Windows service (`watcher-windows-service/src/main.rs`) and the standalone entry point (`watcher-standalone-service/src/main.rs`) are platform glue and not part of this model.
