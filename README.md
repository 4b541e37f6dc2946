# A verified model of the User-mode monitor's event core

The monitor is a desktop program that watches three things and logs them in a
window: top-level windows being minimized and restored, processes starting
and ending, and program files (`.exe`) being created, deleted or renamed
anywhere on the system drive. Three watcher threads turn what they see into
time-stamped text lines (`fmt`), send them to the window, and the window
queues them, counts them under six counters by keyword, colours them and
appends them to its log on a timer.

This project models that core in Dafny and proves what it promises:

- `Text` covers Python's substring test `in`, `str.lower`, `str.endswith` and
  the decimal rendering of a number.
- `Events` covers the clock stamp `ts()` and `fmt`. It has one `Notice` per
  distinct event text of the program (the move handler reuses the deletion and
  creation texts), and `Render(n, now)` is the exact text emitted for `n` when
  the clock reads `now`.
- `WindowWatch` is the window watcher. It is a class whose `states` map goes
  from window handle to show state, and a `Poll` method runs one iteration of
  its loop.
- `ProcessWatch` is the process watcher. It is a class holding the set of
  known process ids, with a `Poll` method for one iteration of its loop.
- `FileEvents` is the directory handler. Its program-file test and its three
  callbacks are pure functions.
- `Consumer` is the window's queue, counters, colour rule and timer drain. It
  is a class whose methods update the queue, the counters and the log in
  place.
- `Classification` ties the producers to the consumer. When the free text an
  event carries (a window title, a process name, a path) contains none of the
  keywords, every event is counted and coloured as its own kind. When that
  text does contain a keyword, the keyword search can count the event
  against the wrong counter.

The operating system's answers are parameters of the model:

- the windows enumerated and their titles;
- the show state `GetWindowPlacement` reports;
- the running process ids;
- the process-name lookup, with `None` standing for a process that has
  already exited;
- the file-system event delivered;
- the clock reading.

## Model

| member | source | states |
|---|---|---|
| Events.TsLayout | Monitor.py:16-17 | The stamp is 19 characters, laid out as digits with `-`, `-`, ` `, `:`, `:` in the `%Y-%m-%d %H:%M:%S` positions. |
| Events.TsRoundTrip | Monitor.py:16-17 | Each field of the stamp (year, month, day, hour, minute, second) reads back as the clock value it came from. |
| Events.RenderAllConcat | Monitor.py:19-20 | Rendering a batch of notices at one clock reading distributes over concatenation: the texts of `a + b` are the texts of `a` followed by those of `b`. |
| Events.FrameQuiet | Monitor.py:19-20 | What `fmt` puts before the message (the bracketed stamp and the `[+]`, `[-]` or `[i]` marker) contains no upper-case letter. |
| Events.FrameTransparent | Monitor.py:19-20 | A word starting with a capital occurs in an emitted line exactly when it occurs in the message part. |
| Events.EndedRenderInjective | Monitor.py:70-71 | Two `Process Ended` lines emitted at the same clock reading are equal only if their PIDs are equal. |
| Text.Lower | Monitor.py:80 | The ASCII fold keeps the length, leaves no ASCII capital in its result, and leaves a text without capitals unchanged. |
| Text.NatToStringDigits | Monitor.py:67 | `str(pid)` is a non-empty run of decimal digits. |
| Text.NatToStringInjective | Monitor.py:67 | Different PIDs render as different digit strings. |
| Text.ContainsAfter | Monitor.py:200-217 | Behind a prefix that cannot start or straddle an occurrence, a word occurs in `a + b` exactly when it occurs in `b`. |
| Text.ContainsAround | Monitor.py:200-217 | A character the word does not contain splits the substring search into the two sides. |
| WindowWatch.Transition | Monitor.py:39-47 | A window's first sighting emits nothing. A known, non-minimized window that is now minimized emits `Window Minimized`. A minimized window now shown normally or maximized emits `Window Restored`. Every other change, and no change, emits nothing. |
| WindowWatch.WindowWatcher.constructor | Monitor.py:24-27 | The watcher starts with no remembered windows. |
| WindowWatch.WindowWatcher.Poll | Monitor.py:31-49 | One cycle emits the texts of the windows' transitions in enumeration order. Each transition is judged against the states from before the cycle. Afterwards the remembered states are exactly the visible windows, each with the show state read in this cycle. |
| WindowWatch.WindowWatcher.Observe | Monitor.py:38-47 | One window's step: it returns that window's transition and records the new show state for its handle. |
| WindowWatch.WindowWatcher.Forget | Monitor.py:48-49 | Every remembered window that is not visible is dropped. The others keep their states. |
| WindowWatch.CycleSplit | Monitor.py:37-47 | The notices of a concatenated enumeration are the notices of its parts, concatenated. |
| WindowWatch.CycleAtMostOnePerWindow | Monitor.py:37-47 | A cycle emits at most one event per visible window. |
| WindowWatch.WindowReportedInPlace | Monitor.py:37-47 | Each window's notice sits between the earlier windows' notices and the later windows' notices. |
| WindowWatch.CycleNoticeSources | Monitor.py:37-47 | A notice is in the cycle if and only if some enumerated window produced it. |
| WindowWatch.QuietCycle | Monitor.py:37-47 | A cycle in which no window has a reportable transition is silent. |
| WindowWatch.FirstSightingSilent | Monitor.py:40-41 | A cycle over windows never seen before, including the first cycle, emits nothing. |
| WindowWatch.SteadyCycleSilent | Monitor.py:42 | Polling again with unchanged windows and states after a cycle emits nothing. |
| WindowWatch.MinimizeReported | Monitor.py:43-44 | A known window that becomes minimized gets exactly one `Window Minimized` notice with its title, and the cycle contains it. |
| WindowWatch.RestoreReported | Monitor.py:45-46 | A minimized window that becomes normal or maximized gets exactly one `Window Restored` notice with its title, and the cycle contains it. |
| ProcessWatch.ProcessWatcher.constructor | Monitor.py:54-57 | The watcher starts from the set of processes running at creation. |
| ProcessWatch.ProcessWatcher.Poll | Monitor.py:61-72 | The cycle visits the new ids in some order, then the gone ids in some order. It emits their started texts, then their ended texts, and then remembers exactly the current ids. |
| ProcessWatch.AnnounceStarted | Monitor.py:65-69 | It visits every new id once. It emits `Process Started` with the name for each id whose name lookup succeeds, and nothing for the others. |
| ProcessWatch.AnnounceEnded | Monitor.py:70-71 | It visits every gone id once and emits one `Process Ended` for each. |
| ProcessWatch.EnumerationSize | Monitor.py:63-71 | An iteration order of a set is as long as the set is large. |
| ProcessWatch.EndedExactlyOnce | Monitor.py:64-71 | Each gone id gets exactly one `Process Ended` notice, and no other id gets one. |
| ProcessWatch.EndedTextExactlyOnce | Monitor.py:63-71 | Among one cycle's emitted lines, the line `Process Ended: PID p` appears exactly once when `p` is gone and never otherwise. |
| ProcessWatch.StartedAtMostOnce | Monitor.py:63-69 | A new id is reported once under the name its lookup returns. It is not reported when the lookup fails. An id that is not new is never reported as started. |
| ProcessWatch.StartedWellFormed | Monitor.py:65-69 | Every started notice names a visited id together with the name the lookup returned for it. |
| ProcessWatch.EndedWellFormed | Monitor.py:70-71 | Every ended notice names a visited gone id. |
| ProcessWatch.MarkerVisible | Monitor.py:19-20 | The direction marker sits at a fixed position of every emitted line. |
| ProcessWatch.EndedTextUnique | Monitor.py:67-71 | No other started or ended line of a cycle has the same text as a `Process Ended` line. |
| ProcessWatch.UnchangedSnapshotSilent | Monitor.py:62-72 | A cycle that sees exactly the previous set of ids emits nothing. |
| FileEvents.IsTargetIff | Monitor.py:79-80 | A path is a target exactly when it ends in a dot followed by `e`, `x`, `e`, each letter in either case. |
| FileEvents.UpperCaseExtensionIsTarget | Monitor.py:79-80 | `app.EXE` is a target. |
| FileEvents.TextFileIsNotTarget | Monitor.py:79-80 | `notes.txt` is not a target. |
| FileEvents.ExeInsideNameIsNotTarget | Monitor.py:79-80 | No path ending in `.exe.txt` is a target: the test looks only at the end of the path. |
| FileEvents.CreatedReported | Monitor.py:81-83 | A creation emits at most one line. It emits `File Created` with its path exactly when it is a file (not a directory) whose path is a target. |
| FileEvents.DeletedReported | Monitor.py:84-86 | A deletion emits at most one line. It emits `File Deleted` with its path exactly when it is a file whose path is a target. |
| FileEvents.MoveIsDeleteThenCreate | Monitor.py:87-93 | A move emits what deleting the old path would emit, followed by what creating the new path would emit. |
| FileEvents.MoveBounded | Monitor.py:87-93 | A move emits at most two lines, and none for a directory. It emits two exactly when both paths are targets. |
| FileEvents.RenameAwayFromExe | Monitor.py:87-93 | Renaming `old.exe` to `new.txt` emits only the deletion of `old.exe`. |
| FileEvents.RenameBetweenExes | Monitor.py:87-93 | Renaming `old.exe` to `new.exe` emits the deletion, then the creation. |
| Consumer.CounterForFirstMatch | Monitor.py:205-217 | The counter chosen for a message has its keyword in the message, and no earlier keyword of the chain occurs there. No counter is chosen exactly when none of the six keywords occurs. |
| Consumer.ColorAgreesWithCounter | Monitor.py:199-217 | A message counted as a window restore is always shown green. File events are shown in the file colour unless the message also says `Restored`, and the rest in the plain colour unless it says `Restored`. |
| Consumer.ZeroComplete | Monitor.py:158-159 | At start-up, all six counters exist and are zero. |
| Consumer.Bump | Monitor.py:205-217 | The counters after one message still include all six. |
| Consumer.BumpChangesOneCounter | Monitor.py:205-217 | One message raises the first matching counter by exactly one and leaves the other five alone. No counter ever decreases, and the total grows by one exactly when some keyword matched. |
| Consumer.DrainTally | Monitor.py:226-235 | After draining a batch, each counter is its old value plus the number of messages whose first matching keyword is its own. |
| Consumer.DrainMonotone | Monitor.py:226-235 | Draining never lowers a counter. |
| Consumer.DrainOrderIrrelevant | Monitor.py:226-235 | The counters after draining depend only on the multiset of messages, not on how the watchers' messages interleave. |
| Consumer.TallyPermutation | Monitor.py:205-217 | Reordering messages does not change how many count towards a counter. |
| Consumer.LogOfInOrder | Monitor.py:229-232 | The log gets the messages in queue order, each with the colour the rule gives it. |
| Consumer.DrainConcat | Monitor.py:226-235 | Draining two batches one after the other equals draining them as one. |
| Consumer.EventConsumer.constructor | Monitor.py:156-159 | The queue and log start empty and every counter starts at zero. |
| Consumer.EventConsumer.Enqueue | Monitor.py:197-198 | A message joins the back of the queue. Nothing else changes. |
| Consumer.EventConsumer.UpdateCounts | Monitor.py:205-218 | The counters become those after the message, and nothing else changes. |
| Consumer.EventConsumer.TimerEvent | Monitor.py:226-235 | The drain takes messages in FIFO order and leaves the queue empty. The log grows by each message with its colour, in order, and the counters become those after the whole queue. |
| Classification.ClassifyWindowMinimized | Monitor.py:205-217 | A `Window Minimized` message with a keyword-free title counts as a minimize and is shown in the plain colour. |
| Classification.ClassifyWindowRestored | Monitor.py:199-217 | A `Window Restored` message with a keyword-free title counts as a restore and is shown green. |
| Classification.ClassifyProcessStarted | Monitor.py:205-217 | A `Process Started` message with a keyword-free name counts as a started process, whatever the PID. |
| Classification.ClassifyProcessEnded | Monitor.py:205-217 | A `Process Ended` message always counts as an ended process and is shown in the plain colour. |
| Classification.ClassifyFileCreated | Monitor.py:199-217 | A `File Created` message with a keyword-free path counts as a created file and is shown in the file colour. |
| Classification.ClassifyFileDeleted | Monitor.py:199-217 | A `File Deleted` message with a keyword-free path counts as a deleted file and is shown in the file colour. |
| Classification.ClassifyLifecycle | Monitor.py:178-195 | The three `[i]` messages count nowhere and are shown in the plain colour. |
| Classification.ClassifyThroughFrame | Monitor.py:199-217 | The stamp and the marker never change an emitted line's counter or colour. |
| Classification.ClassifyRendered | Monitor.py:199-217 | Every emitted line whose free text has no keyword is counted under its own kind and coloured by its kind. |
| Classification.LifecycleLeavesCounts | Monitor.py:205-217 | An emitted `[i]` line leaves every counter unchanged. |
| Classification.TitleSteersCounter | Monitor.py:206-207 | A minimized window titled `File Created` is counted as a created file. |
| Classification.ScriptedRunCounts | Monitor.py:197-235 | For any interleaving of keyword-free events, draining raises each counter by the number of events of its kind. |
| Classification.TallyOfPlain | Monitor.py:205-217 | The number of keyword-free events that count towards a counter is the number of events of its kind. |
| Classification.MoveTallied | Monitor.py:87-93 | A keyword-free move adds one deletion when the old path is a program file and one creation when the new path is. It changes no other counter. |

## Left out

- Threads, signals and the polling delays (`time.sleep`): each `Poll` is one loop iteration, and the order in which the watchers' signals reach the queue is any interleaving. `Consumer.DrainOrderIrrelevant` and `Classification.ScriptedRunCounts` cover every interleaving.
- The `run_flag` and `stop` methods of the watchers, and `FileWatcher` with its observer thread, have no logic beyond starting and stopping the loops.
- `_start`, `_stop`, `_launch` and `closeEvent` start and stop threads and enable buttons. Only the three messages `_start` and `_stop` enqueue are modelled, as the notices `MonitorStarted`, `MonitorStopping` and `MonitorStopped`.
- The widgets, the palette, `_refresh_counts` (which only sets a label's text from the counters), the HTML wrapping of a log line and `moveCursor` are left out. The log is modelled as the sequence of (message, colour) pairs.
- The start-up code, the `SystemDrive` lookup and the watched path are left out.
- The Win32, psutil and watchdog calls become parameters: the window enumeration with titles, the `showCmd` lookup, the set of running ids, the name lookup and the delivered event.
- An exception from `GetWindowPlacement` (a window closing mid-cycle) is not modelled: `showCmd` is a total function.
- `WindowWatch.WindowWatcher.Poll`: the enumeration is a list of (handle, title) pairs with distinct handles, because that is what a dictionary's items are.
- The clock: each call of `ts()` reads the clock anew. The model reads it once per cycle or callback (`now`), so all events of one cycle carry the same stamp. `Classification.RenderStamped` handles events stamped at different readings.
- `Events.TsRoundTrip`: the year is written as four zero-padded digits and is limited to 1 to 9999, as `datetime` limits it.
- `FileEvents.IsTargetIff`: `Text.Lower` folds ASCII letters only. Python's `lower()` folds all of Unicode, but no character other than `E`, `X` and `.` can lower to the characters of `.exe`.
- `Classification.ClassifyRendered`: correct classification is proved only for free text that contains none of the keywords. `Classification.TitleSteersCounter` shows that other texts can be counted under another event's counter.
- The order in which Python iterates a set is not fixed by the model. `ProcessWatch.AnnounceStarted` and `ProcessWatch.AnnounceEnded` return the order they took, and `ProcessWatch.ProcessWatcher.Poll` passes it on as ghost values.
