# diskrasper controller, modelled in Dafny

diskrasper is a Raspberry Pi appliance that zero-fills the disk `/dev/sda`
and reports progress on RGB LEDs, driven by one push button. Its controller
(`diskrasper.py`) is a state machine in the main thread. Helper threads post
events to it through a queue:
- the udev monitor posts `add` and `remove`;
- the button interrupt posts `button`;
- the dd supervisor posts `dd_ok` and `dd_fail`.

Entry actions of the states command the LED thread and ask the dd
supervisor to start `dd` (`wipe()`) or kill it (`abort()`).

This project models the deterministic core of that controller:

- `machine.dfy` (module `Machine`): the six states, five events and three
  commands, the program's transition list, the first-match scan `Lookup`,
  the entry actions, and the specification functions `Enter`, `Effect`
  (one event) and `Run` (a queue of events, in order). The command log
  records every display request, every `wipe()` request (to start dd) and
  every `abort()` call (to kill it).
- `machine_properties.dfy` (module `MachineProperties`): the properties of
  the table and of runs.
- `controller.dfy` (module `Controller`): class `StateMachine`. It holds the
  `state` field (None until started), the event queue, the LED thread it
  commands, and a ghost log of the commands issued. Its methods `Enter`,
  `Step` (the table scan loop), `Post` and `RunAll` (the consumer loop) are
  proved against `Machine.Enter`, `Machine.Effect` and `Machine.Run`. Its
  invariant says that once started, the LEDs show the current state's
  pattern.
- `leds.dfy` (module `Leds`): the pattern table and `display`.
- `disk_wiper.dfy` (module `DiskWiper`): the event posted when dd exits.
  The state it reads without a lock is modelled as a value read at the
  moment of exit.
- `disk_monitor.dfy` (module `DiskMonitor`): the udev device/action filter
  and the monitor loop.
- `scenarios.dfy` (module `Scenarios`): complete runs. They cover an erase
  that succeeds, a disk yanked mid-erase, a re-inserted disk, repeated
  insertions, and a machine object driven through its queue.

The table documented at the top of `diskrasper.py` marks `button` in IDLE,
ERASING, IOERROR and WIPED as "ignored". The code's list instead has a
self-transition rule for each of these cells. `TableMatchesDocumentation`
shows that the two agree cell by cell, and `SelfTransitionIsNoOp` shows that
a self-transition has no effect, just like an ignored cell.

Two points where the code behaves differently from what one might expect:
- One might expect a dd that cannot be launched to count as an erase
  failure. In the code, `subprocess.Popen` raising inside the supervisor
  thread ends that thread, and no event is posted. The model sees only exit
  codes.
- The "yanked wins" check reads the state at the moment dd exits, without a
  lock. Suppose the disk is yanked, re-inserted and the button pressed
  before the killed dd's exit is observed. The check then reads ERASING and
  posts `dd_fail` for the killed process. `ExitEvent` models the check as
  written: with a non-zero code and a snapshot that is not YANKED, it
  answers `dd_fail`.

## Model

| member | source | states |
|---|---|---|
| Machine.Lookup | diskrasper.py:285-290 | The `for ... else` scan as a function: the target of the first rule for the current state and event, or None when no rule applies. `LookupIsFirstMatch` characterises it. |
| Machine.LookupIsFirstMatch | diskrasper.py:285-290 | The scan finds nothing exactly when no rule has the current state and the event. Otherwise it answers the target of the first rule that does. |
| Machine.LookupSelectsFirstMatch | diskrasper.py:285-288 | The first rule that applies is the one whose target the scan enters. |
| Machine.EntryActionsShape | diskrasper.py:300-318 | Every entry action ends by displaying its state's pattern, and displays nothing before that. ERASING alone calls `wipe()`, exactly once. YANKED alone calls `abort()`, exactly once. Both do so before the display. |
| Machine.EntryActions | diskrasper.py:300-318 | The commands of `enter_<state>`, in order. Each has one or two commands, and the last one displays the state's pattern. |
| Machine.Enter | diskrasper.py:261-269 | `enter(target)` always ends in `target`. It issues commands exactly when the machine was not already in `target`. |
| Machine.Effect | diskrasper.py:284-290 | One event taken off the queue issues commands exactly when it changes the state. |
| Machine.Run | diskrasper.py:279-290 | The queue processed oldest first: the state after the last event, and the commands of all steps in order. `RunSnoc` and `RunAppend` characterise it. |
| Machine.Documented | diskrasper.py:37-49 | The documented grid, one cell per state and event: a target, ignored ('-') or invalid (blank). `TableMatchesDocumentation` ties it to the code's list. |
| MachineProperties.CanonicalTableIsDeterministic | diskrasper.py:322-337 | `Machine.Transitions`, the program's list transcribed in order, has at most one rule per (state, event) pair. |
| MachineProperties.UniqueKeysSelectEveryRule | diskrasper.py:285-288 | When keys are unique, rule order does not matter: each rule is the one chosen for its own pair. |
| MachineProperties.EveryRuleIsDocumented | diskrasper.py:322-337 | Each rule of the list appears in the documented table. A self-transition appears as "ignored"; any other rule appears as its target. |
| MachineProperties.DocumentedCellHasRule | diskrasper.py:37-49 | Every cell that the documented table fills in has a rule in the list. |
| MachineProperties.TableMatchesDocumentation | diskrasper.py:37-52 | For every state and event, the list gives the documented target. An ignored cell is a self-transition, and a blank (invalid) cell has no rule. |
| MachineProperties.UnmatchedEventChangesNothing | diskrasper.py:289-290 | An event with no rule leaves the state as it was and issues no command. |
| MachineProperties.InvalidCellsChangeNothing | diskrasper.py:51-52 | Each blank cell of the documented table, such as add in READY or dd_ok in IDLE, changes nothing. |
| MachineProperties.SelfTransitionIsNoOp | diskrasper.py:264 | A rule whose target is the current state runs no leave action and no entry action. |
| MachineProperties.ButtonIgnoredWhereDocumented | diskrasper.py:324-334 | The button does nothing in IDLE, ERASING, IOERROR and WIPED. In particular, a second press while erasing requests no second wipe. |
| MachineProperties.RealTransitionRunsEntryAction | diskrasper.py:264-269 | A real change of state issues exactly the new state's entry action. |
| MachineProperties.DocumentedMoveRunsEntryAction | diskrasper.py:261-269 | Every documented move really changes the state and issues exactly its target's entry action. |
| MachineProperties.StepShape | diskrasper.py:285-290 | One event either changes nothing, or moves to a different state and issues that state's entry action. |
| MachineProperties.RunSnoc | diskrasper.py:279-290 | Processing one more event extends the run by exactly that event's step. |
| MachineProperties.RunAppend | diskrasper.py:279-298 | Processing `a` and then `b` has the same effect as processing the queue `a + b`. |
| MachineProperties.RunStaysInTable | diskrasper.py:285-288 | After any run, the state is either the starting state or the target of some rule. |
| MachineProperties.StartedMachineStaysStarted | diskrasper.py:271-290 | Once the initial state has been entered, no sequence of events leaves the machine without a state. |
| MachineProperties.CommandPerEntry | diskrasper.py:261-269 | A command issued once by exactly one state's entry action is issued, over any run, once per real entry into that state. |
| MachineProperties.WipeOncePerErasingEntry | diskrasper.py:306-308 | Over any run, `wipe()` is requested exactly as many times as ERASING is really entered. |
| MachineProperties.AbortOncePerYankedEntry | diskrasper.py:316-318 | Over any run, `abort()` is called exactly as many times as YANKED is really entered. |
| Leds.Patterns | diskrasper.py:115-125 | The LED thread's pattern table: four static colours, blank, and the rhythmic blink (four yellow/off pairs, then off), without durations. |
| Leds.UserInterface.constructor | diskrasper.py:110-126 | A new LED thread has the program's pattern table and shows the blank pattern. |
| Leds.UserInterface.Display | diskrasper.py:154-158 | A known name replaces the pattern and wakes the LED loop. An unknown name changes neither the pattern nor the wake-up flag. |
| Controller.EntryPatternsAreKnown | diskrasper.py:115-125 | Every pattern an entry action requests is in the LED thread's table, so no entry action's display is silently dropped. |
| Controller.StateMachine.constructor | diskrasper.py:243-251 | A new machine keeps the given transition list and initial state, has no state, has an empty queue, and has issued nothing. |
| Controller.StateMachine.RunEntryAction | diskrasper.py:300-318 | `enter_<s>` issues exactly `EntryActions(s)`. The LEDs then show that state's pattern, and the wake-up flag is set. |
| Controller.StateMachine.Enter | diskrasper.py:261-269 | The new state and the new commands are those of `Machine.Enter`. A real transition leaves the LEDs on the target's pattern with the wake-up flag set. Entering the current state leaves the pattern and the flag untouched. |
| Controller.StateMachine.Start | diskrasper.py:276 | Starting enters the initial state from the current one. |
| Controller.StateMachine.Post | diskrasper.py:296-298 | A posted event joins the end of the queue. |
| Controller.StateMachine.Step | diskrasper.py:284-290 | The loop over the transition list reaches the state and commands of `Effect`. A real transition sets the LEDs' wake-up flag; when the state does not change, the LEDs are untouched. |
| Controller.StateMachine.RunAll | diskrasper.py:279-290 | Draining the queue oldest-first gives the state and commands of `Run` over the old queue, and leaves the queue empty. |
| DiskWiper.ExitEvent | diskrasper.py:231-237 | Exit code 0 gives dd_ok. A non-zero code gives dd_fail unless the state read at exit is YANKED, in which case no event is posted. |
| DiskWiper.ExitWhileErasing | diskrasper.py:231-237 | When dd exits while erasing, success leads to WIPED and any failure leads to IOERROR, each with its entry action. |
| DiskWiper.ExitWhileYankedChangesNothing | diskrasper.py:234-237 | A dd that exits while the machine is YANKED leaves it YANKED with nothing issued, whatever its exit code. |
| DiskMonitor.DeviceEvent | diskrasper.py:182-186 | Only `add` and `remove` on `/dev/sda` become events (add and remove). Any other device or action yields none. |
| DiskMonitor.Filtered | diskrasper.py:181-186 | A stream of notifications yields at most one event per notification, and each event is add or remove. |
| DiskMonitor.OthersPostNothing | diskrasper.py:181-186 | Notifications that are all for other devices or other actions post nothing. |
| DiskMonitor.WatchedDiskPostsEverything | diskrasper.py:181-186 | For a stream made only of insertions and removals of the watched disk, each notification posts its own event, in order. |
| DiskMonitor.FilteredAppend | diskrasper.py:181-186 | The events of a stream are those of its first part followed by those of the rest, so the loop can be read notification by notification. |
| DiskMonitor.IgnoredAmidStream | diskrasper.py:181-186 | Notifications about other devices or other actions change nothing about what a stream posts, wherever they arrive in it. |
| DiskMonitor.WatchedAmidStream | diskrasper.py:181-186 | An insertion or removal of the watched disk posts its own event, between the events of what came before it and what comes after, whatever else is in the stream. |
| DiskMonitor.Monitor | diskrasper.py:173-186 | The monitor posts add first when the disk is present at start-up, then the filtered events in arrival order. |
| Scenarios.StartInIdle | diskrasper.py:276 | Starting in IDLE blanks the LEDs and issues nothing else. |
| Scenarios.InsertThenPress | diskrasper.py:322-326 | Insert then press from IDLE reaches ERASING after the entry actions of READY and ERASING. |
| Scenarios.WipedThenRemoved | diskrasper.py:329-333 | dd_ok then remove from ERASING returns to IDLE after the entry actions of WIPED and IDLE. |
| Scenarios.EraseThenRemove | diskrasper.py:322-337 | Insert, press, dd_ok, remove ends in IDLE, after the entry actions of READY, ERASING, WIPED and IDLE. |
| Scenarios.EraseThenRemoveStartsDdOnce | diskrasper.py:306-308 | In that run `wipe()` is requested exactly once, ERASING is entered once, and the last display request is "blank". |
| Scenarios.YankWhileErasing | diskrasper.py:316-318 | Press then remove requests a wipe, calls abort and shows red. A dd exiting afterwards, with any code, leaves the machine YANKED. |
| Scenarios.YankedRoundTrip | diskrasper.py:325-336 | From YANKED, add then remove returns to IDLE without requesting a wipe. |
| Scenarios.RepeatedAddInReady | diskrasper.py:322-337 | Any number of add events in READY change nothing. |
| Scenarios.InsertPressPress | diskrasper.py:322-337 | Insert, press, press from IDLE ends ERASING, having issued only the entry actions of READY and ERASING. The second press requests no second wipe. |
| Scenarios.StartAndProcess | diskrasper.py:271-298 | The program's machine object is started in IDLE, and the events are posted to its queue and drained. It ends in the state `Run` gives, having issued IDLE's entry action followed by the run's commands. |

## Left out

- Threads are not modelled: `threading.Event` waits, the print lock, and daemon flags. The queue's 10-second timeout and the `while True` form of the consumer loop are also out. The queue is a sequence drained in order, and the interleavings of the producers are not modelled.
- GPIO is not modelled: pin set-up, LED outputs, the start-up beep, the button interrupt and its 200 ms debounce, and `GPIO.cleanup`. These are hardware calls. A button press is simply a posted `button` event.
- The LED thread's `run` loop and `stop`, and the step durations, are not modelled. Durations are floating-point sleeps. A pattern is modelled as its sequence of LED sets. The pre-emption of a running pattern is represented only by the `update` flag that `Display` sets.
- pyudev is not modelled: the context, the monitor, and the device lookups. Whether the disk is present at start-up is a boolean parameter of `Monitor`. Udev notifications are (action, device node) pairs.
- The dd supervisor's process control is not modelled: `Popen`, `wait`, `kill`, the command line (which is malformed: `'python' 'dd.py'` concatenates to one word), and launch failures. `wipe` and `abort` appear only as the `Wipe` and `Abort` commands in the log. The supervisor's decision is modelled on an integer exit code.
- WipeOncePerErasingEntry: counts `wipe()` requests, not dd processes. `wipe()` only sets a `threading.Event` (diskrasper.py:221), and the supervisor starts dd when it next waits on it (diskrasper.py:225-228). Requests made while the supervisor is still blocked in `proc.wait()` (diskrasper.py:229) on a killed dd merge into a single launch. For example: ERASING, then remove, add, button, remove, add, button, all before the first killed dd has exited. That issues three `Wipe` commands in all but launches only two dd processes. As written, the malformed command line means no dd is ever launched (see below).
- AbortOncePerYankedEntry: counts `abort()` calls, not processes killed. `abort()` kills whatever `proc` holds (diskrasper.py:216), which may be an earlier dd that has already exited, or none at all.
- Abort with no dd process is not modelled, and neither is the crash it causes. As written, the wipe command is malformed (diskrasper.py:85): `'python' 'dd.py'` concatenates to the single word `pythondd.py`. So `subprocess.Popen` raises on every wipe (diskrasper.py:228), the supervisor thread dies, and `proc` stays `None` (diskrasper.py:207). After that, every `remove` while ERASING runs `enter_YANKED`, whose `proc.kill()` raises AttributeError. The `except OSError` at diskrasper.py:216 does not catch it, so it leaves `run` and reaches the top-level handler (diskrasper.py:346-349), which stops the machine. The model's `Abort` command always succeeds. `YankWhileErasing`, `ExitWhileYankedChangesNothing` and the dd-exit lemmas therefore describe the program with a working wipe command. Only once the command line is fixed does a yank before the supervisor has assigned `proc` depend on thread timing.
- `dd.py` is not modelled. It does raw file I/O and floating-point speed reporting.
- `info`/`debug` logging is not modelled, including the "invalid event" message. An unmatched event is modelled only as changing nothing.
- The top-level `KeyboardInterrupt`/exception handling and `StateMachine.stop` are not modelled; they are shutdown plumbing.
- Leave hooks: the source defines no `leave_<state>` method. `LeaveActions` is therefore empty for every state, and the properties are stated with that empty hook.
