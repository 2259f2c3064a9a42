# laundry-sms: debounce window and load detector

The laundry monitor watches a vibration sensor on a washing machine. Each
edge from the sensor yields a `Level` (High or Low). The main loop of
`src/main.rs` turns that stream into at most one "load finished" text
message per load. It keeps two pieces of state:

- `signals`: a window of the last three levels, most recent first (an
  `ArrayVec<[Level; 3]>`).
- `active`: whether a load is believed to be running.

For each reading, the loop inserts the reading at the front of the window.
When the window is already full, the oldest reading is dropped first. The
window is idle when every reading it holds is Low. A High reading while
inactive, with the window not idle, starts a load. A Low reading while
active, with the window idle, ends the load and sends the message.

The project has three modules:

- `Debounce` (`debounce.dfy`): the `Level` datatype, the capacity 3, and
  the window as a value. `Insert` is one window update and `AllLow` is the
  idle test.
- `Activity` (`activity.dfy`): the loop state as a value (`Status`). `Step`
  is one loop iteration. `Run` folds `Step` over a finite sequence of
  readings and returns the `active` trace, the notification trace and the
  final state. This module also holds the lemmas about when notifications
  happen.
- `Detector` (`detector.dfy`): the class `LoadDetector`. It keeps the
  window in a three-slot array with a length counter, next to the `active`
  field, and updates them in place. Its `Step` and `Run` methods are proved
  against `Activity.Step` and `Activity.Run`. Its invariant `Valid()` says
  that while active, the window holds a High reading. `Monitor` runs a
  freshly built detector over a finite sequence of readings.

The message send is modelled as the boolean `notify` that `Step` returns.
The blocking sensor poll becomes a parameter of `Step`. The endless loop
becomes `Run` over a finite sequence of readings.

## Model

| member | source | states |
|---|---|---|
| `Debounce.Insert` | src/main.rs:49-55 | The window grows by one reading until it holds three, then stays at three. The new reading is at index 0 and the earlier readings follow in their old order. When the window was full, only the oldest reading is lost. |
| `Debounce.AllLow` | src/main.rs:57 | `is_idle` holds exactly when every reading in the window is Low, that is, when no High is in it. This includes the empty window and windows that are still filling. |
| `Debounce.HighFrontNotIdle` | src/main.rs:53-58 | Right after a High reading is inserted, the window is never idle. |
| `Debounce.StartupIdleSignals` | src/main.rs:45-57 | From the empty window, High, Low, Low, Low give windows [H], [L,H], [L,L,H], [L,L,L] and idle signals false, false, false, true. |
| `Debounce.FirstLowIsIdle` | src/main.rs:57 | A single Low reading in the empty window already reads as idle, because the test counts only the readings held. |
| `Debounce.ThreeLowsClearWindow` | src/main.rs:49-55 | Three Low readings leave the window [Low, Low, Low], whatever it held before. |
| `Debounce.DelayWindows` | src/main.rs:49-57 | After a High reading, the window stays not idle for the next two Low readings and becomes [Low, Low, Low] on the third. |
| `Activity.Step` | src/main.rs:49-71 | One loop iteration keeps the window within capacity. The new window is the value-level window update for that reading. |
| `Activity.StepRules` | src/main.rs:58-71 | On a High reading, `active` ends true and nothing is notified. On a Low reading, `active` is never set, and it ends true exactly when it was true and the window is not idle. A notification happens exactly when `active` goes from true to false. After every step, `active` implies a High reading in the window. |
| `Activity.Run` | src/main.rs:47-73 | Over n readings, the loop yields n `active` flags and n notification flags. The window ends with min(start length + n, 3) readings. The final `active` is the last flag in the trace. |
| `Activity.RunAppend` | src/main.rs:47-73 | Running `a` and then `b` is the same as running `a + b`: the traces concatenate and the final states agree. |
| `Activity.RunPrefix` | src/main.rs:47-73 | The traces of the first m readings are the first m entries of the full traces. |
| `Activity.RunAt` | src/main.rs:47-73 | Trace entry k is the step on reading k, taken from the state reached after the first k readings. The previous `active` flag is that state's `active`. |
| `Activity.RunWindow` | src/main.rs:45-55 | After any run, the window holds the most recent readings, up to three, most recent first, followed by what the window held before. |
| `Activity.IdleMeansRecentLows` | src/main.rs:45-57 | From power-on, the idle signal after n readings holds exactly when the last min(n, 3) readings are all Low. |
| `Activity.NotifyOnlyOnFall` | src/main.rs:64-70 | A notification happens only on a step that leaves `active` false after the previous step left it true. It never happens while already inactive. |
| `Activity.NotificationsSeparated` | src/main.rs:58-70 | Between any two notifications there is a step where `active` goes from false to true, which is a new load start. |
| `Activity.HighsNeverNotify` | src/main.rs:58-63 | A run of High readings only keeps `active` true and never notifies. |
| `Activity.LowsWhileIdle` | src/main.rs:64-71 | From an inactive state, a run of Low readings never starts a load and never notifies. So repeating the end of a load cannot notify twice. |
| `Activity.DelaySteps` | src/main.rs:49-71 | From any state, a High reading followed by three Lows: the High sets `active`, the first two Lows keep it, and the third Low clears it with the only notification. |
| `Activity.DebounceDelay` | src/main.rs:45-71 | The same four readings as a run: `active` trace [T, T, T, F], notification trace [F, F, F, T], final state ([Low, Low, Low], inactive). |
| `Activity.ThreeLowSteps` | src/main.rs:49-71 | From an active state whose window holds a High, three Low readings leave the machine inactive. Exactly one of the three steps notifies. |
| `Activity.ThreeLowsEndLoad` | src/main.rs:49-71 | The same three Low readings as a run: the final state is inactive and the notification trace has exactly one true entry. |
| `Activity.Scenario` | src/main.rs:45-71 | From power-on, Low, Low, Low, High, Low, Low, Low give the `active` trace [F, F, F, T, T, T, F]. They give one notification, at the last reading. |
| `Activity.ReachableInvariant` | src/main.rs:45-71 | Every state reached from power-on has a High reading in its window while `active` is true. |
| `Detector.LoadDetector.constructor` | src/main.rs:45-46 | The detector starts with an empty window and `active` false, and satisfies its invariant. |
| `Detector.LoadDetector.InsertFront` | src/main.rs:53 | `insert(0, level)` on a window that is not full: the new window is `[level]` followed by the old window. |
| `Detector.LoadDetector.TryInsertFront` | src/main.rs:49-50 | `try_insert(0, level)` succeeds exactly when the window is not full. On success it inserts in front. On failure the window is unchanged. |
| `Detector.LoadDetector.Remove` | src/main.rs:52 | `remove(index)` returns the reading at `index` and removes it. The readings before it stay in place; the readings after it move down one slot. |
| `Detector.LoadDetector.Observe` | src/main.rs:49-55 | The in-place window update leaves the window equal to `Debounce.Insert` applied to the old window. |
| `Detector.LoadDetector.IsIdle` | src/main.rs:57 | The short-circuiting scan over the buffer returns `AllLow` of the window. |
| `Detector.LoadDetector.Step` | src/main.rs:48-71 | One in-place iteration produces the state and notification that `Activity.Step` gives for the old state. It keeps the invariant that `active` implies a High in the window. |
| `Detector.LoadDetector.Run` | src/main.rs:47-73 | The in-place loop over finite readings returns the traces of `Activity.Run` from the old state and leaves the detector in its final state. |
| `Detector.Monitor` | src/main.rs:45-73 | A detector built at power-on and run over `levels` returns the `active` and notification traces of `Activity.Run(Initial, levels)`. |

## Notes on the code's behaviour

- The window is tested for idleness while it is still filling. A first Low
  reading therefore reads as idle. This does not matter for notifications,
  because `active` starts false.
- A load ends on the first Low reading that leaves the window all-Low, not
  necessarily on the third Low in a row. After a High reading the delay is
  exactly three Lows (`Activity.DebounceDelay`). But when `active` was set
  by a High that has already moved toward the back of the window, one or
  two Lows can end the load (`Activity.ThreeLowsEndLoad` covers all three
  cases).
- `src/main.rs` would not build as written. Line 13 lacks a semicolon.
  Line 68 moves `client` into `send_laundry_finished_message` inside the
  loop. The model follows what the loop evidently means: the message is
  sent on every notification.

## Left out

- GPIO setup, interrupt arming and the blocking edge poll (src/main.rs:38-44, 48) are hardware I/O. The reading is a parameter of `Step` instead. The panic of the two `unwrap` calls on a failed poll is not modelled.
- The Twilio client and the SMS send (src/main.rs:36, 68, 76-82) are a network call through an external library. They become the `notify` result. Delivery success or failure does not affect the state in the source either.
- Logger set-up and the `info!`/`error!` calls (src/main.rs:23, 43, 62, 69, 79-80) are logging side effects only.
- Reading the Twilio credentials from the environment and the panics when they are missing (src/main.rs:24-35) are configuration loading, outside the core.
- The 60-second `thread::sleep` (src/main.rs:72) is wall-clock pacing. The model only counts readings.
- The non-terminating `loop` (src/main.rs:47) becomes `Run` over a finite sequence of readings.
