# Timebox timer and list, modelled in Dafny

This project models the sequential logic of the timebox tracker's React
components in `src/components/pozostale.js`:

- **CurrentTimebox**, the run-state machine of the active timebox. Its
  state is running, paused, the number of pauses, elapsed time and the
  periodic tick source. Its handlers are Start, Stop, Pause/Resume and the
  interval callback. Its render shows the minutes and seconds left.
- **EditableTimebox**, which holds the active timebox's title, its length in
  minutes, and the `isEditable` flag that Confirm clears and Edit sets.
- **TimeboxList**, which holds the pending timeboxes and adds, removes and
  updates entries by building new lists.

Files:

- `run_state.dfy` (module `RunState`) describes the run-state machine as
  values. It holds the transition functions, the button guards
  (`Enabled`), traces of events, the invariants every reachable state keeps,
  and the remaining-time arithmetic of the render.
- `current_timebox.dfy` (module `Timer`) holds the class `CurrentTimebox`.
  Its fields are updated in place, and each handler is proved to perform the
  `RunState` transition of the same name.
- `editable_timebox.dfy` (module `Editable`) holds the class
  `EditableTimebox` and the value-level `Confirm`/`Edit`.
- `timebox_list.dfy` (module `Timeboxes`) holds the list operations as
  functions on `seq<Timebox>`.

Modelling choices:

- Elapsed time is an integer count of tenths of a second. Every interval
  callback adds exactly 0.1 s, so `elapsedTenths` equals
  `elapsedTimeInSeconds * 10` in exact arithmetic.
- The `window.setInterval` handle is abstracted by two fields.
  - `ticking`: `intervalId` names an interval that is still registered.
  - `orphaned`: intervals whose id a later `startTimer` overwrote. No
    `clearInterval` can reach them any more.
  This makes "at most one interval is registered" a property that can fail.
  `UnguardedStartOrphansInterval` shows it fails if the Start guard is
  dropped.
- The buttons' `disabled` attributes are the guards. Start is disabled while
  running. Stop and Pause/Resume are disabled while not running. The title
  and minutes inputs are disabled while the timebox is locked. These are the
  `requires` clauses of the handlers and the `Enabled` predicate on events.
- The render's `Math.floor(x / 60)` is Dafny's `/` by a positive divisor,
  which rounds toward minus infinity. The render's `x % 60` is JavaScript's
  truncated remainder, written out as `TruncRem`. So the clock is modelled
  after an overrun too, when the time left is negative.
- Remove and update take any integer index. An index outside the list
  matches no position of `filter`/`map`, so the list comes back unchanged.

The code settles these points, and the model follows it:

- `EditableTimebox` always renders `CurrentTimebox`; it does not unmount it
  while editing. The run state (elapsed time, pauses) therefore persists
  across Edit and Confirm.
- Start, Stop and Pause are not disabled while the timebox is being edited.
  So the timer may run during editing.
- An out-of-range index to remove or update is a no-op, not an error.

## Model

| member | source | states |
|---|---|---|
| `RunState.StartTimer` | src/components/pozostale.js:79-88 | startTimer leaves a registered interval named by intervalId, adds exactly one live interval, orphans the previous one if it was live, and changes nothing else |
| `RunState.StopTimer` | src/components/pozostale.js:89-91 | stopTimer clears only the interval named by intervalId: afterwards the live intervals are exactly the orphaned ones, nothing else changes |
| `RunState.Start` | src/components/pozostale.js:64-69 | handleStart makes the machine running with a live tick source, one more live interval, and pauses, elapsed time and isPaused untouched |
| `RunState.Stop` | src/components/pozostale.js:70-78 | handleStop returns the machine to exactly the constructor's state whatever the prior state, except that orphaned intervals stay live |
| `RunState.TogglePause` | src/components/pozostale.js:92-107 | togglePause flips isPaused, counts one more pause exactly when entering a pause, leaves running and elapsed time alone, has the tick source live exactly when not paused, and leaves the orphaned intervals as the only live ones when pausing and adds exactly one live interval when resuming |
| `RunState.Tick` | src/components/pozostale.js:80-87 | the interval callback adds exactly one tenth of a second and changes nothing else |
| `RunState.Step` | src/components/pozostale.js:64-107 | every enabled event keeps the invariants; only Stop lowers elapsed time; only a callback raises it, by exactly one tenth |
| `RunState.InvPreserved` | src/components/pozostale.js:64-107 | the invariants hold after every admissible trace from a state that has them |
| `RunState.Reachable` | src/components/pozostale.js:122-124 | under the button guards every reachable state has isPaused ⇒ isRunning, a live tick source iff running and not paused, and at most one registered interval |
| `RunState.StopResets` | src/components/pozostale.js:54-59 | from any reachable state Stop gives the constructor's state (not running, not paused, 0 pauses, 0 elapsed) with no interval registered |
| `RunState.TickOnlyWhileRunning` | src/components/pozostale.js:89-91 | in a reachable state an interval fires only while running and not paused, so elapsed time advances only then |
| `RunState.TogglePauseTwice` | src/components/pozostale.js:92-107 | pausing then resuming, or resuming then pausing, restores the state except for exactly one more pause |
| `RunState.ElapsedCountsTicks` | src/components/pozostale.js:80-87 | on any trace without Stop, elapsed time grows by exactly one tenth per interval callback, so it never decreases between stops |
| `RunState.UnguardedStartOrphansInterval` | src/components/pozostale.js:64-69 | the Start guard is needed: pressing Start while running and not paused would leave two live intervals; pressing it while paused would restart the tick source although the machine still shows paused; either breaks the invariants |
| `RunState.TruncRem` | src/components/pozostale.js:114 | JavaScript's `%` by a positive divisor: a minus the result is a multiple of b, the result lies within (-b, b), is non-negative for a non-negative dividend and has the dividend's sign otherwise, which fixes it to the truncated remainder |
| `RunState.ClockExample` | src/components/pozostale.js:111-114 | a 20-minute timebox after 50 callbacks shows 19 minutes 55 seconds |
| `RunState.ClockBeforeDeadline` | src/components/pozostale.js:111-114 | before the deadline the clock shows non-negative minutes and seconds 0..59 that together make the whole seconds left |
| `RunState.ClockAfterDeadline` | src/components/pozostale.js:111-114 | after the deadline the minutes are negative and the seconds lie in -60..0; there is no clamp |
| `Timer.CurrentTimebox.constructor` | src/components/pozostale.js:52-59 | a new component is in the initial state: idle, no pauses, nothing elapsed, no interval |
| `Timer.CurrentTimebox.StartTimer` | src/components/pozostale.js:79-88 | the field updates of startTimer are RunState.StartTimer |
| `Timer.CurrentTimebox.StopTimer` | src/components/pozostale.js:89-91 | the field updates of stopTimer are RunState.StopTimer |
| `Timer.CurrentTimebox.HandleStart` | src/components/pozostale.js:64-69 | performs RunState.Start and keeps the invariants; afterwards running, not paused, ticking |
| `Timer.CurrentTimebox.HandleStop` | src/components/pozostale.js:70-78 | performs RunState.Stop; afterwards the fields equal the constructor's |
| `Timer.CurrentTimebox.TogglePause` | src/components/pozostale.js:92-107 | performs RunState.TogglePause and keeps the invariants: isPaused flipped, pause counted only on entering a pause, tick source live iff not paused |
| `Timer.CurrentTimebox.Tick` | src/components/pozostale.js:80-87 | performs RunState.Tick while the tick source is live: one tenth more, invariants kept |
| `Timer.CurrentTimebox.MinutesLeft` | src/components/pozostale.js:111-113 | the render's minutesLeft; non-negative before the deadline and negative after it |
| `Timer.CurrentTimebox.SecondsLeft` | src/components/pozostale.js:111-114 | the render's secondsLeft; in 0..59 before the deadline and in -60..59 always |
| `Editable.Confirm` | src/components/pozostale.js:143-145 | handleConfirm locks the timebox and keeps its title and length |
| `Editable.Edit` | src/components/pozostale.js:146-148 | handleEdit unlocks the timebox and keeps its title and length |
| `Editable.Idempotent` | src/components/pozostale.js:143-148 | Confirm twice is Confirm once; Edit twice is Edit once |
| `Editable.ConfirmEditRoundTrip` | src/components/pozostale.js:143-148 | Edit undoes Confirm on an editable timebox and Confirm undoes Edit on a locked one |
| `Editable.EditableTimebox.constructor` | src/components/pozostale.js:132-136 | the component starts editable, with the seeded title and 20 minutes |
| `Editable.EditableTimebox.HandleTitleChange` | src/components/pozostale.js:137-139 | while editable, sets the title and nothing else |
| `Editable.EditableTimebox.HandleTotalTimeInMinutesChange` | src/components/pozostale.js:140-142 | while editable, sets the length and nothing else |
| `Editable.EditableTimebox.HandleConfirm` | src/components/pozostale.js:143-145 | performs Confirm: isEditable false, title and length unchanged |
| `Editable.EditableTimebox.HandleEdit` | src/components/pozostale.js:146-148 | performs Edit: isEditable true, title and length unchanged |
| `Timeboxes.FilterOutPosition` | src/components/pozostale.js:229 | the filter on positions drops exactly the entry at the skipped position, keeping the rest in order, and drops nothing when no position matches |
| `Timeboxes.MapPosition` | src/components/pozostale.js:235-237 | the map on positions replaces exactly the entry at the target position, and nothing when no position matches |
| `Timeboxes.AddTimebox` | src/components/pozostale.js:221-226 | addTimebox yields a list one longer, with the new timebox at index 0 and the old list unchanged after it |
| `Timeboxes.RemoveTimebox` | src/components/pozostale.js:227-232 | removeTimebox drops exactly the entry at the index and keeps the order of the rest; the list is unchanged for an out-of-range index |
| `Timeboxes.UpdateTimebox` | src/components/pozostale.js:233-240 | updateTimebox keeps the length, puts the new timebox at the index and leaves every other position as it was; out of range it changes nothing |
| `Timeboxes.RetitleTimebox` | src/components/pozostale.js:255 | the list item's edit callback replaces only the entry at the index, by the same timebox with its title set to "Updated timebox", so every id and every other entry are kept |
| `Timeboxes.RemoveUndoesAdd` | src/components/pozostale.js:221-232 | removing position 0 undoes adding a timebox |
| `Timeboxes.UpdateLaws` | src/components/pozostale.js:233-240 | updating with the entry already there is a no-op; updating twice with the same value is updating once |
| `Timeboxes.RemoveAfterUpdate` | src/components/pozostale.js:227-240 | removing an entry just updated gives the same list as removing it without the update |
| `Timeboxes.AddKeepsIdsUnique` | src/components/pozostale.js:221-226 | adding a timebox with a fresh id keeps all ids distinct |
| `Timeboxes.RemoveKeepsIdsUnique` | src/components/pozostale.js:227-232 | removing an entry keeps all ids distinct |
| `Timeboxes.UpdateKeepsIdsUnique` | src/components/pozostale.js:233-240 | replacing an entry by one with the same id keeps all ids distinct |
| `Timeboxes.SeedExamples` | src/components/pozostale.js:213-240 | on the seeded list: adding gives 4 entries with the new one first; removing index 1 leaves ids "a" and "c"; updating index 0 changes only the first entry |

## Left out

- Rendering. The JSX, class names, `ProgressBar`, `TimeboxEditor`, `Timebox`, `Clock` and `App.js` are out. They only display state and wire callbacks. The `disabled` attributes are kept, as guards.
- `progressInPercent` (`pozostale.js:115`) is out. It is a floating-point division, and it divides by zero for a 0-minute timebox.
- Floating point is out. The source adds the float `0.1` on every tick, so its sum can drift from the exact count of tenths. This can move the floored seconds by one. The model counts exact tenths.
- Real time is out. `setInterval`'s 100 ms period and the wall clock are not modelled. An interval callback is an explicit event that may happen whenever some interval is live.
- Teardown is out. The source has no unmount cleanup, so an interval still running when the component unmounts would never be cleared. In this app `CurrentTimebox` is never unmounted.
- React's `setState` batching and asynchrony are out. Each handler is one atomic transition. The `togglePause` updater, which calls `startTimer`/`stopTimer` inside the updater, is treated as running exactly once.
- `TimeboxCreator.handleSubmit` is out. It calls `uuid.v4()` (a foreign call) and reads and resets DOM inputs. What it passes on, `handleCreate`, is `AddTimebox` itself.
- String-to-number coercion of the minutes input is out. Minutes are a `nat`.
