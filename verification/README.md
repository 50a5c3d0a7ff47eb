# Chronos Pomodoro task context provider — a verified model

The task context provider of the Chronos Pomodoro timer is the glue between the
task reducer, the background countdown worker, the browser's storage and the
completion beep. It holds three small pieces of sequential logic:

- **Load and reset.** At startup it reads the persisted task state. When
  nothing is stored it uses the initial state. Otherwise it keeps the stored
  state but forces its three timer fields to neutral values: no active task,
  zero seconds, `"00:00"`.
- **Tick handling.** Each number the worker posts becomes exactly one reducer
  action. A value at or below zero becomes `COMPLETE_TASK`, and an armed beep
  is played and cleared first. Any other value becomes `COUNT_DOWN` carrying
  the value.
- **Reactions to a new state.** The state is persisted. The worker is
  terminated when no task is active. The document title shows the remaining
  time. The state is posted to the worker. Separately, whenever `activeTask`
  changes, a beep is prepared ("armed") or the prepared one is dropped.

The model is functional. States are immutable datatypes, and every side effect
is a `Command` value (`Persist`, `Terminate`, `SetTitle`, `Post`, `PlayCue`,
`Dispatch`) that a step function returns in execution order. No real I/O
happens.

- `task_state.dfy` (module `TaskStateModel`): the task and task-state records,
  and the predicates for neutral timer fields.
- `commands.dfy` (module `Commands`): actions, commands, the cue slot, and how
  commands are counted and filtered.
- `provider.dfy` (module `TaskContextProvider`): the load step, the message
  handler, the state-change effect and the arm/disarm effect, one pure
  function each.
- `orchestration.dfy` (module `Orchestration`): the provider as a state
  machine. Its state is the task state plus the cue slot. Its events are a
  worker message and a new state. It defines `Mount`, `Step` and `Run`, plus
  lemmas over whole event traces.

Two behaviours of the code are kept as written:

- The arm/disarm effect drops an already-armed beep even when a task is still
  active. This happens when `activeTask` is replaced by another task object
  while a beep is armed. Run twice for the same task, the effect undoes itself
  (`ArmingTogglesForActiveTask`) instead of settling on "armed".
- A stored value that does not decode is not caught (the `JSON.parse` call at
  `TaskContextProvider.tsx:21` is unguarded). Falling back to the initial
  state would be the safer policy, but the model follows the code: it takes an
  already-decoded stored value and invents no fallback.

The `activeTask` dependency of the arm/disarm effect compares object identity.
An event `StateChanged(next, activeTaskReplaced)` says whether the new state
holds a new `activeTask` object. The effect runs when that flag is set or when
the value differs.

## Model

| member | source | states |
|---|---|---|
| TaskContextProvider.LoadState | src/contexts/TaskContext/TaskContextProvider.tsx:16-29 | With nothing stored the loaded state is exactly the initial state; with a stored state the result has neutral timer fields (no active task, 0 seconds, "00:00") and agrees with the stored state on every other field |
| TaskContextProvider.ResetTimerFields | src/contexts/TaskContext/TaskContextProvider.tsx:23-28 | The spread-and-override yields a timer-neutral state that keeps every non-timer field of its input |
| TaskContextProvider.LoadedStateIsIdle | src/contexts/TaskContext/TaskContextProvider.tsx:21-28 | A state loaded from storage has no active task and satisfies "no active task means zero seconds", whatever was stored |
| TaskContextProvider.LoadKeepsExactlyNeutralStates | src/contexts/TaskContext/TaskContextProvider.tsx:21-28 | Loading returns the stored state unchanged if and only if it was already timer-neutral |
| TaskContextProvider.ReloadIsIdempotent | src/contexts/TaskContext/TaskContextProvider.tsx:21-28 | Persisting the loaded state and loading it again gives the same state |
| TaskContextProvider.LoadForgetsOnlyTimerFields | src/contexts/TaskContext/TaskContextProvider.tsx:23-28 | Two stored states load to the same state if and only if they agree on all non-timer fields |
| TaskContextProvider.OnWorkerMessage | src/contexts/TaskContext/TaskContextProvider.tsx:35-47 | A completion value (at or below zero) leaves the cue slot empty; any other value leaves the slot as it was |
| TaskContextProvider.WorkerMessageCommands | src/contexts/TaskContext/TaskContextProvider.tsx:35-47 | Each message dispatches exactly one action, as its last command: `COMPLETE_TASK` for a value at or below zero, `COUNT_DOWN` with that value otherwise; the beep plays once exactly when the value is at or below zero and a beep is armed; nothing else is issued, so nothing is persisted |
| TaskContextProvider.SecondCompletionIsSilent | src/contexts/TaskContext/TaskContextProvider.tsx:38-43 | After one completion message, a further completion message plays nothing but still dispatches `COMPLETE_TASK` |
| TaskContextProvider.TitleFor | src/contexts/TaskContext/TaskContextProvider.tsx:56 | The title is the formatted remaining time followed by " - Chronos Pomodoro" |
| TaskContextProvider.TitleForInjective | src/contexts/TaskContext/TaskContextProvider.tsx:56 | Two formatted times with the same title are equal: the title determines the time shown |
| TaskContextProvider.StateChangeOrder | src/contexts/TaskContext/TaskContextProvider.tsx:49-59 | A new state issues only persist/terminate/title/post commands, strictly in that order; persist and post of that state and the title for its remaining time are always issued; terminate is issued if and only if no task is active |
| TaskContextProvider.OnStateChange | src/contexts/TaskContext/TaskContextProvider.tsx:49-59 | The effect run on every new state: persist, terminate when no task is active, set the title, post. Its contract is carried by `StateChangeOrder` and `StateChangeEffectCounts` |
| TaskContextProvider.StateChangeEffectCounts | src/contexts/TaskContext/TaskContextProvider.tsx:49-59 | Persist, title and post are each issued exactly once; terminate once with no active task and never otherwise; a state change dispatches nothing and plays nothing; the only state it persists is the new one |
| TaskContextProvider.OnActiveTaskChange | src/contexts/TaskContext/TaskContextProvider.tsx:61-67 | The slot ends armed if and only if a task is active and the slot was empty; every other case, including an active task with a beep already armed, ends empty |
| TaskContextProvider.ArmingTogglesForActiveTask | src/contexts/TaskContext/TaskContextProvider.tsx:61-67 | Run twice for the same active task, the effect returns the slot to where it started; with no active task it always empties the slot |
| Orchestration.Mount | src/contexts/TaskContext/TaskContextProvider.tsx:16-67 | At first render the state is the loaded one, the slot is armed exactly when that state has an active task, and the state is persisted and posted; after loading a stored state the slot is empty, the worker is terminated and the title reads "00:00 - Chronos Pomodoro"; the commands are exactly the state-change effects for the loaded state, so nothing is dispatched or played and the worker is terminated exactly when no task is active |
| Orchestration.StepContract | src/contexts/TaskContext/TaskContextProvider.tsx:35-67 | One event moves to the right state; it dispatches one action per worker message and none per state change; it plays a beep only on a completion tick with an armed slot; a completion tick empties the slot and any other tick leaves it; on a new state the slot is untouched unless `activeTask` changed, and when it changed the slot ends armed exactly when a task is active and the slot was empty; it terminates exactly on a new state with no active task; an armed slot always belongs to an active task |
| Orchestration.Step | src/contexts/TaskContext/TaskContextProvider.tsx:35-67 | One event through the provider: the message handler for a worker message; for a new state, the persistence effect and, when `activeTask` changed, the cue effect. Its contract is carried by `StepCommands`, `StepContract` and `StepCueBalance` |
| Orchestration.StepCommands | src/contexts/TaskContext/TaskContextProvider.tsx:35-59 | A worker message issues exactly the message handler's commands, so it persists, titles and posts nothing; a new state issues exactly the state-change effects for that state and persists only it |
| Orchestration.Run | src/contexts/TaskContext/TaskContextProvider.tsx:35-67 | A sequence of events, one `Step` after another, with the commands concatenated. Its properties are carried by the trace lemmas (`CuePlaysAtMostOncePerArming`, `OneDispatchPerMessage`, `PersistsEveryNewState`, `TerminateOncePerIdleState`, `RunKeepsArmedOnlyWhileActive`) |
| Orchestration.StepCueBalance | src/contexts/TaskContext/TaskContextProvider.tsx:38-67 | In one step, beeps played plus a beep left armed never exceed a beep armed before plus one armed by this step |
| Orchestration.CuePlaysAtMostOncePerArming | src/contexts/TaskContext/TaskContextProvider.tsx:38-67 | Over any trace of events, beeps played plus a beep left armed never exceed the number of armings plus a beep armed at the start |
| Orchestration.NoCueWithoutArming | src/contexts/TaskContext/TaskContextProvider.tsx:39-42 | From an empty slot, a trace that never arms plays no beep |
| Orchestration.SameTaskEventsFromEmptySlotAreSilent | src/contexts/TaskContext/TaskContextProvider.tsx:38-67 | Out of an empty slot, worker messages and new states that keep the same active task object never play a beep, leave the slot empty and keep the active task |
| Orchestration.IdleEventsFromEmptySlotAreSilent | src/contexts/TaskContext/TaskContextProvider.tsx:38-67 | Out of an empty slot, worker messages and new states with no active task never play a beep and leave the slot empty |
| Orchestration.CompletionCuePlaysExactlyOnce | src/contexts/TaskContext/TaskContextProvider.tsx:38-67 | With a beep armed, a run of countdown ticks and the states they produce for the same active task, containing at least one completion value, plays the beep exactly once however many completion values arrive, and ends with the slot empty |
| Orchestration.FullCountdownPlaysCueOnce | src/contexts/TaskContext/TaskContextProvider.tsx:38-67 | A full countdown from an idle provider (a new state starts a task; ticks and their states for that task, with at least one completion value; then any events that cannot arm, such as the idle state and repeated completion ticks) plays the beep exactly once and ends disarmed |
| Orchestration.OneDispatchPerMessage | src/contexts/TaskContext/TaskContextProvider.tsx:35-47 | Over any trace, the dispatched actions are exactly one action per worker message, in order, and state changes dispatch nothing |
| Orchestration.PersistsEveryNewState | src/contexts/TaskContext/TaskContextProvider.tsx:49-51 | Over any trace, the states written to storage are exactly the new states, each once, in the order they arrive; worker messages write nothing |
| Orchestration.TerminateOncePerIdleState | src/contexts/TaskContext/TaskContextProvider.tsx:52-54 | Over any trace, the worker is terminated exactly once per new state with no active task |
| Orchestration.RunKeepsArmedOnlyWhileActive | src/contexts/TaskContext/TaskContextProvider.tsx:61-67 | Any trace keeps an armed beep tied to a state with an active task |
| Orchestration.StaleTickAfterReloadIsSilent | src/contexts/TaskContext/TaskContextProvider.tsx:21-43 | A completion tick arriving right after a reload from storage plays nothing |
| Orchestration.StartAndCountDown | src/contexts/TaskContext/TaskContextProvider.tsx:35-67 | Starting a two-second task and counting down to one arms the beep, dispatches one `COUNT_DOWN(1)`, and plays and terminates nothing |
| Orchestration.CompleteWithRepeatedTick | src/contexts/TaskContext/TaskContextProvider.tsx:35-67 | With the beep armed, a completion tick, the resulting idle state, and a repeated completion tick dispatch `COMPLETE_TASK` twice, play once, terminate once, and end idle and disarmed |
| Orchestration.TwoSecondTaskScenario | src/contexts/TaskContext/TaskContextProvider.tsx:35-67 | A two-second task run from idle to completion, with the terminal tick delivered twice, dispatches `COUNT_DOWN(1)`, `COMPLETE_TASK`, `COMPLETE_TASK`, plays the beep once, terminates once, and ends idle and disarmed |

## Left out

- React machinery (`useReducer`, `useEffect`, `useRef`, rendering and the context JSX at lines 69-73). The effects are explicit step functions. The caller supplies each new state as an event, and the model does not decide when React re-renders.
- The `worker` dependency of the persistence effect (line 59). `worker` is read again from `getInstance()` on every render (line 33). If that call ever returned another object, the effect would run again with the state unchanged. The model has no separate event for this. Such a re-run is the event `StateChanged(current state, false)`. In `TerminateOncePerIdleState` it counts as one more idle state change when no task is active.
- `localStorage`, `JSON.stringify` and `JSON.parse`. The stored value is an already-decoded `Option<TaskState>`. A decode failure is unguarded in the code, and the model gives it no fallback.
- The Web Worker and `TimerWorkerManager`, which are not part of this model. Posting and terminating are commands. Whether re-registering the message handler on every render replaces or stacks handlers cannot be established, so nothing is claimed about duplicate handlers; `OneDispatchPerMessage` is about one handler invocation per message.
- `taskReducer`, `initialTaskState` and `TaskActionsTypes`, which are not part of this model. Actions are emitted values, and `initialTaskState` is the parameter `initial`. MM:SS formatting is not modelled; `formattedSecondsRemaining` is an opaque string.
- The task-state type `models/TaskStateModel` is not part of this model. Its fields other than the three timer fields are represented by `tasks`, and `SameExceptTimer` compares them; the `Task` record is a representative task shape (identity, kind, planned duration, timestamps).
- `loadBeep` decoding and playback. An armed beep is the token `Armed`, and playing it is the command `PlayCue`.
- TaskContextProvider.OnWorkerMessage: the message value is an integer. A fractional value, `NaN`, or a non-number posted by the worker is not modelled; for `NaN` the comparison at line 38 is false and the code would dispatch `COUNT_DOWN(NaN)`.
- Orchestration.Step: the identity comparison React makes on `activeTask` is given by the caller as the flag `activeTaskReplaced`, not derived from object references.
