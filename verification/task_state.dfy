/** The task-state aggregate of the Chronos Pomodoro timer: the ordered task
    history plus the three timer fields that describe the countdown in progress.
    Every value here is immutable; a new state replaces the old one. */
module TaskStateModel {

  /** An optional value; `None` stands for TypeScript's `null`. */
  datatype Option<+T> = None | Some(value: T)

  /** The kind of interval a task counts down. */
  datatype TaskKind = WorkTime | ShortBreakTime | LongBreakTime

  /** One focus or break interval: identity, kind, planned duration and the
      timestamps of its life, as the host clock reports them. */
  datatype Task = Task(
    id: string,
    kind: TaskKind,
    durationSeconds: nat,
    createDate: int,
    startDate: Option<int>,
    completeDate: Option<int>)

  /** The single persisted, reactive aggregate. `secondsRemaining` is a
      TypeScript `number`; it is kept as an unrestricted `int` because nothing
      in the provider checks its sign. */
  datatype TaskState = TaskState(
    tasks: seq<Task>,
    activeTask: Option<Task>,
    secondsRemaining: int,
    formattedSecondsRemaining: string)

  /** The zero rendering of the MM:SS display. */
  const ZeroFormatted: string := "00:00"

  /** The timer fields hold their neutral values: nothing is counting down. */
  predicate IsTimerNeutral(s: TaskState)
  {
    && s.activeTask.None?
    && s.secondsRemaining == 0
    && s.formattedSecondsRemaining == ZeroFormatted
  }

  /** `a` and `b` agree on every field that is not a timer field. */
  predicate SameExceptTimer(a: TaskState, b: TaskState)
  {
    a.tasks == b.tasks
  }

  /** No active task means no seconds left. */
  predicate IdleMeansZero(s: TaskState)
  {
    s.activeTask.None? ==> s.secondsRemaining == 0
  }
}
