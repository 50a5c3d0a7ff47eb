/** The sequential logic of the task context provider, one pure function per
    piece: loading the persisted state, handling a worker tick, reacting to a
    new state, and arming or disarming the completion cue. */
module TaskContextProvider {
  import opened TaskStateModel
  import opened Commands

  /** The static label appended to the document title. */
  const TitleSuffix: string := " - Chronos Pomodoro"

  /** The document title shown for a formatted remaining time. */
  function TitleFor(formatted: string): (title: string)
    ensures |title| == |formatted| + |TitleSuffix|
    ensures title[..|formatted|] == formatted
    ensures title[|formatted|..] == TitleSuffix
  {
    formatted + TitleSuffix
  }

  /** The title determines the formatted time it was made from. */
  lemma TitleForInjective(f: string, g: string)
    requires TitleFor(f) == TitleFor(g)
    ensures f == g
  {
    assert |f| == |g|;
    assert f == TitleFor(f)[..|f|];
  }

  // ---------------------------------------------------------------------------
  // Loading persisted state
  // ---------------------------------------------------------------------------

  /** The stored state with its timer fields forced to their neutral values;
      every other field is kept as decoded. */
  function ResetTimerFields(s: TaskState): (r: TaskState)
    ensures IsTimerNeutral(r)
    ensures SameExceptTimer(r, s)
  {
    s.(activeTask := None, secondsRemaining := 0, formattedSecondsRemaining := ZeroFormatted)
  }

  /** The reducer's initial state. `stored` is the already-decoded value under
      the storage key (`None` when nothing is stored); `initial` is the
      hard-coded initial state. */
  function LoadState(stored: Option<TaskState>, initial: TaskState): (r: TaskState)
    ensures stored.None? ==> r == initial
    ensures stored.Some? ==> IsTimerNeutral(r) && SameExceptTimer(r, stored.value)
  {
    match stored
    case None => initial
    case Some(s) => ResetTimerFields(s)
  }

  /** A state loaded from storage satisfies the idle invariant, whatever was stored. */
  lemma LoadedStateIsIdle(s: TaskState, initial: TaskState)
    ensures IdleMeansZero(LoadState(Some(s), initial))
    ensures LoadState(Some(s), initial).activeTask.None?
  {
  }

  /** Loading is the identity on a stored state exactly when that state was
      already timer-neutral. */
  lemma LoadKeepsExactlyNeutralStates(s: TaskState, initial: TaskState)
    ensures LoadState(Some(s), initial) == s <==> IsTimerNeutral(s)
  {
  }

  /** Saving the loaded state and loading it again changes nothing. */
  lemma ReloadIsIdempotent(s: TaskState, initial: TaskState)
    ensures LoadState(Some(LoadState(Some(s), initial)), initial) == LoadState(Some(s), initial)
  {
  }

  /** Two stored states load to the same state exactly when they agree on every
      field other than the timer fields. */
  lemma LoadForgetsOnlyTimerFields(s: TaskState, t: TaskState, initial: TaskState)
    ensures LoadState(Some(s), initial) == LoadState(Some(t), initial) <==> SameExceptTimer(s, t)
  {
  }

  // ---------------------------------------------------------------------------
  // Worker messages
  // ---------------------------------------------------------------------------

  /** The cue slot after a handler, and the commands the handler issued. */
  datatype Reaction = Reaction(slot: CueSlot, commands: seq<Command>)

  /** The worker's message handler: a remaining-seconds value at or below zero
      plays an armed cue, clears the slot and completes the task; any other
      value counts down to that value and leaves the slot alone. */
  function OnWorkerMessage(slot: CueSlot, seconds: int): (r: Reaction)
    ensures seconds <= 0 ==> r.slot == Empty
    ensures seconds > 0 ==> r.slot == slot
  {
    if seconds <= 0 then
      Reaction(Empty, (if slot.Armed? then [PlayCue] else []) + [Dispatch(CompleteTask)])
    else
      Reaction(slot, [Dispatch(CountDown(seconds))])
  }

  /** What a worker message issues: exactly one dispatch, `CompleteTask` for a
      value at or below zero and `CountDown` with the value otherwise, as the
      last command; before it, the cue plays exactly when the value completes
      the task and a cue is armed; nothing else is issued. */
  lemma WorkerMessageCommands(slot: CueSlot, seconds: int)
    ensures var cmds := OnWorkerMessage(slot, seconds).commands;
            && Dispatches(cmds) == [if seconds <= 0 then CompleteTask else CountDown(seconds)]
            && Count(cmds, PlayCue) == (if seconds <= 0 && slot.Armed? then 1 else 0)
            && (forall i :: 0 <= i < |cmds| ==> cmds[i].PlayCue? || cmds[i].Dispatch?)
            && |cmds| > 0 && cmds[|cmds| - 1].Dispatch?
            && Persisted(cmds) == []
  {
    SingletonCommand(PlayCue);
    if seconds <= 0 {
      var cue := if slot.Armed? then [PlayCue] else [];
      SingletonCommand(Dispatch(CompleteTask));
      CountAppend(cue, [Dispatch(CompleteTask)], PlayCue);
      DispatchesAppend(cue, [Dispatch(CompleteTask)]);
      PersistedAppend(cue, [Dispatch(CompleteTask)]);
    } else {
      SingletonCommand(Dispatch(CountDown(seconds)));
    }
  }

  /** A second completion message after the cue has played plays nothing but
      still completes the task. */
  lemma {:induction false} SecondCompletionIsSilent(slot: CueSlot, first: int, second: int)
    requires first <= 0 && second <= 0
    ensures Count(OnWorkerMessage(OnWorkerMessage(slot, first).slot, second).commands, PlayCue) == 0
    ensures Dispatches(OnWorkerMessage(OnWorkerMessage(slot, first).slot, second).commands) == [CompleteTask]
  {
    var r1 := OnWorkerMessage(slot, first);
    WorkerMessageCommands(r1.slot, second);
  }

  // ---------------------------------------------------------------------------
  // Reaction to a state change
  // ---------------------------------------------------------------------------

  /** The effects a state change may issue. */
  predicate IsStateEffect(c: Command)
  {
    c.Persist? || c.Terminate? || c.SetTitle? || c.Post?
  }

  /** The fixed order of the state-change effects. */
  function EffectOrder(c: Command): nat
    requires IsStateEffect(c)
  {
    match c
    case Persist(_) => 0
    case Terminate => 1
    case SetTitle(_) => 2
    case Post(_) => 3
  }

  /** The effect that runs whenever the state changes: persist it, stop the
      worker when no task is active, show the remaining time in the title, and
      post the state to the worker. */
  function OnStateChange(s: TaskState): seq<Command>
  {
    [Persist(s)] + (if s.activeTask.None? then [Terminate] else [])
      + [SetTitle(TitleFor(s.formattedSecondsRemaining)), Post(s)]
  }

  /** A new state issues only persist, terminate, title and post commands,
      strictly in that order; the persist, the post and the title are always
      issued and are about that state; terminate is issued exactly when no
      task is active. */
  lemma StateChangeOrder(s: TaskState)
    ensures var cmds := OnStateChange(s);
            && (forall i :: 0 <= i < |cmds| ==> IsStateEffect(cmds[i]))
            && (forall i, j :: 0 <= i < j < |cmds| ==> EffectOrder(cmds[i]) < EffectOrder(cmds[j]))
            && Persist(s) in cmds && Post(s) in cmds
            && SetTitle(TitleFor(s.formattedSecondsRemaining)) in cmds
            && (Terminate in cmds <==> s.activeTask.None?)
            && (forall c :: c in cmds && c.Persist? ==> c == Persist(s))
            && (forall c :: c in cmds && c.Post? ==> c == Post(s))
            && (forall c :: c in cmds && c.SetTitle? ==> c == SetTitle(TitleFor(s.formattedSecondsRemaining)))
  {
  }

  /** Each state-change effect is issued exactly once, except `Terminate`,
      which is issued once when no task is active and never otherwise; the
      only state written to storage is the new one. */
  lemma StateChangeEffectCounts(s: TaskState)
    ensures Count(OnStateChange(s), Persist(s)) == 1
    ensures Count(OnStateChange(s), Post(s)) == 1
    ensures Count(OnStateChange(s), SetTitle(TitleFor(s.formattedSecondsRemaining))) == 1
    ensures Count(OnStateChange(s), Terminate) == (if s.activeTask.None? then 1 else 0)
    ensures Dispatches(OnStateChange(s)) == [] && Count(OnStateChange(s), PlayCue) == 0
    ensures Persisted(OnStateChange(s)) == [s]
  {
    var stop := if s.activeTask.None? then [Terminate] else [];
    var title := SetTitle(TitleFor(s.formattedSecondsRemaining));
    var cmds := OnStateChange(s);
    assert cmds == [Persist(s)] + (stop + ([title] + [Post(s)]));
    SingletonCommand(Persist(s));
    SingletonCommand(Terminate);
    SingletonCommand(title);
    SingletonCommand(Post(s));
    forall c: Command
      ensures Count(cmds, c) == Count([Persist(s)], c) + Count(stop, c) + Count([title], c) + Count([Post(s)], c)
    {
      CountAppend([title], [Post(s)], c);
      CountAppend(stop, [title] + [Post(s)], c);
      CountAppend([Persist(s)], stop + ([title] + [Post(s)]), c);
    }
    DispatchesAppend([title], [Post(s)]);
    DispatchesAppend(stop, [title] + [Post(s)]);
    DispatchesAppend([Persist(s)], stop + ([title] + [Post(s)]));
    PersistedAppend([title], [Post(s)]);
    PersistedAppend(stop, [title] + [Post(s)]);
    PersistedAppend([Persist(s)], stop + ([title] + [Post(s)]));
  }

  // ---------------------------------------------------------------------------
  // Arming and disarming the completion cue
  // ---------------------------------------------------------------------------

  /** The effect that runs when `activeTask` changes: prepare a cue when a task
      is active and none is prepared; in every other case drop the prepared
      cue, including an active task whose cue was already prepared. */
  function OnActiveTaskChange(active: Option<Task>, slot: CueSlot): (r: CueSlot)
    ensures r.Armed? <==> active.Some? && slot.Empty?
  {
    if active.Some? && slot.Empty? then Armed else Empty
  }

  /** The arm/disarm step toggles rather than settles: run twice for the same
      active task it returns the slot to where it started, and with no task
      active it always ends disarmed. */
  lemma ArmingTogglesForActiveTask(t: Task, slot: CueSlot)
    ensures OnActiveTaskChange(Some(t), OnActiveTaskChange(Some(t), slot)) == slot
    ensures OnActiveTaskChange(None, slot) == Empty
  {
  }
}
