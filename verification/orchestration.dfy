/** The provider as a small state machine. Its state is the current task state
    plus the cue slot; its events are a message from the countdown worker and a
    new task state from the reducer. Each step returns the next machine state
    and the commands to execute, in order. */
module Orchestration {
  import opened TaskStateModel
  import opened Commands
  import opened TaskContextProvider

  /** What the provider keeps between events. */
  datatype Provider = Provider(state: TaskState, slot: CueSlot)

  /** An input to the provider. `activeTaskReplaced` says whether the new
      state holds a different `activeTask` object than the previous one, even
      if an equal one: the cue effect depends on that object's identity. The
      flag is meaningful only when a task object is involved: two `null`s are
      the same to React, so a caller never sets it when both the old and the
      new `activeTask` are `None`. Were it set there, the cue effect would run
      with no task active and leave the slot empty, which is what the slot of
      an idle provider already is while `ArmedOnlyWhileActive` holds. */
  datatype Event =
    | WorkerMessage(seconds: int)
    | StateChanged(next: TaskState, activeTaskReplaced: bool)

  /** The provider after an event, and the commands the event caused. */
  datatype Transition = Transition(provider: Provider, commands: seq<Command>)

  /** A prepared cue always belongs to a task that is counting down. */
  predicate ArmedOnlyWhileActive(p: Provider)
  {
    p.slot.Armed? ==> p.state.activeTask.Some?
  }

  /** The action a worker message turns into. */
  function TickAction(seconds: int): Action
  {
    if seconds <= 0 then CompleteTask else CountDown(seconds)
  }

  /** The indicator of an armed slot. */
  function ArmedCount(slot: CueSlot): nat
  {
    if slot.Armed? then 1 else 0
  }

  /** The provider's first render: the state is loaded, then both effects run
      in declaration order against an empty cue slot. */
  function Mount(stored: Option<TaskState>, initial: TaskState): (t: Transition)
    ensures t.provider.state == LoadState(stored, initial)
    ensures t.provider.slot.Armed? <==> t.provider.state.activeTask.Some?
    ensures ArmedOnlyWhileActive(t.provider)
    ensures stored.Some? ==> t.provider.slot == Empty
    ensures stored.Some? ==> Terminate in t.commands
    ensures stored.Some? ==> SetTitle("00:00 - Chronos Pomodoro") in t.commands
    ensures Persist(t.provider.state) in t.commands && Post(t.provider.state) in t.commands
    ensures t.commands == OnStateChange(t.provider.state)
    ensures Count(t.commands, PlayCue) == 0 && Dispatches(t.commands) == []
    ensures Count(t.commands, Terminate) == (if t.provider.state.activeTask.None? then 1 else 0)
  {
    var s := LoadState(stored, initial);
    assert TitleFor(ZeroFormatted) == "00:00 - Chronos Pomodoro";
    StateChangeOrder(s);
    StateChangeEffectCounts(s);
    Transition(Provider(s, OnActiveTaskChange(s.activeTask, Empty)), OnStateChange(s))
  }

  /** One event. A worker message runs the message handler; a new state runs
      the persistence effect and, when `activeTask` changed, the cue effect. */
  function Step(p: Provider, e: Event): Transition
  {
    match e
    case WorkerMessage(seconds) =>
      var r := OnWorkerMessage(p.slot, seconds);
      Transition(p.(slot := r.slot), r.commands)
    case StateChanged(next, replaced) =>
      var changed := replaced || next.activeTask != p.state.activeTask;
      var slot := if changed then OnActiveTaskChange(next.activeTask, p.slot) else p.slot;
      Transition(Provider(next, slot), OnStateChange(next))
  }

  /** The commands of one step: the message handler's for a worker message,
      so nothing is persisted, titled or posted; the state-change effects for
      a new state, so exactly that state is persisted. */
  lemma StepCommands(p: Provider, e: Event)
    ensures e.WorkerMessage? ==> Step(p, e).commands == OnWorkerMessage(p.slot, e.seconds).commands
    ensures e.StateChanged? ==> Step(p, e).commands == OnStateChange(e.next)
    ensures Persisted(Step(p, e).commands) == (if e.StateChanged? then [e.next] else [])
  {
    match e
    case WorkerMessage(seconds) =>
      WorkerMessageCommands(p.slot, seconds);
    case StateChanged(next, _) =>
      StateChangeEffectCounts(next);
  }

  /** What one step promises: the state it moves to, exactly one dispatch per
      worker message and none per state change, a cue only from a completion
      tick with an armed slot, arming only by a state with an active task, and
      a stop request exactly for a new state with no active task. */
  lemma StepContract(p: Provider, e: Event)
    ensures ArmedOnlyWhileActive(p) ==> ArmedOnlyWhileActive(Step(p, e).provider)
    ensures e.WorkerMessage? ==> Step(p, e).provider.state == p.state
    ensures e.StateChanged? ==> Step(p, e).provider.state == e.next
    ensures Dispatches(Step(p, e).commands) == (if e.WorkerMessage? then [TickAction(e.seconds)] else [])
    ensures Count(Step(p, e).commands, PlayCue)
         == (if e.WorkerMessage? && e.seconds <= 0 then ArmedCount(p.slot) else 0)
    ensures p.slot.Empty? && Step(p, e).provider.slot.Armed? ==> e.StateChanged? && e.next.activeTask.Some?
    ensures e.WorkerMessage? && e.seconds <= 0 ==> Step(p, e).provider.slot == Empty
    ensures e.WorkerMessage? && e.seconds > 0 ==> Step(p, e).provider.slot == p.slot
    ensures Count(Step(p, e).commands, Terminate)
         == (if e.StateChanged? && e.next.activeTask.None? then 1 else 0)
    ensures e.StateChanged? && !e.activeTaskReplaced && e.next.activeTask == p.state.activeTask
            ==> Step(p, e).provider.slot == p.slot
    ensures e.StateChanged? && (e.activeTaskReplaced || e.next.activeTask != p.state.activeTask)
            ==> (Step(p, e).provider.slot.Armed? <==> e.next.activeTask.Some? && p.slot.Empty?)
  {
    match e
    case WorkerMessage(seconds) =>
      var r := OnWorkerMessage(p.slot, seconds);
      WorkerMessageCommands(p.slot, seconds);
      CountZeroIffAbsent(r.commands, Terminate);
    case StateChanged(next, _) =>
      StateChangeEffectCounts(next);
  }

  /** Folds a step function over a sequence of events, concatenating the
      commands of every step. */
  function RunWith(step: (Provider, Event) -> Transition, p: Provider, es: seq<Event>): Transition
    decreases |es|
  {
    if |es| == 0 then Transition(p, [])
    else
      var first := step(p, es[0]);
      var rest := RunWith(step, first.provider, es[1..]);
      Transition(rest.provider, first.commands + rest.commands)
  }

  /** A run of events through the provider, one step after another. */
  function Run(p: Provider, es: seq<Event>): Transition
  {
    RunWith(Step, p, es)
  }

  /** The new states a run's events carry, in order. */
  function NewStates(es: seq<Event>): seq<TaskState>
  {
    if |es| == 0 then []
    else (if es[0].StateChanged? then [es[0].next] else []) + NewStates(es[1..])
  }

  /** How many steps of the run arm an empty cue slot. */
  function Armings(p: Provider, es: seq<Event>): nat
    decreases |es|
  {
    if |es| == 0 then 0
    else
      var next := Step(p, es[0]).provider;
      (if p.slot.Empty? && next.slot.Armed? then 1 else 0) + Armings(next, es[1..])
  }

  /** The actions a run's worker messages turn into, one per message, in order. */
  function MessageActions(es: seq<Event>): seq<Action>
  {
    if |es| == 0 then []
    else (if es[0].WorkerMessage? then [TickAction(es[0].seconds)] else []) + MessageActions(es[1..])
  }

  /** How many events of a run deliver a state with no active task. */
  function IdleStateChanges(es: seq<Event>): nat
  {
    if |es| == 0 then 0
    else (if es[0].StateChanged? && es[0].next.activeTask.None? then 1 else 0) + IdleStateChanges(es[1..])
  }

  /** A run keeps every prepared cue tied to an active task. */
  lemma {:induction false} RunKeepsArmedOnlyWhileActive(p: Provider, es: seq<Event>)
    requires ArmedOnlyWhileActive(p)
    ensures ArmedOnlyWhileActive(Run(p, es).provider)
    decreases |es|
  {
    if |es| > 0 {
      RunKeepsArmedOnlyWhileActive(Step(p, es[0]).provider, es[1..]);
    }
  }

  /** In one step, a cue is played only out of an armed slot, and an armed slot
      afterwards was either armed before or armed by this step. */
  lemma StepCueBalance(p: Provider, e: Event)
    ensures Count(Step(p, e).commands, PlayCue) + ArmedCount(Step(p, e).provider.slot)
         <= (if p.slot.Empty? && Step(p, e).provider.slot.Armed? then 1 else 0) + ArmedCount(p.slot)
  {
    StepContract(p, e);
  }

  /** The cue plays at most once per arming: over any run, the cues played plus
      a cue still armed at the end never exceed the armings plus a cue armed at
      the start. */
  lemma {:induction false} CuePlaysAtMostOncePerArming(p: Provider, es: seq<Event>)
    ensures Count(Run(p, es).commands, PlayCue) + ArmedCount(Run(p, es).provider.slot)
         <= Armings(p, es) + ArmedCount(p.slot)
    decreases |es|
  {
    if |es| > 0 {
      var first := Step(p, es[0]);
      StepCueBalance(p, es[0]);
      CuePlaysAtMostOncePerArming(first.provider, es[1..]);
      CountAppend(first.commands, Run(first.provider, es[1..]).commands, PlayCue);
    }
  }

  /** Without an arming, a run that starts with an empty slot plays no cue. */
  lemma NoCueWithoutArming(p: Provider, es: seq<Event>)
    requires p.slot.Empty? && Armings(p, es) == 0
    ensures PlayCue !in Run(p, es).commands
  {
    CuePlaysAtMostOncePerArming(p, es);
    CountZeroIffAbsent(Run(p, es).commands, PlayCue);
  }

  /** An event that leaves the active task `t` in place: a worker message, or
      a new state holding the same `activeTask` object. A countdown tick and
      the state it produces are both of this kind. */
  predicate KeepsActiveTask(e: Event, t: Option<Task>)
  {
    e.WorkerMessage? || (!e.activeTaskReplaced && e.next.activeTask == t)
  }

  /** An event that cannot arm the cue: a worker message, or a new state with
      no active task. What follows a completion is of this kind until the next
      task starts. */
  predicate StaysIdle(e: Event)
  {
    e.WorkerMessage? || e.next.activeTask.None?
  }

  /** Out of an empty slot, events that keep the active task in place never
      play a cue, leave the slot empty and keep the active task. */
  lemma {:induction false} SameTaskEventsFromEmptySlotAreSilent(p: Provider, es: seq<Event>)
    requires p.slot.Empty?
    requires forall i :: 0 <= i < |es| ==> KeepsActiveTask(es[i], p.state.activeTask)
    ensures Count(Run(p, es).commands, PlayCue) == 0
    ensures Run(p, es).provider.slot == Empty
    ensures Run(p, es).provider.state.activeTask == p.state.activeTask
    decreases |es|
  {
    if |es| > 0 {
      var first := Step(p, es[0]);
      StepContract(p, es[0]);
      assert KeepsActiveTask(es[0], p.state.activeTask);
      SameTaskEventsFromEmptySlotAreSilent(first.provider, es[1..]);
      CountAppend(first.commands, Run(first.provider, es[1..]).commands, PlayCue);
    }
  }

  /** Out of an empty slot, events that cannot arm never play a cue and leave
      the slot empty. */
  lemma {:induction false} IdleEventsFromEmptySlotAreSilent(p: Provider, es: seq<Event>)
    requires p.slot.Empty?
    requires forall i :: 0 <= i < |es| ==> StaysIdle(es[i])
    ensures Count(Run(p, es).commands, PlayCue) == 0
    ensures Run(p, es).provider.slot == Empty
    decreases |es|
  {
    if |es| > 0 {
      var first := Step(p, es[0]);
      StepContract(p, es[0]);
      assert StaysIdle(es[0]);
      IdleEventsFromEmptySlotAreSilent(first.provider, es[1..]);
      CountAppend(first.commands, Run(first.provider, es[1..]).commands, PlayCue);
    }
  }

  /** Exactly-once completion cue: with a cue armed, a run of countdown ticks
      and the states they produce, all for the same active task, that contains
      at least one completion value plays the cue exactly once, however many
      completion values follow, and ends with the slot empty. */
  lemma {:induction false} CompletionCuePlaysExactlyOnce(p: Provider, es: seq<Event>)
    requires p.slot.Armed?
    requires forall i :: 0 <= i < |es| ==> KeepsActiveTask(es[i], p.state.activeTask)
    requires exists i :: 0 <= i < |es| && es[i].WorkerMessage? && es[i].seconds <= 0
    ensures Count(Run(p, es).commands, PlayCue) == 1
    ensures Run(p, es).provider.slot == Empty
    decreases |es|
  {
    var first := Step(p, es[0]);
    var rest := es[1..];
    StepContract(p, es[0]);
    assert KeepsActiveTask(es[0], p.state.activeTask);
    assert first.provider.state.activeTask == p.state.activeTask;
    CountAppend(first.commands, Run(first.provider, rest).commands, PlayCue);
    if es[0].WorkerMessage? && es[0].seconds <= 0 {
      SameTaskEventsFromEmptySlotAreSilent(first.provider, rest);
    } else {
      assert first.provider.slot == Armed;
      var i :| 0 <= i < |es| && es[i].WorkerMessage? && es[i].seconds <= 0;
      assert rest[i - 1] == es[i];
      CompletionCuePlaysExactlyOnce(first.provider, rest);
    }
  }

  /** A full countdown plays the cue exactly once. From an idle provider, a
      new state starts a task and arms the cue; then come ticks and the states
      they produce for that task, including at least one completion value;
      then come events that cannot arm (the idle state after completion,
      further completion ticks). */
  lemma FullCountdownPlaysCueOnce(p: Provider, start: Event, countdown: seq<Event>, after: seq<Event>)
    requires p.slot.Empty?
    requires start.StateChanged? && start.next.activeTask.Some?
    requires start.activeTaskReplaced || start.next.activeTask != p.state.activeTask
    requires forall i :: 0 <= i < |countdown| ==> KeepsActiveTask(countdown[i], start.next.activeTask)
    requires exists i :: 0 <= i < |countdown| && countdown[i].WorkerMessage? && countdown[i].seconds <= 0
    requires forall i :: 0 <= i < |after| ==> StaysIdle(after[i])
    ensures Count(Run(p, [start] + countdown + after).commands, PlayCue) == 1
    ensures Run(p, [start] + countdown + after).provider.slot == Empty
  {
    var q := Step(p, start);
    StepContract(p, start);
    assert q.provider.slot == Armed && q.provider.state == start.next;
    RunWithOfOne(Step, p, start);
    RunWithAppend(Step, p, [start], countdown);
    var r1 := Run(q.provider, countdown);
    CompletionCuePlaysExactlyOnce(q.provider, countdown);
    CountAppend(q.commands, r1.commands, PlayCue);
    RunWithAppend(Step, p, [start] + countdown, after);
    var r2 := Run(r1.provider, after);
    IdleEventsFromEmptySlotAreSilent(r1.provider, after);
    CountAppend(q.commands + r1.commands, r2.commands, PlayCue);
  }

  /** Every worker message becomes exactly one dispatch, in order, and a state
      change dispatches nothing. */
  lemma {:induction false} OneDispatchPerMessage(p: Provider, es: seq<Event>)
    ensures Dispatches(Run(p, es).commands) == MessageActions(es)
    decreases |es|
  {
    if |es| > 0 {
      var first := Step(p, es[0]);
      StepContract(p, es[0]);
      OneDispatchPerMessage(first.provider, es[1..]);
      DispatchesAppend(first.commands, Run(first.provider, es[1..]).commands);
    }
  }

  /** Every new state is written to storage once, in the order the states
      arrive, and worker messages write nothing. */
  lemma {:induction false} PersistsEveryNewState(p: Provider, es: seq<Event>)
    ensures Persisted(Run(p, es).commands) == NewStates(es)
    decreases |es|
  {
    if |es| > 0 {
      var first := Step(p, es[0]);
      StepCommands(p, es[0]);
      PersistsEveryNewState(first.provider, es[1..]);
      PersistedAppend(first.commands, Run(first.provider, es[1..]).commands);
    }
  }

  /** The worker is told to stop once for every new state that has no active
      task, and never otherwise. */
  lemma {:induction false} TerminateOncePerIdleState(p: Provider, es: seq<Event>)
    ensures Count(Run(p, es).commands, Terminate) == IdleStateChanges(es)
    decreases |es|
  {
    if |es| > 0 {
      var first := Step(p, es[0]);
      TerminateOncePerIdleState(first.provider, es[1..]);
      CountAppend(first.commands, Run(first.provider, es[1..]).commands, Terminate);
      StepContract(p, es[0]);
    }
  }

  /** A completion tick that arrives right after a reload, before any task is
      started, plays nothing: the loaded state never carries an armed cue. */
  lemma StaleTickAfterReloadIsSilent(s: TaskState, initial: TaskState, seconds: int)
    ensures Count(Step(Mount(Some(s), initial).provider, WorkerMessage(seconds)).commands, PlayCue) == 0
  {
  }

  /** A run of `a` then `b` is the run of `b` from where the run of `a`
      stopped, whatever the step function. */
  lemma {:induction false} RunWithAppend(step: (Provider, Event) -> Transition, p: Provider, a: seq<Event>, b: seq<Event>)
    ensures RunWith(step, p, a + b).provider == RunWith(step, RunWith(step, p, a).provider, b).provider
    ensures RunWith(step, p, a + b).commands
         == RunWith(step, p, a).commands + RunWith(step, RunWith(step, p, a).provider, b).commands
    decreases |a|
  {
    if |a| == 0 {
      assert a + b == b;
      assert [] + RunWith(step, p, b).commands == RunWith(step, p, b).commands;
    } else {
      var first := step(p, a[0]);
      var tail := RunWith(step, first.provider, a[1..]);
      var rest := RunWith(step, tail.provider, b);
      assert (a + b)[0] == a[0];
      assert (a + b)[1..] == a[1..] + b;
      RunWithAppend(step, first.provider, a[1..], b);
      assert first.commands + (tail.commands + rest.commands) == (first.commands + tail.commands) + rest.commands;
    }
  }

  /** A run of one event is one step, whatever the step function. */
  lemma RunWithOfOne(step: (Provider, Event) -> Transition, p: Provider, e: Event)
    ensures RunWith(step, p, [e]) == step(p, e)
  {
    var q := step(p, e);
    assert [e][0] == e && [e][1..] == [];
    assert RunWith(step, p, [e]) == Transition(q.provider, q.commands + []);
    assert q.commands + [] == q.commands;
  }

  /** A run of three events is three steps, whatever the step function. */
  lemma RunWithOfThree(step: (Provider, Event) -> Transition, p: Provider, e0: Event, e1: Event, e2: Event)
    ensures var q0 := step(p, e0);
            var q1 := step(q0.provider, e1);
            var q2 := step(q1.provider, e2);
            RunWith(step, p, [e0, e1, e2]) == Transition(q2.provider, q0.commands + (q1.commands + q2.commands))
  {
    var q0 := step(p, e0);
    var q1 := step(q0.provider, e1);
    var q2 := step(q1.provider, e2);
    assert [e2][0] == e2 && [e2][1..] == [];
    assert RunWith(step, q1.provider, [e2]) == Transition(q2.provider, q2.commands + []);
    assert q2.commands + [] == q2.commands;
    assert [e1, e2][0] == e1 && [e1, e2][1..] == [e2];
    assert [e0, e1, e2][0] == e0 && [e0, e1, e2][1..] == [e1, e2];
  }

  /** Counting and filtering over three concatenated command sequences. */
  lemma CountThree(a: seq<Command>, b: seq<Command>, c: seq<Command>, x: Command)
    ensures Count(a + (b + c), x) == Count(a, x) + Count(b, x) + Count(c, x)
    ensures Dispatches(a + (b + c)) == Dispatches(a) + Dispatches(b) + Dispatches(c)
  {
    CountAppend(b, c, x);
    CountAppend(a, b + c, x);
    DispatchesAppend(b, c);
    DispatchesAppend(a, b + c);
  }

  /** Starting a two-second task from idle and counting down to one second:
      the cue is armed, one countdown is dispatched, nothing plays or stops. */
  lemma StartAndCountDown(t: Task, before: seq<Task>)
    ensures var r := Run(Provider(TaskState(before, None, 0, "00:00"), Empty),
                         [ StateChanged(TaskState(before, Some(t), 2, "00:02"), true),
                           WorkerMessage(1),
                           StateChanged(TaskState(before, Some(t), 1, "00:01"), false) ]);
            && r.provider == Provider(TaskState(before, Some(t), 1, "00:01"), Armed)
            && Dispatches(r.commands) == [CountDown(1)]
            && Count(r.commands, PlayCue) == 0
            && Count(r.commands, Terminate) == 0
  {
    var p := Provider(TaskState(before, None, 0, "00:00"), Empty);
    var e0 := StateChanged(TaskState(before, Some(t), 2, "00:02"), true);
    var e1 := WorkerMessage(1);
    var e2 := StateChanged(TaskState(before, Some(t), 1, "00:01"), false);
    var q0 := Step(p, e0);
    var q1 := Step(q0.provider, e1);
    var q2 := Step(q1.provider, e2);
    StepContract(p, e0);
    StepContract(q0.provider, e1);
    StepContract(q1.provider, e2);
    assert q0.provider == Provider(e0.next, Armed);
    assert q1.provider == q0.provider;
    assert q2.provider == Provider(e2.next, Armed);
    RunWithOfThree(Step, p, e0, e1, e2);
    CountThree(q0.commands, q1.commands, q2.commands, PlayCue);
    CountThree(q0.commands, q1.commands, q2.commands, Terminate);
  }

  /** Completing an armed task with the terminal tick delivered twice: two
      completions, one cue, and the worker stopped once. */
  lemma CompleteWithRepeatedTick(active: TaskState, after: seq<Task>)
    requires active.activeTask.Some?
    ensures var r := Run(Provider(active, Armed),
                         [ WorkerMessage(0),
                           StateChanged(TaskState(after, None, 0, "00:00"), true),
                           WorkerMessage(0) ]);
            && r.provider == Provider(TaskState(after, None, 0, "00:00"), Empty)
            && Dispatches(r.commands) == [CompleteTask, CompleteTask]
            && Count(r.commands, PlayCue) == 1
            && Count(r.commands, Terminate) == 1
  {
    var p := Provider(active, Armed);
    var e0 := WorkerMessage(0);
    var e1 := StateChanged(TaskState(after, None, 0, "00:00"), true);
    var e2 := WorkerMessage(0);
    var q0 := Step(p, e0);
    var q1 := Step(q0.provider, e1);
    var q2 := Step(q1.provider, e2);
    StepContract(p, e0);
    StepContract(q0.provider, e1);
    StepContract(q1.provider, e2);
    assert q0.provider == Provider(active, Empty);
    assert q1.provider == Provider(e1.next, Empty);
    assert q2.provider == q1.provider;
    RunWithOfThree(Step, p, e0, e1, e2);
    CountThree(q0.commands, q1.commands, q2.commands, PlayCue);
    CountThree(q0.commands, q1.commands, q2.commands, Terminate);
  }

  /** The events of a two-second task run from start to completion, with the
      worker delivering its terminal tick twice. */
  function TwoSecondTaskEvents(t: Task, before: seq<Task>, after: seq<Task>): seq<Event>
  {
    [ StateChanged(TaskState(before, Some(t), 2, "00:02"), true),
      WorkerMessage(1),
      StateChanged(TaskState(before, Some(t), 1, "00:01"), false),
      WorkerMessage(0),
      StateChanged(TaskState(after, None, 0, "00:00"), true),
      WorkerMessage(0) ]
  }

  /** Over that run, starting idle: one countdown, two completions, one cue,
      and the worker stopped once the task is no longer active. */
  lemma TwoSecondTaskScenario(t: Task, before: seq<Task>, after: seq<Task>)
    ensures var r := Run(Provider(TaskState(before, None, 0, "00:00"), Empty), TwoSecondTaskEvents(t, before, after));
            && Dispatches(r.commands) == [CountDown(1), CompleteTask, CompleteTask]
            && Count(r.commands, PlayCue) == 1
            && Count(r.commands, Terminate) == 1
            && r.provider == Provider(TaskState(after, None, 0, "00:00"), Empty)
  {
    var p := Provider(TaskState(before, None, 0, "00:00"), Empty);
    var a := [ StateChanged(TaskState(before, Some(t), 2, "00:02"), true),
               WorkerMessage(1),
               StateChanged(TaskState(before, Some(t), 1, "00:01"), false) ];
    var b := [ WorkerMessage(0),
               StateChanged(TaskState(after, None, 0, "00:00"), true),
               WorkerMessage(0) ];
    assert TwoSecondTaskEvents(t, before, after) == a + b;
    StartAndCountDown(t, before);
    CompleteWithRepeatedTick(TaskState(before, Some(t), 1, "00:01"), after);
    RunWithAppend(Step, p, a, b);
    var ra := Run(p, a);
    var rb := Run(ra.provider, b);
    CountAppend(ra.commands, rb.commands, PlayCue);
    CountAppend(ra.commands, rb.commands, Terminate);
    DispatchesAppend(ra.commands, rb.commands);
  }
}
