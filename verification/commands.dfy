/** The side effects of the provider, written as command values that a caller
    executes in order, and the functions that count and filter them. */
module Commands {
  import opened TaskStateModel

  /** The reducer actions the provider dispatches. */
  datatype Action =
    | CompleteTask
    | CountDown(secondsRemaining: int)

  /** One side effect of the provider. */
  datatype Command =
    | Persist(state: TaskState)        // write the state under the storage key
    | Terminate                        // stop the background countdown worker
    | SetTitle(title: string)          // update the document title
    | Post(snapshot: TaskState)        // send the state to the worker
    | PlayCue                          // play the prepared completion sound
    | Dispatch(action: Action)         // hand an action to the reducer

  /** The slot that holds the prepared completion cue, if one is armed. */
  datatype CueSlot = Empty | Armed

  /** How many times `c` occurs in `cmds`. */
  function Count(cmds: seq<Command>, c: Command): nat
  {
    if |cmds| == 0 then 0
    else (if cmds[0] == c then 1 else 0) + Count(cmds[1..], c)
  }

  /** The actions dispatched by `cmds`, in order. */
  function Dispatches(cmds: seq<Command>): seq<Action>
  {
    if |cmds| == 0 then []
    else (if cmds[0].Dispatch? then [cmds[0].action] else []) + Dispatches(cmds[1..])
  }

  /** The states written to storage by `cmds`, in order. */
  function Persisted(cmds: seq<Command>): seq<TaskState>
  {
    if |cmds| == 0 then []
    else (if cmds[0].Persist? then [cmds[0].state] else []) + Persisted(cmds[1..])
  }

  /** A single command counts once as itself, dispatches its own action and
      persists its own state. */
  lemma SingletonCommand(x: Command)
    ensures forall c :: Count([x], c) == (if x == c then 1 else 0)
    ensures Dispatches([x]) == (if x.Dispatch? then [x.action] else [])
    ensures Persisted([x]) == (if x.Persist? then [x.state] else [])
  {
    assert [x][1..] == [];
  }

  /** Counting distributes over concatenation. */
  lemma {:induction false} CountAppend(a: seq<Command>, b: seq<Command>, c: Command)
    ensures Count(a + b, c) == Count(a, c) + Count(b, c)
  {
    if |a| == 0 {
      assert a + b == b;
    } else {
      assert (a + b)[1..] == a[1..] + b;
      CountAppend(a[1..], b, c);
    }
  }

  /** Filtering the dispatches distributes over concatenation. */
  lemma {:induction false} DispatchesAppend(a: seq<Command>, b: seq<Command>)
    ensures Dispatches(a + b) == Dispatches(a) + Dispatches(b)
  {
    if |a| == 0 {
      assert a + b == b;
    } else {
      var head := if a[0].Dispatch? then [a[0].action] else [];
      assert (a + b)[0] == a[0];
      assert (a + b)[1..] == a[1..] + b;
      DispatchesAppend(a[1..], b);
      calc {
        Dispatches(a + b);
        head + Dispatches(a[1..] + b);
        head + (Dispatches(a[1..]) + Dispatches(b));
        (head + Dispatches(a[1..])) + Dispatches(b);
        Dispatches(a) + Dispatches(b);
      }
    }
  }

  /** Filtering the persisted states distributes over concatenation. */
  lemma {:induction false} PersistedAppend(a: seq<Command>, b: seq<Command>)
    ensures Persisted(a + b) == Persisted(a) + Persisted(b)
  {
    if |a| == 0 {
      assert a + b == b;
    } else {
      var head := if a[0].Persist? then [a[0].state] else [];
      assert (a + b)[0] == a[0];
      assert (a + b)[1..] == a[1..] + b;
      PersistedAppend(a[1..], b);
      calc {
        Persisted(a + b);
        head + Persisted(a[1..] + b);
        head + (Persisted(a[1..]) + Persisted(b));
        (head + Persisted(a[1..])) + Persisted(b);
        Persisted(a) + Persisted(b);
      }
    }
  }

  /** A command sequence with no `c` in it counts zero of them, and conversely. */
  lemma {:induction false} CountZeroIffAbsent(cmds: seq<Command>, c: Command)
    ensures Count(cmds, c) == 0 <==> c !in cmds
  {
    if |cmds| > 0 {
      CountZeroIffAbsent(cmds[1..], c);
      assert cmds == [cmds[0]] + cmds[1..];
    }
  }
}
