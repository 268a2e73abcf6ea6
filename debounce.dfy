/**
  The deferred save of OptionsForm: the flag save_timer_triggered and the settings files
  written, driven by three kinds of event.

  An edit (every handler that calls TriggerSave) arms the one-shot timer unless it is already
  armed; an armed timer is not restarted, so the save happens TIMER_DURATION after the first
  edit of a burst, not after the last. The timer firing (SaveTimerElapsed) writes the file
  and disarms. Exit (ExitButtonClicked) writes the file only when a save is pending.
*/
module Debounce {
  /** The one-shot timer's interval in milliseconds; elapsed time itself is not modelled. */
  const TimerDuration: nat := 15000

  datatype Event = Edit | Elapsed | Exit

  /** Whether a save is pending, and how many times the settings file has been written. */
  datatype Saver = Saver(pending: bool, saves: nat)

  function Next(s: Saver, e: Event): Saver {
    match e
    case Edit => s.(pending := true)
    // the timer's handler is only subscribed while armed; when idle nothing fires
    case Elapsed => if s.pending then Saver(false, s.saves + 1) else s
    case Exit => if s.pending then s.(saves := s.saves + 1) else s
  }

  function Run(s: Saver, events: seq<Event>): Saver
    decreases |events|
  {
    if |events| == 0 then s else Run(Next(s, events[0]), events[1..])
  }

  function Edits(n: nat): (es: seq<Event>)
    ensures |es| == n && forall k :: 0 <= k < n ==> es[k] == Edit
  {
    seq(n, k => Edit)
  }

  /** A run is the run of its first part followed by the run of the rest. */
  lemma {:induction false} RunSplit(s: Saver, a: seq<Event>, b: seq<Event>)
    ensures Run(s, a + b) == Run(Run(s, a), b)
    decreases |a|
  {
    if |a| == 0 {
      assert a + b == b;
    } else {
      assert (a + b)[1..] == a[1..] + b;
      RunSplit(Next(s, a[0]), a[1..], b);
    }
  }

  /**
    Edits alone never write the file: without a timer firing or an exit, however many edits
    arrive, the state only becomes pending, and it is pending exactly when it was already or
    some edit arrived.
  */
  lemma {:induction false} EditsOnlyArm(s: Saver, events: seq<Event>)
    requires forall k :: 0 <= k < |events| ==> events[k] == Edit
    ensures Run(s, events) == Saver(s.pending || |events| > 0, s.saves)
    decreases |events|
  {
    if |events| > 0 {
      EditsOnlyArm(Next(s, events[0]), events[1..]);
    }
  }

  /**
    Coalescing: a burst of one or more edits followed by the timer firing writes the file
    exactly once and leaves no save pending, whatever the state before.
  */
  lemma Coalesce(s: Saver, n: nat)
    requires n >= 1
    ensures Run(s, Edits(n) + [Elapsed]) == Saver(false, s.saves + 1)
  {
    RunSplit(s, Edits(n), [Elapsed]);
    EditsOnlyArm(s, Edits(n));
  }

  /** The number of events of a kind. */
  function Count(events: seq<Event>, e: Event): (c: nat)
    ensures c <= |events|
    decreases |events|
  {
    if |events| == 0 then 0 else (if events[0] == e then 1 else 0) + Count(events[1..], e)
  }

  /**
    The file is written at most once per timer firing or exit. Before exit, every write uses
    up a pending save, and a save only becomes pending through an edit: the writes plus the
    save still pending never exceed the edits plus the save pending at the start.
  */
  lemma {:induction false} SavesBounded(s: Saver, events: seq<Event>)
    ensures var t := Run(s, events);
      && s.saves <= t.saves <= s.saves + Count(events, Elapsed) + Count(events, Exit)
      && (Count(events, Exit) == 0 ==>
            t.saves + (if t.pending then 1 else 0) <= s.saves + (if s.pending then 1 else 0) + Count(events, Edit))
    decreases |events|
  {
    if |events| > 0 {
      var e := events[0];
      var rest := events[1..];
      SavesBounded(Next(s, e), rest);
      assert Count(events, Edit) == (if e == Edit then 1 else 0) + Count(rest, Edit);
      assert Count(events, Exit) == (if e == Exit then 1 else 0) + Count(rest, Exit);
      assert Count(events, Elapsed) == (if e == Elapsed then 1 else 0) + Count(rest, Elapsed);
    }
  }
}
