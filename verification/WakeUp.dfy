/** The sleep and wake-up protocol of a run loop: one activation, any number of other threads. */
module WakeUp {
  // What a thread does while it holds the lock of the run loop is one step; between two steps of the runner,
  // while it calls out or waits without the lock, all others can act.

  datatype Result = Finished | Stopped | TimedOut | HandledSource

  /** Where the runner is: in the entry observers, in the callouts before the wait, on its way into the wait, in the
      wait, just out of it without the lock, in the callouts after it, or back from __CFRunLoopRun. */
  datatype Runner =
    | Starting
    | Busy
    | AboutToWait(poll: bool)
    | Waiting(poll: bool)
    | Received
    | Awake
    | Returned(result: Result)

  /** Another thread: at rest, or between the first and the second critical section of a stop, on its way to the
      wake-up. */
  datatype Thread = Idle | Signalling

  /** `expired` is the cleared deadline of the timeout context; `pending` is the one message the wake-up port can
      queue. */
  datatype State = State(runner: Runner, stopped: bool, modeStopped: bool, expired: bool, ignoring: bool, pending: bool,
                         threads: seq<Thread>)

  datatype Event =
    | Stop(k: nat)                          // CFRunLoopStop, first critical section
    | StopMode(k: nat, thisMode: bool)      // _CFRunLoopStopMode, first critical section
    | Expire(k: nat)                        // __CFRunLoopTimeout clears the deadline, without the lock
    | BeginWakeUp(k: nat)                   // somebody decides to call CFRunLoopWakeUp
    | Wake(k: nat)                          // CFRunLoopWakeUp
    | Enter                                 // the checks before the loop
    | Prepare(handled: bool)                // the callouts before the wait are over, the poll flag is computed
    | Dispatch                              // the main queue had a message: no wait this time
    | Sleep                                 // the locks are released
    | ReceiveWakeUp                         // the wait ends with the wake-up message
    | ReceiveOther                          // the wait ends with some other message
    | PollNothing                           // a poll ends without a message
    | Resume                                // the locks are taken again, wake-ups are ignored from here on
    | Check(handledAndDone: bool, late: bool, empty: bool) // the results are examined; the loop goes on or ends

  function WithThread(s: State, k: nat, t: Thread): State
    requires k < |s.threads|
  {
    s.(threads := s.threads[k := t])
  }

  predicate AtRest(s: State, k: nat) {
    k < |s.threads| && s.threads[k] == Idle
  }

  /** The state after an event that can happen. */
  function After(s: State, e: Event): (r: State)
    requires Possible(s, e)
  {
    match e
    case Stop(k) => WithThread(s, k, Signalling).(stopped := true)
    case StopMode(k, thisMode) => WithThread(s, k, Signalling).(modeStopped := s.modeStopped || thisMode)
    case Expire(k) => WithThread(s, k, Signalling).(expired := true)
    case BeginWakeUp(k) => WithThread(s, k, Signalling)
    case Wake(k) => WithThread(s, k, Idle).(pending := s.pending || !s.ignoring)
    case Enter =>
      if s.stopped then s.(stopped := false, runner := Returned(Stopped))
      else if s.modeStopped then s.(modeStopped := false, runner := Returned(Stopped))
      else s.(ignoring := false, runner := Busy)
    case Prepare(handled) => s.(runner := AboutToWait(handled || s.expired))
    case Dispatch => s.(ignoring := true, runner := Awake)
    case Sleep => s.(runner := Waiting(s.runner.poll))
    case ReceiveWakeUp => s.(pending := false, runner := Received)
    case ReceiveOther => s.(runner := Received)
    case PollNothing => s.(runner := Received)
    case Resume => s.(ignoring := true, runner := Awake)
    case Check(handledAndDone, late, empty) =>
      if handledAndDone then s.(runner := Returned(HandledSource))
      else if s.expired || late then s.(runner := Returned(TimedOut))
      else if s.stopped then s.(stopped := false, runner := Returned(Stopped))
      else if s.modeStopped then s.(modeStopped := false, runner := Returned(Stopped))
      else if empty then s.(runner := Returned(Finished))
      else s.(ignoring := false, runner := Busy)
  }

  predicate Possible(s: State, e: Event) {
    match e
    case Stop(k) => AtRest(s, k) && !s.runner.Returned?
    case StopMode(k, _) => AtRest(s, k)
    case Expire(k) => AtRest(s, k)
    case BeginWakeUp(k) => AtRest(s, k)
    case Wake(k) => k < |s.threads| && s.threads[k] == Signalling
    case Enter => s.runner == Starting
    case Prepare(_) => s.runner == Busy
    case Dispatch => s.runner == Busy
    case Sleep => s.runner.AboutToWait?
    case ReceiveWakeUp => s.runner.Waiting? && s.pending
    case ReceiveOther => s.runner.Waiting?
    case PollNothing => s.runner == Waiting(true)
    case Resume => s.runner == Received
    case Check(_, _, _) => s.runner == Awake
  }

  /** A fresh activation: its per-run data are clear, everything else is as it happens to be; other threads may be on
      their way to a wake-up. */
  predicate Initial(s: State) {
    s.runner == Starting && !s.stopped && !s.ignoring
  }

  predicate Follows(s: State, e: Event, t: State) {
    Possible(s, e) && After(s, e) == t
  }

  /** A run: states and the events between them. */
  ghost predicate Run(states: seq<State>, events: seq<Event>) {
    && |states| == |events| + 1 && Initial(states[0])
    && forall i | 0 <= i < |events| :: Follows(states[i], events[i], states[i + 1])
  }

  predicate Flagged(s: State) {
    s.stopped || s.modeStopped || s.expired
  }

  predicate SomeSignalling(s: State) {
    exists k | 0 <= k < |s.threads| :: s.threads[k] == Signalling
  }

  /** Blocked: in a wait that only a message ends. */
  predicate Blocked(s: State) {
    s.runner == Waiting(false)
  }

  /** What every step keeps: wake-ups are ignored only where the flags are still to be checked, and on the way into the
      wait every flag comes with a message, or with a thread about to send one, or the wait will only poll. */
  predicate Safe(s: State) {
    && (s.ignoring ==> s.runner == Awake || s.runner.Returned?)
    && (s.runner == Awake ==> s.ignoring)
    && (s.runner == Busy || s.runner.AboutToWait? || s.runner.Waiting? ==>
          (s.stopped || s.modeStopped ==> s.pending || SomeSignalling(s)))
    && (s.runner == AboutToWait(false) || s.runner == Waiting(false) ==>
          (s.expired ==> s.pending || SomeSignalling(s)))
  }

  lemma SafeInitially(s: State)
    requires Initial(s)
    ensures Safe(s)
  {
  }

  /** Every step keeps the invariant. */
  lemma SafeStep(s: State, e: Event)
    requires Safe(s) && Possible(s, e)
    ensures Safe(After(s, e))
  {
    if e.Stop? || e.StopMode? || e.Expire? || e.BeginWakeUp? || e.Wake? {
      ThreadStep(s, e);
    } else {
      RunnerStep(s, e);
    }
  }

  /** A thread that asks for something is on its way to the wake-up; one that arrives has sent it, or it was ignored. */
  lemma ThreadStep(s: State, e: Event)
    requires Safe(s) && Possible(s, e)
    requires e.Stop? || e.StopMode? || e.Expire? || e.BeginWakeUp? || e.Wake?
    ensures Safe(After(s, e))
  {
    var t := After(s, e);
    assert t.runner == s.runner && t.ignoring == s.ignoring;
    if e.Wake? {
      assert t.pending == (s.pending || !s.ignoring);
    } else {
      assert t.threads[e.k] == Signalling;
      assert SomeSignalling(t);
    }
  }

  lemma RunnerStep(s: State, e: Event)
    requires Safe(s) && Possible(s, e)
    requires !e.Stop? && !e.StopMode? && !e.Expire? && !e.BeginWakeUp? && !e.Wake?
    ensures Safe(After(s, e))
  {
    var t := After(s, e);
    assert t.threads == s.threads;
    assert SomeSignalling(t) <==> SomeSignalling(s);
    hide SomeSignalling;
  }

  lemma {:induction false} SafeAlways(states: seq<State>, events: seq<Event>, i: nat)
    requires Run(states, events) && i < |states|
    ensures Safe(states[i])
  {
    if i == 0 {
      SafeInitially(states[0]);
    } else {
      SafeAlways(states, events, i - 1);
      assert Follows(states[i - 1], events[i - 1], states[i]);
      SafeStep(states[i - 1], events[i - 1]);
    }
  }

  /** No lost stop: whenever the runner is blocked although it should return, a message is on its way. */
  lemma NoLostStop(states: seq<State>, events: seq<Event>, i: nat)
    requires Run(states, events) && i < |states| && Blocked(states[i]) && Flagged(states[i])
    ensures states[i].pending || SomeSignalling(states[i])
  {
    SafeAlways(states, events, i);
  }

  /** And once every thread has finished its wake-up, the wait can end. */
  lemma WaitEnds(states: seq<State>, events: seq<Event>, i: nat)
    requires Run(states, events) && i < |states| && Blocked(states[i]) && Flagged(states[i])
    requires forall k | 0 <= k < |states[i].threads| :: states[i].threads[k] == Idle
    ensures Possible(states[i], ReceiveWakeUp)
  {
    NoLostStop(states, events, i);
  }

  // ----- a stop is honoured in the round in which it arrives

  lemma {:induction false} ReturnedStays(states: seq<State>, events: seq<Event>, i: nat, j: nat)
    requires Run(states, events) && i <= j < |states| && states[i].runner.Returned?
    ensures states[j].runner == states[i].runner
    decreases j - i
  {
    if i < j {
      ReturnedStays(states, events, i, j - 1);
      assert Follows(states[j - 1], events[j - 1], states[j]);
    }
  }

  /** A stop flag stays set until the run returns. */
  lemma {:induction false} FlagStays(states: seq<State>, events: seq<Event>, i: nat, j: nat)
    requires Run(states, events) && i <= j < |states| && (states[i].stopped || states[i].modeStopped)
    requires !states[j].runner.Returned?
    ensures states[j].stopped || states[j].modeStopped
    decreases j - i
  {
    if i < j {
      if states[j - 1].runner.Returned? {
        ReturnedStays(states, events, j - 1, j);
      }
      FlagStays(states, events, i, j - 1);
      assert Follows(states[j - 1], events[j - 1], states[j]);
    }
  }

  /** The loop never goes round again: the next time the flags are looked at, the run returns. */
  lemma LastRound(states: seq<State>, events: seq<Event>, i: nat, j: nat)
    requires Run(states, events) && i <= j < |events| && (states[i].stopped || states[i].modeStopped)
    requires events[j].Check? || events[j] == Enter
    ensures states[j + 1].runner.Returned?
    ensures events[j].Check? && !events[j].handledAndDone && !events[j].late && !states[j].expired ==>
              states[j + 1].runner == Returned(Stopped)
  {
    assert Follows(states[j], events[j], states[j + 1]);
    FlagStays(states, events, i, j);
  }

  // ----- one stop ends one run

  lemma ReturnsFrom(s: State, e: Event)
    requires Possible(s, e) && !s.runner.Returned? && After(s, e).runner.Returned?
    ensures e == Enter || e.Check?
  {
  }

  /** Either flag for itself stays set until the run returns. */
  lemma {:induction false} EachFlagStays(states: seq<State>, events: seq<Event>, i: nat, j: nat)
    requires Run(states, events) && i <= j < |states| && !states[j].runner.Returned?
    ensures states[i].stopped ==> states[j].stopped
    ensures states[i].modeStopped ==> states[j].modeStopped
    decreases j - i
  {
    if i < j {
      assert !states[j - 1].runner.Returned? by {
        if states[j - 1].runner.Returned? {
          ReturnedStays(states, events, j - 1, j);
        }
      }
      EachFlagStays(states, events, i, j - 1);
      assert Follows(states[j - 1], events[j - 1], states[j]);
    }
  }

  /** After the return nothing clears the flag of the mode, and nothing sets that of the run. */
  lemma {:induction false} FlagsAfterReturn(states: seq<State>, events: seq<Event>, i: nat, j: nat)
    requires Run(states, events) && i <= j < |states| && states[i].runner.Returned?
    ensures states[i].modeStopped ==> states[j].modeStopped
    ensures states[i].stopped == states[j].stopped
    decreases j - i
  {
    if i < j {
      FlagsAfterReturn(states, events, i, j - 1);
      ReturnedStays(states, events, i, j - 1);
      assert Follows(states[j - 1], events[j - 1], states[j]);
    }
  }

  /** A run that was stopped twice, by the run loop and by the mode, and that returns as stopped has used up the first
      kind of stop only: the flag of the mode is still set, from then on. */
  lemma OneStopUsed(states: seq<State>, events: seq<Event>, i: nat, j: nat, m: nat)
    requires Run(states, events) && i < j <= m < |states| && states[i].stopped && states[i].modeStopped
    requires !states[j - 1].runner.Returned? && states[j].runner == Returned(Stopped)
    ensures !states[m].stopped && states[m].modeStopped
  {
    EachFlagStays(states, events, i, j - 1);
    assert Follows(states[j - 1], events[j - 1], states[j]);
    ReturnsFrom(states[j - 1], events[j - 1]);
    FlagsAfterReturn(states, events, j, m);
  }

  /** So the next run of the mode returns as stopped before it does anything. */
  lemma SecondStopEndsNext(states: seq<State>, events: seq<Event>, i: nat, j: nat, next: seq<State>,
                           nextEvents: seq<Event>, e: nat)
    requires Run(states, events) && i < j < |states| && states[i].stopped && states[i].modeStopped
    requires !states[j - 1].runner.Returned? && states[j].runner == Returned(Stopped)
    requires Run(next, nextEvents) && next[0].modeStopped == states[|states| - 1].modeStopped
    requires e < |nextEvents| && nextEvents[e] == Enter
    ensures next[e + 1].runner == Returned(Stopped)
  {
    OneStopUsed(states, events, i, j, |states| - 1);
    assert Follows(next[e], nextEvents[e], next[e + 1]);
    EachFlagStays(next, nextEvents, 0, e);
  }

  // ----- why the flags are checked

  /** In the callouts after a wait, wake-ups are ignored: however many threads stop the run there and call for it, no
      message is sent, so that only the check of the flags ends the run; and it does. */
  lemma {:induction false} DroppedWakeUps(states: seq<State>, events: seq<Event>, i: nat, j: nat)
    requires Run(states, events) && i < j < |states| && events[i].Stop? && !states[i].pending
    requires forall m | i <= m <= j :: states[m].runner == Awake
    ensures !states[j].pending && states[j].stopped
    ensures j < |events| && events[j].Check? ==> states[j + 1].runner.Returned?
    decreases j - i
  {
    hide Safe, Possible, After, Initial;
    assert Follows(states[j - 1], events[j - 1], states[j]);
    SafeAlways(states, events, j - 1);
    AwakeStep(states[j - 1], events[j - 1]);
    if i < j - 1 {
      DroppedWakeUps(states, events, i, j - 1);
    }
    if j < |events| {
      assert Follows(states[j], events[j], states[j + 1]);
      StoppedCheck(states[j], events[j]);
    }
  }

  lemma AwakeStep(s: State, e: Event)
    requires Safe(s) && Possible(s, e) && s.runner == Awake && After(s, e).runner == Awake
    ensures After(s, e).pending == s.pending && After(s, e).stopped == (s.stopped || e.Stop?)
  {
  }

  lemma StoppedCheck(s: State, e: Event)
    requires Possible(s, e) && s.stopped
    ensures e.Check? ==> After(s, e).runner.Returned?
  {
  }

  // ----- when the runner blocks

  /** On its way into the wait the runner does nothing but sleep. */
  lemma {:induction false} OnTheWay(states: seq<State>, events: seq<Event>, i: nat, j: nat, poll: bool)
    requires Run(states, events) && i <= j < |states| && states[i].runner == AboutToWait(poll)
    requires forall m | i <= m < j :: events[m] != Sleep
    ensures states[j].runner == AboutToWait(poll)
    decreases j - i
  {
    if i < j {
      OnTheWay(states, events, i, j - 1, poll);
      assert Follows(states[j - 1], events[j - 1], states[j]);
    }
  }

  /** A round that handled no source, before the timeout expires, goes into a wait that only a message ends: the next
      Sleep blocks the runner. */
  lemma SleepBlocks(states: seq<State>, events: seq<Event>, i: nat, j: nat)
    requires Run(states, events) && i < j < |events| && events[i] == Prepare(false) && !states[i].expired
    requires events[j] == Sleep && forall m | i < m < j :: events[m] != Sleep
    ensures Blocked(states[j + 1])
  {
    assert Follows(states[i], events[i], states[i + 1]);
    OnTheWay(states, events, i + 1, j, false);
    assert Follows(states[j], events[j], states[j + 1]);
  }

  /** And it stays blocked until a message is received: an idle run loop does not spin. */
  lemma {:induction false} StaysBlocked(states: seq<State>, events: seq<Event>, i: nat, j: nat)
    requires Run(states, events) && i <= j < |states| && Blocked(states[i])
    requires forall m | i <= m < j :: events[m] != ReceiveWakeUp && events[m] != ReceiveOther
    ensures Blocked(states[j])
    decreases j - i
  {
    if i < j {
      StaysBlocked(states, events, i, j - 1);
      assert Follows(states[j - 1], events[j - 1], states[j]);
    }
  }

  /** Where the poll flag comes from: the round before handled a source, or found the timeout expired. */
  ghost predicate PreparedBy(states: seq<State>, events: seq<Event>, i: nat, j: nat, poll: bool)
    requires |states| == |events| + 1
  {
    && i < j <= |events| && events[i].Prepare? && (poll <==> events[i].handled || states[i].expired)
    && forall m | i < m < j :: !events[m].Prepare?
  }

  lemma {:induction false} PollReason(states: seq<State>, events: seq<Event>, j: nat) returns (i: nat)
    requires Run(states, events) && j < |states| && (states[j].runner.AboutToWait? || states[j].runner.Waiting?)
    ensures PreparedBy(states, events, i, j, states[j].runner.poll)
  {
    StartsElsewhere(states[0]);
    hide Possible, After, Initial;
    assert Follows(states[j - 1], events[j - 1], states[j]);
    WaitStep(states[j - 1], events[j - 1]);
    if events[j - 1].Prepare? {
      i := j - 1;
    } else {
      i := PollReason(states, events, j - 1);
    }
  }

  lemma StartsElsewhere(s: State)
    requires Initial(s)
    ensures !s.runner.AboutToWait? && !s.runner.Waiting?
  {
  }

  lemma WaitStep(s: State, e: Event)
    requires Possible(s, e) && (After(s, e).runner.AboutToWait? || After(s, e).runner.Waiting?)
    ensures if e.Prepare? then After(s, e).runner.poll <==> e.handled || s.expired
            else (s.runner.AboutToWait? || s.runner.Waiting?) && After(s, e).runner.poll == s.runner.poll
  {
  }

  /** A wait ends without a message only if the round before it handled a source or found the timeout expired. */
  lemma PollsOnlyThen(states: seq<State>, events: seq<Event>, j: nat) returns (i: nat)
    requires Run(states, events) && j < |events| && events[j] == PollNothing
    ensures i < j && events[i].Prepare? && (events[i].handled || states[i].expired)
    ensures forall m | i < m < j :: !events[m].Prepare?
  {
    assert Follows(states[j], events[j], states[j + 1]);
    i := PollReason(states, events, j);
  }

  // ----- what ends a run

  /** A round that handled a source ends the run if that was asked for; else an expired timeout does; else a stop, which
      is used up; else that there is nothing left to wait for. Otherwise the loop goes on and listens for wake-ups. */
  lemma CheckReturns(states: seq<State>, events: seq<Event>, j: nat)
    requires Run(states, events) && j < |events| && events[j].Check?
    ensures var s, e, t := states[j], events[j], states[j + 1];
            && (t.runner == Returned(HandledSource) <==> e.handledAndDone)
            && (t.runner == Returned(TimedOut) <==> !e.handledAndDone && (s.expired || e.late))
            && (t.runner == Returned(Stopped) <==>
                  !e.handledAndDone && !s.expired && !e.late && (s.stopped || s.modeStopped))
            && (t.runner == Returned(Finished) <==>
                  !e.handledAndDone && !s.expired && !e.late && !s.stopped && !s.modeStopped && e.empty)
            && (t.runner == Busy <==>
                  !e.handledAndDone && !s.expired && !e.late && !s.stopped && !s.modeStopped && !e.empty)
            && (t.runner == Busy ==> !t.ignoring)
  {
    assert Follows(states[j], events[j], states[j + 1]);
  }

  /** A run returns only by such a check, or at once as stopped. */
  lemma {:induction false} ReturnsBy(states: seq<State>, events: seq<Event>, j: nat) returns (i: nat)
    requires Run(states, events) && j < |states| && states[j].runner.Returned?
    ensures i < j && states[i + 1].runner == states[j].runner && (events[i].Check? || events[i] == Enter)
    ensures events[i] == Enter ==> states[j].runner == Returned(Stopped) && (states[i].stopped || states[i].modeStopped)
  {
    assert j > 0 ==> Follows(states[j - 1], events[j - 1], states[j]);
    if states[j - 1].runner.Returned? {
      i := ReturnsBy(states, events, j - 1);
      ReturnedStays(states, events, j - 1, j);
    } else {
      i := j - 1;
      ReturnsFrom(states[i], events[i]);
    }
  }

  /** A timeout that has expired stays so. */
  lemma {:induction false} ExpiredStays(states: seq<State>, events: seq<Event>, i: nat, j: nat)
    requires Run(states, events) && i <= j < |states| && states[i].expired
    ensures states[j].expired
    decreases j - i
  {
    if i < j {
      ExpiredStays(states, events, i, j - 1);
      assert Follows(states[j - 1], events[j - 1], states[j]);
    }
  }

  /** Whoever asks for the end of the run gets it at the next check: by a stop of the run loop, by a stop of the mode
      that is running, or because the timeout expires. */
  lemma AskedToEnd(states: seq<State>, events: seq<Event>, i: nat, j: nat)
    requires Run(states, events) && i < j < |events| && events[j].Check?
    requires events[i].Stop? || (events[i].StopMode? && events[i].thisMode) || events[i].Expire?
    ensures states[j + 1].runner.Returned?
    ensures events[i].Expire? && !events[j].handledAndDone ==> states[j + 1].runner == Returned(TimedOut)
  {
    assert Follows(states[i], events[i], states[i + 1]) && Follows(states[j], events[j], states[j + 1]);
    if events[i].Expire? {
      ExpiredStays(states, events, i + 1, j);
    } else {
      EachFlagStays(states, events, i + 1, j);
    }
  }

  // ----- one message wakes once

  /** A message stays until it is received. */
  lemma {:induction false} MessageStays(states: seq<State>, events: seq<Event>, i: nat, j: nat)
    requires Run(states, events) && i <= j < |states| && states[i].pending
    requires forall m | i <= m < j :: events[m] != ReceiveWakeUp
    ensures states[j].pending
    decreases j - i
  {
    if i < j {
      MessageStays(states, events, i, j - 1);
      assert Follows(states[j - 1], events[j - 1], states[j]);
    }
  }

  /** Once received it is gone until somebody sends another. */
  lemma {:induction false} MessageGone(states: seq<State>, events: seq<Event>, i: nat, j: nat)
    requires Run(states, events) && i < j < |states| && events[i] == ReceiveWakeUp
    requires forall m | i <= m < j :: !events[m].Wake?
    ensures !states[j].pending
    decreases j - i
  {
    assert Follows(states[j - 1], events[j - 1], states[j]);
    if i < j - 1 {
      MessageGone(states, events, i, j - 1);
    }
  }

  // ----- the runner is never stuck

  /** Until the run returns the runner can always go on, except that a blocked wait needs a message; and a thread on its
      way to a wake-up can always send it. */
  lemma NeverStuck(states: seq<State>, events: seq<Event>, i: nat, handled: bool, late: bool, empty: bool)
    requires Run(states, events) && i < |states|
    ensures var s := states[i];
            || s.runner.Returned? || Blocked(s)
            || Possible(s, Enter) || Possible(s, Prepare(handled)) || Possible(s, Sleep) || Possible(s, PollNothing)
            || Possible(s, Resume) || Possible(s, Check(handled, late, empty))
    ensures Blocked(states[i]) ==> Possible(states[i], ReceiveOther)
    ensures Blocked(states[i]) && states[i].pending ==> Possible(states[i], ReceiveWakeUp)
    ensures forall k | 0 <= k < |states[i].threads| :: states[i].threads[k] == Signalling ==>
              Possible(states[i], Wake(k))
    ensures forall k | 0 <= k < |states[i].threads| :: states[i].threads[k] == Idle ==>
              && Possible(states[i], StopMode(k, true)) && Possible(states[i], Expire(k))
              && Possible(states[i], BeginWakeUp(k))
              && (!states[i].runner.Returned? ==> Possible(states[i], Stop(k)))
  {
  }

  /** A whole run: the runner blocks, somebody stops it, the message wakes it, and it returns as stopped. */
  function WholeRun(): (seq<State>, seq<Event>) {
    var s0 := State(Starting, false, false, false, false, false, [Idle]);
    ([s0,
      s0.(runner := Busy),
      s0.(runner := AboutToWait(false)),
      s0.(runner := Waiting(false)),
      s0.(runner := Waiting(false), stopped := true, threads := [Signalling]),
      s0.(runner := Waiting(false), stopped := true, pending := true),
      s0.(runner := Received, stopped := true),
      s0.(runner := Awake, stopped := true, ignoring := true),
      s0.(runner := Returned(Stopped), ignoring := true)],
     [Enter, Prepare(false), Sleep, Stop(0), Wake(0), ReceiveWakeUp, Resume, Check(false, false, false)])
  }

  lemma WholeRunIsRun()
    ensures Run(WholeRun().0, WholeRun().1)
  {
    var states, events := WholeRun().0, WholeRun().1;
    assert [Idle][0 := Signalling] == [Signalling] && [Signalling][0 := Idle] == [Idle];
    forall i | 0 <= i < |events|
      ensures Follows(states[i], events[i], states[i + 1])
    {
      if i < 4 {
        assert i == 0 || i == 1 || i == 2 || i == 3;
      } else {
        assert i == 4 || i == 5 || i == 6 || i == 7;
      }
    }
  }
}
