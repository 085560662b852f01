/** `AdminClient.waitResult` as a transition system: a poller goroutine that owns
    the C queue, a caller waiting for its result, and a context that may be
    cancelled at any moment. The two talk over an unbuffered channel and a
    channel that is only ever closed. */
module WaitResult {
  import opened Wrappers

  /** `id` is the event's identity: the number of events polled before it. */
  datatype Event = Event(id: nat, kind: nat, failed: bool)

  datatype Poller =
    | AtSelect
    | Polling
    | Sending(event: Event)
    | Closing
    | ClosingOnSignal
    | Exited

  datatype Caller =
    | Selecting
    | Checking(received: Option<Event>)
    | Confirming(result: Event)
    | Signalling
    | Draining
    | Returned(returned: Option<Event>)

  datatype Fault = CloseOfClosed | SendOnClosed | NilEventRead

  datatype State = State(
    expected: nat,
    poller: Poller,
    caller: Caller,
    resultClosed: bool,
    closeClosed: bool,
    cancelled: bool,
    polled: seq<Event>,
    destroyed: seq<Event>,
    fault: Option<Fault>)

  function Initial(expected: nat): State {
    State(expected, AtSelect, Selecting, false, false, false, [], [], None)
  }

  datatype Action =
    | Cancel
    | PollerSelect
    | PollEmpty
    | PollEvent(event: Event)
    | PollerSendFails
    | PollerClose
    | Receive
    | ReceiveClosed
    | ReceiveDone
    | Check
    | Confirm
    | Signal
    | Drain
    | DrainClosed

  predicate Enabled(s: State, a: Action) {
    s.fault.None? &&
    match a
    case Cancel => !s.cancelled
    case PollerSelect => s.poller.AtSelect?
    case PollEmpty => s.poller.Polling?
    case PollEvent(event) => s.poller.Polling? && event.id == |s.polled|
    case PollerSendFails => s.poller.Sending? && s.resultClosed
    case PollerClose => s.poller.Closing? || s.poller.ClosingOnSignal?
    case Receive => s.caller.Selecting? && s.poller.Sending? && !s.resultClosed
    case ReceiveClosed => s.caller.Selecting? && s.resultClosed
    case ReceiveDone => s.caller.Selecting? && s.cancelled
    case Check => s.caller.Checking?
    case Confirm => s.caller.Confirming?
    case Signal => s.caller.Signalling?
    case Drain => s.caller.Draining? && s.poller.Sending? && !s.resultClosed
    case DrainClosed => s.caller.Draining? && s.resultClosed
  }

  function CloseSignal(s: State): State {
    if s.closeClosed then s.(fault := Some(CloseOfClosed)) else s.(closeClosed := true)
  }

  function Next(s: State, a: Action): State
    requires Enabled(s, a)
  {
    match a
    case Cancel => s.(cancelled := true)
    case PollerSelect => s.(poller := if s.closeClosed then ClosingOnSignal else Polling)
    case PollEmpty => s.(poller := AtSelect)
    case PollEvent(event) => s.(poller := Sending(event), polled := s.polled + [event])
    case PollerSendFails => s.(fault := Some(SendOnClosed))
    case PollerClose =>
      if s.resultClosed then s.(fault := Some(CloseOfClosed)) else s.(resultClosed := true, poller := Exited)
    case Receive => s.(caller := Checking(Some(s.poller.event)), poller := Closing)
    case ReceiveClosed => s.(caller := Checking(None))
    case ReceiveDone => s.(caller := Signalling)
    case Check =>
      if s.caller.received.None? then s.(fault := Some(NilEventRead))
      else
        var event := s.caller.received.value;
        if event.kind != s.expected || event.failed
        then s.(destroyed := s.destroyed + [event], caller := Returned(None))
        else s.(caller := Confirming(event))
    case Confirm => CloseSignal(s.(caller := Returned(Some(s.caller.result))))
    case Signal => CloseSignal(s.(caller := Draining))
    case Drain => s.(destroyed := s.destroyed + [s.poller.event], poller := Closing, caller := Returned(None))
    case DrainClosed => s.(caller := Returned(None))
  }

  // ---------------------------------------------------------------- invariant

  /** The event the poller holds, if it holds one. */
  function InFlight(s: State): seq<Event> {
    if s.poller.Sending? then [s.poller.event] else []
  }

  ghost predicate Invariant(s: State) {
    && s.fault.None?
    && (s.resultClosed <==> s.poller.Exited?)
    && (s.poller.ClosingOnSignal? ==> s.closeClosed && s.polled == [])
    && match s.caller
       case Selecting => !s.closeClosed && Before(s)
       case Signalling => !s.closeClosed && s.cancelled && Before(s)
       case Draining => s.closeClosed && s.cancelled && !s.poller.Closing? && s.polled == InFlight(s) && s.destroyed == []
       case Checking(received) => !s.closeClosed && After(s) && received.Some? && s.polled == [received.value] && s.destroyed == []
       case Confirming(result) =>
         !s.closeClosed && After(s) && s.polled == [result] && s.destroyed == [] && result.kind == s.expected && !result.failed
       case Returned(None) => After(s) && s.destroyed == s.polled && |s.polled| <= 1
         && (s.closeClosed ==> s.cancelled)
         && (!s.closeClosed ==> |s.polled| == 1 && (s.polled[0].kind != s.expected || s.polled[0].failed))
       case Returned(Some(result)) => s.closeClosed && After(s) && s.polled == [result] && s.destroyed == [] && result.kind == s.expected && !result.failed
  }

  /** Nothing has been handed over yet. */
  ghost predicate Before(s: State) {
    && (s.poller.AtSelect? || s.poller.Polling? || s.poller.Sending?)
    && s.polled == InFlight(s) && s.destroyed == []
  }

  /** The poller is done with the queue. */
  ghost predicate After(s: State) {
    s.poller.Closing? || s.poller.Exited?
  }

  lemma StepKeepsInvariant(s: State, a: Action)
    requires Invariant(s) && Enabled(s, a)
    ensures Invariant(Next(s, a))
  {
  }

  // --------------------------------------------------------------------- runs

  ghost predicate Possible(s: State, actions: seq<Action>)
    decreases |actions|
  {
    actions != [] ==> Enabled(s, actions[0]) && Possible(Next(s, actions[0]), actions[1..])
  }

  ghost function Run(s: State, actions: seq<Action>): State
    requires Possible(s, actions)
    decreases |actions|
  {
    if actions == [] then s else Run(Next(s, actions[0]), actions[1..])
  }

  lemma {:induction false} RunKeepsInvariant(s: State, actions: seq<Action>)
    requires Invariant(s) && Possible(s, actions)
    ensures Invariant(Run(s, actions))
    ensures Run(s, actions).expected == s.expected
    decreases |actions|
  {
    if actions != [] {
      StepKeepsInvariant(s, actions[0]);
      RunKeepsInvariant(Next(s, actions[0]), actions[1..]);
    }
  }

  /** In every interleaving: no channel is closed twice or sent on once closed, no
      nil event is read; at most one event is polled; once the caller is back the
      queue is never polled again, and the event was returned or destroyed, once. It
      comes back with nothing only after a cancellation or for an event of the wrong
      kind or with an error. */
  lemma SafeInEveryRun(expected: nat, actions: seq<Action>)
    requires Possible(Initial(expected), actions)
    ensures var s := Run(Initial(expected), actions);
            && s.fault.None?
            && |s.polled| <= 1
            && (s.caller.Returned? ==>
                  && !s.poller.AtSelect? && !s.poller.Polling? && !s.poller.Sending?
                  && s.polled == s.destroyed + (if s.caller.returned.Some? then [s.caller.returned.value] else [])
                  && (s.caller.returned.Some? ==> s.caller.returned.value.kind == expected && !s.caller.returned.value.failed)
                  && (s.caller.returned.None? ==>
                        s.cancelled || (|s.polled| == 1 && (s.polled[0].kind != expected || s.polled[0].failed))))
  {
    RunKeepsInvariant(Initial(expected), actions);
  }

  /** A received event of the expected kind without error is the one returned,
      whatever happens meanwhile. */
  lemma GoodEventIsReturned(s: State, rest: seq<Action>)
    requires Invariant(s) && Possible(s, rest)
    requires s.caller.Checking? && s.caller.received.value.kind == s.expected && !s.caller.received.value.failed
    requires Run(s, rest).caller.Returned?
    ensures Run(s, rest).caller.returned == s.caller.received && Run(s, rest).destroyed == []
  {
    GoodEventStays(s, rest, s.caller.received.value);
  }

  /** The event is with the caller and nothing but returning it lies ahead. */
  ghost predicate Accepted(s: State, event: Event) {
    event.kind == s.expected && !event.failed &&
    (s.caller == Checking(Some(event)) || s.caller == Confirming(event) || s.caller == Returned(Some(event)))
  }

  lemma {:induction false} GoodEventStays(s: State, rest: seq<Action>, event: Event)
    requires Invariant(s) && Possible(s, rest) && Accepted(s, event)
    ensures Accepted(Run(s, rest), event) && Run(s, rest).destroyed == []
    decreases |rest|
  {
    if rest != [] {
      StepKeepsInvariant(s, rest[0]);
      GoodEventStays(Next(s, rest[0]), rest[1..], event);
    }
  }

  ghost predicate Finished(s: State) {
    s.caller.Returned? && s.poller.Exited?
  }

  /** Unless both are done, one of the two processes can move. */
  lemma NeverDeadlocks(expected: nat, actions: seq<Action>) returns (a: Action)
    requires Possible(Initial(expected), actions) && !Finished(Run(Initial(expected), actions))
    ensures Enabled(Run(Initial(expected), actions), a) && !a.Cancel?
  {
    RunKeepsInvariant(Initial(expected), actions);
    var s := Run(Initial(expected), actions);
    match s.poller {
      case AtSelect => a := PollerSelect;
      case Polling => a := PollEmpty;
      case Closing => a := PollerClose;
      case ClosingOnSignal => a := PollerClose;
      case _ =>
        match s.caller {
          case Selecting => a := Receive;
          case Checking(_) => a := Check;
          case Confirming(_) => a := Confirm;
          case Signalling => a := Signal;
          case Draining => a := if s.poller.Exited? then DrainClosed else Drain;
        }
    }
  }

  // -------------------------------------------------------------- termination

  function PollerRank(p: Poller): nat {
    match p
    case Polling => 4
    case AtSelect => 3
    case Sending(_) => 2
    case Closing => 1
    case ClosingOnSignal => 1
    case Exited => 0
  }

  function CallerRank(c: Caller): nat {
    match c
    case Selecting => 3
    case Checking(_) => 2
    case Confirming(_) => 1
    case Signalling => 2
    case Draining => 1
    case Returned(_) => 0
  }

  function Rank(s: State): nat {
    PollerRank(s.poller) + CallerRank(s.caller) + if s.cancelled then 0 else 1
  }

  /** The poller starts another 50 ms poll because nothing has stopped it yet. */
  predicate Idles(s: State, a: Action) {
    a.PollerSelect? && !s.closeClosed
  }

  lemma StepLowersRank(s: State, a: Action)
    requires Invariant(s) && Enabled(s, a) && !Idles(s, a)
    ensures Rank(Next(s, a)) < Rank(s)
  {
  }

  ghost function IdleSteps(s: State, actions: seq<Action>): nat
    requires Possible(s, actions)
    decreases |actions|
  {
    if actions == [] then 0
    else (if Idles(s, actions[0]) then 1 else 0) + IdleSteps(Next(s, actions[0]), actions[1..])
  }

  /** A run is as long as its empty polling makes it, and no longer. */
  lemma {:induction false} RunLength(s: State, actions: seq<Action>)
    requires Invariant(s) && Possible(s, actions)
    ensures |actions| + Rank(Run(s, actions)) <= Rank(s) + 2 * IdleSteps(s, actions)
    decreases |actions|
  {
    if actions != [] {
      StepKeepsInvariant(s, actions[0]);
      if !Idles(s, actions[0]) {
        StepLowersRank(s, actions[0]);
      }
      RunLength(Next(s, actions[0]), actions[1..]);
    }
  }

  /** The poller has been told to stop, or the caller has left. */
  ghost predicate Ending(s: State) {
    s.closeClosed || s.caller.Returned?
  }

  /** From then on nothing idles. */
  lemma {:induction false} EndingNeverIdles(s: State, actions: seq<Action>)
    requires Invariant(s) && Ending(s) && Possible(s, actions)
    ensures IdleSteps(s, actions) == 0
    decreases |actions|
  {
    if actions != [] {
      StepKeepsInvariant(s, actions[0]);
      EndingNeverIdles(Next(s, actions[0]), actions[1..]);
    }
  }

  /** Once the caller has signalled or returned, no run takes more than six steps,
      and any run that cannot be extended has both processes finished. */
  lemma EndingFinishes(expected: nat, actions: seq<Action>, rest: seq<Action>)
    requires Possible(Initial(expected), actions) && Ending(Run(Initial(expected), actions))
    requires Possible(Run(Initial(expected), actions), rest)
    ensures |rest| <= 6
    ensures var s := Run(Run(Initial(expected), actions), rest);
            (forall a :: Enabled(s, a) ==> a.Cancel?) ==> Finished(s)
  {
    RunKeepsInvariant(Initial(expected), actions);
    var start := Run(Initial(expected), actions);
    EndingNeverIdles(start, rest);
    RunLength(start, rest);
    RunAppend(Initial(expected), actions, rest);
    if !Finished(Run(start, rest)) {
      var a := NeverDeadlocks(expected, actions + rest);
      assert Enabled(Run(start, rest), a);
    }
  }

  predicate IsCallers(a: Action) {
    a.Receive? || a.ReceiveClosed? || a.ReceiveDone? || a.Check? || a.Confirm? || a.Signal? || a.Drain? || a.DrainClosed?
  }

  /** After a cancellation the caller is never blocked on its way to the end: it
      has a step of its own that brings it nearer, and the poller cannot take that
      step away or undo it. */
  lemma CancelledCallerMoves(expected: nat, actions: seq<Action>) returns (a: Action)
    requires Possible(Initial(expected), actions)
    requires var s := Run(Initial(expected), actions); s.cancelled && !Ending(s)
    ensures var s := Run(Initial(expected), actions);
            && Enabled(s, a) && IsCallers(a) && CallerRank(Next(s, a).caller) < CallerRank(s.caller)
            && forall b :: Enabled(s, b) && !IsCallers(b) ==> Enabled(Next(s, b), a) && Next(s, b).caller == s.caller
  {
    RunKeepsInvariant(Initial(expected), actions);
    var s := Run(Initial(expected), actions);
    match s.caller {
      case Selecting => a := ReceiveDone;
      case Checking(_) => a := Check;
      case Confirming(_) => a := Confirm;
      case Signalling => a := Signal;
    }
  }

  ghost function CallerSteps(actions: seq<Action>): nat {
    if actions == [] then 0 else (if IsCallers(actions[0]) then 1 else 0) + CallerSteps(actions[1..])
  }

  lemma StepLowersCallerRank(s: State, a: Action)
    requires Invariant(s) && Enabled(s, a)
    ensures CallerRank(Next(s, a).caller) + (if IsCallers(a) then 1 else 0) <= CallerRank(s.caller)
    ensures Ending(s) ==> Ending(Next(s, a))
  {
  }

  lemma {:induction false} CallerStepsAreFew(s: State, actions: seq<Action>)
    requires Invariant(s) && Possible(s, actions)
    ensures CallerRank(Run(s, actions).caller) + CallerSteps(actions) <= CallerRank(s.caller)
    decreases |actions|
  {
    if actions != [] {
      StepKeepsInvariant(s, actions[0]);
      StepLowersCallerRank(s, actions[0]);
      CallerStepsAreFew(Next(s, actions[0]), actions[1..]);
    }
  }

  /** From the cancellation on: as soon as the caller has signalled, or has taken
      the at most three steps that its rank leaves it, six steps finish both. What
      remains for the scheduler is to let the caller take the steps that
      `CancelledCallerMoves` shows it can never be kept from. */
  lemma CancellationFinishes(expected: nat, actions: seq<Action>, middle: seq<Action>, rest: seq<Action>)
    requires Possible(Initial(expected), actions) && Run(Initial(expected), actions).cancelled
    requires Possible(Run(Initial(expected), actions), middle)
    requires var start := Run(Initial(expected), actions);
             CallerSteps(middle) >= CallerRank(start.caller) || Ending(Run(start, middle))
    requires Possible(Run(Run(Initial(expected), actions), middle), rest)
    ensures |rest| <= 6
    ensures var s := Run(Run(Run(Initial(expected), actions), middle), rest);
            (forall a :: Enabled(s, a) ==> a.Cancel?) ==> Finished(s)
  {
    RunKeepsInvariant(Initial(expected), actions);
    CallerStepsAreFew(Run(Initial(expected), actions), middle);
    RunAppend(Initial(expected), actions, middle);
    EndingFinishes(expected, actions + middle, rest);
  }

  lemma {:induction false} RunAppend(s: State, actions: seq<Action>, rest: seq<Action>)
    requires Possible(s, actions) && Possible(Run(s, actions), rest)
    ensures Possible(s, actions + rest)
    ensures Run(s, actions + rest) == Run(Run(s, actions), rest)
    decreases |actions|
  {
    if actions == [] {
      assert actions + rest == rest;
    } else {
      RunAppend(Next(s, actions[0]), actions[1..], rest);
      assert (actions + rest)[1..] == actions[1..] + rest;
    }
  }
}
