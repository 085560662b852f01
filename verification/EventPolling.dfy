/** The handle shared by `produce` and the poller: the table of per-message state
    updated in place, and the loop that polls events and hands them out. */
module EventPolling {
  import opened Delivery
  import opened Wrappers
  import opened Sequences

  /** A delivery report as C delivers it; `word` is the id passed to C, or 0. */
  datatype DeliveryReport = DeliveryReport(word: nat, message: nat)

  datatype Event = Reports(reports: seq<DeliveryReport>) | Plain(payload: nat) | Ignored

  datatype Sent = SentReport(to: Destination, message: nat, token: Option<Token>) | SentEvent(payload: nat)

  // ------------------------------------------------------------ specification

  function Found(t: Table, r: DeliveryReport): Option<MessageState> {
    if r.word != 0 && Signed(r.word) != 0 && Signed(r.word) in t then Some(t[Signed(r.word)]) else None
  }

  function Taken(t: Table, r: DeliveryReport): Table {
    if Found(t, r).Some? then t - {Signed(r.word)} else t
  }

  predicate HasChannel(t: Table, r: DeliveryReport) {
    Found(t, r).Some? && Found(t, r).value.channel.Some?
  }

  function Handed(t: Table, r: DeliveryReport): Sent {
    SentReport(if HasChannel(t, r) then ToChannel(Found(t, r).value.channel.value) else ToEvents, r.message,
               if Found(t, r).Some? then Found(t, r).value.token else None)
  }

  datatype Outcome = Outcome(table: Table, sent: seq<Sent>, stopped: bool)

  /** Handing out the reports of one event. Without forwarding, a report that has
      no channel of its own ends the poll. */
  function HandOut(t: Table, forward: bool, reports: seq<DeliveryReport>): Outcome {
    if reports == [] then Outcome(t, [], false)
    else if !forward && !HasChannel(t, reports[0]) then Outcome(Taken(t, reports[0]), [], true)
    else
      var rest := HandOut(Taken(t, reports[0]), forward, reports[1..]);
      rest.(sent := [Handed(t, reports[0])] + rest.sent)
  }

  function Handled(t: Table, forward: bool, e: Event): Outcome {
    match e
    case Reports(reports) => HandOut(t, forward, reports)
    case Plain(payload) => Outcome(t, [SentEvent(payload)], false)
    case Ignored => Outcome(t, [], false)
  }

  /** How many of the queued events one poll takes. */
  function Used(t: Table, forward: bool, queue: seq<Event>, limit: nat): (n: nat)
    ensures n <= limit && n <= |queue|
    ensures limit != 0 && queue != [] ==> 0 < n
    decreases limit
  {
    if limit == 0 || queue == [] then 0
    else
      var first := Handled(t, forward, queue[0]);
      if first.stopped then 1 else 1 + Used(first.table, forward, queue[1..], limit - 1)
  }

  function Polled(t: Table, forward: bool, queue: seq<Event>, limit: nat): Outcome
    decreases limit
  {
    if limit == 0 || queue == [] then Outcome(t, [], false)
    else
      var first := Handled(t, forward, queue[0]);
      if first.stopped then first
      else
        var rest := Polled(first.table, forward, queue[1..], limit - 1);
        rest.(sent := first.sent + rest.sent)
  }

  /** Reports of different messages carry different ids. */
  ghost predicate DistinctWords(reports: seq<DeliveryReport>) {
    forall i, j :: 0 <= i < j < |reports| && Signed(reports[i].word) == Signed(reports[j].word) ==> reports[i].word == 0 || reports[j].word == 0
  }

  lemma TakenLeavesOthers(t: Table, r: DeliveryReport, other: DeliveryReport)
    requires Signed(r.word) == Signed(other.word) ==> r.word == 0 || other.word == 0
    ensures Found(Taken(t, r), other) == Found(t, other)
  {
  }

  /** The reports of one event are handed out in order, each as the table had it
      at the start, up to the first one that stops the poll. */
  lemma {:induction false} HandOutPrefix(t: Table, forward: bool, reports: seq<DeliveryReport>)
    requires DistinctWords(reports)
    ensures var out := HandOut(t, forward, reports);
            && |out.sent| <= |reports|
            && (forall i :: 0 <= i < |out.sent| ==> out.sent[i] == Handed(t, reports[i]) && (forward || HasChannel(t, reports[i])))
            && (out.stopped <==> |out.sent| < |reports|)
            && (out.stopped ==> !forward && !HasChannel(t, reports[|out.sent|]))
  {
    if reports != [] && (forward || HasChannel(t, reports[0])) {
      var t1 := Taken(t, reports[0]);
      HandOutPrefix(t1, forward, reports[1..]);
      forall i | 0 <= i < |reports| - 1
        ensures Handed(t1, reports[1..][i]) == Handed(t, reports[i + 1])
        ensures HasChannel(t1, reports[1..][i]) == HasChannel(t, reports[i + 1])
      {
        TakenLeavesOthers(t, reports[0], reports[i + 1]);
      }
      var out, rest := HandOut(t, forward, reports), HandOut(t1, forward, reports[1..]);
      forall i | 0 <= i < |out.sent| ensures out.sent[i] == Handed(t, reports[i]) && (forward || HasChannel(t, reports[i])) {
        assert i > 0 ==> out.sent[i] == rest.sent[i - 1] && reports[1..][i - 1] == reports[i];
      }
    }
  }

  /** Every report with a channel of its own is sent exactly when reports are
      forwarded or none without a channel comes before one that has it. */
  lemma AllChannelsServed(t: Table, forward: bool, reports: seq<DeliveryReport>)
    requires DistinctWords(reports)
    ensures var k := |HandOut(t, forward, reports).sent|;
            (forall i :: 0 <= i < |reports| && HasChannel(t, reports[i]) ==> i < k) <==>
            (forward || !exists i, j :: 0 <= i < j < |reports| && !HasChannel(t, reports[i]) && HasChannel(t, reports[j]))
  {
    HandOutPrefix(t, forward, reports);
  }

  /** A report of a pending call is handed out as its call was promised. */
  lemma HandedAsPromised(s: State, i: nat, r: DeliveryReport)
    requires Invariant(s) && i < |s.calls| && Pending(s.calls[i])
    requires r.word == Counter(s.calls[i].put)
    ensures var p := Promised(s.calls[i].state); Handed(s.table, r) == SentReport(p.to, r.message, p.token)
  {
    assert CallOk(s, i);
    if Stateful(s.calls[i].state) {
      SameId(s.calls[i].put, s.calls[i].put);
      CounterStep(s.calls[i].put - 1);
    }
  }

  /** The steps in which the calls `picks` are reported, in order. */
  function ReportEach(picks: seq<nat>): seq<Action> {
    if picks == [] then [] else [Report(picks[0])] + ReportEach(picks[1..])
  }

  /** The reports are those of the unreported calls `picks`, each of them once. */
  ghost predicate ReportsOf(s: State, picks: seq<nat>, reports: seq<DeliveryReport>) {
    && |picks| == |reports| && Distinct(picks) && PicksCalls(s, picks)
    && (forall i {:trigger ReportOf(s, picks[i], reports[i])} :: 0 <= i < |picks| ==> ReportOf(s, picks[i], reports[i]))
  }

  ghost predicate PicksCalls(s: State, picks: seq<nat>) {
    forall i :: 0 <= i < |picks| ==> picks[i] < |s.calls|
  }

  ghost predicate ReportOf(s: State, i: nat, r: DeliveryReport) {
    i < |s.calls| && s.calls[i].status.Outstanding? && r.word == Counter(s.calls[i].put)
  }

  lemma ReportStep(s: State, i: nat, r: DeliveryReport)
    requires Invariant(s) && ReportOf(s, i, r)
    ensures Taken(s.table, r) == Next(s, Report(i)).table
  {
    assert CallOk(s, i);
    if Stateful(s.calls[i].state) {
      SameId(s.calls[i].put, s.calls[i].put);
      CounterStep(s.calls[i].put - 1);
    }
  }

  /** What the calls `picks` were promised, one report each. */
  ghost function Delivered(s: State, picks: seq<nat>, reports: seq<DeliveryReport>): seq<Sent>
    requires |picks| == |reports| && PicksCalls(s, picks)
  {
    if picks == [] then []
    else
      var p := Promised(s.calls[picks[0]].state);
      [SentReport(p.to, reports[0].message, p.token)] + Delivered(s, picks[1..], reports[1..])
  }

  lemma {:induction false} DeliveredAfter(s: State, t: State, picks: seq<nat>, reports: seq<DeliveryReport>)
    requires |picks| == |reports| && PicksCalls(s, picks) && |t.calls| == |s.calls|
    requires forall i :: 0 <= i < |s.calls| ==> t.calls[i].state == s.calls[i].state
    ensures PicksCalls(t, picks) && Delivered(t, picks, reports) == Delivered(s, picks, reports)
  {
    if picks != [] {
      DeliveredAfter(s, t, picks[1..], reports[1..]);
    }
  }

  lemma RestOfReports(s: State, picks: seq<nat>, reports: seq<DeliveryReport>)
    requires ReportsOf(s, picks, reports) && picks != []
    ensures ReportOf(s, picks[0], reports[0])
    ensures ReportsOf(Next(s, Report(picks[0])), picks[1..], reports[1..])
  {
    assert ReportOf(s, picks[0], reports[0]);
    var n := Next(s, Report(picks[0]));
    forall i | 0 <= i < |picks| - 1 ensures ReportOf(n, picks[1..][i], reports[1..][i]) {
      assert ReportOf(s, picks[i + 1], reports[i + 1]);
      assert picks[i + 1] != picks[0];
    }
  }

  /** The poll loop refines the transition system: with forwarding, handing out
      an event's reports takes the very steps that report those calls, and sends
      each report as its own call was promised. */
  lemma {:induction false} HandOutRefines(s: State, picks: seq<nat>, reports: seq<DeliveryReport>)
    requires Invariant(s) && ReportsOf(s, picks, reports)
    ensures Possible(s, ReportEach(picks)) && Invariant(Run(s, ReportEach(picks)))
    ensures HandOut(s.table, true, reports).table == Run(s, ReportEach(picks)).table
    ensures HandOut(s.table, true, reports).sent == Delivered(s, picks, reports)
    decreases |picks|
  {
    if picks != [] {
      RestOfReports(s, picks, reports);
      var n := Next(s, Report(picks[0]));
      HandedAsPromised(s, picks[0], reports[0]);
      ReportStep(s, picks[0], reports[0]);
      SettleKeepsInvariant(s, Report(picks[0]));
      HandOutRefines(n, picks[1..], reports[1..]);
      DeliveredAfter(s, n, picks[1..], reports[1..]);
      assert ReportEach(picks)[1..] == ReportEach(picks[1..]);
    }
  }

  /** A run that produces two messages, only the second with a channel. */
  function TwoProduced(channel: Channel): (s: State) {
    var begun := Next(Next(Initial, Begin(MessageState(None, None))), Begin(MessageState(Some(channel), None)));
    Next(Next(begun, Accept(0)), Accept(1))
  }

  /** One event then brings both reports: without forwarding the first ends the
      poll and the channel is never served. */
  lemma ChannelNotServed(channel: Channel, a: nat, b: nat)
    ensures var s, reports := TwoProduced(channel), [DeliveryReport(0, a), DeliveryReport(Counter(1), b)];
            && ReportOf(s, 0, reports[0]) && ReportOf(s, 1, reports[1])
            && Promised(s.calls[1].state) == Reported(ToChannel(channel), None)
            && HandOut(s.table, false, reports) == Outcome(s.table, [], true)
  {
    CounterStep(0);
    SameId(1, 1);
  }

  function ReportsIn(e: Event): seq<DeliveryReport> {
    if e.Reports? then e.reports else []
  }

  /** `plan` names, event by event, the unreported calls whose reports the first
      `limit` events of the queue bring. */
  ghost predicate Plan(s: State, queue: seq<Event>, plan: seq<seq<nat>>, limit: nat)
    decreases limit
  {
    if limit == 0 || queue == [] then plan == []
    else
      && plan != [] && ReportsOf(s, plan[0], ReportsIn(queue[0])) && Possible(s, ReportEach(plan[0]))
      && Plan(Run(s, ReportEach(plan[0])), queue[1..], plan[1..], limit - 1)
  }

  function ReportAll(plan: seq<seq<nat>>): seq<Action> {
    if plan == [] then [] else ReportEach(plan[0]) + ReportAll(plan[1..])
  }

  ghost function OwedFor(s: State, e: Event, picks: seq<nat>): seq<Sent>
    requires |picks| == |ReportsIn(e)| && PicksCalls(s, picks)
  {
    match e
    case Reports(reports) => Delivered(s, picks, reports)
    case Plain(payload) => [SentEvent(payload)]
    case Ignored => []
  }

  /** What has to be sent: every call's report as promised, every other event. */
  ghost function Owed(s: State, queue: seq<Event>, plan: seq<seq<nat>>, limit: nat): seq<Sent>
    requires Plan(s, queue, plan, limit)
    decreases limit
  {
    if limit == 0 || queue == [] then []
    else OwedFor(s, queue[0], plan[0]) + Owed(Run(s, ReportEach(plan[0])), queue[1..], plan[1..], limit - 1)
  }

  lemma EventRefines(s: State, e: Event, picks: seq<nat>)
    requires Invariant(s) && ReportsOf(s, picks, ReportsIn(e))
    ensures Possible(s, ReportEach(picks)) && Invariant(Run(s, ReportEach(picks)))
    ensures var out := Handled(s.table, true, e);
            && !out.stopped && out.table == Run(s, ReportEach(picks)).table
            && out.sent == OwedFor(s, e, picks)
  {
    HandOutRefines(s, picks, ReportsIn(e));
    ForwardedReports(s.table, ReportsIn(e));
  }

  lemma PolledStep(t: Table, queue: seq<Event>, limit: nat)
    requires limit != 0 && queue != [] && !Handled(t, true, queue[0]).stopped
    ensures var first := Handled(t, true, queue[0]);
            var rest := Polled(first.table, true, queue[1..], limit - 1);
            Polled(t, true, queue, limit) == rest.(sent := first.sent + rest.sent)
  {
  }

  lemma {:induction false} PolledTakesSteps(s: State, queue: seq<Event>, plan: seq<seq<nat>>, limit: nat)
    requires Invariant(s) && Plan(s, queue, plan, limit)
    ensures Possible(s, ReportAll(plan)) && Invariant(Run(s, ReportAll(plan)))
    ensures Polled(s.table, true, queue, limit).table == Run(s, ReportAll(plan)).table
    decreases limit
  {
    if limit != 0 && queue != [] {
      var first, rest := ReportEach(plan[0]), ReportAll(plan[1..]);
      EventRefines(s, queue[0], plan[0]);
      PolledStep(s.table, queue, limit);
      PolledTakesSteps(Run(s, first), queue[1..], plan[1..], limit - 1);
      assert ReportAll(plan) == first + rest;
      RunAppend(s, first, rest);
    }
  }

  lemma {:induction false} PolledSendsOwed(s: State, queue: seq<Event>, plan: seq<seq<nat>>, limit: nat)
    requires Invariant(s) && Plan(s, queue, plan, limit)
    ensures Polled(s.table, true, queue, limit).sent == Owed(s, queue, plan, limit)
    decreases limit
  {
    if limit != 0 && queue != [] {
      EventRefines(s, queue[0], plan[0]);
      PolledSendsOwed(Run(s, ReportEach(plan[0])), queue[1..], plan[1..], limit - 1);
      PolledStep(s.table, queue, limit);
    }
  }

  /** The whole poll refines the transition system: with forwarding it takes the
      very steps that report the calls its events are about, and sends what is
      owed for them. */
  lemma PolledRefines(s: State, queue: seq<Event>, plan: seq<seq<nat>>, limit: nat)
    requires Invariant(s) && Plan(s, queue, plan, limit)
    ensures Possible(s, ReportAll(plan)) && Invariant(Run(s, ReportAll(plan)))
    ensures Polled(s.table, true, queue, limit).table == Run(s, ReportAll(plan)).table
    ensures Polled(s.table, true, queue, limit).sent == Owed(s, queue, plan, limit)
  {
    PolledTakesSteps(s, queue, plan, limit);
    PolledSendsOwed(s, queue, plan, limit);
  }

  /** A poll takes fewer events than it may only if one of them stopped it. */
  lemma {:induction false} ShortOnlyIfStopped(t: Table, forward: bool, queue: seq<Event>, limit: nat)
    ensures Used(t, forward, queue, limit) == (if |queue| < limit then |queue| else limit) || Polled(t, forward, queue, limit).stopped
    decreases limit
  {
    if limit != 0 && queue != [] && !Handled(t, forward, queue[0]).stopped {
      ShortOnlyIfStopped(Handled(t, forward, queue[0]).table, forward, queue[1..], limit - 1);
    }
  }

  /** With forwarding every poll takes as many events as it may. */
  lemma {:induction false} ForwardingNeverStops(t: Table, queue: seq<Event>, limit: nat)
    ensures Used(t, true, queue, limit) == if |queue| < limit then |queue| else limit
    decreases limit
  {
    if limit != 0 && queue != [] {
      if queue[0].Reports? {
        ForwardedReports(t, queue[0].reports);
      }
      ForwardingNeverStops(Handled(t, true, queue[0]).table, queue[1..], limit - 1);
    }
  }

  lemma {:induction false} ForwardedReports(t: Table, reports: seq<DeliveryReport>)
    ensures !HandOut(t, true, reports).stopped && |HandOut(t, true, reports).sent| == |reports|
  {
    if reports != [] {
      ForwardedReports(Taken(t, reports[0]), reports[1..]);
    }
  }

  // ----------------------------------------------------------- repeated polling

  /** Polling again and again until the queue is empty. */
  function PolledAll(t: Table, forward: bool, queue: seq<Event>, limit: nat): Outcome
    requires 0 < limit
    decreases |queue|
  {
    if queue == [] then Outcome(t, [], false)
    else
      var once, n := Polled(t, forward, queue, limit), Used(t, forward, queue, limit);
      var rest := PolledAll(once.table, forward, queue[n..], limit);
      rest.(sent := once.sent + rest.sent)
  }

  /** Every event in turn, whether or not the one before it stopped a poll. */
  function EachHandled(t: Table, forward: bool, queue: seq<Event>): Outcome
    decreases |queue|
  {
    if queue == [] then Outcome(t, [], false)
    else
      var first := Handled(t, forward, queue[0]);
      var rest := EachHandled(first.table, forward, queue[1..]);
      rest.(sent := first.sent + rest.sent)
  }

  lemma {:induction false} EachHandledConcat(t: Table, forward: bool, a: seq<Event>, b: seq<Event>)
    ensures var first := EachHandled(t, forward, a);
            var rest := EachHandled(first.table, forward, b);
            EachHandled(t, forward, a + b) == rest.(sent := first.sent + rest.sent)
    decreases |a|
  {
    if a == [] {
      assert a + b == b;
    } else {
      var first := Handled(t, forward, a[0]);
      EachHandledConcat(first.table, forward, a[1..], b);
      assert (a + b)[1..] == a[1..] + b;
      var middle := EachHandled(first.table, forward, a[1..]);
      Regroup(first.sent, middle.sent, EachHandled(middle.table, forward, b).sent);
    }
  }

  /** One poll handles a prefix of the queue. */
  lemma {:induction false} PolledIsPrefix(t: Table, forward: bool, queue: seq<Event>, limit: nat)
    ensures var out, each := Polled(t, forward, queue, limit), EachHandled(t, forward, queue[..Used(t, forward, queue, limit)]);
            out.table == each.table && out.sent == each.sent
    decreases limit
  {
    if limit != 0 && queue != [] {
      var first, n := Handled(t, forward, queue[0]), Used(t, forward, queue, limit);
      assert queue[..n][0] == queue[0];
      if first.stopped {
        assert queue[..n][1..] == [];
      } else {
        PolledIsPrefix(first.table, forward, queue[1..], limit - 1);
        assert queue[..n][1..] == queue[1..][..n - 1];
      }
    }
  }

  /** A poll that was ended early costs the later events nothing: they stay queued
      and are handled by the polls that follow, whatever their limit. */
  lemma {:induction false} PolledAllIsEach(t: Table, forward: bool, queue: seq<Event>, limit: nat)
    requires 0 < limit
    ensures PolledAll(t, forward, queue, limit) == EachHandled(t, forward, queue)
    decreases |queue|
  {
    if queue != [] {
      var n := Used(t, forward, queue, limit);
      PolledIsPrefix(t, forward, queue, limit);
      PolledAllIsEach(Polled(t, forward, queue, limit).table, forward, queue[n..], limit);
      EachHandledConcat(t, forward, queue[..n], queue[n..]);
      assert queue[..n] + queue[n..] == queue;
    }
  }

  function AllReports(queue: seq<Event>): seq<DeliveryReport> {
    if queue == [] then [] else ReportsIn(queue[0]) + AllReports(queue[1..])
  }

  /** What each event sends, as the table had it at the start. */
  function AllSent(t: Table, forward: bool, queue: seq<Event>): seq<Sent> {
    if queue == [] then [] else Handled(t, forward, queue[0]).sent + AllSent(t, forward, queue[1..])
  }

  /** The two tables have the same state for these reports. */
  ghost predicate SameFound(t: Table, u: Table, reports: seq<DeliveryReport>) {
    forall i {:trigger reports[i]} :: 0 <= i < |reports| ==> Found(t, reports[i]) == Found(u, reports[i])
  }

  lemma {:induction false} HandOutLeavesOthers(t: Table, forward: bool, reports: seq<DeliveryReport>, other: DeliveryReport)
    requires forall i :: 0 <= i < |reports| && Signed(reports[i].word) == Signed(other.word) ==> reports[i].word == 0 || other.word == 0
    ensures Found(HandOut(t, forward, reports).table, other) == Found(t, other)
  {
    if reports != [] {
      TakenLeavesOthers(t, reports[0], other);
      HandOutLeavesOthers(Taken(t, reports[0]), forward, reports[1..], other);
    }
  }

  lemma HandedAlike(t: Table, u: Table, r: DeliveryReport)
    requires Found(t, r) == Found(u, r)
    ensures HasChannel(t, r) == HasChannel(u, r) && Handed(t, r) == Handed(u, r)
  {
  }

  lemma {:induction false} HandOutAlike(t: Table, u: Table, forward: bool, reports: seq<DeliveryReport>)
    requires SameFound(t, u, reports) && DistinctWords(reports)
    ensures HandOut(t, forward, reports).sent == HandOut(u, forward, reports).sent
  {
    if reports != [] {
      HandedAlike(t, u, reports[0]);
      var t1, u1 := Taken(t, reports[0]), Taken(u, reports[0]);
      forall i | 0 <= i < |reports| - 1 ensures Found(t1, reports[1..][i]) == Found(u1, reports[1..][i]) {
        TakenLeavesOthers(t, reports[0], reports[i + 1]);
        TakenLeavesOthers(u, reports[0], reports[i + 1]);
      }
      HandOutAlike(t1, u1, forward, reports[1..]);
    }
  }

  lemma SplitReports(t: Table, u: Table, first: seq<DeliveryReport>, rest: seq<DeliveryReport>)
    requires SameFound(t, u, first + rest) && DistinctWords(first + rest)
    ensures SameFound(t, u, first) && SameFound(t, u, rest) && DistinctWords(first) && DistinctWords(rest)
    ensures forall i, j :: 0 <= i < |first| && 0 <= j < |rest| && Signed(first[i].word) == Signed(rest[j].word) ==> first[i].word == 0 || rest[j].word == 0
  {
    var all := first + rest;
    assert forall i :: 0 <= i < |first| ==> all[i] == first[i];
    assert forall j :: 0 <= j < |rest| ==> all[|first| + j] == rest[j];
  }

  lemma {:induction false} EachSendsAsAtStart(t: Table, u: Table, forward: bool, queue: seq<Event>)
    requires SameFound(t, u, AllReports(queue)) && DistinctWords(AllReports(queue))
    ensures EachHandled(t, forward, queue).sent == AllSent(u, forward, queue)
    decreases |queue|
  {
    if queue != [] {
      var reports, rest := ReportsIn(queue[0]), AllReports(queue[1..]);
      SplitReports(t, u, reports, rest);
      HandOutAlike(t, u, forward, reports);
      var t1 := Handled(t, forward, queue[0]).table;
      forall j | 0 <= j < |rest| ensures Found(t1, rest[j]) == Found(u, rest[j]) {
        HandOutLeavesOthers(t, forward, reports, rest[j]);
      }
      EachSendsAsAtStart(t1, u, forward, queue[1..]);
    }
  }

  /** Over repeated polls each event sends exactly what it would alone, and within
      it a report with a channel is lost if and only if reports are not forwarded
      and an earlier report of its own event has no channel. */
  lemma ChannelsServedOverPolls(t: Table, forward: bool, queue: seq<Event>, limit: nat)
    requires 0 < limit && DistinctWords(AllReports(queue))
    ensures PolledAll(t, forward, queue, limit).sent == AllSent(t, forward, queue)
    ensures forall e, i {:trigger ReportsIn(queue[e])[i]} :: 0 <= e < |queue| && 0 <= i < |ReportsIn(queue[e])| && HasChannel(t, ReportsIn(queue[e])[i]) ==>
              var sent := Handled(t, forward, queue[e]).sent;
              if !forward && exists j :: 0 <= j < i && !HasChannel(t, ReportsIn(queue[e])[j]) then |sent| <= i
              else i < |sent| && sent[i] == Handed(t, ReportsIn(queue[e])[i])
  {
    PolledAllIsEach(t, forward, queue, limit);
    EachSendsAsAtStart(t, t, forward, queue);
    forall e, i | 0 <= e < |queue| && 0 <= i < |ReportsIn(queue[e])| && HasChannel(t, ReportsIn(queue[e])[i])
      ensures var sent := Handled(t, forward, queue[e]).sent;
              if !forward && exists j :: 0 <= j < i && !HasChannel(t, ReportsIn(queue[e])[j]) then |sent| <= i
              else i < |sent| && sent[i] == Handed(t, ReportsIn(queue[e])[i])
    {
      DistinctInEvent(queue, e);
      HandOutPrefix(t, forward, ReportsIn(queue[e]));
    }
  }

  lemma {:induction false} DistinctInEvent(queue: seq<Event>, e: nat)
    requires e < |queue| && DistinctWords(AllReports(queue))
    ensures DistinctWords(ReportsIn(queue[e]))
  {
    SplitReports(map[], map[], ReportsIn(queue[0]), AllReports(queue[1..]));
    if e > 0 {
      DistinctInEvent(queue[1..], e - 1);
    }
  }

  // --------------------------------------------------------------- the handle

  class Handle {
    const forward: bool
    var cgoidNext: nat
    var cgomap: Table
    var queue: seq<Event>
    var polled: seq<Event>
    var sent: seq<Sent>
    var destroyed: seq<Event>

    constructor (forward: bool)
      ensures this.forward == forward && cgoidNext == 0 && cgomap == map[] && queue == [] && polled == [] && sent == [] && destroyed == []
    {
      this.forward := forward;
      cgoidNext, cgomap, queue, polled, sent, destroyed := 0, map[], [], [], [], [];
    }

    method CgoPut(m: MessageState) returns (id: int)
      requires cgoidNext < WORD
      modifies this`cgoidNext, this`cgomap
      ensures cgoidNext == Bumped(old(cgoidNext)) && 0 < cgoidNext < WORD
      ensures id == Signed(cgoidNext) != 0 && cgomap == old(cgomap)[id := m]
    {
      cgoidNext := (cgoidNext + 1) % WORD;
      if cgoidNext == 0 {
        cgoidNext := (cgoidNext + 1) % WORD;
      }
      id := Signed(cgoidNext);
      cgomap := cgomap[id := m];
    }

    method CgoGet(id: int) returns (m: Option<MessageState>)
      modifies this`cgomap
      ensures m == if id != 0 && id in old(cgomap) then Some(old(cgomap)[id]) else None
      ensures cgomap == if m.Some? then old(cgomap) - {id} else old(cgomap)
    {
      if id == 0 || id !in cgomap {
        return None;
      }
      m := Some(cgomap[id]);
      cgomap := cgomap - {id};
    }

    /** `produce` up to its return; `accepted` is what C answers. */
    method Produce(m: MessageState, accepted: bool) returns (id: int)
      requires cgoidNext < WORD
      modifies this`cgoidNext, this`cgomap
      ensures cgoidNext < WORD
      ensures Stateful(m) ==> cgoidNext == Bumped(old(cgoidNext)) && id == Signed(cgoidNext)
      ensures !Stateful(m) ==> cgoidNext == old(cgoidNext) && id == 0
      ensures cgomap == if !Stateful(m) then old(cgomap) else if accepted then old(cgomap)[id := m] else old(cgomap) - {id}
    {
      id := 0;
      if m.channel.Some? || m.token.Some? {
        id := CgoPut(m);
      }
      if !accepted && id != 0 {
        var dropped := CgoGet(id);
      }
    }

    method HandOutReports(reports: seq<DeliveryReport>) returns (stopped: bool)
      modifies this`cgomap, this`sent
      ensures var out := HandOut(old(cgomap), forward, reports);
              cgomap == out.table && sent == old(sent) + out.sent && stopped == out.stopped
    {
      ghost var goal := HandGoal(cgomap, forward, reports, sent);
      for i := 0 to |reports|
        invariant goal == HandGoal(cgomap, forward, reports[i..], sent)
      {
        HandGoalStep(cgomap, forward, reports[i..], sent);
        ghost var table := cgomap;
        var to: Option<Destination> := None;
        var token: Option<Token> := None;
        if reports[i].word != 0 {
          var m := CgoGet(Signed(reports[i].word));
          if m.Some? {
            if m.value.channel.Some? {
              to := Some(ToChannel(m.value.channel.value));
            }
            token := m.value.token;
          }
        }
        if to.None? && forward {
          to := Some(ToEvents);
        }
        if to.None? {
          return true;
        }
        sent := sent + [SentReport(to.value, reports[i].message, token)];
        assert reports[i..][1..] == reports[i + 1..];
      }
      return false;
    }

    method HandleEvent(event: Event) returns (stopped: bool)
      modifies this`cgomap, this`sent
      ensures var out := Handled(old(cgomap), forward, event);
              cgomap == out.table && sent == old(sent) + out.sent && stopped == out.stopped
    {
      match event
      case Reports(reports) =>
        stopped := HandOutReports(reports);
      case Plain(payload) =>
        sent := sent + [SentEvent(payload)];
        stopped := false;
      case Ignored =>
        stopped := false;
    }

    /** Destroys the event of the previous poll, then polls the next one. */
    method PollQueue(previous: Option<Event>) returns (event: Option<Event>)
      modifies this`queue, this`polled, this`destroyed
      ensures destroyed == old(destroyed) + Held(previous)
      ensures if old(queue) == [] then event.None? && queue == [] && polled == old(polled)
              else event == Some(old(queue)[0]) && queue == old(queue)[1..] && polled == old(polled) + [event.value]
    {
      if previous.Some? {
        destroyed := destroyed + [previous.value];
      }
      if queue == [] {
        return None;
      }
      event := Some(queue[0]);
      polled := polled + [queue[0]];
      queue := queue[1..];
    }

    /** Polls at most `limit` events onto the Events channel. Every event that is
        taken off the queue is destroyed, once and in order. */
    method EventPoll(limit: nat)
      requires destroyed == polled
      modifies this`cgomap, this`sent, this`queue, this`polled, this`destroyed
      ensures var out := Polled(old(cgomap), forward, old(queue), limit);
              cgomap == out.table && sent == old(sent) + out.sent
      ensures polled + queue == old(polled) + old(queue)
      ensures |polled| == |old(polled)| + Used(old(cgomap), forward, old(queue), limit)
      ensures destroyed == polled
    {
      var previous: Option<Event> := None;
      ghost var goal := Goal(cgomap, forward, queue, limit, sent, |polled|);
      var count := 0;
      while count < limit
        invariant 0 <= count <= limit
        invariant polled + queue == old(polled) + old(queue)
        invariant goal == Goal(cgomap, forward, queue, limit - count, sent, |polled|)
        invariant destroyed + Held(previous) == polled
        decreases limit - count
      {
        ghost var before := (polled, queue);
        if queue != [] {
          GoalStep(cgomap, forward, queue, limit - count, sent, |polled|);
          assert before.0 + before.1 == before.0 + [before.1[0]] + before.1[1..];
        }
        previous := PollQueue(previous);
        if previous.None? {
          break;
        }
        var stopped := HandleEvent(previous.value);
        if stopped {
          break;
        }
        count := count + 1;
      }
      if previous.Some? {
        destroyed := destroyed + [previous.value];
      }
    }

    /** The poller without new arrivals: it polls until the queue is empty. */
    method PollUntilEmpty(limit: nat)
      requires destroyed == polled && 0 < limit
      modifies this`cgomap, this`sent, this`queue, this`polled, this`destroyed
      ensures var out := PolledAll(old(cgomap), forward, old(queue), limit);
              cgomap == out.table && sent == old(sent) + out.sent
      ensures queue == [] && destroyed == polled == old(polled) + old(queue)
    {
      ghost var goal := AllGoal(cgomap, forward, queue, limit, sent);
      while queue != []
        invariant destroyed == polled && polled + queue == old(polled) + old(queue)
        invariant goal == AllGoal(cgomap, forward, queue, limit, sent)
        decreases |queue|
      {
        ghost var before, done := queue, polled;
        AllGoalStep(cgomap, forward, queue, limit, sent);
        ghost var n := Used(cgomap, forward, queue, limit);
        EventPoll(limit);
        RestOfQueue(done, before, polled, queue, n);
      }
    }
  }

  /** Where repeated polls that have sent `sent` will end up. */
  function AllGoal(t: Table, forward: bool, queue: seq<Event>, limit: nat, sent: seq<Sent>): (Table, seq<Sent>)
    requires 0 < limit
  {
    (PolledAll(t, forward, queue, limit).table, sent + PolledAll(t, forward, queue, limit).sent)
  }

  lemma AllGoalStep(t: Table, forward: bool, queue: seq<Event>, limit: nat, sent: seq<Sent>)
    requires 0 < limit && queue != []
    ensures var once, n := Polled(t, forward, queue, limit), Used(t, forward, queue, limit);
            AllGoal(t, forward, queue, limit, sent) == AllGoal(once.table, forward, queue[n..], limit, sent + once.sent)
  {
    var once, n := Polled(t, forward, queue, limit), Used(t, forward, queue, limit);
    Regroup(sent, once.sent, PolledAll(once.table, forward, queue[n..], limit).sent);
  }

  lemma RestOfQueue<T>(done: seq<T>, before: seq<T>, polled: seq<T>, queue: seq<T>, n: nat)
    requires polled + queue == done + before && |polled| == |done| + n && n <= |before|
    ensures queue == before[n..]
  {
    assert queue == (polled + queue)[|polled|..];
    assert before[n..] == (done + before)[|done| + n..];
  }

  function HandGoal(t: Table, forward: bool, reports: seq<DeliveryReport>, sent: seq<Sent>): Outcome {
    var out := HandOut(t, forward, reports);
    out.(sent := sent + out.sent)
  }

  lemma HandGoalStep(t: Table, forward: bool, reports: seq<DeliveryReport>, sent: seq<Sent>)
    requires reports != []
    ensures HandGoal(t, forward, reports, sent) ==
            if !forward && !HasChannel(t, reports[0]) then Outcome(Taken(t, reports[0]), sent, true)
            else HandGoal(Taken(t, reports[0]), forward, reports[1..], sent + [Handed(t, reports[0])])
  {
    var rest := HandOut(Taken(t, reports[0]), forward, reports[1..]);
    assert sent + ([Handed(t, reports[0])] + rest.sent) == (sent + [Handed(t, reports[0])]) + rest.sent;
    assert sent + [] == sent;
  }

  /** Where a poll that has sent `sent` and used `used` events will end up. */
  function Goal(t: Table, forward: bool, queue: seq<Event>, limit: nat, sent: seq<Sent>, used: nat): (Table, seq<Sent>, nat) {
    (Polled(t, forward, queue, limit).table, sent + Polled(t, forward, queue, limit).sent, used + Used(t, forward, queue, limit))
  }

  lemma GoalStep(t: Table, forward: bool, queue: seq<Event>, limit: nat, sent: seq<Sent>, used: nat)
    requires 0 < limit && queue != []
    ensures var first := Handled(t, forward, queue[0]);
            Goal(t, forward, queue, limit, sent, used) ==
            if first.stopped then (first.table, sent + first.sent, used + 1)
            else Goal(first.table, forward, queue[1..], limit - 1, sent + first.sent, used + 1)
  {
    var first := Handled(t, forward, queue[0]);
    if !first.stopped {
      var rest := Polled(first.table, forward, queue[1..], limit - 1);
      assert sent + (first.sent + rest.sent) == (sent + first.sent) + rest.sent;
    }
  }

  function Held(previous: Option<Event>): seq<Event> {
    if previous.Some? then [previous.value] else []
  }
}
