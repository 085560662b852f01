/** The transactional consume-process-produce loop: per input partition one
    transactional producer whose transaction carries the consumer offsets. */
module Transactions {
  import opened Intersections
  import opened Sequences
  import TrafficLight
  import opened Wrappers

  /** A committed transaction and the input range its offsets cover. */
  datatype Committed = Committed(from: nat, to: nat, input: seq<Record>)

  /** One input partition. `committed` is the group's committed offset and `next`
      the next offset to read. `position` is what the consumer reports: nothing
      until a message has been read since the last assignment or seek. `open` is
      the input of the open transaction, if there is a producer. `lights` are the
      in-memory states of the partition's intersections. */
  datatype Partition = Partition(
    log: seq<Record>,
    committed: Option<nat>,
    next: nat,
    position: Option<nat>,
    open: Option<seq<Record>>,
    history: seq<Committed>,
    lights: Lights)

  const NewPartition := Partition([], None, 0, None, None, [], NoLights)

  /** What the open transaction has read. */
  function Input(p: Partition): seq<Record> {
    if p.open.Some? then p.open.value else []
  }

  /** The committed offset, or the beginning when there is none. */
  function Base(p: Partition): nat {
    if p.committed.Some? then p.committed.value else 0
  }

  // --------------------------------------------------------------- log slices

  function End(log: seq<Record>): nat {
    if log == [] then 0 else log[|log| - 1].offset + 1
  }

  ghost predicate InOffsetOrder(log: seq<Record>) {
    forall i, j :: 0 <= i < j < |log| ==> log[i].offset < log[j].offset
  }

  /** The records with an offset from `from` up to but not including `to`. */
  function Slice(log: seq<Record>, from: nat, to: nat): seq<Record> {
    if log == [] then [] else Part(log[0], from, to) + Slice(log[1..], from, to)
  }

  function Part(r: Record, from: nat, to: nat): seq<Record> {
    if from <= r.offset < to then [r] else []
  }

  lemma {:induction false} EmptySlice(log: seq<Record>, from: nat, to: nat)
    requires forall i :: 0 <= i < |log| ==> !(from <= log[i].offset < to)
    ensures Slice(log, from, to) == []
  {
    if log != [] {
      EmptySlice(log[1..], from, to);
    }
  }

  /** A first record before the middle goes with the first half, another one with
      the second. */
  lemma SplitFirst(r: Record, first: seq<Record>, second: seq<Record>, from: nat, mid: nat, to: nat)
    requires from <= mid <= to && (mid <= r.offset ==> first == [])
    ensures Part(r, from, to) + (first + second) == (Part(r, from, mid) + first) + (Part(r, mid, to) + second)
  {
    if r.offset < mid {
      assert Part(r, mid, to) + second == second;
      Regroup(Part(r, from, mid), first, second);
    } else {
      assert Part(r, from, mid) + first == [];
    }
  }

  lemma {:induction false} SplitSlice(log: seq<Record>, from: nat, mid: nat, to: nat)
    requires InOffsetOrder(log) && from <= mid <= to
    ensures Slice(log, from, to) == Slice(log, from, mid) + Slice(log, mid, to)
  {
    if log != [] {
      SplitSlice(log[1..], from, mid, to);
      if mid <= log[0].offset {
        EmptySlice(log[1..], from, mid);
      }
      SplitFirst(log[0], Slice(log[1..], from, mid), Slice(log[1..], mid, to), from, mid, to);
    }
  }

  lemma {:induction false} SliceSnoc(log: seq<Record>, r: Record, from: nat, to: nat)
    ensures Slice(log + [r], from, to) == Slice(log, from, to) + Part(r, from, to)
  {
    if log == [] {
      assert log + [r] == [r];
      assert [r][1..] == [];
    } else {
      SliceSnoc(log[1..], r, from, to);
      assert (log + [r])[1..] == log[1..] + [r];
      Regroup(Part(log[0], from, to), Slice(log[1..], from, to), Part(r, from, to));
    }
  }

  lemma {:induction false} SliceOfOne(log: seq<Record>, i: nat, from: nat)
    requires InOffsetOrder(log) && i < |log| && from <= log[i].offset
    requires forall j :: 0 <= j < i ==> log[j].offset < from
    ensures Slice(log, from, log[i].offset + 1) == [log[i]]
  {
    if i == 0 {
      EmptySlice(log[1..], from, log[0].offset + 1);
    } else {
      assert log[1..][i - 1] == log[i];
      SliceOfOne(log[1..], i - 1, from);
    }
  }

  // -------------------------------------------------------------------- steps

  /** Another record is appended to the input partition; offsets may have gaps. */
  predicate CanArrive(p: Partition, r: Record) {
    End(p.log) <= r.offset
  }

  function Arrived(p: Partition, r: Record): Partition {
    p.(log := p.log + [r])
  }

  /** The consumer hands over the first record at or after the next offset. The
      elections of a tick are followed by its commit before anything else is read. */
  predicate CanConsume(p: Partition, i: nat) {
    && p.open.Some? && p.lights.elected == map[] && i < |p.log| && p.next <= p.log[i].offset
    && forall j :: 0 <= j < i ==> p.log[j].offset < p.next
  }

  function Consumed(p: Partition, i: nat): Partition
    requires CanConsume(p, i)
  {
    var r := p.log[i];
    p.(next := r.offset + 1, position := Some(r.offset + 1), open := Some(p.open.value + [r]), lights := AfterReading(p.lights, r))
  }

  /** A tick runs the elections of the partition's intersections. */
  ghost predicate CanRunElections(p: Partition, winners: map<string, TrafficLight.Road>) {
    p.open.Some? && p.lights.elected == map[] && CanElect(p.lights.states, winners)
  }

  function WithElections(p: Partition, winners: map<string, TrafficLight.Road>): Partition {
    p.(lights := AfterElections(p.lights, winners))
  }

  /** A new producer with an open transaction; reading starts where the group
      committed, or at the beginning. The intersection states stay. */
  function Assigned(p: Partition): Partition {
    p.(next := Base(p), position := None, open := Some([]), lights := AfterEnd(p.lights, Input(p), false))
  }

  /** The producer is destroyed, its transaction aborted, the states cleared. */
  function Revoked(p: Partition): Partition {
    p.(next := Base(p), position := None, open := None, lights := NoLights)
  }

  /** The broker commits the open transaction and the offsets sent with it. */
  function CommittedNow(p: Partition): Partition
    requires p.open.Some?
  {
    var to := if p.position.Some? then p.position.value else Base(p);
    p.(committed := if p.position.Some? then p.position else p.committed,
       history := p.history + [Committed(Base(p), to, p.open.value)],
       lights := AfterEnd(p.lights, p.open.value, true),
       open := None)
  }

  /** The transaction is aborted and the consumer sent back; the intersection
      states keep what they were updated with. */
  function Rewound(p: Partition): Partition {
    p.(open := None, next := Base(p), position := None, lights := AfterEnd(p.lights, Input(p), false))
  }

  function Begun(p: Partition): Partition {
    p.(open := Some([]))
  }

  /** How the calls of one commit turn out. When the process dies with a commit
      under way, the broker has decided it one way or the other. */
  datatype Outcome =
    | Succeeds
    | SendFails
    | CommitFails
    | Dies(committed: bool)

  /** What one commit leaves behind; a process that died has no producer. */
  function CommitDone(p: Partition, o: Outcome): Partition
    requires p.open.Some?
  {
    match o
    case Succeeds => Begun(CommittedNow(p))
    case SendFails => Begun(Rewound(p))
    case CommitFails => Begun(Rewound(p))
    case Dies(committed) => Revoked(if committed then CommittedNow(p) else p)
  }

  // ---------------------------------------------------------------- invariant

  /** The committed ranges follow one another from the beginning to the committed
      offset, and each transaction covers exactly the log in its range. */
  ghost predicate Chained(history: seq<Committed>, log: seq<Record>, end: nat) {
    if history == [] then end == 0
    else
      var last := history[|history| - 1];
      && last.from <= last.to == end
      && last.input == Slice(log, last.from, last.to)
      && Chained(history[..|history| - 1], log, last.from)
  }

  ghost predicate Ok(p: Partition) {
    && InOffsetOrder(p.log)
    && Base(p) <= p.next <= End(p.log)
    && Chained(p.history, p.log, Base(p))
    && (p.position.Some? ==> p.position.value == p.next)
    && (p.open.Some? ==> p.open.value == Slice(p.log, Base(p), p.next) && (p.position.None? ==> p.next == Base(p)))
  }

  lemma {:induction false} SliceBefore(log: seq<Record>, from: nat)
    ensures Slice(log, from, from) == []
  {
    EmptySlice(log, from, from);
  }

  lemma {:induction false} ArrivedKeepsChain(history: seq<Committed>, log: seq<Record>, end: nat, r: Record)
    requires Chained(history, log, end) && end <= r.offset
    ensures Chained(history, log + [r], end)
  {
    if history != [] {
      var last := history[|history| - 1];
      SliceSnoc(log, r, last.from, last.to);
      ArrivedKeepsChain(history[..|history| - 1], log, last.from, r);
    }
  }

  lemma ArrivedKeepsOk(p: Partition, r: Record)
    requires Ok(p) && CanArrive(p, r)
    ensures Ok(Arrived(p, r))
  {
    ArrivedKeepsChain(p.history, p.log, Base(p), r);
    SliceSnoc(p.log, r, Base(p), p.next);
  }

  lemma ConsumedKeepsOk(p: Partition, i: nat)
    requires Ok(p) && CanConsume(p, i)
    ensures Ok(Consumed(p, i))
  {
    SplitSlice(p.log, Base(p), p.next, p.log[i].offset + 1);
    SliceOfOne(p.log, i, p.next);
  }

  lemma RestartedKeepsOk(p: Partition)
    requires Ok(p)
    ensures Ok(Assigned(p)) && Ok(Revoked(p)) && Ok(Begun(Rewound(p)))
  {
    SliceBefore(p.log, Base(p));
  }

  lemma CommittedKeepsOk(p: Partition)
    requires Ok(p) && p.open.Some?
    ensures Ok(CommittedNow(p)) && Ok(Begun(CommittedNow(p)))
  {
    var q := CommittedNow(p);
    SliceBefore(p.log, Base(q));
    SliceBefore(p.log, Base(p));
    assert q.history[..|q.history| - 1] == p.history;
  }

  lemma CommitKeepsOk(p: Partition, o: Outcome)
    requires Ok(p) && p.open.Some?
    ensures Ok(CommitDone(p, o))
  {
    RestartedKeepsOk(p);
    CommittedKeepsOk(p);
    if o.Dies? {
      RestartedKeepsOk(if o.committed then CommittedNow(p) else p);
    }
  }

  /** Every commit that returns leaves an open empty transaction, and the next
      offset to read is the committed one or the beginning. */
  lemma CommitLeavesFreshTransaction(p: Partition, o: Outcome)
    requires Ok(p) && p.open.Some? && !o.Dies?
    ensures CommitDone(p, o).open == Some([])
    ensures CommitDone(p, o).next == Base(CommitDone(p, o))
    ensures o.Succeeds? ==> Base(CommitDone(p, o)) == p.next
    ensures !o.Succeeds? ==> CommitDone(p, o).committed == p.committed && CommitDone(p, o).history == p.history
  {
  }

  // --------------------------------------------------------------------- runs

  datatype Step =
    | Arrive(partition: int, record: Record)
    | Consume(partition: int, index: nat)
    | Elect(partition: int, winners: map<string, TrafficLight.Road>)
    | Commit(partition: int, outcome: Outcome)
    | Assign(partitions: set<int>)
    | Revoke

  type System = map<int, Partition>

  ghost predicate Enabled(s: System, step: Step) {
    match step
    case Arrive(k, r) => k in s && CanArrive(s[k], r)
    case Consume(k, i) => k in s && CanConsume(s[k], i)
    case Elect(k, winners) => k in s && CanRunElections(s[k], winners)
    case Commit(k, o) => k in s && s[k].open.Some?
    case Assign(ks) => true
    case Revoke => true
  }

  /** What a step does to one partition. A process that dies takes the producers
      of all its partitions with it. */
  ghost function NextAt(p: Partition, l: int, step: Step): Partition {
    match step
    case Arrive(k, r) => if l == k && CanArrive(p, r) then Arrived(p, r) else p
    case Consume(k, i) => if l == k && CanConsume(p, i) then Consumed(p, i) else p
    case Elect(k, winners) => if l == k && CanRunElections(p, winners) then WithElections(p, winners) else p
    case Commit(k, o) =>
      if l == k then (if p.open.Some? then CommitDone(p, o) else p)
      else if o.Dies? then Revoked(p)
      else p
    case Assign(ks) => if l in ks then Assigned(p) else p
    case Revoke => Revoked(p)
  }

  ghost function Next(s: System, step: Step): System
    requires Enabled(s, step)
  {
    map l | l in s :: NextAt(s[l], l, step)
  }

  ghost predicate AllOk(s: System) {
    forall k {:trigger Ok(s[k])} :: k in s ==> Ok(s[k])
  }

  lemma StepKeepsOneOk(p: Partition, l: int, step: Step)
    requires Ok(p)
    ensures Ok(NextAt(p, l, step))
  {
    match step
    case Arrive(k, r) => if l == k && CanArrive(p, r) { ArrivedKeepsOk(p, r); }
    case Consume(k, i) => if l == k && CanConsume(p, i) { ConsumedKeepsOk(p, i); }
    case Elect(k, winners) =>
    case Commit(k, o) => if l == k && p.open.Some? { CommitKeepsOk(p, o); } else { RestartedKeepsOk(p); }
    case Assign(ks) => RestartedKeepsOk(p);
    case Revoke => RestartedKeepsOk(p);
  }

  lemma StepKeepsOk(s: System, step: Step)
    requires AllOk(s) && Enabled(s, step)
    ensures AllOk(Next(s, step)) && Next(s, step).Keys == s.Keys
  {
    forall l | l in s ensures Ok(Next(s, step)[l]) {
      assert Ok(s[l]);
      StepKeepsOneOk(s[l], l, step);
    }
  }

  ghost predicate Possible(s: System, steps: seq<Step>)
    decreases |steps|
  {
    steps != [] ==> Enabled(s, steps[0]) && Possible(Next(s, steps[0]), steps[1..])
  }

  ghost function Run(s: System, steps: seq<Step>): System
    requires Possible(s, steps)
    decreases |steps|
  {
    if steps == [] then s else Run(Next(s, steps[0]), steps[1..])
  }

  lemma {:induction false} RunKeepsOk(s: System, steps: seq<Step>)
    requires AllOk(s) && Possible(s, steps)
    ensures AllOk(Run(s, steps)) && Run(s, steps).Keys == s.Keys
    decreases |steps|
  {
    if steps != [] {
      StepKeepsOk(s, steps[0]);
      RunKeepsOk(Next(s, steps[0]), steps[1..]);
    }
  }

  function Inputs(history: seq<Committed>): seq<Record> {
    if history == [] then [] else Inputs(history[..|history| - 1]) + history[|history| - 1].input
  }

  lemma {:induction false} ChainedCovers(history: seq<Committed>, log: seq<Record>, end: nat)
    requires InOffsetOrder(log) && Chained(history, log, end)
    ensures Inputs(history) == Slice(log, 0, end)
  {
    if history == [] {
      SliceBefore(log, 0);
    } else {
      var last := history[|history| - 1];
      ChainedCovers(history[..|history| - 1], log, last.from);
      SplitSlice(log, 0, last.from, end);
    }
  }

  /** The `i`-th transaction starts where the one before it ended, and its input
      is the log in its range. */
  ghost predicate RangeOk(history: seq<Committed>, log: seq<Record>, i: nat)
    requires i < |history|
  {
    && history[i].from == (if i == 0 then 0 else history[i - 1].to)
    && history[i].from <= history[i].to
    && history[i].input == Slice(log, history[i].from, history[i].to)
  }

  ghost predicate Contiguous(history: seq<Committed>, log: seq<Record>) {
    forall i {:trigger RangeOk(history, log, i)} :: 0 <= i < |history| ==> RangeOk(history, log, i)
  }

  lemma {:induction false} ChainedRanges(history: seq<Committed>, log: seq<Record>, end: nat)
    requires Chained(history, log, end)
    ensures Contiguous(history, log)
  {
    if history != [] {
      var before, last := history[..|history| - 1], history[|history| - 1];
      ChainedRanges(before, log, last.from);
      forall i | 0 <= i < |history| ensures RangeOk(history, log, i) {
        if i < |before| {
          assert RangeOk(before, log, i);
        }
      }
    }
  }

  /** Over every run with aborts, rewinds, rebalances and crashes: the committed
      transactions together read every record below the committed offset exactly
      once and in order, and nothing else. */
  lemma ExactlyOnce(partitions: set<int>, steps: seq<Step>, k: int)
    requires k in partitions
    requires Possible(map l | l in partitions :: NewPartition, steps)
    ensures k in Run(map l | l in partitions :: NewPartition, steps)
    ensures var p := Run(map l | l in partitions :: NewPartition, steps)[k];
            && Inputs(p.history) == Slice(p.log, 0, Base(p))
            && Contiguous(p.history, p.log)
  {
    var s := map l | l in partitions :: NewPartition;
    assert Ok(NewPartition);
    RunKeepsOk(s, steps);
    var p := Run(s, steps)[k];
    assert Ok(p);
    ChainedCovers(p.history, p.log, Base(p));
    ChainedRanges(p.history, p.log, Base(p));
  }

  // -------------------------------------------------- the intersection states

  ghost predicate Lit(p: Partition) {
    LightsOk(p.lights, Input(p))
  }

  lemma NewPartitionLit()
    ensures Lit(NewPartition)
  {
    ElectingNobody(map[]);
    forall name ensures TrafficLight.Ok(StateAt(NoLights.base, name)) {
      assert TrafficLight.Ok(TrafficLight.NewIntersection);
    }
    assert forall name :: Balanced(NoLights, [], name);
  }

  lemma RestartedKeepsLit(p: Partition)
    requires Lit(p)
    ensures Lit(Assigned(p)) && Lit(Revoked(p)) && Lit(Begun(Rewound(p)))
    ensures p.open.Some? ==> Lit(CommittedNow(p)) && Lit(Begun(CommittedNow(p)))
  {
    EndingKeepsLights(p.lights, Input(p), false);
    EndingKeepsLights(p.lights, Input(p), true);
    NewPartitionLit();
  }

  lemma CommitKeepsLit(p: Partition, o: Outcome)
    requires Lit(p) && p.open.Some?
    ensures Lit(CommitDone(p, o))
  {
    RestartedKeepsLit(p);
    if o.Dies? && o.committed {
      RestartedKeepsLit(CommittedNow(p));
    }
  }

  lemma StepKeepsOneLit(p: Partition, l: int, step: Step)
    requires Lit(p)
    ensures Lit(NextAt(p, l, step))
  {
    match step
    case Arrive(k, r) =>
    case Consume(k, i) => if l == k && CanConsume(p, i) { ReadingKeepsLights(p.lights, p.open.value, p.log[i]); }
    case Elect(k, winners) => if l == k && CanRunElections(p, winners) { ElectingKeepsLights(p.lights, Input(p), winners); }
    case Commit(k, o) => if l == k && p.open.Some? { CommitKeepsLit(p, o); } else { RestartedKeepsLit(p); }
    case Assign(ks) => RestartedKeepsLit(p);
    case Revoke => RestartedKeepsLit(p);
  }

  lemma {:induction false} RunKeepsLit(s: System, steps: seq<Step>, l: int)
    requires Possible(s, steps) && l in s && Lit(s[l])
    ensures l in Run(s, steps) && Lit(Run(s, steps)[l])
    decreases |steps|
  {
    if steps != [] {
      StepKeepsOneLit(s[l], l, steps[0]);
      RunKeepsLit(Next(s, steps[0]), steps[1..], l);
    }
  }

  /** An aborted transaction does not give its cars back: its intersection states
      are those in which it began if and only if the tick elected nobody and every
      message read was harmless, that is, ignored, or of a known intersection with
      an unknown or green road. */
  lemma AbortKeepsStates(p: Partition, o: Outcome)
    requires Lit(p) && p.open.Some? && (o.SendFails? || o.CommitFails?)
    ensures CommitDone(p, o).lights.states == p.lights.base <==>
            p.lights.elected == map[] && forall r :: r in p.open.value ==> Harmless(p.lights.base, r)
  {
    AbortLeavesStatesIff(p.lights, p.open.value);
  }

  /** A commit that returns leaves the intersection states as they are; a revocation
      or a crash clears them; an assignment starts a transaction at the committed
      offset and leaves them. */
  lemma StatesAcross(p: Partition, o: Outcome)
    requires p.open.Some?
    ensures CommitDone(p, o).lights.states == if o.Dies? then map[] else p.lights.states
    ensures Revoked(p).lights.states == map[] && Revoked(p).open == None
    ensures Assigned(p).lights.states == p.lights.states && Assigned(p).open == Some([]) && Assigned(p).next == Base(p)
  {
  }

  /** Over every run and for every intersection: the cars waiting and let through
      since the states were last cleared are those counted in committed
      transactions and in the open one, and once more those counted in
      transactions that were aborted. */
  lemma AbortedCarsCountAgain(partitions: set<int>, steps: seq<Step>, k: int, name: string)
    requires k in partitions
    requires Possible(map l | l in partitions :: NewPartition, steps)
    ensures k in Run(map l | l in partitions :: NewPartition, steps)
    ensures var p := Run(map l | l in partitions :: NewPartition, steps)[k];
            Balanced(p.lights, Input(p), name) && TrafficLight.Ok(StateAt(p.lights.states, name))
  {
    var s := map l | l in partitions :: NewPartition;
    NewPartitionLit();
    RunKeepsLit(s, steps, k);
    var p := Run(s, steps)[k];
    assert Balanced(p.lights, Input(p), name);
    StatesAreOk(p.lights, Input(p));
  }

  lemma RunCons(s: System, step: Step, rest: seq<Step>)
    requires Enabled(s, step) && Possible(Next(s, step), rest)
    ensures Possible(s, [step] + rest) && Run(s, [step] + rest) == Run(Next(s, step), rest)
  {
    assert ([step] + rest)[1..] == rest;
  }

  /** One car, read twice because its first transaction was aborted. */
  function OneCarTwice(k: int): seq<Step> {
    [Assign({k})] + ([Arrive(k, Record(0, Some(Arrival("crossing", TrafficLight.North))))] +
      ([Consume(k, 0)] + ([Commit(k, SendFails)] + ([Consume(k, 0)] + []))))
  }

  /** A run from the beginning after which one car waits twice. */
  lemma OneCarWaitsTwice(k: int)
    ensures Possible(map[k := NewPartition], OneCarTwice(k))
    ensures var s := Run(map[k := NewPartition], OneCarTwice(k));
            && k in s && |s[k].log| == 1
            && "crossing" in s[k].lights.states && s[k].lights.states["crossing"].count == 2
  {
    var car := Record(0, Some(Arrival("crossing", TrafficLight.North)));
    var s0: System := map[k := NewPartition];
    var s1 := Next(s0, Assign({k}));
    var s2 := Next(s1, Arrive(k, car));
    var s3 := Next(s2, Consume(k, 0));
    assert s3[k].lights.states["crossing"].count == 1;
    var s4 := Next(s3, Commit(k, SendFails));
    var s5 := Next(s4, Consume(k, 0));
    assert s5[k].lights.states["crossing"].count == 2;
    RunCons(s4, Consume(k, 0), []);
    RunCons(s3, Commit(k, SendFails), [Consume(k, 0)] + []);
    RunCons(s2, Consume(k, 0), [Commit(k, SendFails)] + ([Consume(k, 0)] + []));
    RunCons(s1, Arrive(k, car), [Consume(k, 0)] + ([Commit(k, SendFails)] + ([Consume(k, 0)] + [])));
    RunCons(s0, Assign({k}), [Arrive(k, car)] + ([Consume(k, 0)] + ([Commit(k, SendFails)] + ([Consume(k, 0)] + []))));
  }

  // ----------------------------------------------------------- the processor

  /** What each call answers; `decided` is the broker's verdict on a commit whose
      abort failed too. */
  datatype Answers = Answers(position: bool, metadata: bool, send: bool, commit: bool, abort: bool, rewind: bool, begin: bool, decided: bool)

  function OutcomeOf(a: Answers): Outcome {
    if !a.position || !a.metadata then Dies(false)
    else if a.send && a.commit then (if a.begin then Succeeds else Dies(true))
    else if !a.abort then Dies(a.send && a.decided)
    else if a.rewind && a.begin then (if a.send then CommitFails else SendFails)
    else Dies(false)
  }

  /** The commit is carried out, and the process goes on, exactly when everything it
      asks for is answered well. A failed send or commit is survived exactly when
      the abort, the rewind and the new transaction succeed. */
  lemma OutcomeMeans(a: Answers)
    ensures OutcomeOf(a) == Succeeds <==> a.position && a.metadata && a.send && a.commit && a.begin
    ensures !OutcomeOf(a).Dies? <==> a.position && a.metadata && a.begin && ((a.send && a.commit) || (a.abort && a.rewind))
    ensures OutcomeOf(a) == SendFails ==> !a.send
    ensures OutcomeOf(a) == CommitFails ==> a.send && !a.commit
    ensures OutcomeOf(a) == Dies(true) ==> a.send && (a.commit || a.decided)
  {
  }

  class Processor {
    var parts: System

    /** The process exits: its producers are gone and their transactions aborted. */
    method Fatal()
      modifies this
      ensures parts == Next(old(parts), Revoke)
    {
      parts := map l | l in parts :: Revoked(parts[l]);
    }

    method AbortAndRewind(k: int, a: Answers) returns (alive: bool)
      requires k in parts && parts[k].open.Some? && a.position && a.metadata && !(a.send && a.commit)
      modifies this
      ensures alive <==> a.abort && a.rewind
      ensures alive ==> parts == old(parts)[k := Rewound(old(parts)[k])]
      ensures !alive ==> parts == Next(old(parts), Commit(k, OutcomeOf(a)))
    {
      if !a.abort {
        if a.send && a.decided {
          parts := parts[k := CommittedNow(parts[k])];
        }
        Fatal();
        return false;
      }
      parts := parts[k := parts[k].(open := None, lights := AfterEnd(parts[k].lights, Input(parts[k]), false))];
      if !a.rewind {
        Fatal();
        return false;
      }
      parts := parts[k := parts[k].(next := Base(parts[k]), position := None)];
      return true;
    }

    /** Sends the offsets, commits, and on any failure aborts and rewinds; returns
        only with a new transaction begun. */
    method CommitTransactionForInputPartition(k: int, a: Answers) returns (alive: bool)
      requires k in parts
      modifies this
      ensures old(parts)[k].open.None? ==> !alive && parts == Next(old(parts), Revoke)
      ensures old(parts)[k].open.Some? ==> parts == Next(old(parts), Commit(k, OutcomeOf(a))) && (alive <==> !OutcomeOf(a).Dies?)
    {
      if parts[k].open.None? {
        Fatal();
        return false;
      }
      if !a.position || !a.metadata {
        Fatal();
        return false;
      }
      if a.send && a.commit {
        parts := parts[k := CommittedNow(parts[k])];
      } else {
        alive := AbortAndRewind(k, a);
        if !alive {
          return false;
        }
      }
      if !a.begin {
        Fatal();
        return false;
      }
      parts := parts[k := Begun(parts[k])];
      return true;
    }
  }
}
