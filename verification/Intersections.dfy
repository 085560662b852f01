/** The intersection states of one input partition, kept in memory beside its
    transactions: what reading its input and running its elections does to them,
    and what is left of that when a transaction is aborted. */
module Intersections {
  import opened TrafficLight
  import opened Wrappers

  /** The key and value of an input message. */
  datatype Arrival = Arrival(intersection: string, road: Road)

  /** An input message; `arrival` is `None` when its key or value is nil. */
  datatype Record = Record(offset: nat, arrival: Option<Arrival>)

  type States = map<string, Intersection>

  function StateAt(states: States, name: string): Intersection {
    if name in states then states[name] else NewIntersection
  }

  /** Reading a message: a nil key or value is ignored; otherwise the intersection
      is there afterwards, also when its road is unknown. */
  function Read(states: States, r: Record): States {
    if r.arrival.None? then states
    else
      var name := r.arrival.value.intersection;
      states[name := CarArrived(StateAt(states, name), r.arrival.value.road)]
  }

  function ReadAll(states: States, input: seq<Record>): States {
    if input == [] then states else Read(ReadAll(states, input[..|input| - 1]), input[|input| - 1])
  }

  /** The elections of one tick: at most one per intersection, each with cars
      waiting and for a longest queue. */
  ghost predicate CanElect(states: States, winners: map<string, Road>) {
    forall name {:trigger name in winners} :: name in winners ==>
      name in states && 0 < states[name].count && Longest(states[name], winners[name])
  }

  function Elect(states: States, winners: map<string, Road>): States {
    map name | name in states ::
      if name in winners && winners[name] in states[name].waiting then Served(states[name], winners[name]) else states[name]
  }

  ghost predicate AllLightsOk(states: States) {
    forall name {:trigger StateAt(states, name)} :: Ok(StateAt(states, name))
  }

  // ------------------------------------------------------------------ counting

  /** A car of this intersection that joins a queue, given the states in which
      the transaction began: its road is known and not the green one. */
  predicate Counts(base: States, r: Record, name: string) {
    && r.arrival.Some? && r.arrival.value.intersection == name
    && r.arrival.value.road in StateAt(base, name).waiting
    && StateAt(base, name).green != Some(r.arrival.value.road)
  }

  /** How many cars of the intersection this input adds to the queues. */
  function CountedIn(base: States, input: seq<Record>, name: string): nat {
    if input == [] then 0
    else CountedIn(base, input[..|input| - 1], name) + if Counts(base, input[|input| - 1], name) then 1 else 0
  }

  predicate Names(r: Record, name: string) {
    r.arrival.Some? && r.arrival.value.intersection == name
  }

  /** Between elections the green road stays and every counted car is waiting. */
  lemma {:induction false} ReadingCounts(base: States, input: seq<Record>, name: string)
    ensures var i, j := StateAt(base, name), StateAt(ReadAll(base, input), name);
            && j.green == i.green && j.waiting.Keys == i.waiting.Keys
            && j.count == i.count + CountedIn(base, input, name)
    ensures name in ReadAll(base, input) <==> name in base || exists r :: r in input && Names(r, name)
  {
    if input != [] {
      var before, r := input[..|input| - 1], input[|input| - 1];
      ReadingCounts(base, before, name);
      assert forall x :: x in input <==> x == r || x in before;
      assert name in ReadAll(base, input) <==> name in ReadAll(base, before) || Names(r, name);
    }
  }

  lemma {:induction false} ReadingKeepsOk(base: States, input: seq<Record>)
    requires AllLightsOk(base)
    ensures AllLightsOk(ReadAll(base, input))
  {
    if input != [] {
      var before, r := input[..|input| - 1], input[|input| - 1];
      ReadingKeepsOk(base, before);
      var s := ReadAll(base, before);
      forall name ensures Ok(StateAt(ReadAll(base, input), name)) {
        assert Ok(StateAt(s, name));
        if Names(r, name) {
          CarArrivedKeepsOk(StateAt(s, name), r.arrival.value.road);
        }
      }
    }
  }

  lemma ElectingKeepsOk(states: States, winners: map<string, Road>)
    requires AllLightsOk(states) && CanElect(states, winners)
    ensures AllLightsOk(Elect(states, winners))
  {
    forall name ensures Ok(StateAt(Elect(states, winners), name)) {
      assert Ok(StateAt(states, name));
      if name in winners {
        ServedKeepsOk(states[name], winners[name]);
      }
    }
  }

  // ------------------------------------------------------- what an abort leaves

  /** A message that leaves the states alone: ignored, or of a known intersection
      with an unknown or green road. */
  predicate Harmless(base: States, r: Record) {
    r.arrival.None? || (r.arrival.value.intersection in base && !Counts(base, r, r.arrival.value.intersection))
  }

  lemma {:induction false} HarmlessInput(base: States, input: seq<Record>)
    requires forall r :: r in input ==> Harmless(base, r)
    ensures ReadAll(base, input) == base
  {
    if input != [] {
      assert input[|input| - 1] in input;
      HarmlessInput(base, input[..|input| - 1]);
    }
  }

  lemma {:induction false} CountedRecord(base: States, input: seq<Record>, r: Record, name: string)
    requires r in input && Counts(base, r, name)
    ensures 0 < CountedIn(base, input, name)
  {
    if input[|input| - 1] != r {
      CountedRecord(base, input[..|input| - 1], r, name);
    }
  }

  lemma ElectingNobody(states: States)
    ensures Elect(states, map[]) == states
  {
  }

  /** The states after the input and the elections of a transaction are those in
      which it began, if and only if nobody was elected and every message read
      was harmless. */
  lemma UnchangedIff(base: States, input: seq<Record>, winners: map<string, Road>)
    requires AllLightsOk(base) && CanElect(ReadAll(base, input), winners)
    ensures Elect(ReadAll(base, input), winners) == base <==>
            winners == map[] && forall r :: r in input ==> Harmless(base, r)
  {
    var states := ReadAll(base, input);
    if name :| name in winners {
      ElectionShows(base, input, winners, name);
    } else {
      assert winners == map[];
      ElectingNobody(states);
      if r :| r in input && !Harmless(base, r) {
        var name := r.arrival.value.intersection;
        ReadingCounts(base, input, name);
        assert Names(r, name);
        if name in base {
          CountedRecord(base, input, r, name);
        }
      } else {
        HarmlessInput(base, input);
      }
    }
  }

  /** An election moves the green light. */
  lemma ElectionShows(base: States, input: seq<Record>, winners: map<string, Road>, name: string)
    requires AllLightsOk(base) && CanElect(ReadAll(base, input), winners) && name in winners
    ensures Elect(ReadAll(base, input), winners) != base
  {
    var states := ReadAll(base, input);
    ReadingKeepsOk(base, input);
    assert Ok(StateAt(states, name));
    ServedKeepsOk(states[name], winners[name]);
    ReadingCounts(base, input, name);
    assert Elect(states, winners)[name].green != StateAt(base, name).green;
  }

  // ------------------------------------------------------------------- ledgers

  /** For one intersection since the states were last cleared: the cars counted
      in transactions that were committed, those counted in transactions that
      were not, and the cars let through. */
  datatype Ledger = Ledger(settled: nat, doubled: nat, passed: nat)

  /** `base` is what the states were when the open transaction began, `elected`
      the elections of the tick that is about to commit it. */
  datatype Lights = Lights(states: States, base: States, elected: map<string, Road>, books: map<string, Ledger>)

  const NoLights := Lights(map[], map[], map[], map[])

  function LedgerAt(books: map<string, Ledger>, name: string): Ledger {
    if name in books then books[name] else Ledger(0, 0, 0)
  }

  function LetThrough(states: States, winners: map<string, Road>, name: string): nat {
    if name in winners && winners[name] in StateAt(states, name).waiting then StateAt(states, name).waiting[winners[name]] else 0
  }

  function AfterReading(l: Lights, r: Record): Lights {
    l.(states := Read(l.states, r))
  }

  function AfterElections(l: Lights, winners: map<string, Road>): Lights {
    l.(states := Elect(l.states, winners), elected := winners,
       books := map name | name in l.states ::
         var b := LedgerAt(l.books, name); b.(passed := b.passed + LetThrough(l.states, winners, name)))
  }

  /** The end of a transaction that read `input`: the states stay as they are,
      whether it was committed or not. */
  function AfterEnd(l: Lights, input: seq<Record>, committed: bool): Lights {
    Lights(l.states, l.states, map[],
           map name | name in l.states ::
             var b, counted := LedgerAt(l.books, name), CountedIn(l.base, input, name);
             if committed then b.(settled := b.settled + counted) else b.(doubled := b.doubled + counted))
  }

  /** The cars waiting and let through are those counted in committed transactions,
      those counted so far in the open one, and those that uncommitted transactions
      counted and that are counted again when their input is read again. */
  ghost predicate Balanced(l: Lights, input: seq<Record>, name: string) {
    var b := LedgerAt(l.books, name);
    StateAt(l.states, name).count + b.passed == b.settled + b.doubled + CountedIn(l.base, input, name)
  }

  /** The states are what the input of the open transaction and the elections made
      of those at its beginning, and the ledgers balance. */
  ghost predicate LightsOk(l: Lights, input: seq<Record>) {
    && AllLightsOk(l.base)
    && CanElect(ReadAll(l.base, input), l.elected)
    && l.states == Elect(ReadAll(l.base, input), l.elected)
    && (forall name {:trigger name in l.books} :: name in l.books ==> name in l.states)
    && forall name {:trigger Balanced(l, input, name)} :: Balanced(l, input, name)
  }

  lemma StatesAreOk(l: Lights, input: seq<Record>)
    requires LightsOk(l, input)
    ensures AllLightsOk(l.states)
  {
    ReadingKeepsOk(l.base, input);
    ElectingKeepsOk(ReadAll(l.base, input), l.elected);
  }

  lemma ReadingKeepsLights(l: Lights, input: seq<Record>, r: Record)
    requires LightsOk(l, input) && l.elected == map[]
    ensures LightsOk(AfterReading(l, r), input + [r])
  {
    var m := AfterReading(l, r);
    assert (input + [r])[..|input|] == input;
    ElectingNobody(ReadAll(l.base, input));
    ElectingNobody(m.states);
    forall name ensures Balanced(m, input + [r], name) {
      assert Balanced(l, input, name);
      ReadingCounts(l.base, input, name);
    }
  }

  lemma ElectingKeepsLights(l: Lights, input: seq<Record>, winners: map<string, Road>)
    requires LightsOk(l, input) && l.elected == map[] && CanElect(l.states, winners)
    ensures LightsOk(AfterElections(l, winners), input)
  {
    var m := AfterElections(l, winners);
    ElectingNobody(l.states);
    assert l.states == ReadAll(l.base, input) by { ElectingNobody(ReadAll(l.base, input)); }
    forall name ensures Balanced(m, input, name) {
      assert Balanced(l, input, name);
      if name in winners {
        assert Longest(l.states[name], winners[name]);
      }
    }
  }

  lemma EndingKeepsLights(l: Lights, input: seq<Record>, committed: bool)
    requires LightsOk(l, input)
    ensures LightsOk(AfterEnd(l, input, committed), [])
  {
    var m := AfterEnd(l, input, committed);
    StatesAreOk(l, input);
    ElectingNobody(l.states);
    forall name ensures Balanced(m, [], name) {
      assert Balanced(l, input, name);
      ReadingCounts(l.base, input, name);
      if name !in l.states {
        NotNamed(l.base, input, name);
      }
    }
  }

  lemma {:induction false} NotNamed(base: States, input: seq<Record>, name: string)
    requires name !in ReadAll(base, input)
    ensures CountedIn(base, input, name) == 0
  {
    if input != [] {
      NotNamed(base, input[..|input| - 1], name);
    }
  }

  /** Ending a transaction, committed or not, finds the states as they were when it
      began if and only if nobody was elected and every message read was harmless. */
  lemma AbortLeavesStatesIff(l: Lights, input: seq<Record>)
    requires LightsOk(l, input)
    ensures AfterEnd(l, input, false).states == l.base <==> l.elected == map[] && forall r :: r in input ==> Harmless(l.base, r)
  {
    UnchangedIff(l.base, input, l.elected);
  }
}
