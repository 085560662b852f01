/** The traffic light of one intersection: cars queue up at red lights and an
    election gives the green light to one road, whose queue then passes. */
module TrafficLight {
  import opened Sequences
  import opened Wrappers

  datatype Road = North | East | South | West | Unknown(name: string)

  const ROADS: seq<Road> := [North, East, South, West]

  datatype Color = Red | Green

  /** `green` is `None` until the first election. */
  datatype Intersection = Intersection(waiting: map<Road, nat>, count: int, green: Option<Road>)

  const NewIntersection := Intersection(map[North := 0, East := 0, South := 0, West := 0], 0, None)

  ghost predicate HasRoads(w: map<Road, nat>) {
    forall r :: r in w <==> r in ROADS
  }

  function Total(w: map<Road, nat>): nat
    requires North in w && East in w && South in w && West in w
  {
    w[North] + w[East] + w[South] + w[West]
  }

  /** The count is the sum of the queues and nobody waits at the green light. */
  ghost predicate Ok(i: Intersection) {
    && HasRoads(i.waiting)
    && North in i.waiting && East in i.waiting && South in i.waiting && West in i.waiting
    && i.count == Total(i.waiting)
    && (i.green.Some? ==> i.green.value in i.waiting && i.waiting[i.green.value] == 0)
  }

  // -------------------------------------------------------------------- steps

  function CarArrived(i: Intersection, road: Road): Intersection {
    if road in i.waiting && i.green != Some(road)
    then i.(waiting := i.waiting[road := i.waiting[road] + 1], count := i.count + 1)
    else i
  }

  ghost predicate Longest(i: Intersection, road: Road) {
    road in i.waiting && forall r :: r in i.waiting ==> i.waiting[r] <= i.waiting[road]
  }

  function Served(i: Intersection, road: Road): Intersection
    requires road in i.waiting
  {
    Intersection(i.waiting[road := 0], i.count - i.waiting[road], Some(road))
  }

  lemma CarArrivedKeepsOk(i: Intersection, road: Road)
    requires Ok(i)
    ensures Ok(CarArrived(i, road)) && CarArrived(i, road).green == i.green
    ensures CarArrived(i, road).waiting.Keys == i.waiting.Keys
    ensures forall r :: r in i.waiting ==> CarArrived(i, road).waiting[r] == i.waiting[r] + if r == road && i.green != Some(road) then 1 else 0
  {
  }

  /** With cars waiting, serving a longest queue changes the light and lets at
      least one car through. */
  lemma ServedKeepsOk(i: Intersection, road: Road)
    requires Ok(i) && Longest(i, road)
    ensures Ok(Served(i, road))
    ensures Served(i, road).green == Some(road)
    ensures forall r :: r in i.waiting ==> r in Served(i, road).waiting && Served(i, road).waiting[r] == if r == road then 0 else i.waiting[r]
    ensures 0 < i.count ==> 0 < i.waiting[road] && Served(i, road).count < i.count && i.green != Some(road)
  {
    assert North in i.waiting && East in i.waiting && South in i.waiting && West in i.waiting;
  }

  // ---------------------------------------------------------------- draining

  function Busy(w: map<Road, nat>, r: Road): nat {
    if r in w && w[r] > 0 then 1 else 0
  }

  /** The number of roads where cars wait. */
  function BusyRoads(i: Intersection): nat {
    Busy(i.waiting, North) + Busy(i.waiting, East) + Busy(i.waiting, South) + Busy(i.waiting, West)
  }

  /** Elections without arrivals, each for a longest queue. */
  ghost predicate Elections(i: Intersection, roads: seq<Road>)
    decreases |roads|
  {
    roads != [] ==> 0 < i.count && Longest(i, roads[0]) && Elections(Served(i, roads[0]), roads[1..])
  }

  ghost function Drained(i: Intersection, roads: seq<Road>): Intersection
    requires Elections(i, roads)
    decreases |roads|
  {
    if roads == [] then i else Drained(Served(i, roads[0]), roads[1..])
  }

  lemma ServedIsNoLongerBusy(i: Intersection, road: Road)
    requires Ok(i) && Longest(i, road) && 0 < i.waiting[road]
    ensures BusyRoads(Served(i, road)) == BusyRoads(i) - 1
  {
    assert road in ROADS;
  }

  lemma IdleMeansNoneBusy(i: Intersection)
    requires Ok(i)
    ensures i.count == 0 <==> BusyRoads(i) == 0
  {
  }

  /** Without arrivals each election empties one road, so the intersection is
      drained by exactly as many elections as it has busy roads, at most four. */
  lemma {:induction false} ElectionsDrain(i: Intersection, roads: seq<Road>)
    requires Ok(i) && Elections(i, roads)
    ensures Ok(Drained(i, roads))
    ensures BusyRoads(Drained(i, roads)) == BusyRoads(i) - |roads|
    ensures Drained(i, roads).count == 0 <==> |roads| == BusyRoads(i)
    ensures BusyRoads(i) <= |ROADS|
    decreases |roads|
  {
    IdleMeansNoneBusy(i);
    if roads != [] {
      ServedKeepsOk(i, roads[0]);
      ServedIsNoLongerBusy(i, roads[0]);
      ElectionsDrain(Served(i, roads[0]), roads[1..]);
    }
  }

  // --------------------------------------------------------------------- runs

  datatype Step = Car(road: Road) | Election(winner: Road)

  /** An intersection with the cars that came and the cars that went through. */
  datatype Tally = Tally(state: Intersection, arrived: nat, passed: int)

  ghost predicate Enabled(i: Intersection, step: Step) {
    step.Election? ==> 0 < i.count && Longest(i, step.winner)
  }

  ghost function Next(t: Tally, step: Step): Tally
    requires Enabled(t.state, step)
  {
    match step
    case Car(road) =>
      var known := road in t.state.waiting;
      Tally(CarArrived(t.state, road), t.arrived + (if known then 1 else 0),
            t.passed + if known && t.state.green == Some(road) then 1 else 0)
    case Election(road) => Tally(Served(t.state, road), t.arrived, t.passed + t.state.waiting[road])
  }

  ghost predicate Possible(t: Tally, steps: seq<Step>)
    decreases |steps|
  {
    steps != [] ==> Enabled(t.state, steps[0]) && Possible(Next(t, steps[0]), steps[1..])
  }

  ghost function Run(t: Tally, steps: seq<Step>): Tally
    requires Possible(t, steps)
    decreases |steps|
  {
    if steps == [] then t else Run(Next(t, steps[0]), steps[1..])
  }

  /** Over every run each car on a known road is waiting or has passed. */
  lemma {:induction false} CarsAreConserved(t: Tally, steps: seq<Step>)
    requires Ok(t.state) && t.arrived == t.passed + t.state.count && Possible(t, steps)
    ensures Ok(Run(t, steps).state)
    ensures Run(t, steps).arrived == Run(t, steps).passed + Run(t, steps).state.count
    decreases |steps|
  {
    if steps != [] {
      match steps[0] {
        case Car(road) => CarArrivedKeepsOk(t.state, road);
        case Election(road) => ServedKeepsOk(t.state, road);
      }
      CarsAreConserved(Next(t, steps[0]), steps[1..]);
    }
  }

  // ----------------------------------------------------------------- fairness

  /** One car waits at the north road and nobody anywhere else. */
  ghost predicate Lone(i: Intersection) {
    Ok(i) && i.waiting[North] == 1 && i.count == 1
  }

  /** Two cars come to a road that is red, and an election follows. */
  lemma RoundForOther(t: Tally, road: Road)
    requires Lone(t.state) && (road == East || road == South) && t.state.green != Some(road)
    ensures var t2 := Next(Next(t, Car(road)), Car(road));
            && Enabled(t2.state, Election(road))
            && Lone(Next(t2, Election(road)).state)
            && Next(t2, Election(road)).state.green == Some(road)
  {
    CarArrivedKeepsOk(t.state, road);
    CarArrivedKeepsOk(CarArrived(t.state, road), road);
    var i := Next(Next(t, Car(road)), Car(road)).state;
    forall r | r in i.waiting ensures i.waiting[r] <= i.waiting[road] {
      assert r in ROADS;
    }
    ServedKeepsOk(i, road);
  }

  lemma RunCons(t: Tally, step: Step, rest: seq<Step>)
    requires Enabled(t.state, step) && Possible(Next(t, step), rest)
    ensures Possible(t, [step] + rest) && Run(t, [step] + rest) == Run(Next(t, step), rest)
  {
    assert ([step] + rest)[1..] == rest;
  }

  function Rounds(n: nat, road: Road): seq<Step> {
    if n == 0 then [] else [Car(road), Car(road), Election(road)] + Rounds(n - 1, if road == East then South else East)
  }

  /** The turn of the next road plays no part: a single car may wait at the north
      road through any number of elections. */
  lemma {:induction false} NoRoadIsGuaranteedATurn(t: Tally, n: nat, road: Road)
    requires Lone(t.state) && (road == East || road == South) && t.state.green != Some(road)
    ensures Possible(t, Rounds(n, road))
    ensures Lone(Run(t, Rounds(n, road)).state)
    decreases n
  {
    if n > 0 {
      RoundForOther(t, road);
      var t2 := Next(Next(t, Car(road)), Car(road));
      var other := if road == East then South else East;
      NoRoadIsGuaranteedATurn(Next(t2, Election(road)), n - 1, other);
      var rest := Rounds(n - 1, other);
      RunCons(t2, Election(road), rest);
      RunCons(Next(t, Car(road)), Car(road), [Election(road)] + rest);
      RunCons(t, Car(road), [Car(road)] + ([Election(road)] + rest));
      assert Rounds(n, road) == [Car(road)] + ([Car(road)] + ([Election(road)] + rest));
    }
  }

  /** A new intersection reaches that: the first car comes to the north road, and
      it may wait through any number of elections. */
  lemma StarvationFromTheStart(n: nat)
    ensures var start := Tally(NewIntersection, 0, 0);
            var steps := [Car(North)] + Rounds(n, East);
            && Possible(start, steps) && Lone(Run(start, steps).state)
            && |Rounds(n, East)| == 3 * n
  {
    var start := Tally(NewIntersection, 0, 0);
    assert Ok(NewIntersection);
    CarArrivedKeepsOk(NewIntersection, North);
    NoRoadIsGuaranteedATurn(Next(start, Car(North)), n, East);
    RunCons(start, Car(North), Rounds(n, East));
    RoundsLength(n, East);
  }

  lemma {:induction false} RoundsLength(n: nat, road: Road)
    ensures |Rounds(n, road)| == 3 * n
  {
    if n > 0 {
      RoundsLength(n - 1, if road == East then South else East);
    }
  }

  // ------------------------------------------------------------- the election

  /** The next road in a cyclical fashion. */
  function NextRoad(green: Option<Road>): Road {
    if green == Some(North) then East
    else if green == Some(East) then South
    else if green == Some(South) then West
    else North
  }

  /** The roads take turns in their order; without a green road it is the first's. */
  lemma NextRoadCycles(j: nat, green: Option<Road>)
    ensures j < |ROADS| ==> NextRoad(Some(ROADS[j])) == ROADS[(j + 1) % |ROADS|]
    ensures green.None? || green.value !in ROADS ==> NextRoad(green) == ROADS[0]
  {
  }

  function WeightOf(i: Intersection, road: Road): real
    requires road in i.waiting && 0 < i.count
  {
    1.0 + i.waiting[road] as real / i.count as real
  }

  /** The weights as they are built: first the next road's, then one road after
      the other in the order in which the queues are met. */
  function Weighed(i: Intersection, order: seq<Road>): map<Road, real>
    requires 0 < i.count && forall r :: r in order ==> r in i.waiting
  {
    if order == [] then map[NextRoad(i.green) := 1.0]
    else
      var road := order[|order| - 1];
      assert road in order;
      Weighed(i, order[..|order| - 1])[road := WeightOf(i, road)]
  }

  /** The best road and weight once the roads have been met in this order: only a
      strictly greater weight replaces the best one. */
  function Scan(weights: map<Road, real>, order: seq<Road>): (best: (Option<Road>, real))
    requires forall r :: r in order ==> r in weights
  {
    if order == [] then (None, 0.0)
    else
      var best, road := Scan(weights, order[..|order| - 1]), order[|order| - 1];
      assert road in order;
      if weights[road] > best.1 then (Some(road), weights[road]) else best
  }

  lemma {:induction false} WeighedSoFar(i: Intersection, order: seq<Road>)
    requires 0 < i.count && forall r :: r in order ==> r in i.waiting
    ensures forall r :: r in Weighed(i, order) <==> r in order || r == NextRoad(i.green)
    ensures forall r :: r in order ==> Weighed(i, order)[r] == WeightOf(i, r)
  {
    if order != [] {
      var before, road := order[..|order| - 1], order[|order| - 1];
      WeighedSoFar(i, before);
      assert forall r :: r in order <==> r == road || r in before;
    }
  }

  lemma WeighOneMore(i: Intersection, order: seq<Road>, road: Road)
    requires 0 < i.count && road in i.waiting && forall r :: r in order ==> r in i.waiting
    ensures Weighed(i, order + [road]) == Weighed(i, order)[road := WeightOf(i, road)]
  {
    assert (order + [road])[..|order|] == order;
  }

  lemma WeightIsPositive(i: Intersection, road: Road)
    requires 0 < i.count && road in i.waiting
    ensures WeightOf(i, road) > 0.0
  {
    QuotientOrder(0, i.waiting[road], i.count);
  }

  /** The next road's own weight is always overwritten. */
  lemma WeighedByQueue(i: Intersection, order: seq<Road>)
    requires Ok(i) && 0 < i.count && Enumerates(order, i.waiting.Keys)
    ensures Weighed(i, order).Keys == i.waiting.Keys
    ensures forall r :: r in i.waiting ==> Weighed(i, order)[r] == WeightOf(i, r) > 0.0
  {
    WeighedSoFar(i, order);
    assert NextRoad(i.green) in ROADS;
    forall r | r in i.waiting ensures r in order && WeightOf(i, r) > 0.0 {
      WeightIsPositive(i, r);
    }
  }

  lemma {:induction false} ScanFindsGreatest(weights: map<Road, real>, order: seq<Road>)
    requires forall r :: r in order ==> r in weights && weights[r] > 0.0
    ensures var best := Scan(weights, order);
            && (forall r :: r in order ==> weights[r] <= best.1)
            && (if order == [] then best == (None, 0.0) else best.0.Some? && best.0.value in order && weights[best.0.value] == best.1)
  {
    if order != [] {
      var before, road := order[..|order| - 1], order[|order| - 1];
      ScanFindsGreatest(weights, before);
      assert forall r :: r in order <==> r == road || r in before;
    }
  }

  /** A greatest weight that is met first is never replaced. */
  lemma {:induction false} FirstGreatestWins(weights: map<Road, real>, order: seq<Road>)
    requires order != [] && order[0] in weights && forall r :: r in order ==> r in weights && 0.0 < weights[r] <= weights[order[0]]
    ensures Scan(weights, order) == (Some(order[0]), weights[order[0]])
  {
    if |order| > 1 {
      FirstGreatestWins(weights, order[..|order| - 1]);
      assert order[|order| - 1] in order;
    } else {
      assert order[..0] == [];
      assert order[0] in order;
    }
  }

  lemma QuotientOrder(a: nat, b: nat, n: int)
    requires 0 < n
    ensures a as real / n as real <= b as real / n as real <==> a <= b
  {
    var c := n as real;
    assert a as real == (a as real / c) * c;
    assert b as real == (b as real / c) * c;
  }

  /** All weights have the same denominator, so they order the roads as their
      queues do. */
  lemma WeightOrder(i: Intersection, r: Road, o: Road)
    requires 0 < i.count && r in i.waiting && o in i.waiting
    ensures WeightOf(i, r) <= WeightOf(i, o) <==> i.waiting[r] <= i.waiting[o]
  {
    QuotientOrder(i.waiting[r], i.waiting[o], i.count);
  }

  /** The two map loops of an election may meet the roads in any order. */
  ghost predicate Orders(i: Intersection, weighing: seq<Road>, scanning: seq<Road>) {
    Enumerates(weighing, i.waiting.Keys) && Enumerates(scanning, i.waiting.Keys)
  }

  ghost function Elected(i: Intersection, weighing: seq<Road>, scanning: seq<Road>): Option<Road>
    requires Ok(i) && 0 < i.count && Orders(i, weighing, scanning)
  {
    WeighedByQueue(i, weighing);
    Scan(Weighed(i, weighing), scanning).0
  }

  ghost predicate CanWin(i: Intersection, road: Road)
    requires Ok(i) && 0 < i.count
  {
    exists weighing, scanning :: Orders(i, weighing, scanning) && Elected(i, weighing, scanning) == Some(road)
  }

  lemma WinnerIsLongest(i: Intersection, weighing: seq<Road>, scanning: seq<Road>)
    requires Ok(i) && 0 < i.count && Orders(i, weighing, scanning)
    ensures Elected(i, weighing, scanning).Some? && Longest(i, Elected(i, weighing, scanning).value)
  {
    WeighedByQueue(i, weighing);
    ScanFindsGreatest(Weighed(i, weighing), scanning);
    assert North in scanning;
    var winner := Elected(i, weighing, scanning).value;
    forall r | r in i.waiting ensures i.waiting[r] <= i.waiting[winner] {
      assert r in scanning;
      WeightOrder(i, r, winner);
    }
  }

  lemma LongestMayWin(i: Intersection, road: Road) returns (order: seq<Road>)
    requires Ok(i) && 0 < i.count && Longest(i, road)
    ensures Orders(i, order, order) && Elected(i, order, order) == Some(road)
  {
    order := SomeOrder(i.waiting.Keys, road);
    WeighedByQueue(i, order);
    forall r | r in order ensures r in i.waiting && WeightOf(i, r) <= WeightOf(i, road) {
      WeightOrder(i, r, road);
    }
    FirstGreatestWins(Weighed(i, order), order);
  }

  /** Under some order of the loops a road wins, if and only if its queue is a
      longest one. */
  lemma CanWinIffLongest(i: Intersection, road: Road)
    requires Ok(i) && 0 < i.count
    ensures CanWin(i, road) <==> Longest(i, road)
  {
    if CanWin(i, road) {
      var weighing, scanning :| Orders(i, weighing, scanning) && Elected(i, weighing, scanning) == Some(road);
      WinnerIsLongest(i, weighing, scanning);
    }
    if Longest(i, road) {
      var order := LongestMayWin(i, road);
    }
  }

  /** Whose turn it is makes no difference to who can win. */
  lemma TurnPlaysNoPart(i: Intersection, green: Option<Road>, road: Road)
    requires Ok(i) && Ok(i.(green := green)) && 0 < i.count
    ensures CanWin(i.(green := green), road) <==> CanWin(i, road)
  {
    CanWinIffLongest(i, road);
    CanWinIffLongest(i.(green := green), road);
  }

  lemma SomeLongest(i: Intersection, r: Road) returns (w: Road)
    requires Ok(i) && r in i.waiting
    ensures Longest(i, w) && (w == r || i.waiting[r] < i.waiting[w])
  {
    w := r;
    if i.waiting[w] < i.waiting[North] { w := North; }
    if i.waiting[w] < i.waiting[East] { w := East; }
    if i.waiting[w] < i.waiting[South] { w := South; }
    if i.waiting[w] < i.waiting[West] { w := West; }
    forall o | o in i.waiting ensures i.waiting[o] <= i.waiting[w] {
      assert o in ROADS;
    }
  }

  /** A road wins under every order of the loops, if and only if its queue is
      longer than every other one. */
  lemma CertainIffStrictlyLongest(i: Intersection, road: Road)
    requires Ok(i) && 0 < i.count && road in i.waiting
    ensures (forall weighing, scanning :: Orders(i, weighing, scanning) ==> Elected(i, weighing, scanning) == Some(road))
       <==> forall r :: r in i.waiting && r != road ==> i.waiting[r] < i.waiting[road]
  {
    if r :| r in i.waiting && r != road && i.waiting[road] <= i.waiting[r] {
      var w := SomeLongest(i, r);
      var order := LongestMayWin(i, w);
    } else {
      forall weighing, scanning | Orders(i, weighing, scanning) ensures Elected(i, weighing, scanning) == Some(road) {
        WinnerIsLongest(i, weighing, scanning);
      }
    }
  }

  // ----------------------------------------------------------------- the class

  class IntersectionState {
    var carsWaiting: map<Road, nat>
    var carCnt: int
    var currGreen: Option<Road>
    var lightState: map<Road, Color>

    function View(): Intersection
      reads this
    {
      Intersection(carsWaiting, carCnt, currGreen)
    }

    constructor ()
      ensures View() == NewIntersection && Ok(View())
    {
      carsWaiting := map[North := 0, East := 0, South := 0, West := 0];
      lightState := map[North := Red, East := Red, South := Red, West := Red];
      carCnt, currGreen := 0, None;
    }

    method ProcessIngressCar(road: Road)
      modifies this`carsWaiting, this`carCnt
      ensures View() == CarArrived(old(View()), road)
    {
      if road !in carsWaiting {
        return;
      }
      if currGreen != Some(road) {
        carsWaiting := carsWaiting[road := carsWaiting[road] + 1];
        carCnt := carCnt + 1;
      }
    }

    method Weigh() returns (weights: map<Road, real>, ghost order: seq<Road>)
      requires Ok(View()) && 0 < carCnt
      ensures Enumerates(order, carsWaiting.Keys) && weights == Weighed(View(), order)
      ensures weights.Keys == carsWaiting.Keys && forall r :: r in weights ==> weights[r] == WeightOf(View(), r) > 0.0
    {
      weights, order := map[NextRoad(currGreen) := 1.0], [];
      var pending := carsWaiting.Keys;
      while pending != {}
        invariant pending <= carsWaiting.Keys
        invariant Enumerates(order, carsWaiting.Keys - pending)
        invariant weights == Weighed(View(), order)
        decreases |pending|
      {
        var road :| road in pending;
        EnumerateOneMore(order, carsWaiting.Keys - pending, road);
        assert carsWaiting.Keys - (pending - {road}) == carsWaiting.Keys - pending + {road};
        WeighOneMore(View(), order, road);
        weights := weights[road := WeightOf(View(), road)];
        order := order + [road];
        pending := pending - {road};
      }
      assert carsWaiting.Keys - pending == carsWaiting.Keys;
      WeighedByQueue(View(), order);
    }

    method Heaviest(weights: map<Road, real>) returns (best: Option<Road>, ghost order: seq<Road>)
      requires weights.Keys != {} && forall r :: r in weights ==> weights[r] > 0.0
      ensures Enumerates(order, weights.Keys) && best == Scan(weights, order).0
      ensures best.Some? && best.value in weights && forall r :: r in weights ==> weights[r] <= weights[best.value]
    {
      var bestWeight := 0.0;
      best, order := None, [];
      var pending := weights.Keys;
      while pending != {}
        invariant pending <= weights.Keys
        invariant Enumerates(order, weights.Keys - pending)
        invariant (best, bestWeight) == Scan(weights, order)
        decreases |pending|
      {
        var road :| road in pending;
        EnumerateOneMore(order, weights.Keys - pending, road);
        assert weights.Keys - (pending - {road}) == weights.Keys - pending + {road};
        assert (order + [road])[..|order|] == order;
        if weights[road] > bestWeight {
          bestWeight, best := weights[road], Some(road);
        }
        order := order + [road];
        pending := pending - {road};
      }
      assert weights.Keys - pending == weights.Keys;
      ScanFindsGreatest(weights, order);
      assert forall r :: r in weights ==> r in order;
    }

    /** The two loops together. */
    method Choose() returns (best: Option<Road>, ghost weighing: seq<Road>, ghost scanning: seq<Road>)
      requires Ok(View()) && 0 < carCnt
      ensures Orders(View(), weighing, scanning) && best == Elected(View(), weighing, scanning)
      ensures best.Some? && Longest(View(), best.value)
    {
      var weights;
      weights, weighing := Weigh();
      assert North in weights;
      best, scanning := Heaviest(weights);
      WinnerIsLongest(View(), weighing, scanning);
    }

    /** With cars waiting the light changes, to the road that the two loops elect
        in the orders they took: one with a longest queue. */
    method ElectNewGreenLight() returns (changed: bool, ghost weighing: seq<Road>, ghost scanning: seq<Road>)
      requires Ok(View())
      modifies this`carsWaiting, this`carCnt, this`currGreen
      ensures changed <==> 0 < old(carCnt)
      ensures !changed ==> View() == old(View())
      ensures changed ==> Orders(old(View()), weighing, scanning) && currGreen == Elected(old(View()), weighing, scanning)
      ensures changed ==> currGreen.Some? && Longest(old(View()), currGreen.value) && View() == Served(old(View()), currGreen.value)
      ensures Ok(View())
    {
      weighing, scanning := [], [];
      if carCnt == 0 {
        return false, [], [];
      }
      var best;
      best, weighing, scanning := Choose();
      ServedKeepsOk(View(), best.value);
      if currGreen.Some? && currGreen.value in carsWaiting && carsWaiting[currGreen.value] == carCnt {
        assert false;
        return false, [], [];
      }
      currGreen := best;
      carCnt := carCnt - carsWaiting[best.value];
      carsWaiting := carsWaiting[best.value := 0];
      return true, weighing, scanning;
    }

    /** Exactly the elected road shows green. */
    method ShowLights()
      modifies this`lightState
      ensures lightState.Keys == old(lightState).Keys
      ensures forall r :: r in lightState ==> (lightState[r] == Green <==> currGreen == Some(r))
    {
      var pending := lightState.Keys;
      while pending != {}
        invariant pending <= lightState.Keys == old(lightState).Keys
        invariant forall r :: r in lightState && r !in pending ==> (lightState[r] == Green <==> currGreen == Some(r))
        decreases |pending|
      {
        var road :| road in pending;
        lightState := lightState[road := if currGreen == Some(road) then Green else Red];
        pending := pending - {road};
      }
    }
  }
}
