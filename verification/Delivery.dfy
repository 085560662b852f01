/** How a `Produce` call finds its delivery report again: the table of per-message
    state that is keyed by an integer passed through C, and the poll loop that
    hands reports out. */
module Delivery {
  import opened Wrappers
  import opened Sequences

  type Channel = nat
  type Token = nat

  /** What must survive the trip through C. */
  datatype MessageState = MessageState(channel: Option<Channel>, token: Option<Token>)

  predicate Stateful(m: MessageState) {
    m.channel.Some? || m.token.Some?
  }

  type Table = map<int, MessageState>

  // ------------------------------------------------------------------------ ids

  const PERIOD: nat := WORD - 1

  /** Conversion of an unsigned 64-bit word to a signed one. */
  function Signed(u: nat): int {
    if u < WORD / 2 then u else u - WORD
  }

  /** The counter after one more `cgoPut`: it wraps around and skips zero. */
  function Bumped(u: nat): nat {
    var v := (u + 1) % WORD;
    if v == 0 then 1 else v
  }

  /** The counter after `n` puts. */
  function Counter(n: nat): nat {
    if n == 0 then 0 else (n - 1) % PERIOD + 1
  }

  lemma CounterStep(n: nat)
    ensures Bumped(Counter(n)) == Counter(n + 1)
    ensures 0 < Counter(n + 1) < WORD
  {
  }

  /** Two puts get the same id exactly when a multiple of the period apart. */
  lemma SameCounter(m: nat, n: nat)
    requires 0 < m <= n
    ensures Counter(m) == Counter(n) <==> (n - m) % PERIOD == 0
  {
    var q, r := (m - 1) / PERIOD, (m - 1) % PERIOD;
    var q', r' := (n - 1) / PERIOD, (n - 1) % PERIOD;
    assert n - m == PERIOD * (q' - q) + (r' - r);
  }

  lemma SignedInjective(u: nat, v: nat)
    requires u < WORD && v < WORD
    ensures Signed(u) == Signed(v) <==> u == v
    ensures Signed(u) == 0 <==> u == 0
  {
  }

  function IdOfPut(n: nat): int {
    Signed(Counter(n))
  }

  lemma SameId(m: nat, n: nat)
    requires 0 < m <= n
    ensures IdOfPut(m) == IdOfPut(n) <==> (n - m) % PERIOD == 0
    ensures IdOfPut(n) != 0
  {
    CounterStep(m - 1);
    CounterStep(n - 1);
    SameCounter(m, n);
    SignedInjective(Counter(m), Counter(n));
    SignedInjective(Counter(n), 0);
  }

  /** The ids are 1, 2, 3 and so on, then the negative numbers up to -1, and then 1
      again. */
  lemma IdsInOrder(n: nat)
    ensures 0 < n < WORD / 2 ==> IdOfPut(n) == n
    ensures WORD / 2 <= n < WORD ==> IdOfPut(n) == n - WORD
    ensures IdOfPut(WORD) == 1
  {
  }

  // ---------------------------------------------------------- calls and reports

  datatype Destination = ToChannel(channel: Channel) | ToEvents

  datatype Status = InCall | Rejected | Outstanding | Reported(to: Destination, token: Option<Token>)

  /** A call of `produce`; `put` numbers its `cgoPut`, 0 when it made none. */
  datatype Call = Call(state: MessageState, id: int, put: nat, status: Status)

  datatype State = State(next: nat, table: Table, puts: nat, calls: seq<Call>)

  const Initial := State(0, map[], 0, [])

  datatype Action = Begin(state: MessageState) | Accept(i: nat) | Reject(i: nat) | Report(i: nat)

  predicate Pending(c: Call) {
    c.status.InCall? || c.status.Outstanding?
  }

  predicate Enabled(s: State, a: Action) {
    match a
    case Begin(_) => true
    case Accept(i) => i < |s.calls| && s.calls[i].status.InCall?
    case Reject(i) => i < |s.calls| && s.calls[i].status.InCall?
    case Report(i) => i < |s.calls| && s.calls[i].status.Outstanding?
  }

  /** Where a report goes and with which opaque value, as the table has it: delivery
      reports without a channel of their own are forwarded to Events. */
  function Reporting(t: Table, id: int): Status {
    if id != 0 && id in t then
      Reported(if t[id].channel.Some? then ToChannel(t[id].channel.value) else ToEvents, t[id].token)
    else Reported(ToEvents, None)
  }

  function Next(s: State, a: Action): State
    requires Enabled(s, a)
  {
    match a
    case Begin(m) =>
      if Stateful(m) then
        var next := Bumped(s.next);
        State(next, s.table[Signed(next) := m], s.puts + 1, s.calls + [Call(m, Signed(next), s.puts + 1, InCall)])
      else s.(calls := s.calls + [Call(m, 0, 0, InCall)])
    case Accept(i) => s.(calls := s.calls[i := s.calls[i].(status := Outstanding)])
    case Reject(i) =>
      s.(table := if s.calls[i].id != 0 then s.table - {s.calls[i].id} else s.table,
         calls := s.calls[i := s.calls[i].(status := Rejected)])
    case Report(i) =>
      s.(table := if s.calls[i].id != 0 then s.table - {s.calls[i].id} else s.table,
         calls := s.calls[i := s.calls[i].(status := Reporting(s.table, s.calls[i].id))])
  }

  /** What the caller of `Produce` is promised for its own message. */
  function Promised(m: MessageState): Status {
    Reported(if m.channel.Some? then ToChannel(m.channel.value) else ToEvents, m.token)
  }

  // ----------------------------------------------------------------- invariant

  /** The call's id is what its put was given, and while the call is pending the
      table has its state under that id. */
  ghost predicate CallOk(s: State, i: nat)
    requires i < |s.calls|
  {
    var c := s.calls[i];
    && (if Stateful(c.state) then 0 < c.put <= s.puts && c.id == IdOfPut(c.put) else c.id == 0 && c.put == 0)
    && (Pending(c) && Stateful(c.state) ==> c.id in s.table && s.table[c.id] == c.state)
    && (c.status.Reported? ==> c.status == Promised(c.state))
  }

  ghost predicate HasEntry(s: State, i: nat, id: int) {
    i < |s.calls| && Pending(s.calls[i]) && Stateful(s.calls[i].state) && s.calls[i].id == id
  }

  ghost predicate Invariant(s: State) {
    && s.next == Counter(s.puts)
    && (forall i {:trigger CallOk(s, i)} :: 0 <= i < |s.calls| ==> CallOk(s, i))
    && (forall i, j, id {:trigger HasEntry(s, i, id), HasEntry(s, j, id)} :: HasEntry(s, i, id) && HasEntry(s, j, id) ==> i == j)
    && (forall id :: id in s.table ==> exists i :: HasEntry(s, i, id))
  }

  /** The id of the next put is not in use: no pending call is a multiple of the
      period behind it. */
  ghost predicate FreshNext(s: State) {
    forall i :: 0 <= i < |s.calls| && Pending(s.calls[i]) && Stateful(s.calls[i].state) ==> (s.puts + 1 - s.calls[i].put) % PERIOD != 0
  }

  lemma BeginKeepsInvariant(s: State, m: MessageState)
    requires Invariant(s) && Stateful(m) && FreshNext(s)
    ensures Invariant(Next(s, Begin(m)))
  {
    var t := Next(s, Begin(m));
    CounterStep(s.puts);
    SameId(s.puts + 1, s.puts + 1);
    var newId := Signed(t.next);
    forall i | 0 <= i < |s.calls| ensures s.calls[i] == t.calls[i] && CallOk(t, i) && !HasEntry(s, i, newId) {
      assert CallOk(s, i);
      if Stateful(s.calls[i].state) {
        SameId(s.calls[i].put, s.puts + 1);
      }
    }
    assert CallOk(t, |s.calls|);
    forall i: nat, j: nat, id | HasEntry(t, i, id) && HasEntry(t, j, id) ensures i == j {
      assert i < |s.calls| ==> HasEntry(s, i, id);
      assert j < |s.calls| ==> HasEntry(s, j, id);
    }
    forall id | id in t.table ensures exists i :: HasEntry(t, i, id) {
      if id == newId {
        assert HasEntry(t, |s.calls|, id);
      } else {
        var i :| HasEntry(s, i, id);
        assert HasEntry(t, i, id);
      }
    }
  }

  /** The table goes wrong exactly when the next id is still in use. */
  lemma CollisionBreaksTable(s: State, m: MessageState)
    requires Invariant(s) && Stateful(m) && !FreshNext(s)
    ensures !Invariant(Next(s, Begin(m)))
  {
    var t := Next(s, Begin(m));
    var i :| 0 <= i < |s.calls| && Pending(s.calls[i]) && Stateful(s.calls[i].state) && (s.puts + 1 - s.calls[i].put) % PERIOD == 0;
    assert CallOk(s, i);
    CounterStep(s.puts);
    SameId(s.calls[i].put, s.puts + 1);
    assert HasEntry(t, i, Signed(t.next)) && HasEntry(t, |s.calls|, Signed(t.next));
  }

  /** A call without state of its own leaves the table alone. */
  lemma PlainBeginKeepsInvariant(s: State, m: MessageState)
    requires Invariant(s) && !Stateful(m)
    ensures Invariant(Next(s, Begin(m)))
  {
    var t := Next(s, Begin(m));
    forall i | 0 <= i < |t.calls| ensures CallOk(t, i) {
      assert i < |s.calls| ==> CallOk(s, i);
    }
    SameEntriesKeepInvariant(s, t);
  }

  lemma SameEntriesKeepInvariant(s: State, t: State)
    requires Invariant(s) && t.next == s.next && t.puts == s.puts && t.table == s.table
    requires forall i: nat :: i < |t.calls| ==> CallOk(t, i)
    requires forall i: nat, id :: HasEntry(t, i, id) <==> HasEntry(s, i, id)
    ensures Invariant(t)
  {
    forall i: nat, j: nat, id | HasEntry(t, i, id) && HasEntry(t, j, id) ensures i == j {
      assert HasEntry(s, i, id) && HasEntry(s, j, id);
    }
    forall id | id in t.table ensures exists i :: HasEntry(t, i, id) {
      var i :| HasEntry(s, i, id);
      assert HasEntry(t, i, id);
    }
  }

  lemma AcceptKeepsInvariant(s: State, k: nat)
    requires Invariant(s) && Enabled(s, Accept(k))
    ensures Invariant(Next(s, Accept(k)))
  {
    var t := Next(s, Accept(k));
    forall i | 0 <= i < |t.calls| ensures CallOk(t, i) {
      assert CallOk(s, i);
    }
    SameEntriesKeepInvariant(s, t);
  }

  /** A rejected or reported call takes its own entry, and only its own, out of
      the table; a report is the one that was promised. */
  lemma SettleKeepsInvariant(s: State, a: Action)
    requires Invariant(s) && Enabled(s, a) && (a.Reject? || a.Report?)
    ensures Invariant(Next(s, a))
  {
    var t := Next(s, a);
    var k := a.i;
    assert CallOk(s, k);
    if Stateful(s.calls[k].state) {
      SameId(s.calls[k].put, s.calls[k].put);
      assert HasEntry(s, k, s.calls[k].id);
    }
    forall i: nat, id ensures HasEntry(t, i, id) <==> HasEntry(s, i, id) && i != k {
    }
    forall i | 0 <= i < |t.calls| ensures CallOk(t, i) {
      assert CallOk(s, i);
      assert HasEntry(s, i, s.calls[i].id) && HasEntry(s, k, s.calls[i].id) ==> i == k;
    }
    SettledEntries(s, t, k);
  }

  lemma SettledEntries(s: State, t: State, k: nat)
    requires Invariant(s) && k < |s.calls| && Pending(s.calls[k])
    requires t.next == s.next && t.puts == s.puts
    requires t.table == if s.calls[k].id != 0 then s.table - {s.calls[k].id} else s.table
    requires forall i: nat :: i < |t.calls| ==> CallOk(t, i)
    requires forall i: nat, id :: HasEntry(t, i, id) <==> HasEntry(s, i, id) && i != k
    ensures Invariant(t)
  {
    forall i: nat, j: nat, id | HasEntry(t, i, id) && HasEntry(t, j, id) ensures i == j {
      assert HasEntry(s, i, id) && HasEntry(s, j, id);
    }
    forall id | id in t.table ensures exists i :: HasEntry(t, i, id) {
      var i: nat :| HasEntry(s, i, id);
      assert CallOk(s, i);
      if Stateful(s.calls[i].state) {
        SameId(s.calls[i].put, s.calls[i].put);
      }
      assert HasEntry(t, i, id);
    }
  }

  // ---------------------------------------------------------------------- runs

  ghost predicate Possible(s: State, actions: seq<Action>)
    decreases |actions|
  {
    actions != [] ==> Enabled(s, actions[0]) && Possible(Next(s, actions[0]), actions[1..])
  }

  ghost function Run(s: State, actions: seq<Action>): State
    requires Possible(s, actions)
    decreases |actions|
  {
    if actions == [] then s else Run(Next(s, actions[0]), actions[1..])
  }

  /** Fewer puts than the period during the life of every message: at each put
      every pending call is less than a period behind. */
  ghost predicate ShortLived(s: State, actions: seq<Action>)
    requires Possible(s, actions)
    decreases |actions|
  {
    actions != [] ==>
      && (actions[0].Begin? && Stateful(actions[0].state) ==>
            forall i :: 0 <= i < |s.calls| && Pending(s.calls[i]) && Stateful(s.calls[i].state) ==> s.puts + 1 - s.calls[i].put < PERIOD)
      && ShortLived(Next(s, actions[0]), actions[1..])
  }

  lemma ShortLivedIsFresh(s: State)
    requires Invariant(s)
    requires forall i :: 0 <= i < |s.calls| && Pending(s.calls[i]) && Stateful(s.calls[i].state) ==> s.puts + 1 - s.calls[i].put < PERIOD
    ensures FreshNext(s)
  {
    forall i | 0 <= i < |s.calls| && Pending(s.calls[i]) && Stateful(s.calls[i].state)
      ensures (s.puts + 1 - s.calls[i].put) % PERIOD != 0
    {
      assert CallOk(s, i);
    }
  }

  lemma {:induction false} RunKeepsInvariant(s: State, actions: seq<Action>)
    requires Invariant(s) && Possible(s, actions) && ShortLived(s, actions)
    ensures Invariant(Run(s, actions))
    decreases |actions|
  {
    if actions != [] {
      var a := actions[0];
      match a {
        case Begin(m) =>
          if Stateful(m) {
            ShortLivedIsFresh(s);
            BeginKeepsInvariant(s, m);
          } else {
            PlainBeginKeepsInvariant(s, m);
          }
        case Accept(i) => AcceptKeepsInvariant(s, i);
        case Reject(i) => SettleKeepsInvariant(s, a);
        case Report(i) => SettleKeepsInvariant(s, a);
      }
      RunKeepsInvariant(Next(s, a), actions[1..]);
    }
  }

  /** In every run of short-lived messages the table holds exactly the state of
      the calls in progress and the messages not yet reported, under distinct
      nonzero ids, and every report went where its own call asked. */
  lemma ReportsAreConserved(actions: seq<Action>)
    requires Possible(Initial, actions) && ShortLived(Initial, actions)
    ensures var s := Run(Initial, actions);
            && (forall id :: id in s.table <==> exists i :: HasEntry(s, i, id))
            && (forall i: nat, id :: HasEntry(s, i, id) ==> id != 0 && id in s.table && s.table[id] == s.calls[i].state)
            && (forall i: nat, j: nat, id :: HasEntry(s, i, id) && HasEntry(s, j, id) ==> i == j)
            && (forall i :: 0 <= i < |s.calls| && s.calls[i].status.Reported? ==>
                  && s.calls[i].status.token == s.calls[i].state.token
                  && s.calls[i].status.to == if s.calls[i].state.channel.Some? then ToChannel(s.calls[i].state.channel.value) else ToEvents)
  {
    RunKeepsInvariant(Initial, actions);
    var s := Run(Initial, actions);
    forall i: nat, id | HasEntry(s, i, id) ensures id != 0 && id in s.table && s.table[id] == s.calls[i].state {
      assert CallOk(s, i);
      SameId(s.calls[i].put, s.calls[i].put);
    }
    forall i | 0 <= i < |s.calls| && s.calls[i].status.Reported? ensures s.calls[i].status == Promised(s.calls[i].state) {
      assert CallOk(s, i);
    }
  }

  // ----------------------------------------------------------------- collisions

  /** What a collision does: the report of the older message goes where the newer
      call asked, with the newer call's opaque, and the newer message's own report
      then finds nothing and goes to Events without its opaque. */
  lemma CollisionMisdirects(s: State, m: MessageState, i: nat)
    requires Invariant(s) && Stateful(m) && i < |s.calls| && s.calls[i].status.Outstanding? && Stateful(s.calls[i].state)
    requires (s.puts + 1 - s.calls[i].put) % PERIOD == 0
    ensures var n := |s.calls|;
            var older := Next(Next(s, Begin(m)), Report(i));
            var newer := Next(Next(older, Accept(n)), Report(n));
            older.calls[i].status == Promised(m) && newer.calls[n].status == Reported(ToEvents, None)
  {
    assert CallOk(s, i);
    CounterStep(s.puts);
    SameId(s.calls[i].put, s.puts + 1);
  }

  lemma {:induction false} RunAppend(s: State, actions: seq<Action>, rest: seq<Action>)
    requires Possible(s, actions) && Possible(Run(s, actions), rest)
    ensures Possible(s, actions + rest) && Run(s, actions + rest) == Run(Run(s, actions), rest)
    decreases |actions|
  {
    if actions == [] {
      assert actions + rest == rest;
    } else {
      RunAppend(Next(s, actions[0]), actions[1..], rest);
      assert (actions + rest)[1..] == actions[1..] + rest;
    }
  }

  lemma RunTwo(s: State, a: Action, b: Action)
    requires Enabled(s, a) && Enabled(Next(s, a), b)
    ensures Possible(s, [a, b]) && Run(s, [a, b]) == Next(Next(s, a), b)
  {
    assert [a, b][1..] == [b] && [b][1..] == [];
    assert Run(Next(s, a), [b]) == Run(Next(Next(s, a), b), []);
  }

  /** One message is on its way and `n` more were tried and rejected. */
  ghost predicate Waited(s: State, first: MessageState, n: nat) {
    && Invariant(s) && s.puts == n + 1 && |s.calls| == n + 1
    && s.calls[0].state == first && s.calls[0].put == 1 && s.calls[0].status.Outstanding?
    && forall i :: 0 < i <= n ==> s.calls[i].status.Rejected?
  }

  lemma FirstStaysFresh(s: State, first: MessageState, n: nat)
    requires Waited(s, first, n) && n + 1 < PERIOD
    ensures FreshNext(s)
  {
    forall i | 0 <= i < |s.calls| && Pending(s.calls[i]) && Stateful(s.calls[i].state)
      ensures (s.puts + 1 - s.calls[i].put) % PERIOD != 0
    {
      assert i == 0;
    }
  }

  lemma WaitOnce(s: State, first: MessageState, m: MessageState, n: nat)
    requires Waited(s, first, n) && Stateful(m) && n + 1 < PERIOD
    ensures Possible(s, [Begin(m), Reject(n + 1)]) && Waited(Run(s, [Begin(m), Reject(n + 1)]), first, n + 1)
  {
    FirstStaysFresh(s, first, n);
    BeginKeepsInvariant(s, m);
    SettleKeepsInvariant(Next(s, Begin(m)), Reject(n + 1));
    RunTwo(s, Begin(m), Reject(n + 1));
  }

  lemma {:induction false} Wait(first: MessageState, m: MessageState, n: nat) returns (actions: seq<Action>)
    requires Stateful(first) && Stateful(m) && n < PERIOD
    ensures Possible(Initial, actions) && Waited(Run(Initial, actions), first, n)
    decreases n
  {
    if n == 0 {
      actions := [Begin(first), Accept(0)];
      BeginKeepsInvariant(Initial, first);
      AcceptKeepsInvariant(Next(Initial, Begin(first)), 0);
      RunTwo(Initial, Begin(first), Accept(0));
    } else {
      var before := Wait(first, m, n - 1);
      WaitOnce(Run(Initial, before), first, m, n - 1);
      RunAppend(Initial, before, [Begin(m), Reject(n)]);
      actions := before + [Begin(m), Reject(n)];
    }
  }

  /** A run from the beginning in which a message that outlives 2^64 - 1 puts is
      reported to another call's channel. */
  lemma SomeRunMisdirects(first: MessageState, second: MessageState) returns (actions: seq<Action>)
    requires Stateful(first) && Stateful(second)
    ensures Possible(Initial, actions)
    ensures var s := Run(Initial, actions);
            0 < |s.calls| && s.calls[0].state == first && s.calls[0].status == Promised(second)
  {
    var before := Wait(first, second, PERIOD - 1);
    var s := Run(Initial, before);
    CollisionMisdirects(s, second, 0);
    RunTwo(s, Begin(second), Report(0));
    RunAppend(Initial, before, [Begin(second), Report(0)]);
    actions := before + [Begin(second), Report(0)];
  }
}
