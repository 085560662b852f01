/** The caches of the REST client: look under the read lock, and on a miss take
    the write lock, look again, and only then ask the server. Registration and
    id lookup share one such cache and differ in the entries they accept. Deleting
    a subject clears its entries first and asks the server to delete it after. */
module DoubleChecked {
  import opened Wrappers

  type Thread = nat

  datatype Key = Key(subject: string, json: string)

  datatype Metadata = Metadata(id: int, version: int)

  datatype Kind = Registering | LookingUp

  /** A lookup asks again for entries that came without a version. The caches by
      id and by GUID accept every entry, as registration does. */
  predicate Accepts(kind: Kind, m: Metadata) {
    kind.Registering? || m.version > 0
  }

  datatype Caller =
    | Idle
    | Reading(kind: Kind, key: Key)
    | Waiting(kind: Kind, key: Key)
    | Locked(kind: Kind, key: Key)
    | Asking(kind: Kind, key: Key)
    | Deleting(subject: string)

  predicate Querying(c: Caller) {
    !c.Idle? && !c.Deleting?
  }

  /** What a finished query returned; `None` is an error. `asked` is whether it was
      the server's answer to that very query. */
  datatype Result = Result(kind: Kind, key: Key, value: Option<Metadata>, asked: bool)

  /** One key. `entry` is what the cache has for it. `given` has all successful
      answers of the server, `answers` those since the entries of the subject were
      last cleared. `answeredAt` is how often the server had deleted the subject
      when the last answer was given. */
  datatype Slot = Slot(entry: Option<Metadata>, given: seq<Metadata>, answers: seq<Metadata>, answeredAt: nat)

  /** `deletions` counts the deletions of each subject by the server. */
  datatype State = State(
    slots: map<Key, Slot>,
    writer: Option<Thread>,
    callers: map<Thread, Caller>,
    results: seq<Result>,
    deletions: map<string, nat>)

  const Initial := State(map[], None, map[], [], map[])

  /** `took` is whether the server carried the deletion out. */
  datatype Action =
    | Call(thread: Thread, kind: Kind, key: Key)
    | Read(thread: Thread)
    | Lock(thread: Thread)
    | Recheck(thread: Thread)
    | Answer(thread: Thread, reply: Option<Metadata>)
    | Invalidate(thread: Thread, subject: string)
    | ServerDelete(thread: Thread, took: bool)

  function At(s: State, t: Thread): Caller {
    if t in s.callers then s.callers[t] else Idle
  }

  function SlotAt(s: State, k: Key): Slot {
    if k in s.slots then s.slots[k] else Slot(None, [], [], 0)
  }

  function Deletions(s: State, subject: string): nat {
    if subject in s.deletions then s.deletions[subject] else 0
  }

  predicate Enabled(s: State, a: Action) {
    match a
    case Call(t, _, _) => At(s, t).Idle?
    case Read(t) => At(s, t).Reading? && s.writer.None?
    case Lock(t) => At(s, t).Waiting? && s.writer.None?
    case Recheck(t) => At(s, t).Locked?
    case Answer(t, _) => At(s, t).Asking?
    case Invalidate(t, _) => At(s, t).Idle? && s.writer.None?
    case ServerDelete(t, _) => At(s, t).Deleting?
  }

  predicate Hits(s: State, c: Caller)
    requires Querying(c)
  {
    SlotAt(s, c.key).entry.Some? && Accepts(c.kind, SlotAt(s, c.key).entry.value)
  }

  function Returns(s: State, t: Thread, value: Option<Metadata>, asked: bool): State
    requires Querying(At(s, t))
  {
    s.(callers := s.callers[t := Idle], results := s.results + [Result(At(s, t).kind, At(s, t).key, value, asked)])
  }

  function Filled(slot: Slot, m: Metadata, deletions: nat): Slot {
    Slot(Some(m), slot.given + [m], slot.answers + [m], deletions)
  }

  function Emptied(slot: Slot): Slot {
    slot.(entry := None, answers := [])
  }

  function Next(s: State, a: Action): State
    requires Enabled(s, a)
  {
    var t := a.thread;
    var c := At(s, t);
    match a
    case Call(_, kind, key) => s.(callers := s.callers[t := Reading(kind, key)])
    case Read(_) =>
      if Hits(s, c) then Returns(s, t, SlotAt(s, c.key).entry, false)
      else s.(callers := s.callers[t := Waiting(c.kind, c.key)])
    case Lock(_) => s.(writer := Some(t), callers := s.callers[t := Locked(c.kind, c.key)])
    case Recheck(_) =>
      if Hits(s, c) then Returns(s, t, SlotAt(s, c.key).entry, false).(writer := None)
      else s.(callers := s.callers[t := Asking(c.kind, c.key)])
    case Answer(_, reply) =>
      var released := Returns(s, t, reply, true).(writer := None);
      if reply.None? then released
      else released.(slots := s.slots[c.key := Filled(SlotAt(s, c.key), reply.value, Deletions(s, c.key.subject))])
    case Invalidate(_, subject) =>
      s.(slots := map k | k in s.slots :: if k.subject == subject then Emptied(s.slots[k]) else s.slots[k],
         callers := s.callers[t := Deleting(subject)])
    case ServerDelete(_, took) =>
      s.(callers := s.callers[t := Idle],
         deletions := if took then s.deletions[c.subject := Deletions(s, c.subject) + 1] else s.deletions)
  }

  predicate Clears(a: Action, subject: string) {
    a.Invalidate? && a.subject == subject
  }

  predicate Fills(s: State, a: Action, k: Key)
    requires Enabled(s, a)
  {
    a.Answer? && a.reply.Some? && At(s, a.thread).key == k
  }

  /** What a step does to one key. */
  lemma NextSlot(s: State, a: Action, k: Key)
    requires Enabled(s, a)
    ensures SlotAt(Next(s, a), k) ==
            if Fills(s, a, k) then Filled(SlotAt(s, k), a.reply.value, Deletions(s, k.subject))
            else if Clears(a, k.subject) then Emptied(SlotAt(s, k))
            else SlotAt(s, k)
  {
  }

  // ---------------------------------------------------------------- invariant

  /** The cache has the last answer since it was cleared; only answers without a
      version were replaced. */
  ghost predicate SlotOk(slot: Slot) {
    var h := slot.answers;
    && slot.entry == (if h == [] then None else Some(h[|h| - 1]))
    && (forall i :: 0 <= i < |h| - 1 ==> h[i].version <= 0)
    && (forall i :: 0 <= i < |h| ==> h[i] in slot.given)
  }

  ghost predicate KeyOk(s: State, k: Key) {
    SlotOk(SlotAt(s, k))
  }

  /** The holder of the write lock is the only one past it, and it asks only for
      what the cache cannot answer. */
  ghost predicate CallerOk(s: State, t: Thread) {
    && (At(s, t).Locked? || At(s, t).Asking? ==> s.writer == Some(t))
    && (At(s, t).Asking? ==> !Hits(s, At(s, t)))
  }

  ghost predicate ResultOk(s: State, r: Result) {
    r.value.Some? ==>
      && r.value.value in SlotAt(s, r.key).given
      && (r.kind.LookingUp? && r.value.value.version <= 0 ==> r.asked)
  }

  ghost predicate Invariant(s: State) {
    && (forall k {:trigger KeyOk(s, k)} :: KeyOk(s, k))
    && (forall t {:trigger CallerOk(s, t)} :: CallerOk(s, t))
    && (forall r {:trigger ResultOk(s, r)} :: r in s.results ==> ResultOk(s, r))
  }

  lemma StepKeepsKey(s: State, a: Action, k: Key)
    requires Enabled(s, a) && KeyOk(s, k) && CallerOk(s, a.thread)
    ensures KeyOk(Next(s, a), k)
  {
    NextSlot(s, a, k);
    if Fills(s, a, k) {
      FilledIsOk(SlotAt(s, k), a.reply.value, Deletions(s, k.subject));
    }
  }

  /** Only an entry that a lookup does not accept is asked for again. */
  lemma FilledIsOk(slot: Slot, m: Metadata, deletions: nat)
    requires SlotOk(slot) && (slot.entry.Some? ==> slot.entry.value.version <= 0)
    ensures SlotOk(Filled(slot, m, deletions))
  {
  }

  lemma StepKeepsCaller(s: State, a: Action, t: Thread)
    requires Enabled(s, a) && CallerOk(s, t) && CallerOk(s, a.thread)
    ensures CallerOk(Next(s, a), t)
  {
    if Querying(At(s, t)) {
      NextSlot(s, a, At(s, t).key);
    }
  }

  lemma StepKeepsResult(s: State, a: Action, r: Result)
    requires Enabled(s, a) && r in Next(s, a).results && (r in s.results ==> ResultOk(s, r)) && KeyOk(s, r.key)
    ensures ResultOk(Next(s, a), r)
  {
    NextSlot(s, a, r.key);
    assert r in s.results || r == Next(s, a).results[|s.results|];
  }

  lemma StepKeepsInvariant(s: State, a: Action)
    requires Invariant(s) && Enabled(s, a)
    ensures Invariant(Next(s, a))
  {
    assert CallerOk(s, a.thread);
    forall k ensures KeyOk(Next(s, a), k) {
      assert KeyOk(s, k);
      StepKeepsKey(s, a, k);
    }
    forall t ensures CallerOk(Next(s, a), t) {
      assert CallerOk(s, t);
      StepKeepsCaller(s, a, t);
    }
    forall r | r in Next(s, a).results ensures ResultOk(Next(s, a), r) {
      assert KeyOk(s, r.key);
      StepKeepsResult(s, a, r);
    }
  }

  /** No writer replaces an entry that has a version; only deleting the subject
      takes it away. */
  lemma VersionedIsNeverOverwritten(s: State, a: Action, k: Key)
    requires Invariant(s) && Enabled(s, a) && SlotAt(s, k).entry.Some? && SlotAt(s, k).entry.value.version > 0
    ensures SlotAt(Next(s, a), k).entry == if Clears(a, k.subject) then None else SlotAt(s, k).entry
  {
    assert CallerOk(s, a.thread);
    NextSlot(s, a, k);
  }

  /** A query is answered from the cache exactly when there is an entry and, for a
      lookup, the entry has a version; then it returns that entry. Otherwise it goes
      on: to the write lock after the first look, to the server after the second. */
  lemma AnsweredFromCacheIff(s: State, a: Action)
    requires Enabled(s, a) && (a.Read? || a.Recheck?)
    ensures var t, c, n := a.thread, At(s, a.thread), Next(s, a);
            var entry := SlotAt(s, c.key).entry;
            && n.slots == s.slots && n.deletions == s.deletions
            && if entry.Some? && (c.kind == LookingUp ==> entry.value.version > 0)
               then n.results == s.results + [Result(c.kind, c.key, entry, false)] && At(n, t) == Idle && n.writer == None
               else n.results == s.results && At(n, t) == (if a.Read? then Waiting(c.kind, c.key) else Asking(c.kind, c.key)) && n.writer == s.writer
  {
  }

  /** The server's answer is returned as it is and, if it is a success, cached. */
  lemma ServerAnswerIsReturned(s: State, t: Thread, reply: Option<Metadata>)
    requires Enabled(s, Answer(t, reply))
    ensures var c, n := At(s, t), Next(s, Answer(t, reply));
            && n.results == s.results + [Result(c.kind, c.key, reply, true)] && At(n, t) == Idle && n.writer == None
            && SlotAt(n, c.key).entry == if reply.Some? then reply else SlotAt(s, c.key).entry
  {
  }

  // --------------------------------------------------------------------- runs

  ghost predicate Possible(s: State, actions: seq<Action>)
    decreases |actions|
  {
    actions != [] ==> Enabled(s, actions[0]) && Possible(Next(s, actions[0]), actions[1..])
  }

  ghost function Run(s: State, actions: seq<Action>): State
    requires Possible(s, actions)
    decreases |actions|
  {
    if actions == [] then s else Run(Next(s, actions[0]), actions[1..])
  }

  /** Nobody is looking the key up. */
  ghost predicate OnlyRegistered(s: State, k: Key) {
    forall t {:trigger At(s, t)} :: Querying(At(s, t)) && At(s, t).key == k ==> At(s, t).kind.Registering?
  }

  lemma StepKeepsRegistered(s: State, a: Action, k: Key)
    requires Enabled(s, a) && OnlyRegistered(s, k) && (a.Call? && a.key == k ==> a.kind.Registering?)
    ensures OnlyRegistered(Next(s, a), k)
  {
    var n := Next(s, a);
    forall t | Querying(At(n, t)) && At(n, t).key == k ensures At(n, t).kind.Registering? {
      assert t != a.thread ==> At(n, t) == At(s, t);
      assert Querying(At(s, a.thread)) && At(s, a.thread).key == k ==> At(s, a.thread).kind.Registering?;
    }
  }

  lemma StepAnswersOnce(s: State, a: Action, k: Key)
    requires Invariant(s) && Enabled(s, a) && OnlyRegistered(s, k) && |SlotAt(s, k).answers| <= 1
    ensures |SlotAt(Next(s, a), k).answers| <= 1
    ensures !Clears(a, k.subject) && SlotAt(s, k).given == SlotAt(s, k).answers ==> SlotAt(Next(s, a), k).given == SlotAt(Next(s, a), k).answers
  {
    assert CallerOk(s, a.thread);
    assert KeyOk(s, k);
    NextSlot(s, a, k);
    assert Fills(s, a, k) ==> At(s, a.thread).kind.Registering?;
  }

  ghost predicate NeverCleared(actions: seq<Action>, subject: string) {
    forall a :: a in actions ==> !Clears(a, subject)
  }

  lemma {:induction false} RunKeepsInvariant(s: State, actions: seq<Action>, k: Key)
    requires Invariant(s) && Possible(s, actions)
    ensures Invariant(Run(s, actions))
    ensures NeverCleared(actions, k.subject) && SlotAt(s, k).entry.Some? && SlotAt(s, k).entry.value.version > 0
            ==> SlotAt(Run(s, actions), k).entry == SlotAt(s, k).entry
    decreases |actions|
  {
    if actions != [] {
      var a := actions[0];
      assert a in actions;
      StepKeepsInvariant(s, a);
      if SlotAt(s, k).entry.Some? && SlotAt(s, k).entry.value.version > 0 {
        VersionedIsNeverOverwritten(s, a, k);
      }
      RunKeepsInvariant(Next(s, a), actions[1..], k);
    }
  }

  lemma {:induction false} RunAnswersOnce(s: State, actions: seq<Action>, k: Key)
    requires Invariant(s) && Possible(s, actions) && OnlyRegistered(s, k) && |SlotAt(s, k).answers| <= 1
    requires forall a :: a in actions && a.Call? && a.key == k ==> a.kind.Registering?
    ensures |SlotAt(Run(s, actions), k).answers| <= 1
    ensures NeverCleared(actions, k.subject) && SlotAt(s, k).given == SlotAt(s, k).answers
            ==> SlotAt(Run(s, actions), k).given == SlotAt(Run(s, actions), k).answers
    decreases |actions|
  {
    if actions != [] {
      var a := actions[0];
      assert a in actions;
      StepKeepsInvariant(s, a);
      StepKeepsRegistered(s, a, k);
      StepAnswersOnce(s, a, k);
      RunAnswersOnce(Next(s, a), actions[1..], k);
    }
  }

  /** However the callers interleave: the server gives at most one successful
      answer for a key that is only registered each time its subject's entries are
      cleared, and if they never are, every caller that succeeds returns that
      answer. */
  lemma OneAnswerForAll(actions: seq<Action>, k: Key)
    requires Possible(Initial, actions)
    requires forall a :: a in actions && a.Call? && a.key == k ==> a.kind.Registering?
    ensures var s, slot := Run(Initial, actions), SlotAt(Run(Initial, actions), k);
            && |slot.answers| <= 1
            && (NeverCleared(actions, k.subject) ==>
                  && |slot.given| <= 1
                  && forall r :: r in s.results && r.key == k && r.value.Some? ==> slot.given == [r.value.value])
  {
    InitialInvariant();
    RunKeepsInvariant(Initial, actions, k);
    RunAnswersOnce(Initial, actions, k);
    var s := Run(Initial, actions);
    forall r | r in s.results && r.key == k && r.value.Some? && NeverCleared(actions, k.subject)
      ensures SlotAt(s, k).given == [r.value.value]
    {
      assert ResultOk(s, r);
    }
  }

  lemma InitialInvariant()
    ensures Invariant(Initial)
  {
    assert forall k :: KeyOk(Initial, k);
    assert forall t :: CallerOk(Initial, t);
  }

  /** With lookups in the mix a key is asked for again only while its entry has
      no version: since its entry was last cleared, all answers but the last came
      without one. A lookup never returns an entry without a version unless the
      server just gave it that answer. */
  lemma RepeatedOnlyWithoutVersion(actions: seq<Action>, k: Key)
    requires Possible(Initial, actions)
    ensures var h := SlotAt(Run(Initial, actions), k).answers;
            forall i :: 0 <= i < |h| - 1 ==> h[i].version <= 0
    ensures forall r :: r in Run(Initial, actions).results && r.value.Some? ==>
              && r.value.value in SlotAt(Run(Initial, actions), r.key).given
              && (r.kind == LookingUp && r.value.value.version <= 0 ==> r.asked)
  {
    InitialInvariant();
    RunKeepsInvariant(Initial, actions, k);
    assert KeyOk(Run(Initial, actions), k);
    forall r | r in Run(Initial, actions).results && r.value.Some?
      ensures r.value.value in SlotAt(Run(Initial, actions), r.key).given && (r.kind == LookingUp && r.value.value.version <= 0 ==> r.asked)
    {
      assert ResultOk(Run(Initial, actions), r);
    }
  }

  // --------------------------------------------------------- deleted subjects

  /** The entry of the key, if there is one, is from after the last deletion of
      its subject. */
  ghost predicate Current(s: State, k: Key) {
    SlotAt(s, k).entry.Some? ==> SlotAt(s, k).answeredAt == Deletions(s, k.subject)
  }

  ghost predicate AllCurrent(s: State) {
    forall k {:trigger Current(s, k)} :: Current(s, k)
  }

  /** No key of the subject was answered since its entries were last cleared. */
  ghost predicate Quiet(s: State, subject: string) {
    forall k: Key {:trigger SlotAt(s, k)} :: k.subject == subject ==> SlotAt(s, k).answers == []
  }

  /** A deletion that the server carries out leaves every entry current if and only
      if no key of the subject was answered since its entries were last cleared:
      the entries are cleared before the server is asked, not after. */
  lemma DeletionIsCleanIff(s: State, t: Thread)
    requires Invariant(s) && AllCurrent(s) && Enabled(s, ServerDelete(t, true))
    ensures AllCurrent(Next(s, ServerDelete(t, true))) <==> Quiet(s, At(s, t).subject)
  {
    var n, subject := Next(s, ServerDelete(t, true)), At(s, t).subject;
    if Quiet(s, subject) {
      forall k ensures Current(n, k) {
        assert Current(s, k) && KeyOk(s, k);
        assert k.subject == subject ==> SlotAt(s, k).answers == [];
      }
    } else {
      var k: Key :| k.subject == subject && SlotAt(s, k).answers != [];
      assert Current(s, k) && KeyOk(s, k);
      assert !Current(n, k);
    }
  }

  lemma OtherStepsKeepCurrent(s: State, a: Action)
    requires AllCurrent(s) && Enabled(s, a) && !(a.ServerDelete? && a.took)
    ensures AllCurrent(Next(s, a))
  {
    forall k ensures Current(Next(s, a), k) {
      assert Current(s, k);
      NextSlot(s, a, k);
    }
  }

  /** No deletion in the run finds an entry that was answered after its clearing. */
  ghost predicate CleanDeletions(s: State, actions: seq<Action>)
    requires Possible(s, actions)
    decreases |actions|
  {
    actions != [] ==>
      && (actions[0].ServerDelete? && actions[0].took ==> Quiet(s, At(s, actions[0].thread).subject))
      && CleanDeletions(Next(s, actions[0]), actions[1..])
  }

  lemma {:induction false} RunKeepsCurrent(s: State, actions: seq<Action>)
    requires Invariant(s) && AllCurrent(s) && Possible(s, actions) && CleanDeletions(s, actions)
    ensures AllCurrent(Run(s, actions))
    decreases |actions|
  {
    if actions != [] {
      var a := actions[0];
      StepKeepsInvariant(s, a);
      if a.ServerDelete? && a.took {
        DeletionIsCleanIff(s, a.thread);
      } else {
        OtherStepsKeepCurrent(s, a);
      }
      RunKeepsCurrent(Next(s, a), actions[1..]);
    }
  }

  lemma RunCons(s: State, a: Action, rest: seq<Action>)
    requires Enabled(s, a) && Possible(Next(s, a), rest)
    ensures Possible(s, [a] + rest) && Run(s, [a] + rest) == Run(Next(s, a), rest)
  {
    assert ([a] + rest)[1..] == rest;
  }

  /** One thread deletes the subject, and between its two steps another registers
      a schema of it; a third then asks for that schema. */
  function Overtaking(k: Key, m: Metadata): seq<Action> {
    [Invalidate(0, k.subject)] + ([Call(1, Registering, k)] + ([Read(1)] + ([Lock(1)] + ([Recheck(1)] +
    ([Answer(1, Some(m))] + ([ServerDelete(0, true)] + ([Call(2, Registering, k)] + ([Read(2)] + []))))))))
  }

  /** The deleted schema stays cached, and the third thread is told it is there
      without the server being asked. */
  lemma DeletedSchemaStaysCached(k: Key, m: Metadata)
    ensures Possible(Initial, Overtaking(k, m))
    ensures var s := Run(Initial, Overtaking(k, m));
            && !Current(s, k) && SlotAt(s, k).given == [m]
            && s.results == [Result(Registering, k, Some(m), true), Result(Registering, k, Some(m), false)]
  {
    var last := [ServerDelete(0, true)] + ([Call(2, Registering, k)] + ([Read(2)] + []));
    var middle := [Lock(1)] + ([Recheck(1)] + ([Answer(1, Some(m))] + last));
    var waiting := State(map[], None, map[0 := Deleting(k.subject), 1 := Waiting(Registering, k)], [], map[]);
    var result := Result(Registering, k, Some(m), true);
    var answered := State(map[k := Slot(Some(m), [m], [m], 0)], None, map[0 := Deleting(k.subject), 1 := Idle], [result], map[]);
    ToldOfDeleted(answered, k, m);
    Registers(waiting, answered, k, m, last);
    MissesFirst(waiting, k, middle);
  }

  lemma MissesFirst(waiting: State, k: Key, rest: seq<Action>)
    requires waiting == State(map[], None, map[0 := Deleting(k.subject), 1 := Waiting(Registering, k)], [], map[])
    requires Possible(waiting, rest)
    ensures var actions := [Invalidate(0, k.subject)] + ([Call(1, Registering, k)] + ([Read(1)] + rest));
            Possible(Initial, actions) && Run(Initial, actions) == Run(waiting, rest)
  {
    var s1 := Next(Initial, Invalidate(0, k.subject));
    var s2 := Next(s1, Call(1, Registering, k));
    assert Next(s2, Read(1)) == waiting;
    RunCons(s2, Read(1), rest);
    RunCons(s1, Call(1, Registering, k), [Read(1)] + rest);
    RunCons(Initial, Invalidate(0, k.subject), [Call(1, Registering, k)] + ([Read(1)] + rest));
  }

  lemma Registers(waiting: State, answered: State, k: Key, m: Metadata, rest: seq<Action>)
    requires waiting == State(map[], None, map[0 := Deleting(k.subject), 1 := Waiting(Registering, k)], [], map[])
    requires answered == State(map[k := Slot(Some(m), [m], [m], 0)], None, map[0 := Deleting(k.subject), 1 := Idle],
                               [Result(Registering, k, Some(m), true)], map[])
    requires Possible(answered, rest)
    ensures var actions := [Lock(1)] + ([Recheck(1)] + ([Answer(1, Some(m))] + rest));
            Possible(waiting, actions) && Run(waiting, actions) == Run(answered, rest)
  {
    var s1 := Next(waiting, Lock(1));
    var s2 := Next(s1, Recheck(1));
    var s3 := Next(s2, Answer(1, Some(m)));
    assert Filled(SlotAt(s2, k), m, 0) == Slot(Some(m), [m], [m], 0);
    assert s3.slots == answered.slots && s3.callers == answered.callers && s3.results == answered.results;
    RunCons(s2, Answer(1, Some(m)), rest);
    RunCons(s1, Recheck(1), [Answer(1, Some(m))] + rest);
    RunCons(waiting, Lock(1), [Recheck(1)] + ([Answer(1, Some(m))] + rest));
  }

  lemma ToldOfDeleted(s: State, k: Key, m: Metadata)
    requires s == State(map[k := Slot(Some(m), [m], [m], 0)], None, map[0 := Deleting(k.subject), 1 := Idle],
                        [Result(Registering, k, Some(m), true)], map[])
    ensures var actions := [ServerDelete(0, true)] + ([Call(2, Registering, k)] + ([Read(2)] + []));
            && Possible(s, actions) && SlotAt(Run(s, actions), k) == SlotAt(s, k) && Deletions(Run(s, actions), k.subject) == 1
            && Run(s, actions).results == s.results + [Result(Registering, k, Some(m), false)]
  {
    var s1 := Next(s, ServerDelete(0, true));
    var s2 := Next(s1, Call(2, Registering, k));
    RunCons(s2, Read(2), []);
    RunCons(s1, Call(2, Registering, k), [Read(2)] + []);
    RunCons(s, ServerDelete(0, true), [Call(2, Registering, k)] + ([Read(2)] + []));
  }
}
