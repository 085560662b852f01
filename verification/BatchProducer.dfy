/** The channel producer that gathers messages into one batch per topic. */
module BatchProducer {
  import opened Sequences

  datatype Topic = Topic(name: string)

  datatype Message = Message(topic: Topic, payload: nat)

  /** What the channel shows, slot by slot: a message, or nothing yet. After the
      last slot the channel is closed. */
  datatype Slot = Arrives(message: Message) | Nothing

  datatype Batch = Batch(topic: Topic, messages: seq<Message>, failed: bool)

  /** One turn of the outer loop: what it received and what it produced. */
  datatype Round = Round(received: seq<Message>, batches: seq<Batch>)

  const BATCH_SIZE: nat := 1000000

  type Buffer = map<Topic, seq<Message>>

  // ------------------------------------------------------------ specification

  function Messages(slots: seq<Slot>): seq<Message> {
    if slots == [] then []
    else (if slots[0].Arrives? then [slots[0].message] else []) + Messages(slots[1..])
  }

  function ForTopic(ms: seq<Message>, topic: Topic): seq<Message> {
    if ms == [] then []
    else (if ms[0].topic == topic then [ms[0]] else []) + ForTopic(ms[1..], topic)
  }

  function MessagesFor(batch: Batch, topic: Topic): seq<Message> {
    if batch.topic == topic then batch.messages else []
  }

  function Failures(batch: Batch): seq<Message> {
    if batch.failed then batch.messages else []
  }

  /** All messages of the batches for a topic, in the order produced. */
  function BatchesFor(batches: seq<Batch>, topic: Topic): seq<Message> {
    if batches == [] then []
    else MessagesFor(batches[0], topic) + BatchesFor(batches[1..], topic)
  }

  /** The messages of the failed batches, in the order produced. */
  function FailedMessages(batches: seq<Batch>): seq<Message> {
    if batches == [] then []
    else Failures(batches[0]) + FailedMessages(batches[1..])
  }

  function AllReceived(rounds: seq<Round>): seq<Message> {
    if rounds == [] then [] else rounds[0].received + AllReceived(rounds[1..])
  }

  function AllBatches(rounds: seq<Round>): seq<Batch> {
    if rounds == [] then [] else rounds[0].batches + AllBatches(rounds[1..])
  }

  /** A round produces its own messages, topic by topic and in order, in one
      non-empty batch per topic, and holds at most `BATCH_SIZE` of them. */
  ghost predicate RoundOk(r: Round) {
    && 0 < |r.received| <= BATCH_SIZE
    && (forall topic :: BatchesFor(r.batches, topic) == ForTopic(r.received, topic))
    && (forall i, j :: 0 <= i < j < |r.batches| ==> r.batches[i].topic != r.batches[j].topic)
    && (forall i :: 0 <= i < |r.batches| ==> r.batches[i].messages != [])
  }

  lemma {:induction false} ForTopicConcat(s: seq<Message>, t: seq<Message>, topic: Topic)
    ensures ForTopic(s + t, topic) == ForTopic(s, topic) + ForTopic(t, topic)
  {
    if s == [] {
      assert s + t == t;
    } else {
      ForTopicConcat(s[1..], t, topic);
      Regroup(if s[0].topic == topic then [s[0]] else [], ForTopic(s[1..], topic), ForTopic(t, topic));
      assert (s + t)[1..] == s[1..] + t;
    }
  }

  lemma BatchesForStep(s: seq<Batch>, t: seq<Batch>, topic: Topic)
    requires s != []
    ensures BatchesFor(s + t, topic) == MessagesFor(s[0], topic) + BatchesFor(s[1..] + t, topic)
  {
    assert (s + t)[1..] == s[1..] + t;
  }

  lemma {:induction false} BatchesForConcat(s: seq<Batch>, t: seq<Batch>, topic: Topic)
    ensures BatchesFor(s + t, topic) == BatchesFor(s, topic) + BatchesFor(t, topic)
  {
    if s == [] {
      assert s + t == t;
    } else {
      BatchesForConcat(s[1..], t, topic);
      BatchesForStep(s, t, topic);
      var head, middle, tail := MessagesFor(s[0], topic), BatchesFor(s[1..], topic), BatchesFor(t, topic);
      assert BatchesFor(s, topic) == head + middle;
      Regroup(head, middle, tail);
    }
  }

  lemma FailedStep(s: seq<Batch>, t: seq<Batch>)
    requires s != []
    ensures FailedMessages(s + t) == Failures(s[0]) + FailedMessages(s[1..] + t)
  {
    assert (s + t)[1..] == s[1..] + t;
  }

  lemma {:induction false} FailedConcat(s: seq<Batch>, t: seq<Batch>)
    ensures FailedMessages(s + t) == FailedMessages(s) + FailedMessages(t)
  {
    if s == [] {
      assert s + t == t;
    } else {
      FailedConcat(s[1..], t);
      FailedStep(s, t);
      var head, middle, tail := Failures(s[0]), FailedMessages(s[1..]), FailedMessages(t);
      assert FailedMessages(s) == head + middle;
      Regroup(head, middle, tail);
    }
  }

  lemma {:induction false} RoundsConcat(s: seq<Round>, r: Round)
    ensures AllReceived(s + [r]) == AllReceived(s) + r.received
    ensures AllBatches(s + [r]) == AllBatches(s) + r.batches
  {
    if s == [] {
      assert s + [r] == [r];
      assert [r][1..] == [];
    } else {
      RoundsConcat(s[1..], r);
      assert (s + [r])[1..] == s[1..] + [r];
    }
  }

  /** The batches of all rounds, topic by topic, are the messages received. */
  lemma {:induction false} RoundsPartition(rounds: seq<Round>, topic: Topic)
    requires forall r :: r in rounds ==> RoundOk(r)
    ensures BatchesFor(AllBatches(rounds), topic) == ForTopic(AllReceived(rounds), topic)
  {
    if rounds != [] {
      assert rounds[0] in rounds;
      RoundsPartition(rounds[1..], topic);
      BatchesForConcat(rounds[0].batches, AllBatches(rounds[1..]), topic);
      ForTopicConcat(rounds[0].received, AllReceived(rounds[1..]), topic);
    }
  }

  // ----------------------------------------------------------------- the loops

  function Buffered(b: Buffer, topic: Topic): seq<Message> {
    if topic in b then b[topic] else []
  }

  /** The buffer holds, topic by topic, what the round has received. */
  ghost predicate Holds(b: Buffer, received: seq<Message>) {
    && (forall topic :: Buffered(b, topic) == ForTopic(received, topic))
    && (forall topic :: topic in b ==> b[topic] != [])
  }

  method Append(b: Buffer, m: Message, ghost received: seq<Message>) returns (b': Buffer)
    requires Holds(b, received)
    ensures Holds(b', received + [m])
  {
    b' := b[m.topic := Buffered(b, m.topic) + [m]];
    forall topic ensures Buffered(b', topic) == ForTopic(received + [m], topic) {
      ForTopicConcat(received, [m], topic);
    }
  }

  /** The messages at the front of the channel, up to the first empty moment. */
  function Ready(slots: seq<Slot>): nat {
    if slots == [] || slots[0].Nothing? then 0 else 1 + Ready(slots[1..])
  }

  /** Takes what the channel has at once, up to the batch size. */
  method Gather(slots: seq<Slot>, first: Message) returns (b: Buffer, rest: seq<Slot>, ghost received: seq<Message>)
    ensures |received| == if 1 + Ready(slots) < BATCH_SIZE then 1 + Ready(slots) else BATCH_SIZE
    ensures |rest| <= |slots|
    ensures received + Messages(rest) == [first] + Messages(slots)
    ensures 0 < |received| <= BATCH_SIZE && Holds(b, received)
  {
    received := [first];
    b := Append(map[], first, []);
    assert [] + [first] == [first];
    rest := slots;
    var count := 1;
    while rest != []
      invariant |rest| <= |slots| && count == |received| && 0 < count < BATCH_SIZE
      invariant received + Messages(rest) == [first] + Messages(slots)
      invariant Holds(b, received)
      invariant count + Ready(rest) == 1 + Ready(slots)
      decreases |rest|
    {
      var slot := rest[0];
      rest := rest[1..];
      if slot.Nothing? {
        break;
      }
      b := Append(b, slot.message, received);
      assert received + ([slot.message] + Messages(rest)) == (received + [slot.message]) + Messages(rest);
      received := received + [slot.message];
      count := count + 1;
      if count >= BATCH_SIZE {
        break;
      }
    }
  }

  /** One batch for every buffered topic that is not pending. */
  ghost predicate Flushed(b: Buffer, pending: set<Topic>, batches: seq<Batch>) {
    FlushedContents(b, pending, batches) && FlushedTopics(b, pending, batches)
  }

  ghost predicate FlushedContents(b: Buffer, pending: set<Topic>, batches: seq<Batch>) {
    forall topic {:trigger BatchesFor(batches, topic)} :: BatchesFor(batches, topic) == if topic in pending then [] else Buffered(b, topic)
  }

  ghost predicate FlushedTopics(b: Buffer, pending: set<Topic>, batches: seq<Batch>) {
    && (forall i :: 0 <= i < |batches| ==> batches[i].topic in b && batches[i].topic !in pending && batches[i].messages == b[batches[i].topic])
    && (forall i, j :: 0 <= i < j < |batches| ==> batches[i].topic != batches[j].topic)
  }

  lemma {:induction false} BatchesForSnoc(batches: seq<Batch>, batch: Batch, topic: Topic)
    ensures BatchesFor(batches + [batch], topic) == BatchesFor(batches, topic) + MessagesFor(batch, topic)
  {
    BatchesForConcat(batches, [batch], topic);
    assert [batch][1..] == [];
    assert BatchesFor([batch], topic) == MessagesFor(batch, topic) + BatchesFor([], topic);
  }

  lemma FlushOneMore(b: Buffer, pending: set<Topic>, batches: seq<Batch>, topic: Topic, failed: bool)
    requires Flushed(b, pending, batches) && topic in pending && topic in b
    ensures Flushed(b, pending - {topic}, batches + [Batch(topic, b[topic], failed)])
  {
    FlushContentsOneMore(b, pending, batches, topic, failed);
  }

  lemma FlushContentsOneMore(b: Buffer, pending: set<Topic>, batches: seq<Batch>, topic: Topic, failed: bool)
    requires FlushedContents(b, pending, batches) && topic in pending && topic in b
    ensures FlushedContents(b, pending - {topic}, batches + [Batch(topic, b[topic], failed)])
  {
    var batch := Batch(topic, b[topic], failed);
    forall other ensures BatchesFor(batches + [batch], other) == if other in pending - {topic} then [] else Buffered(b, other) {
      BatchesForSnoc(batches, batch, other);
    }
  }

  method SendToEvents(events: seq<Message>, messages: seq<Message>) returns (after: seq<Message>)
    ensures after == events + messages
  {
    after := events;
    for i := 0 to |messages|
      invariant after == events + messages[..i]
    {
      after := after + [messages[i]];
    }
  }

  /** The failed batches are those that C did not take. */
  ghost predicate FailedAs(batches: seq<Batch>, fails: Topic -> bool) {
    forall i :: 0 <= i < |batches| ==> batches[i].failed == fails(batches[i].topic)
  }

  ghost predicate RoundsFailedAs(rounds: seq<Round>, fails: (nat, Topic) -> bool) {
    forall n {:trigger rounds[n]} :: 0 <= n < |rounds| ==> FailedAs(rounds[n].batches, topic => fails(n, topic))
  }

  /** Produces the buffered batches in whatever order the map yields them; the
      messages of a failed batch go to Events. */
  method Flush(b: Buffer, fails: Topic -> bool) returns (batches: seq<Batch>, events: seq<Message>)
    ensures Flushed(b, {}, batches)
    ensures events == FailedMessages(batches) && FailedAs(batches, fails)
  {
    batches, events := [], [];
    var pending := b.Keys;
    while pending != {}
      invariant pending <= b.Keys
      invariant Flushed(b, pending, batches)
      invariant events == FailedMessages(batches) && FailedAs(batches, fails)
      decreases |pending|
    {
      var topic :| topic in pending;
      var batch := Batch(topic, b[topic], fails(topic));
      FlushOneMore(b, pending, batches, topic, batch.failed);
      FailedConcat(batches, [batch]);
      if batch.failed {
        events := SendToEvents(events, batch.messages);
      }
      assert FailedMessages([batch]) == Failures(batch);
      batches := batches + [batch];
      pending := pending - {topic};
    }
  }

  /** The rounds so far account for everything taken off the channel. */
  ghost predicate Accounted(slots: seq<Slot>, rest: seq<Slot>, batches: seq<Batch>, events: seq<Message>, rounds: seq<Round>) {
    && AllReceived(rounds) + Messages(rest) == Messages(slots)
    && batches == AllBatches(rounds) && events == FailedMessages(batches)
    && RoundsOk(rounds)
  }

  ghost predicate RoundsOk(rounds: seq<Round>) {
    forall r {:trigger RoundOk(r)} :: r in rounds ==> RoundOk(r)
  }

  lemma RoundsOkSnoc(rounds: seq<Round>, round: Round)
    requires RoundsOk(rounds) && RoundOk(round)
    ensures RoundsOk(rounds + [round])
  {
  }

  lemma AccountRound(slots: seq<Slot>, rest: seq<Slot>, batches: seq<Batch>, events: seq<Message>, rounds: seq<Round>,
                     more: seq<Slot>, round: Round)
    requires Accounted(slots, rest, batches, events, rounds) && RoundOk(round)
    requires round.received + Messages(more) == Messages(rest)
    ensures Accounted(slots, more, batches + round.batches, events + FailedMessages(round.batches), rounds + [round])
  {
    RoundsOkSnoc(rounds, round);
    RoundsConcat(rounds, round);
    FailedConcat(batches, round.batches);
    Regroup(AllReceived(rounds), round.received, Messages(more));
  }

  lemma FlushedRound(b: Buffer, received: seq<Message>, batches: seq<Batch>)
    requires Holds(b, received) && Flushed(b, {}, batches) && 0 < |received| <= BATCH_SIZE
    ensures RoundOk(Round(received, batches))
  {
    forall topic ensures BatchesFor(batches, topic) == ForTopic(received, topic) {
      assert Buffered(b, topic) == ForTopic(received, topic);
    }
  }

  /** For every schedule of arrivals and every pattern of failing batches, the
      batches for a topic are exactly the messages of that topic in order, and
      each message of a failed batch is sent to Events once. */
  method ChannelBatchProducer(slots: seq<Slot>, fails: (nat, Topic) -> bool)
    returns (batches: seq<Batch>, events: seq<Message>, ghost rounds: seq<Round>)
    ensures batches == AllBatches(rounds) && forall r :: r in rounds ==> RoundOk(r)
    ensures forall topic :: BatchesFor(batches, topic) == ForTopic(Messages(slots), topic)
    ensures events == FailedMessages(batches) && RoundsFailedAs(rounds, fails)
  {
    batches, events, rounds := [], [], [];
    var rest, n := slots, 0;
    while rest != []
      invariant Accounted(slots, rest, batches, events, rounds)
      invariant n == |rounds| && RoundsFailedAs(rounds, fails)
      decreases |rest|
    {
      var slot, after := rest[0], rest[1..];
      if slot.Arrives? {
        var b, more;
        ghost var received;
        b, more, received := Gather(after, slot.message);
        var round := n;
        var flushed, failed := Flush(b, topic => fails(round, topic));
        FlushedRound(b, received, flushed);
        AccountRound(slots, rest, batches, events, rounds, more, Round(received, flushed));
        batches, events, rounds := batches + flushed, events + failed, rounds + [Round(received, flushed)];
        rest, n := more, n + 1;
      } else {
        rest := after;
      }
    }
    assert AllReceived(rounds) == Messages(slots);
    forall topic ensures BatchesFor(batches, topic) == ForTopic(Messages(slots), topic) {
      RoundsPartition(rounds, topic);
    }
  }
}
