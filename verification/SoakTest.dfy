/** The soak test's accounting of duplicated and missed messages, in 64-bit
    unsigned arithmetic and over all partitions at once. */
module SoakTest {
  import opened Sequences

  datatype Key = Key(topic: string, partition: int)

  datatype Message = Message(key: Key, id: nat)

  /** Unsigned 64-bit addition and subtraction, which wrap around. */
  function Add(a: nat, b: nat): (c: nat)
    requires a < WORD && b < WORD
    ensures c < WORD
  {
    if a + b < WORD then a + b else a + b - WORD
  }

  function Subtract(a: nat, b: nat): (c: nat)
    requires a < WORD && b < WORD
    ensures c < WORD
  {
    if b <= a then a - b else a - b + WORD
  }

  /** The word is the number up to `wraps` multiples of 2^64. */
  ghost predicate Stands(word: nat, wraps: int, number: int) {
    word < WORD && number == word + wraps * WORD
  }

  // ------------------------------------------------------------ specification

  /** The messages of one partition, in order. */
  function Ids(h: seq<Message>, k: Key): seq<nat> {
    if h == [] then []
    else Ids(h[..|h| - 1], k) + if h[|h| - 1].key == k then [h[|h| - 1].id] else []
  }

  /** The last id seen, 0 when there is none: a missing map entry reads as 0. */
  function Mark(h: seq<Message>, k: Key): nat {
    var ids := Ids(h, k);
    if ids == [] then 0 else ids[|ids| - 1]
  }

  /** How many ids a message repeats, and how many it skips. */
  function Repeats(mark: nat, id: nat): nat {
    if 0 < mark && id <= mark then mark + 1 - id else 0
  }

  function Skips(mark: nat, id: nat): nat {
    if 0 < mark && mark + 1 < id then id - (mark + 1) else 0
  }

  /** The totals over the whole history. */
  function Repeated(h: seq<Message>): nat {
    if h == [] then 0
    else Repeated(h[..|h| - 1]) + Repeats(Mark(h[..|h| - 1], h[|h| - 1].key), h[|h| - 1].id)
  }

  function Skipped(h: seq<Message>): nat {
    if h == [] then 0
    else Skipped(h[..|h| - 1]) + Skips(Mark(h[..|h| - 1], h[|h| - 1].key), h[|h| - 1].id)
  }

  /** How far a partition's ids have moved beyond one step per message. */
  function Drift(ids: seq<nat>): int {
    if ids == [] then 0 else ids[|ids| - 1] - ids[0] - (|ids| - 1)
  }

  /** What escapes the accounting: a mark of zero looks like no mark, so the step
      from an id of zero to the next one is not counted. */
  function Unseen(ids: seq<nat>): int {
    if |ids| < 2 then 0
    else
      var last: int := ids[|ids| - 1];
      Unseen(ids[..|ids| - 1]) + if ids[|ids| - 2] == 0 then last - 1 else 0
  }

  function SumDrift(h: seq<Message>, keys: seq<Key>): int {
    if keys == [] then 0 else Drift(Ids(h, keys[0])) + SumDrift(h, keys[1..])
  }

  function SumUnseen(h: seq<Message>, keys: seq<Key>): int {
    if keys == [] then 0 else Unseen(Ids(h, keys[0])) + SumUnseen(h, keys[1..])
  }

  /** One more id of a partition moves its drift by what is skipped or repeated,
      or goes unseen after a mark of zero. */
  lemma DriftStep(ids: seq<nat>, id: nat)
    ensures var mark := if ids == [] then 0 else ids[|ids| - 1];
            Drift(ids + [id]) - Unseen(ids + [id]) == Drift(ids) - Unseen(ids) + Skips(mark, id) - Repeats(mark, id)
  {
    assert (ids + [id])[..|ids|] == ids;
  }

  /** A message counts as a repetition, as a gap, or as neither, never as both, and
      as neither exactly when it is the next one or the first. */
  lemma CountedOnce(mark: nat, id: nat)
    ensures Repeats(mark, id) == 0 || Skips(mark, id) == 0
    ensures Repeats(mark, id) == 0 && Skips(mark, id) == 0 <==> mark == 0 || id == mark + 1
    ensures 0 < mark ==> Skips(mark, id) - Repeats(mark, id) == id - mark - 1
  {
  }

  /** A message changes the sums only through its own partition. */
  lemma {:induction false} SumStep(h: seq<Message>, m: Message, keys: seq<Key>)
    requires Distinct(keys)
    ensures SumDrift(h + [m], keys) - SumUnseen(h + [m], keys) ==
            SumDrift(h, keys) - SumUnseen(h, keys) + if m.key in keys then Skips(Mark(h, m.key), m.id) - Repeats(Mark(h, m.key), m.id) else 0
  {
    if keys != [] {
      SumStep(h, m, keys[1..]);
      assert (h + [m])[..|h|] == h;
      var ids := Ids(h, keys[0]);
      if keys[0] == m.key {
        assert Ids(h + [m], keys[0]) == ids + [m.id];
        DriftStep(ids, m.id);
        assert m.key !in keys[1..];
      } else {
        assert Ids(h + [m], keys[0]) == ids + [] == ids;
      }
    }
  }

  /** Over every history and all its partitions: what the counters balance to is
      the movement of the ids beyond one step per message, short of what went
      unseen after ids of zero. */
  lemma {:induction false} BalanceLaw(h: seq<Message>, keys: seq<Key>)
    requires Distinct(keys) && forall m :: m in h ==> m.key in keys
    ensures SumDrift(h, keys) == Skipped(h) - Repeated(h) + SumUnseen(h, keys)
  {
    if h == [] {
      EmptySums(keys);
    } else {
      var before, m := h[..|h| - 1], h[|h| - 1];
      assert m in h;
      BalanceLaw(before, keys);
      SumStep(before, m, keys);
      assert before + [m] == h;
    }
  }

  lemma {:induction false} EmptySums(keys: seq<Key>)
    ensures SumDrift([], keys) == 0 && SumUnseen([], keys) == 0
  {
    if keys != [] {
      EmptySums(keys[1..]);
    }
  }

  lemma {:induction false} PositiveIdsAllSeen(ids: seq<nat>)
    requires forall i :: 0 <= i < |ids| ==> 0 < ids[i]
    ensures Unseen(ids) == 0
  {
    if |ids| >= 2 {
      PositiveIdsAllSeen(ids[..|ids| - 1]);
    }
  }

  lemma {:induction false} IdsOfMessages(h: seq<Message>, k: Key)
    requires forall m :: m in h ==> 0 < m.id
    ensures forall i :: 0 <= i < |Ids(h, k)| ==> 0 < Ids(h, k)[i]
  {
    if h != [] {
      assert h[|h| - 1] in h;
      IdsOfMessages(h[..|h| - 1], k);
    }
  }

  /** One partition with positive ids: last - first - (count - 1) is missed less
      duplicated. */
  lemma PartitionLaw(h: seq<Message>, k: Key)
    requires h != [] && forall m :: m in h ==> m.key == k && 0 < m.id
    ensures Ids(h, k) != []
    ensures Drift(Ids(h, k)) == Skipped(h) - Repeated(h)
  {
    BalanceLaw(h, [k]);
    IdsOfMessages(h, k);
    PositiveIdsAllSeen(Ids(h, k));
    assert h[|h| - 1] in h;
    assert SumDrift(h, [k]) == Drift(Ids(h, k)) + SumDrift(h, []) by { assert [k][1..] == []; }
    assert SumUnseen(h, [k]) == Unseen(Ids(h, k)) + SumUnseen(h, []) by { assert [k][1..] == []; }
  }

  /** Ids 0 and 5: four ids were skipped and none is counted. */
  lemma ZeroGoesUnseen(k: Key)
    ensures var h := [Message(k, 0), Message(k, 5)];
            Ids(h, k) == [0, 5] && Drift(Ids(h, k)) == 4 && Skipped(h) == 0 && Repeated(h) == 0
  {
    var h := [Message(k, 0), Message(k, 5)];
    assert h[..1] == [Message(k, 0)] && h[..1][..0] == [];
    assert Ids(h[..1], k) == [0];
    assert Skipped(h[..1]) == 0 && Repeated(h[..1]) == 0;
  }

  // ---------------------------------------------------------------- the checker

  /** Reading a missing entry of the map of marks gives 0. */
  function MarkOf(marks: map<Key, nat>, k: Key): nat {
    if k in marks then marks[k] else 0
  }

  ghost predicate MarksFollow(marks: map<Key, nat>, h: seq<Message>) {
    forall k {:trigger Mark(h, k)} {:trigger MarkOf(marks, k)} :: MarkOf(marks, k) == Mark(h, k)
  }

  ghost predicate Bounded(h: seq<Message>) {
    forall m :: m in h ==> m.id < WORD
  }

  class Verifier {
    var hwmarks: map<Key, nat>
    var duplicates: nat
    var missed: nat
    ghost var history: seq<Message>
    ghost var duplicateWraps: int
    ghost var missedWraps: int

    /** The marks are the last ids and the counters are the totals modulo 2^64. */
    ghost predicate Valid()
      reads this
    {
      && MarksFollow(hwmarks, history) && Bounded(history)
      && Stands(duplicates, duplicateWraps, Repeated(history))
      && Stands(missed, missedWraps, Skipped(history))
    }

    constructor ()
      ensures Valid() && history == []
    {
      hwmarks, duplicates, missed, history := map[], 0, 0, [];
      duplicateWraps, missedWraps := 0, 0;
    }

    method Count(hw: nat, msgid: nat, ghost repeated: nat, ghost skipped: nat)
      requires hw < WORD && msgid < WORD
      requires Stands(duplicates, duplicateWraps, repeated) && Stands(missed, missedWraps, skipped)
      modifies this`duplicates, this`missed, this`duplicateWraps, this`missedWraps
      ensures Stands(duplicates, duplicateWraps, repeated + Repeats(hw, msgid))
      ensures Stands(missed, missedWraps, skipped + Skips(hw, msgid))
    {
      if hw > 0 {
        var following := Add(hw, 1);
        if msgid <= hw {
          var more := Subtract(following, msgid);
          var carry := if duplicates + more < WORD then 0 else 1;
          duplicateWraps := duplicateWraps + carry + if more == hw + 1 - msgid then 0 else 1;
          duplicates := Add(duplicates, more);
        } else if msgid > following {
          var more := Subtract(msgid, following);
          missedWraps := missedWraps + if missed + more < WORD then 0 else 1;
          missed := Add(missed, more);
        }
      }
    }

    method VerifyMessage(key: Key, msgid: nat)
      requires Valid() && msgid < WORD
      modifies this
      ensures Valid() && history == old(history) + [Message(key, msgid)]
    {
      var hw := MarkOf(hwmarks, key);
      MarkStep(hwmarks, history, Message(key, msgid));
      TotalsStep(history, Message(key, msgid));
      assert hw == Mark(history, key);
      Count(hw, msgid, Repeated(history), Skipped(history));
      hwmarks := hwmarks[key := msgid];
      history := history + [Message(key, msgid)];
    }
  }

  lemma {:induction false} MarkBounded(h: seq<Message>, k: Key)
    requires Bounded(h)
    ensures Mark(h, k) < WORD
  {
    if h != [] {
      assert h[|h| - 1] in h;
      MarkBounded(h[..|h| - 1], k);
    }
  }

  lemma MarkStep(marks: map<Key, nat>, h: seq<Message>, m: Message)
    requires MarksFollow(marks, h) && Bounded(h) && m.id < WORD
    ensures MarkOf(marks, m.key) == Mark(h, m.key) < WORD
    ensures MarksFollow(marks[m.key := m.id], h + [m]) && Bounded(h + [m])
  {
    MarkBounded(h, m.key);
    assert (h + [m])[..|h|] == h;
    forall k ensures MarkOf(marks[m.key := m.id], k) == Mark(h + [m], k) {
      assert MarkOf(marks, k) == Mark(h, k);
      assert Ids(h, k) + [] == Ids(h, k);
    }
  }

  lemma TotalsStep(h: seq<Message>, m: Message)
    ensures Repeated(h + [m]) == Repeated(h) + Repeats(Mark(h, m.key), m.id)
    ensures Skipped(h + [m]) == Skipped(h) + Skips(Mark(h, m.key), m.id)
  {
    assert (h + [m])[..|h|] == h;
  }
}
