/** The exchange's bounded history of published messages, and what recovery achieves with it. */
module History {
  import opened Market
  import opened Sequencing
  import opened Progress
  import Rings

  /** Messages are published under consecutive numbers. */
  ghost predicate Consecutive(log: seq<Message>) {
    forall i :: 0 <= i < |log| ==> log[i].sequence == log[0].sequence + i
  }

  /** The lowest number still retained by a ring of the given capacity. */
  function Oldest(log: seq<Message>, capacity: nat): nat
    requires log != []
  {
    log[0].sequence + if |log| > capacity then |log| - capacity else 0
  }

  /** The history still holds the message with number `k`. */
  predicate Retained(log: seq<Message>, capacity: nat, k: nat) {
    log != [] && Oldest(log, capacity) <= k < log[0].sequence + |log|
  }

  /** The first `limit` retained messages numbered `from` or more and less than `upto`. */
  function FetchedBelow(log: seq<Message>, capacity: nat, from: nat, upto: nat, limit: nat): seq<Message> {
    if log == [] then []
    else
      var lo := if from < Oldest(log, capacity) then Oldest(log, capacity) else from;
      var hi := if upto < log[0].sequence + |log| then upto else log[0].sequence + |log|;
      var hi' := if hi - lo <= limit then hi else lo + limit;
      if lo >= hi' then [] else log[lo - log[0].sequence..hi' - log[0].sequence]
  }

  /** The first `limit` retained messages of [from, to]. */
  function Fetched(log: seq<Message>, capacity: nat, from: nat, to: nat, limit: nat): seq<Message> {
    FetchedBelow(log, capacity, from, to + 1, limit)
  }

  lemma FetchStep(log: seq<Message>, capacity: nat, from: nat, k: nat, limit: nat)
    requires Consecutive(log) && from <= k && |FetchedBelow(log, capacity, from, k, limit)| < limit
    ensures FetchedBelow(log, capacity, from, k + 1, limit)
         == FetchedBelow(log, capacity, from, k, limit)
            + if Retained(log, capacity, k) then [log[k - log[0].sequence]] else []
  {
  }

  lemma FetchFull(log: seq<Message>, capacity: nat, from: nat, k: nat, upto: nat, limit: nat)
    requires from <= k <= upto && |FetchedBelow(log, capacity, from, k, limit)| >= limit
    ensures FetchedBelow(log, capacity, from, upto, limit) == FetchedBelow(log, capacity, from, k, limit)
    ensures |FetchedBelow(log, capacity, from, k, limit)| == limit
  {
  }

  /** The recovery server's answer: an empty range closes the connection, a long one is cut to a batch. */
  function Served(log: seq<Message>, capacity: nat, from: nat, to: nat): Reply {
    if to < from then Failed
    else
      var span := to - from + 1;
      Answer(Fetched(log, capacity, from, to, if span > MAX_RECOVERY_BATCH then MAX_RECOVERY_BATCH else span))
  }

  /** A message is retained exactly while fewer than `capacity` messages have been published after it. */
  lemma RetainedIff(log: seq<Message>, capacity: nat, i: nat)
    requires Consecutive(log) && i < |log|
    ensures Retained(log, capacity, log[i].sequence) <==> |log| - 1 - i < capacity
    ensures forall k: nat :: Retained(log, capacity, k) ==> log[0].sequence <= k < log[0].sequence + |log|
  {
  }

  // ---- What the ring holds, whatever the numbers ----

  const BLANK := Message(0, 0, 0, 0, 0, MessageType.Add, Buy)

  /** The oldest number after `newest` has been appended, in 64-bit arithmetic: an append that lowers the number by
      more than one wraps the span round and moves the oldest number as well. */
  function Evicted(oldest: nat, newest: nat, capacity: nat): nat
    requires capacity < WORD
  {
    if 0 <= newest + 1 - oldest <= capacity then oldest
    else if newest + 1 >= capacity then newest + 1 - capacity
    else newest + 1 - capacity + WORD
  }

  ghost function OldestIn(log: seq<Message>, capacity: nat): nat
    requires log != [] && capacity < WORD
  {
    if |log| == 1 then log[0].sequence
    else Evicted(OldestIn(log[..|log| - 1], capacity), log[|log| - 1].sequence, capacity)
  }

  /** The last message written to a slot of the ring. */
  ghost function InSlot(log: seq<Message>, capacity: nat, i: nat): Message
    requires capacity > 0
  {
    if log == [] then BLANK
    else if Rings.Slot(log[|log| - 1].sequence, capacity) == i then log[|log| - 1]
    else InSlot(log[..|log| - 1], capacity, i)
  }

  /** What a fetch finds below `upto`: for each number within the bounds, whatever its slot holds. */
  ghost function Scanned(log: seq<Message>, capacity: nat, from: nat, upto: nat, limit: nat): seq<Message>
    requires 0 < capacity < WORD
    decreases upto
  {
    if log == [] || upto <= from then []
    else
      var below, k := Scanned(log, capacity, from, upto - 1, limit), upto - 1;
      if |below| < limit && OldestIn(log, capacity) <= k <= log[|log| - 1].sequence then
        below + [InSlot(log, capacity, Rings.Slot(k, capacity))]
      else below
  }

  lemma {:induction false} ScanFull(log: seq<Message>, capacity: nat, from: nat, k: nat, upto: nat, limit: nat)
    requires 0 < capacity < WORD && k <= upto && |Scanned(log, capacity, from, k, limit)| >= limit
    ensures Scanned(log, capacity, from, upto, limit) == Scanned(log, capacity, from, k, limit)
    decreases upto
  {
    if k < upto {
      ScanFull(log, capacity, from, k, upto - 1, limit);
    }
  }

  // ---- Consecutive numbers ----

  lemma ConsecutivePrefix(log: seq<Message>)
    requires Consecutive(log) && |log| > 1
    ensures Consecutive(log[..|log| - 1]) && log[|log| - 1].sequence == log[0].sequence + |log| - 1
  {
    assert forall i :: 0 <= i < |log| - 1 ==> log[..|log| - 1][i] == log[i];
  }

  lemma {:induction false} OldestConsecutive(log: seq<Message>, capacity: nat)
    requires Consecutive(log) && log != [] && 0 < capacity < WORD
    ensures OldestIn(log, capacity) == Oldest(log, capacity)
  {
    if |log| > 1 {
      ConsecutivePrefix(log);
      OldestConsecutive(log[..|log| - 1], capacity);
    }
  }

  /** Every retained message is intact in its slot. */
  lemma {:induction false} RetainedInSlot(log: seq<Message>, capacity: nat, k: nat)
    requires Consecutive(log) && 0 < capacity < WORD && Retained(log, capacity, k)
    ensures InSlot(log, capacity, Rings.Slot(k, capacity)) == log[k - log[0].sequence]
  {
    hide Rings.Slot;
    if |log| > 1 {
      ConsecutivePrefix(log);
      if k < log[|log| - 1].sequence {
        Rings.DistinctSlots(k, log[|log| - 1].sequence, capacity);
        RetainedInSlot(log[..|log| - 1], capacity, k);
      }
    }
  }

  /** While numbers are consecutive, a scan finds exactly the first retained messages of the range. */
  lemma {:induction false} ScannedConsecutive(log: seq<Message>, capacity: nat, from: nat, upto: nat, limit: nat)
    requires Consecutive(log) && 0 < capacity < WORD && from <= upto
    ensures Scanned(log, capacity, from, upto, limit) == FetchedBelow(log, capacity, from, upto, limit)
    decreases upto
  {
    hide Rings.Slot, FetchedBelow, OldestIn, InSlot;
    FetchNothing(log, capacity, from, upto, limit);
    if log != [] && from < upto {
      var k := upto - 1;
      ScannedConsecutive(log, capacity, from, k, limit);
      if |FetchedBelow(log, capacity, from, k, limit)| < limit {
        FetchStep(log, capacity, from, k, limit);
        OldestConsecutive(log, capacity);
        assert log[|log| - 1].sequence == log[0].sequence + |log| - 1;
        if Retained(log, capacity, k) {
          RetainedInSlot(log, capacity, k);
        }
      } else {
        FetchFull(log, capacity, from, k, upto, limit);
      }
    } else if log == [] {
      FetchNone(log, capacity, from, upto, limit);
    }
  }

  lemma FetchNone(log: seq<Message>, capacity: nat, from: nat, upto: nat, limit: nat)
    requires log == []
    ensures FetchedBelow(log, capacity, from, upto, limit) == []
  {
  }

  lemma FetchNothing(log: seq<Message>, capacity: nat, from: nat, to: nat, limit: nat)
    ensures FetchedBelow(log, capacity, from, from, limit) == []
    ensures to < from ==> Fetched(log, capacity, from, to, limit) == []
  {
  }

  class HistoryStore {
    const ring: array<Message>
    var oldestSequence: nat
    var newestSequence: nat
    var empty: bool
    ghost var log: seq<Message>

    ghost predicate Valid()
      reads this, ring
    {
      && 0 < ring.Length < WORD
      && (empty <==> log == [])
      && (log != [] ==>
            newestSequence == log[|log| - 1].sequence && oldestSequence == OldestIn(log, ring.Length))
      && forall i :: 0 <= i < ring.Length ==> ring[i] == InSlot(log, ring.Length, i)
    }

    constructor (capacity: nat)
      requires 0 < capacity < WORD
      ensures Valid() && log == [] && ring.Length == capacity && fresh(ring)
    {
      ring := new Message[capacity](_ => BLANK);
      oldestSequence, newestSequence, empty, log := 0, 0, true, [];
    }

    /** While numbers are consecutive, the ring holds exactly the newest messages of the log. */
    lemma HoldsNewest()
      requires Valid() && log != [] && Consecutive(log)
      ensures oldestSequence == Oldest(log, ring.Length)
      ensures forall k :: oldestSequence <= k <= newestSequence ==>
                ring[Rings.Slot(k, ring.Length)] == log[k - log[0].sequence]
    {
      hide Rings.Slot, OldestIn, InSlot;
      OldestConsecutive(log, ring.Length);
      forall k | oldestSequence <= k <= newestSequence
        ensures ring[Rings.Slot(k, ring.Length)] == log[k - log[0].sequence]
      {
        RetainedInSlot(log, ring.Length, k);
      }
    }

    method Append(message: Message)
      requires Valid()
      modifies this, ring
      ensures Valid() && log == old(log) + [message]
    {
      hide Rings.Slot;
      ring[Rings.Slot(message.sequence, ring.Length)] := message;
      if empty {
        oldestSequence := message.sequence;
        empty := false;
      }
      newestSequence := message.sequence;
      var span: int := newestSequence + 1 - oldestSequence;
      if span < 0 || span > ring.Length {
        var oldest: int := newestSequence + 1 - ring.Length;
        oldestSequence := if oldest < 0 then oldest + WORD else oldest;
      }
      log := log + [message];
      assert log[..|log| - 1] == old(log);
    }

    method Fetch(from: nat, to: nat, limit: nat) returns (out: seq<Message>)
      requires Valid()
      ensures out == Scanned(log, ring.Length, from, to + 1, limit)
      ensures Consecutive(log) ==> out == Fetched(log, ring.Length, from, to, limit)
    {
      hide Rings.Slot, FetchedBelow, OldestIn, InSlot;
      if Consecutive(log) {
        FetchNothing(log, ring.Length, from, to, limit);
        if from <= to + 1 {
          ScannedConsecutive(log, ring.Length, from, to + 1, limit);
        }
      }
      out := [];
      if empty {
        return;
      }
      var sequence := from;
      while sequence <= to && |out| < limit
        invariant from <= sequence && (sequence <= to + 1 || sequence == from)
        invariant out == Scanned(log, ring.Length, from, sequence, limit)
        decreases 1 + to - sequence
      {
        if oldestSequence <= sequence <= newestSequence {
          out := out + [ring[Rings.Slot(sequence, ring.Length)]];
        }
        sequence := sequence + 1;
      }
      if sequence <= to {
        ScanFull(log, ring.Length, from, sequence, to + 1, limit);
      }
    }
  }
}
