/** The sequencer as it is stored: a ring of slots indexed by sequence number modulo its size. */
module SequenceManagers {
  import opened Market
  import opened Sequencing
  import Rings

  datatype SlotState = EmptySlot | FilledSlot | SkippedSlot

  datatype Slot = Slot(payload: FeedMessage, state: SlotState)

  const BLANK := FeedMessage(Message(0, 0, 0, 0, 0, MessageType.Add, Buy), false)

  /** The slot stands for number `k` of the window. */
  ghost predicate SlotShows(slot: Slot, held: map<nat, Held>, k: nat) {
    match slot.state
    case EmptySlot => k !in held
    case FilledSlot => k in held && held[k] == Filled(slot.payload)
    case SkippedSlot => k in held && held[k] == Skipped
  }

  /** The ring stands for the window that starts at `e`. */
  ghost predicate RingShows(ring: seq<Slot>, e: nat, held: map<nat, Held>) {
    && |ring| > 0
    && forall k :: e <= k < e + |ring| ==> SlotShows(ring[Rings.Slot(k, |ring|)], held, k)
  }

  /** Changing one slot changes what is held for one number only. */
  lemma RingUpdate(ring: seq<Slot>, e: nat, held: map<nat, Held>, k: nat, slot: Slot, held': map<nat, Held>)
    requires RingShows(ring, e, held) && e <= k < e + |ring|
    requires held' - {k} == held - {k} && SlotShows(slot, held', k)
    ensures RingShows(ring[Rings.Slot(k, |ring|) := slot], e, held')
  {
    hide Rings.Slot;
    var n := |ring|;
    forall j | e <= j < e + n ensures SlotShows(ring[Rings.Slot(k, n) := slot][Rings.Slot(j, n)], held', j) {
      if j < k {
        Rings.DistinctSlots(j, k, n);
      } else if k < j {
        Rings.DistinctSlots(k, j, n);
      }
      if j != k {
        assert SlotShows(ring[Rings.Slot(j, n)], held, j);
        assert j in held <==> j in held - {k};
        assert j in held' <==> j in held' - {k};
        assert j in held ==> held[j] == (held - {k})[j] == (held' - {k})[j] == held'[j];
      }
    }
  }

  /** Emptying the slot at the stream position and moving on re-uses it for the far end of the window. */
  lemma RingAdvance(ring: seq<Slot>, e: nat, held: map<nat, Held>, slot: Slot)
    requires RingShows(ring, e, held) && slot.state == EmptySlot
    requires forall k :: k in held ==> e <= k < e + |ring|
    ensures RingShows(ring[Rings.Slot(e, |ring|) := slot], e + 1, held - {e})
  {
    hide Rings.Slot;
    var n := |ring|;
    RingUpdate(ring, e, held, e, slot, held - {e});
    var ring' := ring[Rings.Slot(e, n) := slot];
    forall j | e + 1 <= j < e + 1 + n ensures SlotShows(ring'[Rings.Slot(j, n)], held - {e}, j) {
      if j == e + n {
        Rings.SameSlot(e, n);
      }
    }
  }

  /** An empty ring stands for the empty window wherever the stream starts. */
  lemma RingEmpty(ring: seq<Slot>, e: nat)
    requires RingShows(ring, 0, map[])
    ensures RingShows(ring, e, map[])
  {
    hide Rings.Slot;
    forall k | e <= k < e + |ring| ensures SlotShows(ring[Rings.Slot(k, |ring|)], map[], k) {
      var i := Rings.Slot(k, |ring|);
      Rings.SmallSlot(i, |ring|);
      assert SlotShows(ring[Rings.Slot(i, |ring|)], map[], i);
    }
  }

  class SequenceManager {
    const buffer: array<Slot>
    var expected: nat
    var started: bool
    var stats: Stats
    ghost var view: Sequencer

    ghost predicate Valid()
      reads this, buffer
    {
      && Windowed(view) && view.capacity == buffer.Length
      && view.expected == expected && view.started == started && view.stats == stats
      && RingShows(buffer[..], expected, view.held)
    }

    constructor (capacity: nat)
      requires capacity > 0
      ensures Valid() && view == Initial(capacity) && fresh(buffer)
    {
      buffer := new Slot[capacity](_ => Slot(BLANK, EmptySlot));
      expected, started, stats, view := 0, false, Initial(capacity).stats, Initial(capacity);
    }

    /** Fills a slot of the window that is not filled. */
    method FillSlot(f: FeedMessage)
      requires Valid() && started && expected <= f.message.sequence < expected + buffer.Length
      requires !IsFilled(view, f.message.sequence)
      modifies this`view, buffer
      ensures Valid() && view == Fill(old(view), f)
    {
      var k := f.message.sequence;
      RingUpdate(buffer[..], expected, view.held, k, Slot(f, FilledSlot), view.held[k := Filled(f)]);
      ghost var ring := buffer[..];
      buffer[Rings.Slot(k, buffer.Length)] := Slot(f, FilledSlot);
      assert buffer[..] == ring[Rings.Slot(k, buffer.Length) := Slot(f, FilledSlot)];
      view := Fill(view, f);
    }

    method StoreMessage(f: FeedMessage)
      requires Valid() && started && expected <= f.message.sequence < expected + buffer.Length
      modifies this`view, this`stats, buffer
      ensures Valid() && view == Store(old(view), f)
    {
      assert SlotShows(buffer[..][Rings.Slot(f.message.sequence, buffer.Length)], view.held, f.message.sequence);
      if buffer[Rings.Slot(f.message.sequence, buffer.Length)].state == FilledSlot {
        stats := stats.(duplicates := stats.duplicates + 1);
        view := view.(stats := stats);
        return;
      }
      FillSlot(f);
    }

    method StoreRecoveredMessage(m: Message)
      requires Valid() && started
      modifies this`view, this`stats, buffer
      ensures Valid() && view == StoreRecovered(old(view), m)
    {
      if m.sequence < expected || m.sequence - expected >= buffer.Length {
        return;
      }
      assert SlotShows(buffer[..][Rings.Slot(m.sequence, buffer.Length)], view.held, m.sequence);
      if buffer[Rings.Slot(m.sequence, buffer.Length)].state == FilledSlot {
        return;
      }
      FillSlot(FeedMessage(m, true));
      stats := stats.(messagesRecovered := stats.messagesRecovered + 1);
      view := view.(stats := stats);
    }

    method AcceptMessage(f: FeedMessage, recovery: Recovery)
      requires Valid()
      modifies this, buffer
      ensures Valid() && view == Accept(old(view), f, recovery)
    {
      var sequence := f.message.sequence;
      Begin(sequence);
      if sequence < expected {
        stats := stats.(duplicates := stats.duplicates + 1);
        view := view.(stats := stats);
        return;
      }
      if sequence - expected >= buffer.Length {
        ResynchronizeAt(f);
        return;
      }
      assert SlotShows(buffer[..][Rings.Slot(expected, buffer.Length)], view.held, expected);
      var gap := sequence > expected && buffer[Rings.Slot(expected, buffer.Length)].state == EmptySlot;
      StoreMessage(f);
      if gap {
        Recover(expected, sequence - 1, recovery);
      }
    }

    /** Counts an arrival; the first one fixes where the stream starts. */
    method Begin(sequence: nat)
      requires Valid()
      modifies this
      ensures Valid() && started
      ensures view == Start(old(view).(stats := old(stats).(accepted := old(stats).accepted + 1)), sequence)
    {
      stats := stats.(accepted := stats.accepted + 1);
      view := Start(view.(stats := stats), sequence);
      if !started {
        RingEmpty(buffer[..], sequence);
        expected, started := sequence, true;
      }
    }

    method EmptyAll()
      modifies buffer
      ensures forall j :: 0 <= j < buffer.Length ==> buffer[j].state == EmptySlot
    {
      for i := 0 to buffer.Length
        invariant forall j :: 0 <= j < i ==> buffer[j].state == EmptySlot
      {
        buffer[i] := buffer[i].(state := EmptySlot);
      }
    }

    method ResynchronizeAt(f: FeedMessage)
      requires Valid() && started && expected <= f.message.sequence
      modifies this, buffer
      ensures Valid() && view == Resynchronize(old(view), f)
    {
      ghost var before := view;
      stats := stats.(reorderOverflows := stats.reorderOverflows + 1,
                      unrecoverable := stats.unrecoverable + (f.message.sequence - expected));
      EmptyAll();
      expected := f.message.sequence;
      view := view.(expected := expected, held := map[], stats := stats,
                    ledger := before.ledger.(
                      passed := before.ledger.passed + (f.message.sequence - before.expected),
                      discardedFilled := before.ledger.discardedFilled + |FilledKeys(before.held)|,
                      clearedSkipped := before.ledger.clearedSkipped + |SkippedKeys(before.held)|));
      StoreMessage(f);
    }

    method Recover(from: nat, to: nat, recovery: Recovery)
      requires Valid() && started && expected <= from <= to < expected + buffer.Length
      modifies this, buffer
      ensures Valid() && view == RecoverRange(old(view), from, to, recovery)
    {
      stats := stats.(gapsDetected := stats.gapsDetected + 1,
                      missingMessages := stats.missingMessages + (to - from + 1));
      view := view.(stats := stats);
      if recovery.Client? {
        Request(from, to, recovery.request);
      }
      Skip(from, to);
    }

    /** The request loop: chunk by chunk, until one fails. */
    method Request(from: nat, to: nat, request: (nat, nat) -> Reply)
      requires Valid() && started && from <= to
      modifies this`view, this`stats, buffer
      ensures Valid() && view == RequestChunks(old(view), from, to, request)
    {
      var start := from;
      while start <= to
        invariant Valid() && started
        invariant RequestChunks(view, start, to, request) == RequestChunks(old(view), from, to, request)
        decreases 1 + to - start
      {
        var end := ChunkEnd(start, to);
        ghost var here := view;
        stats := stats.(recoveryRequests := stats.recoveryRequests + 1);
        view := view.(stats := stats);
        var reply := request(start, end);
        if reply == Failed {
          assert RequestChunks(here, start, to, request) == view;
          return;
        }
        StoreReply(reply.messages);
        start := start + MAX_RECOVERY_BATCH;
      }
    }

    method StoreReply(messages: seq<Message>)
      requires Valid() && started
      modifies this`view, this`stats, buffer
      ensures Valid() && view == StoreAll(old(view), messages)
    {
      for i := 0 to |messages|
        invariant Valid() && started && view == StoreAll(old(view), messages[..i])
      {
        StoreRecoveredMessage(messages[i]);
        assert messages[..i + 1][..i] == messages[..i];
      }
      assert messages[..|messages|] == messages;
    }

    /** Marks what recovery could not supply. */
    method Skip(from: nat, to: nat)
      requires Valid() && started && expected <= from <= to < expected + buffer.Length
      modifies this`view, this`stats, buffer
      ensures Valid() && view == SkipRange(old(view), from, to + 1)
    {
      for sequence := from to to + 1
        invariant Valid() && started && view == SkipRange(old(view), from, sequence)
      {
        assert SlotShows(buffer[..][Rings.Slot(sequence, buffer.Length)], view.held, sequence);
        ghost var ring := buffer[..];
        var slot := buffer[Rings.Slot(sequence, buffer.Length)];
        if slot.state == EmptySlot {
          RingUpdate(ring, expected, view.held, sequence, slot.(state := SkippedSlot), view.held[sequence := Skipped]);
          buffer[Rings.Slot(sequence, buffer.Length)] := slot.(state := SkippedSlot);
          assert buffer[..] == ring[Rings.Slot(sequence, buffer.Length) := slot.(state := SkippedSlot)];
          stats := stats.(unrecoverable := stats.unrecoverable + 1);
          view := view.(held := view.held[sequence := Skipped], stats := stats);
        }
      }
    }

    method NextDeliverable() returns (message: Option<FeedMessage>)
      requires Valid()
      modifies this, buffer
      ensures Valid() && Delivery(view, message) == Next(old(view))
    {
      hide Windowed, RingShows, Advance;
      if !started {
        return None;
      }
      while true
        invariant Valid() && started && Next(view) == Next(old(view))
        decreases |view.held|
      {
        var state := StateAtPosition();
        if state == EmptySlot {
          return None;
        }
        AdvanceShrinks(view);
        message := PassSlot();
        if state == FilledSlot {
          return;
        }
      }
    }

    /** The state of the slot at the stream position. */
    method StateAtPosition() returns (state: SlotState)
      requires Valid()
      ensures state == EmptySlot <==> expected !in view.held
      ensures state == FilledSlot <==> IsFilled(view, expected)
    {
      assert SlotShows(buffer[..][Rings.Slot(expected, buffer.Length)], view.held, expected);
      state := buffer[Rings.Slot(expected, buffer.Length)].state;
    }

    /** Empties the slot at the stream position and moves on; a filled slot is delivered. */
    method PassSlot() returns (message: Option<FeedMessage>)
      requires Valid() && started && expected in view.held
      modifies this, buffer
      ensures Valid() && view == Advance(old(view))
      ensures message == if old(view).held[old(expected)].Filled? then Some(old(view).held[old(expected)].payload)
                         else None
    {
      assert SlotShows(buffer[..][Rings.Slot(expected, buffer.Length)], view.held, expected);
      ghost var ring := buffer[..];
      var slot := buffer[Rings.Slot(expected, buffer.Length)];
      RingAdvance(ring, expected, view.held, slot.(state := EmptySlot));
      buffer[Rings.Slot(expected, buffer.Length)] := slot.(state := EmptySlot);
      assert buffer[..] == ring[Rings.Slot(expected, buffer.Length) := slot.(state := EmptySlot)];
      expected := expected + 1;
      view := Advance(view);
      message := None;
      if slot.state == FilledSlot {
        stats := stats.(delivered := stats.delivered + 1);
        message := Some(slot.payload);
      }
    }
  }

  lemma AdvanceShrinks(s: Sequencer)
    requires s.expected in s.held
    ensures |Advance(s).held| < |s.held| && Advance(s).started == s.started
  {
  }
}
