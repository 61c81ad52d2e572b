/** The market-data handler's work on one packet: accept every message, then drain the sequencer. */
module Handlers {
  import opened Market
  import opened Sequencing
  import opened Progress
  import opened SequenceManagers

  function FromFeed(packet: seq<Message>): seq<FeedMessage> {
    seq(|packet|, i requires 0 <= i < |packet| => FeedMessage(packet[i], false))
  }

  /** What a drain delivers. */
  ghost function Deliveries(s: Sequencer): seq<FeedMessage>
    decreases |s.held|
  {
    NextShrinks(s);
    var d := Next(s);
    if d.message.None? then [] else [d.message.value] + Deliveries(d.state)
  }

  lemma {:induction false} DrainDelivers(s: Sequencer)
    requires Good(s)
    ensures Drain(s).ledger.out == s.ledger.out + Deliveries(s)
    decreases |s.held|
  {
    NextShrinks(s);
    NextGood(s);
    if Next(s).message.Some? {
      DrainDelivers(Next(s).state);
    }
  }

  /** Accepts the packet's messages in order; `recoveries[i]` answers the requests message `i` causes. */
  method AcceptPacket(sequencer: SequenceManager, packet: seq<Message>, recoveries: seq<Recovery>)
    requires sequencer.Valid() && |recoveries| == |packet|
    modifies sequencer, sequencer.buffer
    ensures sequencer.Valid()
    ensures sequencer.view == AcceptAll(old(sequencer.view), FromFeed(packet), recoveries)
  {
    hide SequenceManager.Valid, Accept;
    ghost var fs := FromFeed(packet);
    for i := 0 to |packet|
      invariant sequencer.Valid()
      invariant sequencer.view == AcceptAll(old(sequencer.view), fs[..i], recoveries[..i])
    {
      sequencer.AcceptMessage(FeedMessage(packet[i], false), recoveries[i]);
      assert fs[..i + 1][..i] == fs[..i] && recoveries[..i + 1][..i] == recoveries[..i];
    }
    assert fs[..|packet|] == fs && recoveries[..|packet|] == recoveries;
  }

  /** Takes every deliverable message, in order. */
  method DrainAll(sequencer: SequenceManager) returns (events: seq<FeedMessage>)
    requires sequencer.Valid()
    modifies sequencer, sequencer.buffer
    ensures sequencer.Valid()
    ensures sequencer.view == Drain(old(sequencer.view)) && events == Deliveries(old(sequencer.view))
  {
    hide SequenceManager.Valid, Next;
    events := [];
    while true
      invariant sequencer.Valid()
      invariant Drain(sequencer.view) == Drain(old(sequencer.view))
      invariant events + Deliveries(sequencer.view) == Deliveries(old(sequencer.view))
      decreases |sequencer.view.held|
    {
      ghost var before := sequencer.view;
      NextShrinks(before);
      var next := sequencer.NextDeliverable();
      if next == None {
        return;
      }
      events := events + [next.value];
    }
  }

  // ---- Where deliveries come from ----

  /** Everything recovery answers while a packet is accepted. */
  ghost function AllAnswers(s: Sequencer, fs: seq<FeedMessage>, recoveries: seq<Recovery>): seq<Message>
    requires |fs| == |recoveries|
  {
    if fs == [] then []
    else
      var last := |fs| - 1;
      AllAnswers(s, fs[..last], recoveries[..last])
      + GapAnswers(AcceptAll(s, fs[..last], recoveries[..last]), fs[last].message.sequence, recoveries[last])
  }

  lemma {:induction false} AcceptAllFrom(s: Sequencer, fs: seq<FeedMessage>, recoveries: seq<Recovery>,
                                         p: FeedMessage -> bool)
    requires |fs| == |recoveries| && AllFrom(s, p) && forall i :: 0 <= i < |fs| ==> p(fs[i])
    requires forall m :: m in AllAnswers(s, fs, recoveries) ==> p(FeedMessage(m, true))
    ensures AllFrom(AcceptAll(s, fs, recoveries), p)
  {
    hide Accept, GapAnswers, AllFrom;
    if fs != [] {
      var last := |fs| - 1;
      AcceptAllFrom(s, fs[..last], recoveries[..last], p);
      AcceptFrom(AcceptAll(s, fs[..last], recoveries[..last]), fs[last], recoveries[last], p);
    }
  }

  lemma {:induction false} DrainFrom(s: Sequencer, p: FeedMessage -> bool)
    requires AllFrom(s, p)
    ensures AllFrom(Drain(s), p)
    decreases |s.held|
  {
    NextShrinks(s);
    NextFrom(s, p);
    if Next(s).message.Some? {
      DrainFrom(Next(s).state, p);
    }
  }

  ghost predicate WasHeld(s: Sequencer, e: FeedMessage) {
    exists k :: IsFilled(s, k) && s.held[k].payload == e
  }

  /** The event was held before the packet came, or the packet carries it and it is not marked as recovered, or recovery
      answered with it and it is. */
  ghost predicate Origin(s: Sequencer, packet: seq<Message>, recoveries: seq<Recovery>, e: FeedMessage)
    requires |recoveries| == |packet|
  {
    || WasHeld(s, e)
    || (!e.recovered && e.message in packet)
    || (e.recovered && e.message in AllAnswers(s, FromFeed(packet), recoveries))
  }

  lemma EventsOrigin(s: Sequencer, packet: seq<Message>, recoveries: seq<Recovery>, e: FeedMessage)
    requires |recoveries| == |packet| && Good(s)
    requires e in Deliveries(AcceptAll(s, FromFeed(packet), recoveries))
    ensures Origin(s, packet, recoveries, e)
  {
    hide Drain, AcceptAll, Deliveries, AllAnswers, Balanced, Windowed;
    var fs := FromFeed(packet);
    var t := AcceptAll(s, fs, recoveries);
    var p := x => x in s.ledger.out || Origin(s, packet, recoveries, x);
    forall k | IsFilled(s, k) ensures p(s.held[k].payload) {
      assert WasHeld(s, s.held[k].payload);
    }
    AcceptAllFrom(s, fs, recoveries, p);
    DrainFrom(t, p);
    AcceptAllGood(s, fs, recoveries);
    DrainGood(t);
    DrainDelivers(t);
    var out, n := Drain(t).ledger.out, |s.ledger.out|;
    assert out == s.ledger.out + Deliveries(t);
    var i :| 0 <= i < |Deliveries(t)| && Deliveries(t)[i] == e;
    assert out[n + i] == e;
    forall j | 0 <= j < n ensures s.ledger.out[j] != e {
      assert out[j] == s.ledger.out[j];
    }
  }

  /** Any packet: the sequencer ends drained and good, and what was taken is what the delivery history gained.  A packet
      of consecutive messages, handled from a drained state, moves the stream past its last message. */
  method HandlePacket(sequencer: SequenceManager, packet: seq<Message>, recoveries: seq<Recovery>)
    returns (events: seq<FeedMessage>)
    requires sequencer.Valid() && |recoveries| == |packet| && Good(sequencer.view)
    modifies sequencer, sequencer.buffer
    ensures sequencer.Valid() && Good(sequencer.view) && Drained(sequencer.view)
    ensures sequencer.view.ledger.out == old(sequencer.view.ledger.out) + events
    ensures forall e :: e in events ==> Origin(old(sequencer.view), packet, recoveries, e)
    ensures old(Drained(sequencer.view)) && Contiguous(FromFeed(packet)) && packet != [] ==>
              sequencer.view.expected > packet[|packet| - 1].sequence
  {
    hide SequenceManager.Valid, Good, Accept, Next, Origin;
    ghost var s, fs := sequencer.view, FromFeed(packet);
    AcceptPacket(sequencer, packet, recoveries);
    ghost var t := sequencer.view;
    events := DrainAll(sequencer);
    AcceptAllGood(s, fs, recoveries);
    DrainGood(t);
    DrainDelivers(t);
    forall e | e in events ensures Origin(s, packet, recoveries, e) {
      EventsOrigin(s, packet, recoveries, e);
    }
    if Drained(s) && Contiguous(fs) && packet != [] {
      PacketMoves(s, fs, recoveries);
    }
  }

  lemma PacketMoves(s: Sequencer, fs: seq<FeedMessage>, recoveries: seq<Recovery>)
    requires |fs| == |recoveries| > 0 && Good(s) && Drained(s) && Contiguous(fs)
    ensures Drain(AcceptAll(s, fs, recoveries)).expected > fs[|fs| - 1].message.sequence
  {
    hide Good, Accept, Drain;
    PacketCovers(s, fs, recoveries);
    var k, t := fs[|fs| - 1].message.sequence, AcceptAll(s, fs, recoveries);
    if k < t.expected {
      DrainMonotone(t);
    } else {
      DrainPasses(t, k);
    }
  }

  lemma {:induction false} AcceptAllGood(s: Sequencer, fs: seq<FeedMessage>, recoveries: seq<Recovery>)
    requires |fs| == |recoveries| && Good(s)
    ensures Good(AcceptAll(s, fs, recoveries)) && AcceptAll(s, fs, recoveries).ledger.out == s.ledger.out
  {
    hide Good, Accept;
    if fs != [] {
      var last := |fs| - 1;
      var t := AcceptAll(s, fs[..last], recoveries[..last]);
      AcceptAllGood(s, fs[..last], recoveries[..last]);
      AcceptGood(t, fs[last], recoveries[last]);
      AcceptStream(t, fs[last], recoveries[last]);
    }
  }
}
