/** The pipeline never stalls: whenever the handler is ready for another packet, the stream has moved past
    everything accepted so far, whatever was lost and whatever recovery answered. */
module PipelineProgress {
  import opened Market
  import opened Sequencing
  import opened Progress
  import opened History
  import opened Venues
  import opened Pipeline

  /** Where a packet lies in the published stream. */
  lemma {:induction false} PacketPlace(packets: seq<seq<Message>>, i: nat) returns (at: nat)
    requires i < |packets|
    ensures at + |packets[i]| <= |Flatten(packets)|
    ensures forall j :: 0 <= j < |packets[i]| ==> Flatten(packets)[at + j] == packets[i][j]
  {
    var last := |packets| - 1;
    if i == last {
      at := |Flatten(packets[..last])|;
    } else {
      at := PacketPlace(packets[..last], i);
    }
  }

  /** The messages of a packet carry consecutive numbers. */
  ghost predicate Run(packet: seq<Message>) {
    forall j :: 0 < j < |packet| ==> packet[j].sequence == packet[j - 1].sequence + 1
  }

  /** Every packet the exchange builds is a run. */
  lemma PacketIsRun(v: Venue, i: nat)
    requires Venues.Good(v) && i < |v.flushed|
    ensures Run(v.flushed[i])
  {
    hide LiveIsBook, Priced, BookAfter;
    var at := PacketPlace(v.flushed, i);
    forall j | 0 <= j < |v.flushed[i]| ensures v.flushed[i][j].sequence == v.log[0].sequence + at + j {
      assert v.log[at + j] == (Flatten(v.flushed) + v.pending)[at + j] == v.flushed[i][j];
    }
  }

  /** Everything accepted is behind the stream and nothing is deliverable. */
  ghost predicate Clear(q: Sequencer, top: nat) {
    Drained(q) && (if q.started then top <= q.expected else top == 0)
  }

  /** Everything accepted is behind the stream or on a covered stretch of it. */
  ghost predicate Reaching(q: Sequencer, top: nat) {
    Clear(q, top) || (q.started && top > 0 && Covered(q, top - 1))
  }

  /** Having accepted messages up to number `k`. */
  ghost predicate UpTo(q: Sequencer, top: nat, k: nat) {
    || (q.started && k < q.expected && Clear(q, top))
    || (q.started && q.expected <= k && Covered(q, k) && top == k + 1)
  }

  ghost predicate Moving(s: System) {
    match s.handler
    case Waiting => Clear(s.sequencer, s.top)
    case Finished => Clear(s.sequencer, s.top)
    case Accepting(packet, i) =>
      && i <= |packet| && Run(packet)
      && if i == 0 then Clear(s.sequencer, s.top) else UpTo(s.sequencer, s.top, packet[i - 1].sequence)
    case Draining => Reaching(s.sequencer, s.top)
    case Pushing(_) => Reaching(s.sequencer, s.top)
  }

  lemma AcceptMoves(q: Sequencer, top: nat, packet: seq<Message>, i: nat, recovery: Recovery)
    requires Sequencing.Good(q) && i < |packet| && Run(packet)
    requires if i == 0 then Clear(q, top) else UpTo(q, top, packet[i - 1].sequence)
    ensures var k := packet[i].sequence;
            UpTo(Accept(q, FeedMessage(packet[i], false), recovery), if k < top then top else k + 1, k)
  {
    hide Sequencing.Good, Accept;
    var f, k := FeedMessage(packet[i], false), packet[i].sequence;
    AcceptCovers(q, f, recovery);
    AcceptStream(q, f, recovery);
  }

  lemma {:induction false} NextReaches(q: Sequencer, top: nat)
    requires Reaching(q, top)
    ensures var d := Next(q);
            Reaching(d.state, top) && (d.message.None? ==> Clear(d.state, top))
    decreases |q.held|
  {
    if q.started && q.expected in q.held {
      var t := Advance(q);
      assert Reaching(t, top);
      if q.held[q.expected].Skipped? {
        NextReaches(t, top);
      }
    }
  }

  lemma StepMoving(s: System, step: Step)
    requires Inv(s) && Moving(s) && Enabled(s, step)
    ensures Moving(Apply(s, step))
  {
    hide Venues.Good, EngineOk, Sequencing.Good, AllFrom, Accept, Next, Publish, FinalFlush, BookAfter;
    hide Clear, Reaching, UpTo, Run, BookSpec.Apply, BookSpec.Consistent;
    InvApplies(s);
    match step
    case Receive(i) => PacketIsRun(s.venue, i);
    case AcceptOne(recovery) =>
      AcceptMoves(s.sequencer, s.top, s.handler.packet, s.handler.i, recovery);
    case EndPacket =>
      EndReaches(s.sequencer, s.top, s.handler.packet);
    case PullNext => NextReaches(s.sequencer, s.top);
    case _ =>
  }

  lemma EndReaches(q: Sequencer, top: nat, packet: seq<Message>)
    requires if packet == [] then Clear(q, top) else UpTo(q, top, packet[|packet| - 1].sequence)
    ensures Reaching(q, top)
  {
  }

  lemma {:induction false} RunMoving(s: System, steps: seq<Step>, t: System)
    requires Inv(s) && Moving(s) && Leads(s, steps, t)
    ensures Moving(t)
    decreases |steps|
  {
    hide HandlerOk, EngineOk, Venues.Good, Apply, Moving;
    if steps != [] {
      InvApplies(s);
      StepInv(s, steps[0]);
      StepMoving(s, steps[0]);
      RunMoving(Apply(s, steps[0]), steps[1..], t);
    }
  }

  /** In every run, when the handler waits for a packet or has finished, every message it ever accepted has been
      passed by the stream. */
  lemma NeverStalls(capacity: nat, steps: seq<Step>, t: System)
    requires capacity > 0 && Reachable(capacity, steps, t)
    ensures (t.handler.Waiting? || t.handler.Finished?) && t.sequencer.started ==> t.top <= t.sequencer.expected
  {
    hide HandlerOk, EngineOk, Venues.Good;
    StartInv(capacity);
    RunMoving(Pipeline.Start(capacity), steps, t);
  }

  /** End to end: if every arrival was harmless and the last message published got through, then once the engine
      has exited its book is the exchange's book. */
  lemma BooksEqual(capacity: nat, steps: seq<Step>, t: System)
    requires capacity > 0 && CleanlyReachable(capacity, steps, t)
    requires t.engine.Exited? && t.top == FIRST_SEQUENCE + |t.venue.log|
    ensures t.book == t.venue.book && t.ring.taken == |t.venue.log|
  {
    hide HandlerOk, BookAfter, LiveIsBook, Priced, Packed, Sequencing.Good;
    NeverStalls(capacity, steps, t);
    Replication(capacity, steps, t);
    StartInv(capacity);
    RunInv(Pipeline.Start(capacity), steps, t);
    RunMoving(Pipeline.Start(capacity), steps, t);
    RunUnbroken(Pipeline.Start(capacity), steps, t);
    DeliveredPrefix(t);
    EngineFacts(t);
  }
}
