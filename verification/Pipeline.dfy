/** The whole pipeline as one step system: exchange, lossy network, handler, ring and engine.  Any packet the
    exchange has built may be received any number of times, in any order, or never. */
module Pipeline {
  import opened Market
  import opened BookSpec
  import opened Sequencing
  import opened Progress
  import opened History
  import opened Completeness
  import opened GapFree
  import opened Channels
  import opened Venues

  /** The handler: waiting for a packet, accepting its messages, draining the sequencer, waiting for room in
      the ring, or finished. */
  datatype Handler =
    | Waiting
    | Accepting(packet: seq<Message>, i: nat)
    | Draining
    | Pushing(event: FeedMessage)
    | Finished

  datatype Engine = Popping | AtDone | AtEmpty | Exited

  /** `top` records one more than the highest number accepted so far; no step looks at it. */
  datatype System = System(
    venue: Venue, sequencer: Sequencer, handler: Handler, producerDone: bool,
    ring: Channel<Message>, engine: Engine, book: Book, top: nat)

  datatype Step =
    | PublishOne(choice: Choice, now: nat, batch: nat)
    | FlushRest
    | Receive(i: nat)
    | AcceptOne(recovery: Recovery)
    | EndPacket
    | PullNext
    | PushEvent
    | FinishHandler
    | PopEvent(seen: nat)
    | LoadDone(yes: bool)
    | CheckEmpty(seen: nat)

  /** Slots of the shared-memory ring. */
  const RING_CAPACITY: nat := 0x1_0000

  function Start(capacity: nat): System {
    System(Opening(), Sequencing.Initial(capacity), Waiting, false, EmptyChannel(), Popping, EmptyBook(CFG), 0)
  }

  predicate Enabled(s: System, step: Step) {
    match step
    case PublishOne(c, _, _) => Drawable(s.venue, c)
    case FlushRest => true
    case Receive(i) => s.handler.Waiting? && i < |s.venue.flushed|
    case AcceptOne(_) => s.handler.Accepting? && s.handler.i < |s.handler.packet|
    case EndPacket => s.handler.Accepting? && s.handler.i == |s.handler.packet|
    case PullNext => s.handler.Draining?
    case PushEvent => s.handler.Pushing? && s.ring.taken <= |s.ring.sent| && |s.ring.InFlight()| < RING_CAPACITY
    case FinishHandler => s.handler.Waiting?
    case PopEvent(seen) => s.engine.Popping? && s.ring.seen <= seen <= |s.ring.sent|
    case LoadDone(yes) => s.engine.AtDone? && (yes ==> s.producerDone)
    case CheckEmpty(seen) => s.engine.AtEmpty? && s.ring.seen <= seen <= |s.ring.sent|
  }

  function Apply(s: System, step: Step): System
    requires Consistent(CFG, s.venue.book) && Consistent(CFG, s.book) && s.ring.taken <= s.ring.seen
    requires Enabled(s, step)
  {
    match step
    case PublishOne(c, now, batch) => s.(venue := Publish(s.venue, c, now, batch))
    case FlushRest => s.(venue := FinalFlush(s.venue))
    case Receive(i) => s.(handler := Accepting(s.venue.flushed[i], 0))
    case AcceptOne(recovery) =>
      s.(sequencer := Accept(s.sequencer, FeedMessage(s.handler.packet[s.handler.i], false), recovery),
         handler := Accepting(s.handler.packet, s.handler.i + 1),
         top := if s.handler.packet[s.handler.i].sequence < s.top then s.top
                else s.handler.packet[s.handler.i].sequence + 1)
    case EndPacket => s.(handler := Handler.Draining)
    case PullNext =>
      var d := Next(s.sequencer);
      s.(sequencer := d.state, handler := if d.message.None? then Waiting else Pushing(d.message.value))
    case PushEvent =>
      s.(ring := s.ring.(sent := s.ring.sent + [s.handler.event.message]), handler := Handler.Draining)
    case FinishHandler => s.(handler := Finished, producerDone := true)
    case PopEvent(seen) =>
      if s.ring.taken == seen then s.(ring := s.ring.(seen := seen), engine := AtDone)
      else s.(ring := s.ring.(seen := seen, taken := s.ring.taken + 1),
              book := BookSpec.Apply(CFG, s.book, OpOf(s.ring.sent[s.ring.taken])).book)
    case LoadDone(yes) =>
      if yes then s.(ring := s.ring.(seen := |s.ring.sent|), engine := AtEmpty) else s.(engine := Popping)
    case CheckEmpty(seen) =>
      s.(ring := s.ring.(seen := seen), engine := if s.ring.taken == seen then Exited else Popping)
  }

  // ---- What holds of every run ----

  /** The message is the one the exchange published under its number. */
  ghost predicate Published(log: seq<Message>, m: Message) {
    FIRST_SEQUENCE <= m.sequence < FIRST_SEQUENCE + |log| && log[m.sequence - FIRST_SEQUENCE] == m
  }

  /** Whatever recovery answers to the arrival of `k` was published. */
  ghost predicate Honest(q: Sequencer, k: nat, recovery: Recovery, log: seq<Message>) {
    forall m :: m in GapAnswers(q, k, recovery) ==> Published(log, m)
  }

  function Payloads(fs: seq<FeedMessage>): seq<Message> {
    seq(|fs|, i requires 0 <= i < |fs| => fs[i].message)
  }

  /** Delivered but not yet in the ring. */
  function InHand(s: System): seq<Message> {
    if s.handler.Pushing? then [s.handler.event.message] else []
  }

  ghost predicate HandlerOk(s: System) {
    && Sequencing.Good(s.sequencer)
    && AllFrom(s.sequencer, (f: FeedMessage) => Published(s.venue.log, f.message))
    && Payloads(s.sequencer.ledger.out) == s.ring.sent + InHand(s)
    && (s.handler.Accepting? ==>
          && s.handler.i <= |s.handler.packet|
          && forall j :: 0 <= j < |s.handler.packet| ==> Published(s.venue.log, s.handler.packet[j]))
  }

  ghost predicate EngineOk(s: System) {
    && s.ring.Valid()
    && s.book == BookAfter(s.ring.Received())
    && (s.producerDone <==> s.handler.Finished?)
    && (s.engine.AtEmpty? || s.engine.Exited? ==> s.producerDone && s.ring.seen == |s.ring.sent|)
    && (s.engine.Exited? ==> s.ring.taken == |s.ring.sent|)
  }

  ghost predicate Inv(s: System) {
    Venues.Good(s.venue) && HandlerOk(s) && EngineOk(s)
  }

  ghost predicate StepHonest(s: System, step: Step) {
    step.AcceptOne? && Enabled(s, step) ==>
      Honest(s.sequencer, s.handler.packet[s.handler.i].sequence, step.recovery, s.venue.log)
  }

  lemma InvApplies(s: System)
    requires Inv(s)
    ensures Consistent(CFG, s.venue.book) && Consistent(CFG, s.book) && s.ring.taken <= s.ring.seen
  {
  }

  lemma StepVenue(s: System, step: Step)
    requires Inv(s) && Enabled(s, step)
    ensures Venues.Good(Apply(s, step).venue)
    ensures s.venue.log <= Apply(s, step).venue.log
  {
    hide HandlerOk, EngineOk, Venues.Good, Consistent, Accept, Next, BookSpec.Apply;
    InvApplies(s);
    match step
    case PublishOne(c, now, batch) => PublishGood(s.venue, c, now, batch);
    case FlushRest => FinalFlushGood(s.venue);
    case _ =>
  }

  /** Every message of a packet is published. */
  lemma {:induction false} FlattenMembers(packets: seq<seq<Message>>, i: nat, j: nat)
    requires i < |packets| && j < |packets[i]|
    ensures packets[i][j] in Flatten(packets)
  {
    var last := |packets| - 1;
    if i < last {
      FlattenMembers(packets[..last], i, j);
    }
  }

  lemma PacketPublished(v: Venue, i: nat, j: nat)
    requires Venues.Good(v) && i < |v.flushed| && j < |v.flushed[i]|
    ensures Published(v.log, v.flushed[i][j])
  {
    FlattenMembers(v.flushed, i, j);
    var m := v.flushed[i][j];
    assert m in Flatten(v.flushed) + v.pending;
    var k :| 0 <= k < |v.log| && v.log[k] == m;
  }

  lemma AllFromGrows(s: Sequencer, log: seq<Message>, log': seq<Message>)
    requires log <= log' && AllFrom(s, (f: FeedMessage) => Published(log, f.message))
    ensures AllFrom(s, (f: FeedMessage) => Published(log', f.message))
  {
  }

  lemma AcceptHandler(s: System, recovery: Recovery)
    requires Inv(s) && Enabled(s, AcceptOne(recovery)) && StepHonest(s, AcceptOne(recovery))
    ensures HandlerOk(Apply(s, AcceptOne(recovery)))
  {
    hide EngineOk, Venues.Good, Sequencing.Good, Accept, AllFrom, Consistent, BookSpec.Apply, Publish, FinalFlush, Next;
    hide GapAnswers;
    InvApplies(s);
    var f := FeedMessage(s.handler.packet[s.handler.i], false);
    AcceptGood(s.sequencer, f, recovery);
    AcceptFrom(s.sequencer, f, recovery, (f: FeedMessage) => Published(s.venue.log, f.message));
    AcceptStream(s.sequencer, f, recovery);
  }

  lemma PullHandler(s: System)
    requires Inv(s) && Enabled(s, PullNext)
    ensures HandlerOk(Apply(s, PullNext))
  {
    hide EngineOk, Venues.Good, Sequencing.Good, Next, AllFrom, Consistent, BookSpec.Apply, Publish, FinalFlush, Accept;
    InvApplies(s);
    NextGood(s.sequencer);
    NextFrom(s.sequencer, (f: FeedMessage) => Published(s.venue.log, f.message));
    var d := Next(s.sequencer);
    if d.message.Some? {
      assert Payloads(s.sequencer.ledger.out + [d.message.value])
          == Payloads(s.sequencer.ledger.out) + [d.message.value.message];
    }
  }

  lemma VenueHandler(s: System, venue: Venue)
    requires HandlerOk(s) && s.venue.log <= venue.log
    ensures HandlerOk(s.(venue := venue))
  {
    AllFromGrows(s.sequencer, s.venue.log, venue.log);
  }

  lemma StepHandler(s: System, step: Step)
    requires Inv(s) && Enabled(s, step) && StepHonest(s, step)
    ensures HandlerOk(Apply(s, step))
  {
    hide EngineOk, Venues.Good, Sequencing.Good, AllFrom, Consistent, Accept, Next, Publish, FinalFlush, BookSpec.Apply;
    InvApplies(s);
    StepVenue(s, step);
    match step
    case Receive(i) =>
      forall j | 0 <= j < |s.venue.flushed[i]| ensures Published(s.venue.log, s.venue.flushed[i][j]) {
        PacketPublished(s.venue, i, j);
      }
    case AcceptOne(recovery) => AcceptHandler(s, recovery);
    case PullNext => PullHandler(s);
    case PublishOne(c, now, batch) => VenueHandler(s, Publish(s.venue, c, now, batch));
    case FlushRest => VenueHandler(s, FinalFlush(s.venue));
    case _ =>
  }

  lemma StepEngine(s: System, step: Step)
    requires Inv(s) && Enabled(s, step)
    ensures EngineOk(Apply(s, step))
  {
    hide HandlerOk, Venues.Good, Consistent, BookAfter, Accept, Next, Publish, FinalFlush, BookSpec.Apply;
    InvApplies(s);
    if step.PopEvent? && s.ring.taken != step.seen {
      BookAfterAppend(s.ring.Received(), s.ring.sent[s.ring.taken]);
      assert s.ring.sent[..s.ring.taken + 1] == s.ring.Received() + [s.ring.sent[s.ring.taken]];
    } else if step.PushEvent? {
      assert (s.ring.sent + [s.handler.event.message])[..s.ring.taken] == s.ring.Received();
    }
  }

  lemma StepInv(s: System, step: Step)
    requires Inv(s) && Enabled(s, step) && StepHonest(s, step)
    ensures Inv(Apply(s, step))
  {
    InvApplies(s);
    StepVenue(s, step);
    StepHandler(s, step);
    StepEngine(s, step);
  }

  lemma StartInv(capacity: nat)
    requires capacity > 0
    ensures Inv(Start(capacity))
  {
    hide Venues.Good, Sequencing.Good, BookAfter, EmptyBook;
    RunGood(capacity, []);
    OpeningGood();
    BookAfterNothing();
  }

  /** The steps lead from `s` to `t`; recovery answers to no arrival with anything that was not
      published. */
  ghost predicate Leads(s: System, steps: seq<Step>, t: System)
    requires Inv(s)
    decreases |steps|
  {
    InvApplies(s);
    if steps == [] then t == s
    else
      Enabled(s, steps[0]) && StepHonest(s, steps[0]) &&
      (StepInv(s, steps[0]);
       Leads(Apply(s, steps[0]), steps[1..], t))
  }

  ghost predicate Reachable(capacity: nat, steps: seq<Step>, t: System)
    requires capacity > 0
  {
    StartInv(capacity);
    Leads(Start(capacity), steps, t)
  }

  lemma {:induction false} RunInv(s: System, steps: seq<Step>, t: System)
    requires Inv(s) && Leads(s, steps, t)
    ensures Inv(t)
    decreases |steps|
  {
    hide HandlerOk, EngineOk, Venues.Good, Apply;
    if steps != [] {
      InvApplies(s);
      StepInv(s, steps[0]);
      RunInv(Apply(s, steps[0]), steps[1..], t);
    }
  }

  /** Whatever is lost, duplicated or reordered and whatever recovery fails to supply: the engine consumes
      genuine messages, in publication order, each at most once, its book is the book of what it has consumed,
      and when it exits it has consumed everything the handler delivered. */
  lemma AlwaysASubstream(capacity: nat, steps: seq<Step>, t: System)
    requires capacity > 0
    requires Reachable(capacity, steps, t)
    ensures t.ring.taken <= |t.ring.sent| && t.book == BookAfter(t.ring.Received())
    ensures forall i :: 0 <= i < |t.ring.sent| ==> Published(t.venue.log, t.ring.sent[i])
    ensures forall i, j :: 0 <= i < j < |t.ring.sent| ==> t.ring.sent[i].sequence < t.ring.sent[j].sequence
    ensures t.engine.Exited? ==> t.ring.Received() == Payloads(t.sequencer.ledger.out)
  {
    hide HandlerOk, EngineOk, Venues.Good, BookAfter;
    StartInv(capacity);
    RunInv(Start(capacity), steps, t);
    DeliveredFacts(t);
    EngineFacts(t);
  }

  lemma EngineFacts(t: System)
    requires Inv(t)
    ensures t.ring.taken <= |t.ring.sent| && t.book == BookAfter(t.ring.Received())
    ensures t.engine.Exited? ==> t.ring.Received() == Payloads(t.sequencer.ledger.out)
  {
  }

  lemma DeliveredFacts(t: System)
    requires Inv(t)
    ensures forall i :: 0 <= i < |t.ring.sent| ==> Published(t.venue.log, t.ring.sent[i])
    ensures forall i, j :: 0 <= i < j < |t.ring.sent| ==> t.ring.sent[i].sequence < t.ring.sent[j].sequence
  {
    hide EngineOk, Venues.Good, Balanced, Windowed;
    var out := t.sequencer.ledger.out;
    forall i | 0 <= i < |t.ring.sent|
      ensures t.ring.sent[i] == out[i].message && Published(t.venue.log, out[i].message)
    {
      assert t.ring.sent[i] == Payloads(out)[i];
    }
  }

  // ---- Exact replication ----

  ghost predicate StepClean(s: System, step: Step) {
    step.AcceptOne? && Enabled(s, step) ==>
      Harmless(s.sequencer, s.handler.packet[s.handler.i].sequence, step.recovery)
  }

  lemma StepUnbroken(s: System, step: Step)
    requires Inv(s) && Unbroken(s.sequencer) && Enabled(s, step) && StepClean(s, step)
    ensures Unbroken(Apply(s, step).sequencer)
  {
    hide EngineOk, Unbroken, Harmless, Accept, Next, Publish, FinalFlush, BookSpec.Apply, Consistent;
    hide Packed, LiveIsBook, Priced;
    InvApplies(s);
    match step
    case AcceptOne(recovery) =>
      UnbrokenIff(s.sequencer, FeedMessage(s.handler.packet[s.handler.i], false), recovery);
    case PullNext =>
      NextUnbroken(s.sequencer);
    case _ =>
  }

  /** A run in which every arrival is harmless. */
  ghost predicate CleanRun(s: System, steps: seq<Step>)
    requires Inv(s)
    decreases |steps|
  {
    InvApplies(s);
    steps != [] && Enabled(s, steps[0]) && StepHonest(s, steps[0]) ==>
      && StepClean(s, steps[0])
      && (StepInv(s, steps[0]);
          CleanRun(Apply(s, steps[0]), steps[1..]))
  }

  ghost predicate CleanlyReachable(capacity: nat, steps: seq<Step>, t: System)
    requires capacity > 0
  {
    StartInv(capacity);
    Leads(Start(capacity), steps, t) && CleanRun(Start(capacity), steps)
  }

  lemma {:induction false} RunUnbroken(s: System, steps: seq<Step>, t: System)
    requires Inv(s) && Unbroken(s.sequencer) && Leads(s, steps, t) && CleanRun(s, steps)
    ensures Unbroken(t.sequencer)
    decreases |steps|
  {
    hide HandlerOk, EngineOk, Venues.Good, Apply, Unbroken, StepClean;
    if steps != [] {
      InvApplies(s);
      StepInv(s, steps[0]);
      StepUnbroken(s, steps[0]);
      RunUnbroken(Apply(s, steps[0]), steps[1..], t);
    }
  }

  /** Numbers that increase strictly within a range of their own length are that range. */
  lemma RangeFilled(s: seq<Message>, first: nat, i: nat)
    requires forall i, j :: 0 <= i < j < |s| ==> s[i].sequence < s[j].sequence
    requires forall i :: 0 <= i < |s| ==> first <= s[i].sequence < first + |s|
    requires i < |s|
    ensures s[i].sequence == first + i
  {
    FilledFrom(s, first, i);
    FilledTo(s, first, i);
  }

  lemma {:induction false} FilledFrom(s: seq<Message>, first: nat, i: nat)
    requires forall i, j :: 0 <= i < j < |s| ==> s[i].sequence < s[j].sequence
    requires forall i :: 0 <= i < |s| ==> first <= s[i].sequence
    requires i < |s|
    ensures s[i].sequence >= first + i
  {
    if i > 0 {
      FilledFrom(s, first, i - 1);
    }
  }

  lemma {:induction false} FilledTo(s: seq<Message>, first: nat, i: nat)
    requires forall i, j :: 0 <= i < j < |s| ==> s[i].sequence < s[j].sequence
    requires forall i :: 0 <= i < |s| ==> s[i].sequence < first + |s|
    requires i < |s|
    ensures s[i].sequence <= first + i
    decreases |s| - i
  {
    if i < |s| - 1 {
      FilledTo(s, first, i + 1);
    }
  }

  /** What an unbroken stream has delivered is the published stream up to its position. */
  lemma DeliveredPrefix(t: System)
    requires Inv(t) && Unbroken(t.sequencer)
    ensures Payloads(t.sequencer.ledger.out) <= t.venue.log
    ensures t.ring.sent <= Payloads(t.sequencer.ledger.out)
    ensures t.sequencer.started ==> |t.sequencer.ledger.out| == t.sequencer.expected - FIRST_SEQUENCE
  {
    hide EngineOk, Venues.Good;
    var out := Payloads(t.sequencer.ledger.out);
    forall i | 0 <= i < |out| ensures i < |t.venue.log| && out[i] == t.venue.log[i] {
      RangeFilled(out, FIRST_SEQUENCE, i);
      assert Published(t.venue.log, t.sequencer.ledger.out[i].message);
    }
    if out != [] {
      RangeFilled(out, FIRST_SEQUENCE, |out| - 1);
      assert Published(t.venue.log, t.sequencer.ledger.out[|out| - 1].message);
    }
  }

  /** Replication: if every arrival is harmless, the events consumed are a prefix of the published stream and
      the engine's book is the exchange's book after that prefix. */
  lemma Replication(capacity: nat, steps: seq<Step>, t: System)
    requires capacity > 0 && CleanlyReachable(capacity, steps, t)
    ensures t.ring.taken <= |t.ring.sent| && t.ring.Received() <= t.venue.log
    ensures t.book == BookAfter(t.venue.log[..t.ring.taken])
    ensures t.venue.book == BookAfter(t.venue.log)
    ensures t.engine.Exited? && t.sequencer.started && t.sequencer.expected == FIRST_SEQUENCE + |t.venue.log| ==>
              t.book == t.venue.book
  {
    hide HandlerOk, BookAfter, LiveIsBook, Priced, Packed;
    StartInv(capacity);
    RunInv(Start(capacity), steps, t);
    RunUnbroken(Start(capacity), steps, t);
    DeliveredPrefix(t);
    EngineFacts(t);
    assert t.ring.Received() == t.venue.log[..t.ring.taken];
    if t.engine.Exited? && t.sequencer.started && t.sequencer.expected == FIRST_SEQUENCE + |t.venue.log| {
      assert t.ring.Received() == t.venue.log;
    }
  }
}
