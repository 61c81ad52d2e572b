/** Inputs on which the code does something other than its comments say.  The conditions under which it does are
    proved elsewhere: `GapFree.UnbrokenIff`, `Progress.PacketStallsIff`, `BookSpec.KeepsPlaceIff` and
    `GapAccounts.UnrecoverableIff`. */
module Divergences {
  import opened Market
  import opened BookSpec
  import opened Sequencing
  import opened Progress
  import opened History
  import opened GapFree

  function Numbered(k: nat): FeedMessage {
    FeedMessage(Message(k, 0, 1, 0, 1, MessageType.Cancel, Buy), false)
  }

  /** A stream that stands at number `k`, with nothing held. */
  function Fresh(capacity: nat, k: nat): Sequencer {
    Sequencing.Start(Initial(capacity), k)
  }

  lemma FreshGood(capacity: nat, k: nat)
    requires capacity > 0
    ensures var s := Fresh(capacity, k);
            && Sequencing.Good(s) && Drained(s) && s.started && s.held == map[]
            && s.expected == k && s.capacity == capacity
  {
    var s := Fresh(capacity, k);
    assert FilledKeys(s.held) == {} && SkippedKeys(s.held) == {};
  }

  // ---- Three steps of a stream whose window is empty ----

  lemma RunStep(capacity: nat, events: seq<Event>, e: Event)
    ensures Sequencing.Run(capacity, events + [e]) == Sequencing.Step(Sequencing.Run(capacity, events), e)
  {
    assert (events + [e])[..|events|] == events;
  }

  /** The next message in order arrives and is taken. */
  lemma TakeNext(s: Sequencer, f: FeedMessage)
    requires s.capacity > 0 && s.held == map[] && (s.started ==> f.message.sequence == s.expected)
    ensures var t := Next(Accept(s, f, NoRecovery)).state;
            && t.started && t.held == map[] && t.expected == f.message.sequence + 1 && t.capacity == s.capacity
            && t.ledger == s.ledger.(out := s.ledger.out + [f],
                                     first := if s.started then s.ledger.first else f.message.sequence)
            && t.stats.delivered == s.stats.delivered + 1 && t.stats.unrecoverable == s.stats.unrecoverable
  {
    var u := Accept(s, f, NoRecovery);
    assert u.held == map[f.message.sequence := Filled(f)];
    assert u.held - {u.expected} == map[];
  }

  /** The message after the next arrives first, and there is no recovery: the next number is given up. */
  lemma TakeAhead(s: Sequencer, f: FeedMessage)
    requires s.capacity > 1 && s.started && s.held == map[] && f.message.sequence == s.expected + 1
    ensures var t := Accept(s, f, NoRecovery);
            && t.started && t.expected == s.expected && t.capacity == s.capacity && t.ledger == s.ledger
            && t.held == map[s.expected := Skipped, s.expected + 1 := Filled(f)]
            && t.stats.delivered == s.stats.delivered && t.stats.unrecoverable == s.stats.unrecoverable + 1
  {
    var u := Store(s.(stats := s.stats.(accepted := s.stats.accepted + 1)), f);
    var v := u.(stats := u.stats.(gapsDetected := u.stats.gapsDetected + 1,
                                  missingMessages := u.stats.missingMessages + 1));
    assert SkipRange(v, s.expected, s.expected) == v;
    assert Accept(s, f, NoRecovery) == SkipRange(v, s.expected, s.expected + 1);
  }

  /** After that, the message ahead is delivered and the number before it is passed over. */
  lemma PullAhead(s: Sequencer, f: FeedMessage)
    requires s.started && s.held == map[s.expected := Skipped, s.expected + 1 := Filled(f)]
    ensures var t := Next(s).state;
            && t.ledger == s.ledger.(out := s.ledger.out + [f], passed := s.ledger.passed + 1)
            && t.expected == s.expected + 2
  {
    var u := Advance(s);
    assert u.held == map[s.expected + 1 := Filled(f)];
    assert Next(s) == Next(u);
  }

  // ---- A stream with a gap ----

  const OPENED := [Take(Numbered(1001), NoRecovery), Pull]

  lemma Opened()
    ensures var s := Sequencing.Run(8, OPENED);
            && s.started && s.held == map[] && s.expected == 1002 && s.capacity == 8
            && s.ledger == Ledger(1001, [Numbered(1001)], 0, 0, 0, 0)
            && s.stats.delivered == 1 && s.stats.unrecoverable == 0
  {
    hide Accept, Next;
    var s := Initial(8);
    assert Sequencing.Run(8, []) == s;
    RunStep(8, [], Take(Numbered(1001), NoRecovery));
    assert [] + [Take(Numbered(1001), NoRecovery)] == [Take(Numbered(1001), NoRecovery)];
    RunStep(8, [Take(Numbered(1001), NoRecovery)], Pull);
    assert OPENED == [Take(Numbered(1001), NoRecovery)] + [Pull];
    TakeNext(s, Numbered(1001));
  }

  /** The header promises a gap-free stream.  Without recovery, messages 1001 and 1003 are delivered and 1002 is given
      up: the arrival of 1003 turns an unbroken stream into a broken one. */
  lemma StreamCanHaveGap()
    ensures Unbroken(Sequencing.Run(8, OPENED))
    ensures var s := Sequencing.Run(8, OPENED + [Take(Numbered(1003), NoRecovery)]);
            !Unbroken(s) && Next(s).state.ledger.out == [Numbered(1001), Numbered(1003)]
  {
    hide Accept, Next, Sequencing.Run;
    Opened();
    var s := Sequencing.Run(8, OPENED);
    RunStep(8, OPENED, Take(Numbered(1003), NoRecovery));
    TakeAhead(s, Numbered(1003));
    var t := Accept(s, Numbered(1003), NoRecovery);
    assert IsSkipped(t, 1002);
    PullAhead(t, Numbered(1003));
  }

  // ---- A packet that stalls ----

  /** The header says that a number beyond the expected one triggers recovery.  In a packet of messages 1001 and 1003
      the hole is not noticed: 1003 stays undelivered although it has arrived and the sequencer has been drained. */
  lemma PacketCanStall(recovery: Recovery)
    ensures Sequencing.Good(Fresh(8, 1001)) && Drained(Fresh(8, 1001))
    ensures Drain(AcceptAll(Fresh(8, 1001), [Numbered(1001), Numbered(1003)], [recovery, recovery])).expected <= 1003
  {
    hide Drain, AcceptAll, Sequencing.Good, Fresh, Drained, GetsThrough;
    FreshGood(8, 1001);
    PacketStallsIff(Fresh(8, 1001), [Numbered(1001), Numbered(1003)], [recovery, recovery]);
    SkipsNumber(Fresh(8, 1001), recovery);
  }

  /** Recovery is not asked on this input, so nothing it could answer matters. */
  lemma SkipsNumber(s: Sequencer, recovery: Recovery)
    requires s.started && s.expected == 1001 && s.capacity == 8 && s.held == map[]
    ensures !GetsThrough(s, [Numbered(1001), Numbered(1003)], [recovery, recovery])
  {
    hide Answers;
    var fs, rs := [Numbered(1001), Numbered(1003)], [recovery, recovery];
    assert fs[..1] == [Numbered(1001)] && rs[..1] == [recovery] && fs[..1][..0] == [];
    assert Base(1001, 8, fs[..1]) == 1001 && Base(1001, 8, fs) == 1001;
    assert fs[..1][0].message.sequence == 1001 && Overtaken(1001, fs[..1], 1003);
    assert PacketAnswers(s, fs[..1], rs[..1]) == [];
    assert PacketAnswers(s, fs, rs) == [];
    assert fs[0].message.sequence == 1001 && Overtaken(1001, fs, 1002) && !Carried(fs, 1002);
  }

  // ---- A history that forgets between two requests ----

  /** The first `n` messages of a stream. */
  function Stream(n: nat): seq<Message> {
    seq(n, (i: nat) => Numbered(1001 + i).message)
  }

  /** What is published by the time a request is served: the first chunk of the gap finds 1001 to 2027, the second
      finds 1001 to 3053. */
  function Meanwhile(a: nat): seq<Message> {
    if a == 1002 then Stream(1027) else Stream(2053)
  }

  /** A history of 1026 messages retains the whole gap 1002 to 2026 when 2027 arrives, so from a log that stood still
      recovery would supply it.  While the first chunk is answered the exchange publishes on, and 2026 is gone when the
      second chunk asks for it. */
  lemma RetentionCanLapse()
    ensures forall a: nat :: Stream(1027) <= Meanwhile(a) && Consecutive(Meanwhile(a))
    ensures Harmless(Fresh(2048, 1002), 2027, MovingClient((a: nat) => Stream(1027), 1026))
    ensures !Harmless(Fresh(2048, 1002), 2027, MovingClient(Meanwhile, 1026))
  {
    hide Harmless, MovingClient;
    var q := Fresh(2048, 1002);
    assert forall n: nat, i :: 0 <= i < n ==> Stream(n)[i].sequence == 1001 + i;
    HarmlessServed(q, 2027, (a: nat) => Stream(1027), 1026);
    HarmlessServed(q, 2027, Meanwhile, 1026);
    assert ChunkStart(1002, 2026) == 2026;
    assert !Retained(Meanwhile(2026), 1026, 2026);
  }

  // ---- A counter that overstates ----

  /** 1001 is delivered, 1003 makes the sequencer give 1002 up, and then 1002 arrives: all three are delivered and none
      is passed over, but one is counted as unrecoverable. */
  lemma UnrecoverableOverstates()
    ensures var late := [Take(Numbered(1003), NoRecovery), Take(Numbered(1002), NoRecovery), Pull, Pull];
            var s := Sequencing.Run(8, OPENED + late);
            && s.ledger.out == [Numbered(1001), Numbered(1002), Numbered(1003)] && s.ledger.passed == 0
            && s.stats.delivered == 3 && s.stats.unrecoverable == 1
  {
    hide Accept, Next, Sequencing.Run;
    Opened();
    var e1, e2 := Take(Numbered(1003), NoRecovery), Take(Numbered(1002), NoRecovery);
    RunStep(8, OPENED, e1);
    RunStep(8, OPENED + [e1], e2);
    RunStep(8, OPENED + [e1] + [e2], Pull);
    RunStep(8, OPENED + [e1] + [e2] + [Pull], Pull);
    assert OPENED + [e1, e2, Pull, Pull] == OPENED + [e1] + [e2] + [Pull] + [Pull];
    var s := Sequencing.Run(8, OPENED);
    TakeAhead(s, Numbered(1003));
    FillLate(Accept(s, Numbered(1003), NoRecovery), Numbered(1002), Numbered(1003));
  }

  /** The number given up arrives after all, and both messages are taken. */
  lemma FillLate(s: Sequencer, f: FeedMessage, g: FeedMessage)
    requires s.capacity > 1 && s.started && s.held == map[s.expected := Skipped, s.expected + 1 := Filled(g)]
    requires f.message.sequence == s.expected
    ensures var t := Next(Next(Accept(s, f, NoRecovery)).state).state;
            && t.ledger.out == s.ledger.out + [f, g] && t.ledger.passed == s.ledger.passed
            && t.stats.delivered == s.stats.delivered + 2 && t.stats.unrecoverable == s.stats.unrecoverable
  {
    var u := Accept(s, f, NoRecovery);
    assert u.held == map[s.expected := Filled(f), s.expected + 1 := Filled(g)];
    var v := Next(u).state;
    assert v.held == map[s.expected + 1 := Filled(g)];
    assert s.ledger.out + [f] + [g] == s.ledger.out + [f, g];
  }

  // ---- A modification that loses its place ----

  const TINY := Config(100, 100, 2)

  const ADD1 := Op.Add(1, Buy, 100, 10)
  const ADD2 := Op.Add(2, Buy, 100, 10)
  const TEN := Entry(Buy, 100, 10)

  /** Queueing one more order at the only bid level. */
  lemma QueueOne(b: Book, id: U64)
    requires |b.bids| == |b.asks| == 1
    ensures Enqueue(TINY, b, id, TEN) == Book(b.orders[id := TEN], [b.bids[0] + [id]], b.asks)
  {
    assert b.bids[0 := b.bids[0] + [id]] == [b.bids[0] + [id]];
  }

  lemma TwoOrders()
    ensures BookSpec.Run(TINY, [ADD1, ADD2]) == Book(map[1 := TEN, 2 := TEN], [[1, 2]], [[]])
  {
    hide Consistent, Enqueue;
    var b0: Book := Book(map[], [[]], [[]]);
    assert BookSpec.Run(TINY, []) == b0;
    BookStep(TINY, [], ADD1);
    QueueOne(b0, 1);
    assert [] + [ADD1] == [ADD1] && [] + [1] == [1];
    var b1: Book := Book(map[1 := TEN], [[1]], [[]]);
    assert BookSpec.Run(TINY, [ADD1]) == b1;
    BookStep(TINY, [ADD1], ADD2);
    QueueOne(b1, 2);
    assert [ADD1] + [ADD2] == [ADD1, ADD2] && [1] + [2] == [1, 2];
    assert |b1.orders| == 1 && b1.orders[2 := TEN] == map[1 := TEN, 2 := TEN];
  }

  /** The comment says that a price change or a size increase loses priority.  Here an order is modified to the price
      and the size it already has, and moves behind the other one. */
  lemma EqualSizeLosesPlace()
    ensures BookSpec.Run(TINY, [ADD1, ADD2]).bids == [[1, 2]]
    ensures BookSpec.Run(TINY, [ADD1, ADD2, Op.Modify(1, 100, 10)]) == Book(map[1 := TEN, 2 := TEN], [[2, 1]], [[]])
  {
    hide BookSpec.Run, Consistent, Enqueue;
    TwoOrders();
    var b, m := BookSpec.Run(TINY, [ADD1, ADD2]), Op.Modify(1, 100, 10);
    BookStep(TINY, [ADD1, ADD2], m);
    assert [ADD1, ADD2] + [m] == [ADD1, ADD2, m];
    var rest := Remove(TINY, b, 1);
    assert rest == Book(map[2 := TEN], [[2]], [[]]);
    QueueOne(rest, 1);
    assert [2] + [1] == [2, 1];
  }

  lemma BookStep(cfg: Config, ops: seq<Op>, op: Op)
    requires cfg.Valid()
    ensures BookSpec.Run(cfg, ops + [op]) == BookSpec.Apply(cfg, BookSpec.Run(cfg, ops), op).book
  {
    assert (ops + [op])[..|ops|] == ops;
  }
}
