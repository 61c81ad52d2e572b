/** The engine's book is never crossed, whatever is lost on the way: all messages of an order carry its side, and
    prices lie on that side of the middle, so the book of any part of the published stream is uncrossed. */
module Uncrossed {
  import opened Market
  import opened BookSpec
  import opened Venues
  import opened Channels
  import opened Pipeline

  predicate OnSide(side: Side, price: int) {
    if side == Buy then price < MID_PRICE else price > MID_PRICE
  }

  /** All messages of an order carry one side, and the prices set lie on it. */
  ghost predicate Sided(log: seq<Message>) {
    && (forall m, m' :: m in log && m' in log && m.orderId == m'.orderId ==> m.side == m'.side)
    && forall m :: m in log && (m.kind.Add? || m.kind.Modify?) ==> OnSide(m.side, m.price)
  }

  /** Every order of the book rests on its side of the middle, and the messages of the log know its side. */
  ghost predicate Matches(b: Book, log: seq<Message>) {
    && (forall id :: id in b.orders ==> OnSide(b.orders[id].side, b.orders[id].price))
    && forall m :: m in log && m.orderId in b.orders ==> m.side == b.orders[m.orderId].side
  }

  lemma MatchStep(log: seq<Message>, b: Book, m: Message)
    requires Consistent(CFG, b) && Sided(log) && m in log && Matches(b, log)
    ensures Matches(BookSpec.Apply(CFG, b, OpOf(m)).book, log)
  {
    hide Consistent, BookSpec.Apply;
    var op := OpOf(m);
    if BookSpec.Apply(CFG, b, op).result == Ok {
      ApplyOrders(CFG, b, op);
    } else {
      RefusedSame(b, op);
    }
  }

  lemma RefusedSame(b: Book, op: Op)
    requires Consistent(CFG, b) && BookSpec.Apply(CFG, b, op).result != Ok
    ensures BookSpec.Apply(CFG, b, op).book == b
  {
  }

  /** The book of any messages of the log, with any repetitions and omissions. */
  lemma {:induction false} AnyMessages(log: seq<Message>, ms: seq<Message>)
    requires Sided(log) && forall i :: 0 <= i < |ms| ==> ms[i] in log
    ensures Matches(BookAfter(ms), log)
  {
    hide Sided, Matches, BookAfter, BookSpec.Apply, OpOf;
    if ms == [] {
      BookAfterNothing();
      EmptyMatches(log);
    } else {
      var last := |ms| - 1;
      AnyMessages(log, ms[..last]);
      MatchStep(log, BookAfter(ms[..last]), ms[last]);
      BookAfterAppend(ms[..last], ms[last]);
      assert ms[..last] + [ms[last]] == ms;
    }
  }

  lemma EmptyMatches(log: seq<Message>)
    ensures Matches(EmptyBook(CFG), log)
  {
  }

  /** The exchange publishes a sided stream and does not use an id again. */
  ghost predicate VenueSided(v: Venue) {
    Sided(v.log) && forall m :: m in v.log ==> m.orderId < v.nextId
  }

  lemma PublishSided(v: Venue, c: Choice, now: nat, batch: nat)
    requires Venues.Good(v) && Drawable(v, c) && VenueSided(v)
    ensures VenueSided(Publish(v, c, now, batch))
  {
    hide Consistent, BookAfter, Packed, BookSpec.Apply, LiveAfter, Matches;
    var m := MessageFor(v, c, now);
    AnyMessages(v.log, v.log);
    MessageSided(v, c, now);
    var after := Publish(v, c, now, batch);
    assert after.log == v.log + [m];
    assert forall x :: x in after.log <==> x in v.log || x == m;
  }

  /** A new message agrees with all earlier ones of its order. */
  lemma MessageSided(v: Venue, c: Choice, now: nat)
    requires Drawable(v, c) && VenueSided(v) && LiveIsBook(v.live, v.book) && Matches(v.book, v.log)
    requires Priced(v.book, v.nextId)
    ensures var m := MessageFor(v, c, now);
            && (forall x :: x in v.log && x.orderId == m.orderId ==> x.side == m.side)
            && (m.kind.Add? || m.kind.Modify? ==> OnSide(m.side, m.price))
            && m.orderId < v.nextId + if c.NewOrder? then 1 else 0
  {
    if !c.NewOrder? {
      LiveEntry(v.live, v.book, c.index);
    }
  }

  lemma OpeningSided()
    ensures VenueSided(Opening())
  {
  }

  lemma {:induction false} RunSided(s: System, steps: seq<Step>, t: System)
    requires Inv(s) && VenueSided(s.venue) && Leads(s, steps, t)
    ensures VenueSided(t.venue)
    decreases |steps|
  {
    hide HandlerOk, EngineOk, Venues.Good, Pipeline.Apply, VenueSided;
    if steps != [] {
      InvApplies(s);
      StepInv(s, steps[0]);
      StepSided(s, steps[0]);
      RunSided(Pipeline.Apply(s, steps[0]), steps[1..], t);
    }
  }

  lemma StepSided(s: System, step: Step)
    requires Inv(s) && VenueSided(s.venue) && Enabled(s, step)
    requires Consistent(CFG, s.venue.book) && Consistent(CFG, s.book) && s.ring.taken <= s.ring.seen
    ensures VenueSided(Pipeline.Apply(s, step).venue)
  {
    hide HandlerOk, EngineOk, Venues.Good, Consistent, BookSpec.Apply, Publish, Sided;
    match step
    case PublishOne(c, now, batch) => PublishSided(s.venue, c, now, batch);
    case _ =>
  }

  /** In every run, whatever is lost, the engine's best bid is below the middle price and its best ask above it. */
  lemma EngineNeverCrossed(capacity: nat, steps: seq<Step>, t: System, bid: int, ask: int)
    requires capacity > 0 && Reachable(capacity, steps, t)
    requires IsBestBid(t.book, bid) && IsBestAsk(t.book, ask)
    ensures bid < MID_PRICE < ask
  {
    hide Inv, Leads, BookAfter, Sided;
    StartInv(capacity);
    OpeningSided();
    RunSided(Pipeline.Start(capacity), steps, t);
    AlwaysASubstream(capacity, steps, t);
    var ms := t.ring.Received();
    forall i | 0 <= i < |ms| ensures ms[i] in t.venue.log {
      assert Published(t.venue.log, t.ring.sent[i]);
    }
    AnyMessages(t.venue.log, ms);
  }
}
