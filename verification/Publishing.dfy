/** What the exchange publishes: the contents of its messages, the order ids it gives out and the packets it cuts the
    stream into, over every run of its loop. */
module Publishing {
  import opened Market
  import opened BookSpec
  import opened BookEffects
  import opened History
  import opened Venues
  import Rings

  const MAX_BATCH: nat := 32

  // ---- Packets ----

  /** Every packet is full, the one being filled is not, and together they are the stream. */
  ghost predicate Batched(v: Venue, batch: nat) {
    && |v.pending| < batch
    && (forall i :: 0 <= i < |v.flushed| ==> |v.flushed[i]| == batch)
    && |v.log| == batch * |v.flushed| + |v.pending|
  }

  lemma Distributes(batch: nat, n: nat)
    ensures batch * (n + 1) == batch * n + batch
  {
  }

  lemma PublishBatched(v: Venue, c: Choice, now: nat, batch: nat)
    requires Good(v) && Drawable(v, c) && Batched(v, batch)
    ensures var w := Publish(v, c, now, batch);
            && Batched(w, batch)
            && (w.flushed != v.flushed <==> |v.pending| + 1 == batch)
            && w.log == v.log + [MessageFor(v, c, now)]
  {
    hide Consistent, Apply, LiveIsBook, Priced, Packed, MessageFor, LiveAfter;
    Distributes(batch, |v.flushed|);
  }

  /** Packet `i` is the `i`-th stretch of `batch` messages of the stream. */
  lemma {:induction false} PacketIs(v: Venue, batch: nat, i: nat)
    requires Packed(v) && Batched(v, batch) && i < |v.flushed|
    ensures 0 <= batch * i <= batch * i + batch <= |v.log|
    ensures v.flushed[i] == v.log[batch * i..batch * i + batch]
  {
    FlatAt(v.flushed, batch, i);
    assert Flatten(v.flushed) <= v.log;
  }

  lemma {:induction false} FlatAt(packets: seq<seq<Message>>, batch: nat, i: nat)
    requires (forall j :: 0 <= j < |packets| ==> |packets[j]| == batch) && i < |packets|
    ensures |Flatten(packets)| == batch * |packets|
    ensures 0 <= batch * i <= batch * i + batch <= |Flatten(packets)|
    ensures Flatten(packets)[batch * i..batch * i + batch] == packets[i]
  {
    var last := |packets| - 1;
    var rest := packets[..last];
    FlatLength(rest, batch);
    Distributes(batch, last);
    if i < last {
      FlatAt(rest, batch, i);
      assert Flatten(packets)[batch * i..batch * i + batch] == Flatten(rest)[batch * i..batch * i + batch];
    }
  }

  lemma {:induction false} FlatLength(packets: seq<seq<Message>>, batch: nat)
    requires forall j :: 0 <= j < |packets| ==> |packets[j]| == batch
    ensures |Flatten(packets)| == batch * |packets|
  {
    if packets != [] {
      FlatLength(packets[..|packets| - 1], batch);
      Distributes(batch, |packets| - 1);
    }
  }

  // ---- Messages ----

  /** How far a price lies from the middle, away from the other side. */
  function FromMiddle(side: Side, price: int): int {
    if side == Buy then 18750 - price else price - 18750
  }

  /** A message carries the next number and the time it was built.  A new order has the next id, the drawn side, a price
      at the drawn distance and ten times the drawn lots.  Any other message names a resting order and its side: a
      cancel carries the order's price and size, a modification a newly drawn price and size, and a trade the order's
      price and half its size, rounded down, or all of it if that is at most 10. */
  lemma MessageSays(v: Venue, c: Choice, now: nat)
    requires Good(v) && Drawable(v, c)
    ensures var m := MessageFor(v, c, now);
            && m.sequence == 1001 + |v.log| && m.timestamp == now
            && (c.NewOrder? ==>
                  && m.kind == MessageType.Add && m.orderId == v.nextId && m.orderId !in v.book.orders
                  && m.side == c.newSide && FromMiddle(m.side, m.price) == c.distance && m.quantity == 10 * c.lots)
            && (!c.NewOrder? ==>
                  && m.orderId == v.live[c.index].id && m.orderId in v.book.orders
                  && var e := v.book.orders[m.orderId];
                     && m.side == e.side
                     && (c.CancelOne? ==>
                           m.kind == MessageType.Cancel && m.price == e.price && m.quantity == e.quantity)
                     && (c.ModifyOne? ==>
                           && m.kind == MessageType.Modify
                           && FromMiddle(e.side, m.price) == c.distance && m.quantity == 10 * c.lots)
                     && (c.TradeOne? ==>
                           && m.kind == MessageType.Trade && m.price == e.price && 0 < m.quantity <= e.quantity
                           && (e.quantity <= 10 ==> m.quantity == e.quantity)
                           && (e.quantity > 10 ==> 2 * m.quantity <= e.quantity <= 2 * m.quantity + 1)))
  {
    hide Packed, Apply, BookAfter;
    if c.NewOrder? {
      FreshId(v.book, v.nextId);
    } else {
      LiveEntry(v.live, v.book, c.index);
      GoodConsistent(v);
    }
  }

  lemma GoodConsistent(v: Venue)
    requires Good(v)
    ensures Consistent(CFG, v.book)
  {
  }

  // ---- Ids ----

  function Adds(log: seq<Message>): nat {
    if log == [] then 0
    else Adds(log[..|log| - 1]) + if log[|log| - 1].kind == MessageType.Add then 1 else 0
  }

  /** New orders are numbered 1, 2, 3, ... in the order of their messages. */
  ghost predicate IdsInOrder(v: Venue) {
    && v.nextId == 1 + Adds(v.log)
    && forall i :: 0 <= i < |v.log| && v.log[i].kind == MessageType.Add ==> v.log[i].orderId == 1 + Adds(v.log[..i])
  }

  lemma PublishIds(v: Venue, c: Choice, now: nat, batch: nat)
    requires Good(v) && Drawable(v, c) && IdsInOrder(v)
    ensures IdsInOrder(Publish(v, c, now, batch))
  {
    hide Good, Consistent, Apply, MessageFor, LiveAfter;
    GoodConsistent(v);
    MessageSays(v, c, now);
    var m, w := MessageFor(v, c, now), Publish(v, c, now, batch);
    assert w.log == v.log + [m] && w.log[..|v.log|] == v.log;
    assert m.kind == MessageType.Add <==> c.NewOrder?;
    forall i | 0 <= i < |w.log| && w.log[i].kind == MessageType.Add ensures w.log[i].orderId == 1 + Adds(w.log[..i]) {
      if i < |v.log| {
        assert w.log[..i] == v.log[..i] && w.log[i] == v.log[i];
      }
    }
  }

  // ---- Whole runs ----

  datatype Turn = Turn(choice: Choice, now: nat)

  /** The batch size the exchange works with: at least one message, at most what fits a packet. */
  function Clamped(batch: nat): nat {
    if batch < 1 then 1 else if batch > MAX_BATCH then MAX_BATCH else batch
  }

  /** The turns of the loop lead from `v` to `w`. */
  ghost predicate Turns(v: Venue, turns: seq<Turn>, batch: nat, w: Venue)
    requires Good(v)
    decreases |turns|
  {
    if turns == [] then w == v
    else
      Drawable(v, turns[0].choice) &&
      (GoodConsistent(v);
       PublishGood(v, turns[0].choice, turns[0].now, batch);
       Turns(Publish(v, turns[0].choice, turns[0].now, batch), turns[1..], batch, w))
  }

  ghost predicate Opens(turns: seq<Turn>, batch: nat, w: Venue) {
    OpeningGood();
    Turns(Opening(), turns, batch, w)
  }

  lemma {:induction false} TurnsKeep(v: Venue, turns: seq<Turn>, batch: nat, w: Venue)
    requires Good(v) && Batched(v, batch) && IdsInOrder(v) && Turns(v, turns, batch, w)
    ensures Good(w) && Batched(w, batch) && IdsInOrder(w) && |w.log| == |v.log| + |turns|
    decreases |turns|
  {
    hide Good, Batched, IdsInOrder, Publish, Drawable;
    if turns != [] {
      var t := turns[0];
      GoodConsistent(v);
      PublishGood(v, t.choice, t.now, batch);
      PublishBatched(v, t.choice, t.now, batch);
      PublishIds(v, t.choice, t.now, batch);
      TurnsKeep(Publish(v, t.choice, t.now, batch), turns[1..], batch, w);
    }
  }

  lemma OpeningKeeps(batch: nat)
    requires batch >= 1
    ensures Good(Opening()) && Batched(Opening(), batch) && IdsInOrder(Opening())
  {
    hide Good;
    OpeningGood();
  }

  /** Over every run with a fixed batch: one message per turn, ids in order, every packet handed over by a turn has
      exactly `batch` messages, fewer are pending, and only the final flush hands over a shorter packet. */
  lemma RunsPublish(turns: seq<Turn>, batch: nat, w: Venue)
    requires batch >= 1 && Opens(turns, batch, w)
    ensures Good(w) && IdsInOrder(w) && |w.log| == |turns| && |w.pending| < batch
    ensures forall i :: 0 <= i < |w.flushed| ==> |w.flushed[i]| == batch
    ensures |w.flushed| == |turns| / batch && |w.pending| == |turns| % batch
    ensures FinalFlush(w).flushed == if w.pending == [] then w.flushed else w.flushed + [w.pending]
  {
    hide Turns, Good, IdsInOrder;
    OpeningKeeps(batch);
    TurnsKeep(Opening(), turns, batch, w);
    Divides(|turns|, batch, |w.flushed|, |w.pending|);
  }

  lemma Divides(n: nat, batch: nat, q: nat, r: nat)
    requires n == batch * q + r && r < batch
    ensures n / batch == q && n % batch == r
  {
    Rings.SlotIs(batch, n, q, r);
    assert batch * (n / batch) == batch * q;
  }
}
