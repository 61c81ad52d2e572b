/** The exchange: it generates order flow, keeps the authoritative book and a list of its live orders, and
    publishes every event under the next sequence number, batched into packets. */
module Venues {
  import opened Market
  import opened BookSpec
  import opened History

  const MIN_PRICE := 18250
  const MAX_PRICE := 19250
  const MID_PRICE := 18750
  const MAX_LIVE_ORDERS: nat := 0x10_0000
  const FIRST_SEQUENCE: nat := 1001

  /** The book configuration of the exchange, which is also the engine's default. */
  const CFG := Config(MIN_PRICE, MAX_PRICE, MAX_LIVE_ORDERS)

  datatype Live = Live(id: U64, side: Side, price: int, quantity: U32)

  /** `flushed` are the packets built so far, sent or dropped; `pending` is the one being filled. */
  datatype Venue = Venue(
    book: Book, live: seq<Live>, nextId: nat, log: seq<Message>, pending: seq<Message>, flushed: seq<seq<Message>>)

  /** What the random draws decide. */
  datatype Choice =
    | NewOrder(newSide: Side, distance: int, lots: nat)
    | CancelOne(index: nat)
    | ModifyOne(index: nat, distance: int, lots: nat)
    | TradeOne(index: nat)

  predicate Drawable(v: Venue, c: Choice) {
    && v.nextId < WORD
    && (c.NewOrder? || c.ModifyOne? ==> 1 <= c.distance <= 40 && 1 <= c.lots <= 20)
    && (!c.NewOrder? ==> c.index < |v.live|)
  }

  function PriceFor(side: Side, distance: int): int {
    if side == Buy then MID_PRICE - distance else MID_PRICE + distance
  }

  /** Size of a trade against an order. */
  function FillOf(quantity: U32): U32 {
    if quantity > 10 then quantity / 2 else quantity
  }

  /** Overwrites an element with the last one and drops the last. */
  function SwapRemove(live: seq<Live>, i: nat): seq<Live>
    requires i < |live|
  {
    live[i := live[|live| - 1]][..|live| - 1]
  }

  function NextSequence(v: Venue): nat {
    FIRST_SEQUENCE + |v.log|
  }

  function MessageFor(v: Venue, c: Choice, now: nat): Message
    requires Drawable(v, c)
  {
    match c
    case NewOrder(side, distance, lots) =>
      Message(NextSequence(v), now, v.nextId, PriceFor(side, distance), lots * 10, MessageType.Add, side)
    case CancelOne(i) =>
      Message(NextSequence(v), now, v.live[i].id, v.live[i].price, v.live[i].quantity, MessageType.Cancel,
              v.live[i].side)
    case ModifyOne(i, distance, lots) =>
      Message(NextSequence(v), now, v.live[i].id, PriceFor(v.live[i].side, distance), lots * 10, MessageType.Modify,
              v.live[i].side)
    case TradeOne(i) =>
      Message(NextSequence(v), now, v.live[i].id, v.live[i].price, FillOf(v.live[i].quantity), MessageType.Trade,
              v.live[i].side)
  }

  /** The book operation a message asks for: the engine's dispatch. */
  function OpOf(m: Message): Op {
    match m.kind
    case Add => Op.Add(m.orderId, m.side, m.price, m.quantity)
    case Cancel => Op.Cancel(m.orderId)
    case Modify => Op.Modify(m.orderId, m.price, m.quantity)
    case Trade => Op.Execute(m.orderId, m.quantity)
  }

  function LiveAfter(v: Venue, c: Choice, result: Result): seq<Live>
    requires Drawable(v, c)
  {
    match c
    case NewOrder(side, distance, lots) =>
      if result == Ok then v.live + [Live(v.nextId, side, PriceFor(side, distance), lots * 10)] else v.live
    case CancelOne(i) => SwapRemove(v.live, i)
    case ModifyOne(i, distance, lots) =>
      if result == Ok then v.live[i := v.live[i].(price := PriceFor(v.live[i].side, distance), quantity := lots * 10)]
      else v.live
    case TradeOne(i) =>
      var fill := FillOf(v.live[i].quantity);
      if fill >= v.live[i].quantity then SwapRemove(v.live, i)
      else v.live[i := v.live[i].(quantity := v.live[i].quantity - fill)]
  }

  /** One turn of the publishing loop. */
  function Publish(v: Venue, c: Choice, now: nat, batch: nat): Venue
    requires Drawable(v, c) && Consistent(CFG, v.book)
  {
    var m := MessageFor(v, c, now);
    var o := Apply(CFG, v.book, OpOf(m));
    var packet := v.pending + [m];
    Venue(o.book, LiveAfter(v, c, o.result), v.nextId + (if c.NewOrder? then 1 else 0), v.log + [m],
          if |packet| == batch then [] else packet, if |packet| == batch then v.flushed + [packet] else v.flushed)
  }

  /** The flush after the loop. */
  function FinalFlush(v: Venue): Venue {
    if v.pending == [] then v else v.(pending := [], flushed := v.flushed + [v.pending])
  }

  function Opening(): Venue {
    Venue(EmptyBook(CFG), [], 1, [], [], [])
  }

  // ---- What every turn keeps ----

  ghost predicate SameOrder(b: Book, l: Live) {
    l.id in b.orders && b.orders[l.id] == Entry(l.side, l.price, l.quantity)
  }

  ghost predicate Listed(live: seq<Live>, id: U64) {
    exists i :: 0 <= i < |live| && live[i].id == id
  }

  /** The list of live orders is the book, order by order. */
  ghost predicate LiveIsBook(live: seq<Live>, b: Book) {
    && (forall i :: 0 <= i < |live| ==> SameOrder(b, live[i]))
    && (forall i, j :: 0 <= i < j < |live| ==> live[i].id != live[j].id)
    && forall id :: id in b.orders ==> Listed(live, id)
  }

  /** Ids in use are behind the next id; bids rest below the middle price and asks above it. */
  ghost predicate Priced(b: Book, nextId: nat) {
    && nextId > 0
    && forall id :: id in b.orders ==>
                      && id < nextId
                      && (if b.orders[id].side == Buy then b.orders[id].price < MID_PRICE
                          else b.orders[id].price > MID_PRICE)
  }

  function Ops(ms: seq<Message>): seq<Op> {
    seq(|ms|, i requires 0 <= i < |ms| => OpOf(ms[i]))
  }

  /** The book after a stream of messages. */
  ghost function BookAfter(ms: seq<Message>): (b: Book)
    ensures Consistent(CFG, b)
  {
    Run(CFG, Ops(ms))
  }

  function Flatten(packets: seq<seq<Message>>): seq<Message> {
    if packets == [] then [] else Flatten(packets[..|packets| - 1]) + packets[|packets| - 1]
  }

  /** The packets are the published stream, cut into pieces. */
  ghost predicate Packed(v: Venue) {
    && Flatten(v.flushed) + v.pending == v.log
    && forall i :: 0 <= i < |v.flushed| ==> v.flushed[i] != []
  }

  ghost predicate Good(v: Venue) {
    && v.book == BookAfter(v.log)
    && LiveIsBook(v.live, v.book)
    && Priced(v.book, v.nextId)
    && Consecutive(v.log) && (v.log != [] ==> v.log[0].sequence == FIRST_SEQUENCE)
    && Packed(v)
  }

  lemma BookAfterAppend(ms: seq<Message>, m: Message)
    ensures BookAfter(ms + [m]) == Apply(CFG, BookAfter(ms), OpOf(m)).book
  {
    assert Ops(ms + [m])[..|ms|] == Ops(ms);
  }

  // ---- The live list through each kind of event ----

  lemma LiveAdd(live: seq<Live>, b: Book, l: Live, b': Book)
    requires LiveIsBook(live, b) && l.id !in b.orders
    requires b'.orders == b.orders[l.id := Entry(l.side, l.price, l.quantity)]
    ensures LiveIsBook(live + [l], b')
  {
    var live' := live + [l];
    assert live'[|live|] == l;
    forall i | 0 <= i < |live| ensures live'[i] == live[i] && SameOrder(b', live[i]) && live[i].id != l.id {
      assert SameOrder(b, live[i]);
    }
    forall id | id in b'.orders ensures Listed(live', id) {
      if id != l.id {
        var i :| 0 <= i < |live| && live[i].id == id;
        assert live'[i].id == id;
      }
    }
  }

  lemma LiveRemove(live: seq<Live>, b: Book, i: nat, b': Book)
    requires LiveIsBook(live, b) && i < |live| && b'.orders == b.orders - {live[i].id}
    ensures LiveIsBook(SwapRemove(live, i), b')
  {
    var live' := SwapRemove(live, i);
    var last := |live| - 1;
    forall j | 0 <= j < last ensures live'[j] == live[if j == i then last else j] && SameOrder(b', live'[j]) {
      assert SameOrder(b, live[if j == i then last else j]);
    }
    forall id | id in b'.orders ensures Listed(live', id) {
      var j :| 0 <= j < |live| && live[j].id == id;
      assert live'[if j == last then i else j].id == id;
    }
  }

  lemma LiveReplace(live: seq<Live>, b: Book, i: nat, l: Live, b': Book)
    requires LiveIsBook(live, b) && i < |live| && l.id == live[i].id
    requires b'.orders == b.orders[l.id := Entry(l.side, l.price, l.quantity)]
    ensures LiveIsBook(live[i := l], b')
  {
    var live' := live[i := l];
    forall j | 0 <= j < |live| ensures SameOrder(b', live'[j]) {
      assert SameOrder(b, live[j]);
    }
    forall id | id in b'.orders ensures Listed(live', id) {
      assert SameOrder(b, live[i]);
      var j :| 0 <= j < |live| && live[j].id == id;
      assert live'[j].id == id;
    }
  }

  /** Every published event names a resting order, except a new one, which is only refused by a full pool. */
  lemma PublishedIsApplied(v: Venue, c: Choice, now: nat)
    requires Drawable(v, c) && Consistent(CFG, v.book) && LiveIsBook(v.live, v.book) && Priced(v.book, v.nextId)
    ensures var o := Apply(CFG, v.book, OpOf(MessageFor(v, c, now)));
            if c.NewOrder? && |v.book.orders| == MAX_LIVE_ORDERS then o.result == PoolExhausted && o.book == v.book
            else o.result == Ok
  {
    if !c.NewOrder? {
      assert SameOrder(v.book, v.live[c.index]);
    }
  }

  lemma PublishLive(v: Venue, c: Choice, now: nat)
    requires Drawable(v, c) && Consistent(CFG, v.book) && LiveIsBook(v.live, v.book) && Priced(v.book, v.nextId)
    ensures var o := Apply(CFG, v.book, OpOf(MessageFor(v, c, now)));
            LiveIsBook(LiveAfter(v, c, o.result), o.book)
  {
    hide LiveIsBook, Consistent, Apply;
    PublishedIsApplied(v, c, now);
    var o := Apply(CFG, v.book, OpOf(MessageFor(v, c, now)));
    if o.result == Ok {
      ApplyOrders(CFG, v.book, OpOf(MessageFor(v, c, now)));
    }
    match c
    case NewOrder(side, distance, lots) =>
      if o.result == Ok {
        FreshId(v.book, v.nextId);
        LiveAdd(v.live, v.book, Live(v.nextId, side, PriceFor(side, distance), lots * 10), o.book);
      }
    case CancelOne(i) =>
      LiveRemove(v.live, v.book, i, o.book);
    case ModifyOne(i, distance, lots) =>
      LiveEntry(v.live, v.book, i);
      LiveReplace(v.live, v.book, i,
                  v.live[i].(price := PriceFor(v.live[i].side, distance), quantity := lots * 10), o.book);
    case TradeOne(i) =>
      LiveEntry(v.live, v.book, i);
      var fill := FillOf(v.live[i].quantity);
      if fill >= v.live[i].quantity {
        LiveRemove(v.live, v.book, i, o.book);
      } else {
        LiveReplace(v.live, v.book, i, v.live[i].(quantity := v.live[i].quantity - fill), o.book);
      }
  }

  lemma FreshId(b: Book, nextId: nat)
    requires Priced(b, nextId) && nextId < WORD
    ensures nextId !in b.orders
  {
  }

  lemma PublishPriced(v: Venue, c: Choice, now: nat)
    requires Drawable(v, c) && Consistent(CFG, v.book) && LiveIsBook(v.live, v.book) && Priced(v.book, v.nextId)
    ensures Priced(Apply(CFG, v.book, OpOf(MessageFor(v, c, now))).book, v.nextId + if c.NewOrder? then 1 else 0)
  {
    hide Consistent, Apply, LiveIsBook;
    PublishedIsApplied(v, c, now);
    if Apply(CFG, v.book, OpOf(MessageFor(v, c, now))).result == Ok {
      ApplyOrders(CFG, v.book, OpOf(MessageFor(v, c, now)));
    }
    if !c.NewOrder? {
      LiveEntry(v.live, v.book, c.index);
    }
  }

  lemma LiveEntry(live: seq<Live>, b: Book, i: nat)
    requires LiveIsBook(live, b) && i < |live|
    ensures SameOrder(b, live[i])
  {
  }

  /** Every turn keeps the live list equal to the book, the book equal to the published stream, the numbers
      consecutive and the packets a partition of the stream. */
  lemma PublishGood(v: Venue, c: Choice, now: nat, batch: nat)
    requires Good(v) && Drawable(v, c)
    ensures Good(Publish(v, c, now, batch))
  {
    hide LiveIsBook, Priced, Consistent, BookAfter, Apply, OpOf;
    var m := MessageFor(v, c, now);
    PublishLive(v, c, now);
    PublishPriced(v, c, now);
    BookAfterAppend(v.log, m);
    PublishPacked(v, c, now, batch);
  }

  lemma PublishPacked(v: Venue, c: Choice, now: nat, batch: nat)
    requires Drawable(v, c) && Consistent(CFG, v.book) && Packed(v)
    ensures Packed(Publish(v, c, now, batch))
  {
    hide Consistent, Apply;
    var packet := v.pending + [MessageFor(v, c, now)];
    assert (v.flushed + [packet])[..|v.flushed|] == v.flushed;
  }

  lemma BookAfterNothing()
    ensures BookAfter([]) == EmptyBook(CFG)
  {
    assert Ops([]) == [];
  }

  lemma NothingLive()
    ensures LiveIsBook([], EmptyBook(CFG)) && Priced(EmptyBook(CFG), 1)
  {
  }

  lemma OpeningGood()
    ensures Good(Opening())
  {
    hide BookAfter, EmptyBook;
    NothingLive();
    BookAfterNothing();
  }

  lemma FinalFlushGood(v: Venue)
    requires Good(v)
    ensures Good(FinalFlush(v)) && FinalFlush(v).pending == []
  {
    hide BookAfter, LiveIsBook, Priced, Consecutive;
    assert (v.flushed + [v.pending])[..|v.flushed|] == v.flushed;
  }

  /** A book kept by the exchange is never crossed. */
  lemma NeverCrossed(v: Venue, bid: int, ask: int)
    requires Good(v) && IsBestBid(v.book, bid) && IsBestAsk(v.book, ask)
    ensures bid < MID_PRICE < ask
  {
  }
}
