/** What a caller of the book can count on: which answer each operation gets, and what each message of the feed does to
    the orders, in terms of its own fields. */
module BookEffects {
  import opened Market
  import opened BookSpec
  import Venues

  // ---- Answers ----

  /** A valid size and price: the tests that come before the order is looked up. */
  predicate WellFormed(cfg: Config, op: Op) {
    match op
    case Add(id, _, price, quantity) => id != 0 && quantity > 0 && cfg.InBand(price)
    case Cancel(_) => true
    case Modify(_, price, quantity) => quantity > 0 && cfg.InBand(price)
    case Execute(_, quantity) => quantity > 0
    case Clear => true
  }

  predicate Names(b: Book, op: Op) {
    !op.Clear? && op.id in b.orders
  }

  /** An operation is answered `UnknownOrder` exactly if it adds id 0, or is well formed and amends an order that does
      not rest. */
  lemma UnknownIff(cfg: Config, b: Book, op: Op)
    requires Consistent(cfg, b)
    ensures Apply(cfg, b, op).result == UnknownOrder <==>
            || (op.Add? && op.id == 0)
            || ((op.Cancel? || op.Modify? || op.Execute?) && WellFormed(cfg, op) && !Names(b, op))
  {
  }

  /** `DuplicateOrder`: a well formed add of an id that rests. */
  lemma DuplicateIff(cfg: Config, b: Book, op: Op)
    requires Consistent(cfg, b)
    ensures Apply(cfg, b, op).result == DuplicateOrder <==> op.Add? && WellFormed(cfg, op) && Names(b, op)
  {
  }

  /** `PoolExhausted`: a well formed add of a new id to a book that holds as many orders as it may. */
  lemma ExhaustedIff(cfg: Config, b: Book, op: Op)
    requires Consistent(cfg, b)
    ensures Apply(cfg, b, op).result == PoolExhausted <==>
            op.Add? && WellFormed(cfg, op) && !Names(b, op) && |b.orders| == cfg.maxOrders
  {
  }

  /** `InvalidQuantity`: a zero size, which an add reports only for a non-zero id and a modification whatever its
      price. */
  lemma InvalidIff(cfg: Config, b: Book, op: Op)
    requires Consistent(cfg, b)
    ensures Apply(cfg, b, op).result == InvalidQuantity <==>
            (op.Add? && op.id != 0 && op.quantity == 0) || ((op.Modify? || op.Execute?) && op.quantity == 0)
  {
  }

  /** `PriceOutOfBand`: a price outside the band with a positive size and, for an add, a non-zero id; whether the order
      rests does not matter. */
  lemma OutOfBandIff(cfg: Config, b: Book, op: Op)
    requires Consistent(cfg, b)
    ensures Apply(cfg, b, op).result == PriceOutOfBand <==>
            (op.Add? || op.Modify?) && !cfg.InBand(op.price) && op.quantity > 0 && (op.Add? ==> op.id != 0)
  {
  }

  /** `Ok`: everything else, and only then may the book change. */
  lemma OkIff(cfg: Config, b: Book, op: Op)
    requires Consistent(cfg, b)
    ensures Apply(cfg, b, op).result == Ok <==>
            || op.Clear?
            || (WellFormed(cfg, op) && if op.Add? then !Names(b, op) && |b.orders| < cfg.maxOrders else Names(b, op))
    ensures Apply(cfg, b, op).result != Ok ==> Apply(cfg, b, op).book == b
  {
  }

  // ---- Queues ----

  /** A fill moves nobody: the queues change exactly if it takes the whole order, and then only by losing it. */
  lemma FillKeepsPlaces(cfg: Config, b: Book, id: U64, quantity: U32)
    requires Consistent(cfg, b) && id in b.orders && quantity > 0
    ensures var after, e := Apply(cfg, b, Op.Execute(id, quantity)).book, b.orders[id];
            && (after.bids == b.bids && after.asks == b.asks <==> quantity < e.quantity)
            && (quantity >= e.quantity ==> after == Apply(cfg, b, Op.Cancel(id)).book)
  {
    var e := b.orders[id];
    var level := cfg.LevelIndex(e.price);
    assert QueueHolds(cfg, b, e.side, level) && RestsAt(cfg, b, id, e.side, level);
    WithoutMembers(b.Queues(e.side)[level], id);
  }

  // ---- Messages ----

  /** Nothing but `id` differs. */
  ghost predicate SameBut(orders: map<U64, Entry>, after: map<U64, Entry>, id: U64) {
    forall x :: x != id ==> (x in after <==> x in orders) && (x in orders && x in after ==> after[x] == orders[x])
  }

  /** What a message does to the book it is applied to.  A cancel removes its order, whatever price and size the message
      carries; a trade takes the message's size out of the order, or the order if that is all of it; a modification
      keeps the side and sets price and size; an accepted add binds its id; and no other order is touched. */
  lemma MessageEffect(cfg: Config, b: Book, m: Message)
    requires Consistent(cfg, b)
    ensures var o := Apply(cfg, b, Venues.OpOf(m));
            var id, after := m.orderId, o.book.orders;
            && SameBut(b.orders, after, id)
            && (m.kind == MessageType.Cancel ==> id !in after && (o.result == Ok <==> id in b.orders))
            && (m.kind == MessageType.Trade && id in b.orders && m.quantity > 0 ==>
                  && o.result == Ok
                  && (id in after <==> m.quantity < b.orders[id].quantity)
                  && (id in after ==>
                        after[id] == Entry(b.orders[id].side, b.orders[id].price, b.orders[id].quantity - m.quantity)))
            && (m.kind == MessageType.Modify && id in b.orders && m.quantity > 0 && cfg.InBand(m.price) ==>
                  && o.result == Ok
                  && id in after && after[id] == Entry(b.orders[id].side, m.price, m.quantity))
            && (m.kind == MessageType.Add && o.result == Ok ==>
                  id !in b.orders && id in after && after[id] == Entry(m.side, m.price, m.quantity))
            && (m.kind == MessageType.Trade && (id !in b.orders || m.quantity == 0) ==> o.book == b)
            && (m.kind == MessageType.Modify && (id !in b.orders || m.quantity == 0 || !cfg.InBand(m.price)) ==>
                  o.book == b)
            && (o.result != Ok ==> o.book == b)
  {
    var op := Venues.OpOf(m);
    OkIff(cfg, b, op);
    if Apply(cfg, b, op).result == Ok {
      ApplyOrders(cfg, b, op);
      AcceptedOrders(b.orders, op);
    }
  }

  lemma AcceptedOrders(orders: map<U64, Entry>, op: Op)
    requires !op.Clear? && (op.Add? || op.id in orders)
    ensures SameBut(orders, OrdersAfter(orders, op), op.id)
  {
  }

  /** An add is accepted exactly if its id is new and not 0, its size positive, its price in the band and a slot
      free. */
  lemma AddAnswer(cfg: Config, b: Book, m: Message)
    requires Consistent(cfg, b) && m.kind == MessageType.Add
    ensures Apply(cfg, b, Venues.OpOf(m)).result == Ok <==>
            && m.orderId != 0 && m.orderId !in b.orders && m.quantity > 0 && cfg.InBand(m.price)
            && |b.orders| < cfg.maxOrders
  {
    OkIff(cfg, b, Venues.OpOf(m));
  }
}
