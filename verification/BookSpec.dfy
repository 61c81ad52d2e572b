/** The order book as clients see it: a map from order id to order, and one first-in-first-out
    queue of ids per side and price level. */
module BookSpec {
  import opened Market

  datatype Config = Config(minPrice: int, maxPrice: int, maxOrders: nat) {
    /** What the constructor of the book asserts, and what its 32- and 64-bit fields can hold. */
    predicate Valid() {
      && -0x8000_0000_0000_0000 <= minPrice <= maxPrice < 0x8000_0000_0000_0000
      && maxPrice < minPrice + 0x8000_0000_0000_0000
      && 0 < maxOrders < 0x1_0000_0000
    }

    predicate InBand(price: int) {
      minPrice <= price <= maxPrice
    }

    function LevelCount(): nat
      requires Valid()
    {
      maxPrice - minPrice + 1
    }

    function LevelIndex(price: int): nat
      requires InBand(price)
    {
      price - minPrice
    }
  }

  datatype Result = Ok | UnknownOrder | DuplicateOrder | PriceOutOfBand | PoolExhausted | InvalidQuantity

  datatype Entry = Entry(side: Side, price: int, quantity: U32)

  datatype Book = Book(orders: map<U64, Entry>, bids: seq<seq<U64>>, asks: seq<seq<U64>>) {
    function Queues(side: Side): seq<seq<U64>> {
      if side == Buy then bids else asks
    }

    function WithQueue(side: Side, level: nat, queue: seq<U64>): Book
      requires level < |Queues(side)|
    {
      if side == Buy then this.(bids := bids[level := queue]) else this.(asks := asks[level := queue])
    }
  }

  datatype Op =
    | Add(id: U64, side: Side, price: int, quantity: U32)
    | Cancel(id: U64)
    | Modify(id: U64, price: int, quantity: U32)
    | Execute(id: U64, quantity: U32)
    | Clear

  datatype Outcome = Outcome(result: Result, book: Book)

  function EmptyBook(cfg: Config): Book
    requires cfg.Valid()
  {
    var none := seq(cfg.LevelCount(), _ => []);
    Book(map[], none, none)
  }

  /** A queue with the first occurrence of `id` taken out. */
  function Without(queue: seq<U64>, id: U64): seq<U64> {
    if queue == [] then []
    else if queue[0] == id then queue[1..]
    else [queue[0]] + Without(queue[1..], id)
  }

  // ---- Consistent books ----

  ghost predicate NoDuplicates<T>(s: seq<T>) {
    forall i, j :: 0 <= i < j < |s| ==> s[i] != s[j]
  }

  /** A sequence without its element at `k`. */
  ghost function Cut<T>(s: seq<T>, k: nat): (r: seq<T>)
    requires k < |s|
    ensures |r| == |s| - 1 && forall i :: 0 <= i < |r| ==> r[i] == if i < k then s[i] else s[i + 1]
  {
    s[..k] + s[k + 1..]
  }

  /** The order `id` rests on `side` at level `level`. */
  ghost predicate RestsAt(cfg: Config, b: Book, id: U64, side: Side, level: int) {
    id in b.orders && b.orders[id].side == side && b.orders[id].price == cfg.minPrice + level
  }

  /** A queue holds, once each, exactly the orders that rest at its level. */
  ghost predicate QueueHolds(cfg: Config, b: Book, side: Side, level: nat)
    requires level < |b.Queues(side)|
  {
    && NoDuplicates(b.Queues(side)[level])
    && forall id :: id in b.Queues(side)[level] <==> RestsAt(cfg, b, id, side, level)
  }

  ghost predicate Consistent(cfg: Config, b: Book) {
    && cfg.Valid()
    && |b.bids| == |b.asks| == cfg.LevelCount()
    && |b.orders| <= cfg.maxOrders
    && (forall id :: id in b.orders ==> id != 0 && b.orders[id].quantity > 0 && cfg.InBand(b.orders[id].price))
    && forall side, level :: 0 <= level < cfg.LevelCount() ==> QueueHolds(cfg, b, side, level)
  }

  // ---- The operations ----

  function Enqueue(cfg: Config, b: Book, id: U64, e: Entry): Book
    requires cfg.Valid() && cfg.InBand(e.price) && |b.bids| == |b.asks| == cfg.LevelCount()
  {
    var level := cfg.LevelIndex(e.price);
    b.WithQueue(e.side, level, b.Queues(e.side)[level] + [id]).(orders := b.orders[id := e])
  }

  function Remove(cfg: Config, b: Book, id: U64): Book
    requires cfg.Valid() && |b.bids| == |b.asks| == cfg.LevelCount()
    requires id in b.orders && cfg.InBand(b.orders[id].price)
  {
    var e := b.orders[id];
    var level := cfg.LevelIndex(e.price);
    b.WithQueue(e.side, level, Without(b.Queues(e.side)[level], id)).(orders := b.orders - {id})
  }

  /** Changes an order's size where it stands. */
  function Resize(b: Book, id: U64, quantity: U32): Book
    requires id in b.orders
  {
    b.(orders := b.orders[id := b.orders[id].(quantity := quantity)])
  }

  /** Moves an order to the back of the queue at `price`. */
  function Requeue(cfg: Config, b: Book, id: U64, price: int, quantity: U32): Book
    requires Consistent(cfg, b) && id in b.orders && cfg.InBand(price)
  {
    Enqueue(cfg, Remove(cfg, b, id), id, Entry(b.orders[id].side, price, quantity))
  }

  /** A modification that keeps the order's place in its queue. */
  predicate ShrinksInPlace(e: Entry, price: int, quantity: U32) {
    price == e.price && quantity < e.quantity
  }

  function Apply(cfg: Config, b: Book, op: Op): Outcome
    requires Consistent(cfg, b)
  {
    match op
    case Add(id, side, price, quantity) =>
      if id == 0 then Outcome(UnknownOrder, b)
      else if quantity == 0 then Outcome(InvalidQuantity, b)
      else if !cfg.InBand(price) then Outcome(PriceOutOfBand, b)
      else if id in b.orders then Outcome(DuplicateOrder, b)
      else if |b.orders| == cfg.maxOrders then Outcome(PoolExhausted, b)
      else Outcome(Ok, Enqueue(cfg, b, id, Entry(side, price, quantity)))
    case Cancel(id) =>
      if id !in b.orders then Outcome(UnknownOrder, b)
      else Outcome(Ok, Remove(cfg, b, id))
    case Modify(id, price, quantity) =>
      if quantity == 0 then Outcome(InvalidQuantity, b)
      else if !cfg.InBand(price) then Outcome(PriceOutOfBand, b)
      else if id !in b.orders then Outcome(UnknownOrder, b)
      else if ShrinksInPlace(b.orders[id], price, quantity) then
        Outcome(Ok, Resize(b, id, quantity))
      else
        Outcome(Ok, Requeue(cfg, b, id, price, quantity))
    case Execute(id, quantity) =>
      if quantity == 0 then Outcome(InvalidQuantity, b)
      else if id !in b.orders then Outcome(UnknownOrder, b)
      else if quantity >= b.orders[id].quantity then Outcome(Ok, Remove(cfg, b, id))
      else Outcome(Ok, Resize(b, id, b.orders[id].quantity - quantity))
    case Clear =>
      Outcome(Ok, EmptyBook(cfg))
  }

  // ---- What the queries report ----

  ghost function QueueQuantity(b: Book, ids: seq<U64>): nat
    requires forall id :: id in ids ==> id in b.orders
  {
    if ids == [] then 0 else QueueQuantity(b, ids[..|ids| - 1]) + b.orders[ids[|ids| - 1]].quantity
  }

  /** Total size resting at a price. */
  ghost function QuantityAt(cfg: Config, b: Book, side: Side, price: int): nat
    requires Consistent(cfg, b)
  {
    if cfg.InBand(price) then
      assert QueueHolds(cfg, b, side, cfg.LevelIndex(price));
      QueueQuantity(b, b.Queues(side)[cfg.LevelIndex(price)])
    else 0
  }

  ghost predicate HasOrders(b: Book, side: Side) {
    exists id :: id in b.orders && b.orders[id].side == side
  }

  /** `price` is the highest price at which a bid rests. */
  ghost predicate IsBestBid(b: Book, price: int) {
    && (exists id :: id in b.orders && b.orders[id].side == Buy && b.orders[id].price == price)
    && forall id :: id in b.orders && b.orders[id].side == Buy ==> b.orders[id].price <= price
  }

  /** `price` is the lowest price at which an ask rests. */
  ghost predicate IsBestAsk(b: Book, price: int) {
    && (exists id :: id in b.orders && b.orders[id].side == Sell && b.orders[id].price == price)
    && forall id :: id in b.orders && b.orders[id].side == Sell ==> b.orders[id].price >= price
  }

  // ---- Every operation keeps the book consistent ----

  lemma {:induction false} WithoutMembers(queue: seq<U64>, id: U64)
    requires NoDuplicates(queue)
    ensures NoDuplicates(Without(queue, id))
    ensures forall x :: x in Without(queue, id) <==> x in queue && x != id
  {
    if queue != [] {
      assert queue == [queue[0]] + queue[1..];
      if queue[0] != id {
        WithoutMembers(queue[1..], id);
        assert queue[0] !in queue[1..];
      }
    }
  }

  /** Removal at a known position. */
  lemma {:induction false} WithoutAt(queue: seq<U64>, k: nat)
    requires NoDuplicates(queue) && k < |queue|
    ensures Without(queue, queue[k]) == Cut(queue, k)
  {
    if k > 0 {
      WithoutAt(queue[1..], k - 1);
      assert queue[1..][..k - 1] == queue[1..k];
      assert queue[..k] == [queue[0]] + queue[1..k];
    }
  }

  lemma {:induction false} WithoutAbsent(queue: seq<U64>, id: U64)
    requires id !in queue
    ensures Without(queue, id) == queue
    ensures Without(queue + [id], id) == queue
  {
    if queue != [] {
      WithoutAbsent(queue[1..], id);
      assert (queue + [id])[1..] == queue[1..] + [id];
    }
  }

  lemma RemoveConsistent(cfg: Config, b: Book, id: U64)
    requires Consistent(cfg, b) && id in b.orders
    ensures Consistent(cfg, Remove(cfg, b, id))
  {
    var e := b.orders[id];
    var at := cfg.LevelIndex(e.price);
    var after := Remove(cfg, b, id);
    forall side, level | 0 <= level < cfg.LevelCount() ensures QueueHolds(cfg, after, side, level) {
      assert QueueHolds(cfg, b, side, level);
      WithoutMembers(b.Queues(side)[level], id);
      assert forall x :: RestsAt(cfg, after, x, side, level) <==> RestsAt(cfg, b, x, side, level) && x != id;
      if side == e.side && level == at {
        assert after.Queues(side)[level] == Without(b.Queues(side)[level], id);
      } else {
        assert after.Queues(side)[level] == b.Queues(side)[level];
        assert !RestsAt(cfg, b, id, side, level);
      }
    }
  }

  lemma EnqueueConsistent(cfg: Config, b: Book, id: U64, e: Entry)
    requires Consistent(cfg, b) && id != 0 && id !in b.orders && |b.orders| < cfg.maxOrders
    requires e.quantity > 0 && cfg.InBand(e.price)
    ensures Consistent(cfg, Enqueue(cfg, b, id, e))
  {
    var at := cfg.LevelIndex(e.price);
    var after := Enqueue(cfg, b, id, e);
    forall side, level | 0 <= level < cfg.LevelCount() ensures QueueHolds(cfg, after, side, level) {
      assert QueueHolds(cfg, b, side, level);
      assert !RestsAt(cfg, b, id, side, level);
      if side == e.side && level == at {
        assert after.Queues(side)[level] == b.Queues(side)[level] + [id];
        assert RestsAt(cfg, after, id, side, level);
      } else {
        assert after.Queues(side)[level] == b.Queues(side)[level];
        assert !RestsAt(cfg, after, id, side, level);
      }
      assert forall x :: x != id ==> (RestsAt(cfg, after, x, side, level) <==> RestsAt(cfg, b, x, side, level));
    }
  }

  lemma RequeueConsistent(cfg: Config, b: Book, id: U64, price: int, quantity: U32)
    requires Consistent(cfg, b) && id in b.orders && cfg.InBand(price) && quantity > 0
    ensures Consistent(cfg, Requeue(cfg, b, id, price, quantity))
    ensures |Requeue(cfg, b, id, price, quantity).orders| == |b.orders|
  {
    RemoveConsistent(cfg, b, id);
    EnqueueConsistent(cfg, Remove(cfg, b, id), id, Entry(b.orders[id].side, price, quantity));
  }

  lemma ResizeConsistent(cfg: Config, b: Book, id: U64, quantity: U32)
    requires Consistent(cfg, b) && id in b.orders && quantity > 0
    ensures Consistent(cfg, Resize(b, id, quantity))
    ensures |Resize(b, id, quantity).orders| == |b.orders|
  {
    var after := Resize(b, id, quantity);
    assert after.orders.Keys == b.orders.Keys;
    forall side, level | 0 <= level < cfg.LevelCount() ensures QueueHolds(cfg, after, side, level) {
      assert QueueHolds(cfg, b, side, level);
      assert forall x :: RestsAt(cfg, after, x, side, level) <==> RestsAt(cfg, b, x, side, level);
    }
  }

  lemma ApplyConsistent(cfg: Config, b: Book, op: Op)
    requires Consistent(cfg, b)
    ensures Consistent(cfg, Apply(cfg, b, op).book)
  {
    var o := Apply(cfg, b, op);
    if o.result == Ok {
      match op
      case Add(id, side, price, quantity) =>
        EnqueueConsistent(cfg, b, id, Entry(side, price, quantity));
      case Cancel(id) =>
        RemoveConsistent(cfg, b, id);
      case Modify(id, price, quantity) =>
        if ShrinksInPlace(b.orders[id], price, quantity) {
          ResizeConsistent(cfg, b, id, quantity);
        } else {
          RequeueConsistent(cfg, b, id, price, quantity);
        }
      case Execute(id, quantity) =>
        if quantity >= b.orders[id].quantity {
          RemoveConsistent(cfg, b, id);
        } else {
          ResizeConsistent(cfg, b, id, b.orders[id].quantity - quantity);
        }
      case Clear =>
        EmptyConsistent(cfg);
    }
  }

  /** What an accepted operation does to the orders, whatever the queues. */
  function OrdersAfter(orders: map<U64, Entry>, op: Op): map<U64, Entry>
    requires !op.Clear? && (op.Add? || op.id in orders)
  {
    match op
    case Add(id, side, price, quantity) => orders[id := Entry(side, price, quantity)]
    case Cancel(id) => orders - {id}
    case Modify(id, price, quantity) => orders[id := Entry(orders[id].side, price, quantity)]
    case Execute(id, quantity) =>
      if quantity >= orders[id].quantity then orders - {id}
      else orders[id := orders[id].(quantity := orders[id].quantity - quantity)]
  }

  lemma ApplyOrders(cfg: Config, b: Book, op: Op)
    requires Consistent(cfg, b) && Apply(cfg, b, op).result == Ok && op != Clear
    ensures op.Add? || op.id in b.orders
    ensures Apply(cfg, b, op).book.orders == OrdersAfter(b.orders, op)
  {
    hide QueueHolds;
    if op.Modify? {
      assert (b.orders - {op.id})[op.id := Entry(b.orders[op.id].side, op.price, op.quantity)]
          == b.orders[op.id := Entry(b.orders[op.id].side, op.price, op.quantity)];
    }
  }

  lemma EmptyConsistent(cfg: Config)
    requires cfg.Valid()
    ensures Consistent(cfg, EmptyBook(cfg))
  {
  }

  // ---- Whole histories ----

  /** The book after a history of operations. */
  function Run(cfg: Config, ops: seq<Op>): (b: Book)
    requires cfg.Valid()
    ensures Consistent(cfg, b)
  {
    if ops == [] then
      EmptyConsistent(cfg);
      EmptyBook(cfg)
    else
      var before := Run(cfg, ops[..|ops| - 1]);
      ApplyConsistent(cfg, before, ops[|ops| - 1]);
      Apply(cfg, before, ops[|ops| - 1]).book
  }

  /** The operation puts the order `id` at the back of a queue: a successful add, or a successful
      modification that is not a shrink at an unchanged price. */
  ghost predicate SendsToBack(cfg: Config, b: Book, op: Op, id: U64)
    requires Consistent(cfg, b)
  {
    && Apply(cfg, b, op).result == Ok
    && match op
       case Add(added, _, _, _) => added == id
       case Modify(modified, price, quantity) => modified == id && !ShrinksInPlace(b.orders[id], price, quantity)
       case _ => false
  }

  /** Position in the history of the last operation that sent `id` to the back, or -1. */
  ghost function LastQueued(cfg: Config, ops: seq<Op>, id: U64): (t: int)
    requires cfg.Valid()
    ensures -1 <= t < |ops|
  {
    if ops == [] then -1
    else if SendsToBack(cfg, Run(cfg, ops[..|ops| - 1]), ops[|ops| - 1], id) then |ops| - 1
    else LastQueued(cfg, ops[..|ops| - 1], id)
  }

  /** A queue is strictly ordered by the times `t` gives its orders. */
  ghost predicate InTimeOrder(t: U64 -> int, queue: seq<U64>) {
    && (forall i :: 0 <= i < |queue| ==> 0 <= t(queue[i]))
    && forall i, j :: 0 <= i < j < |queue| ==> t(queue[i]) < t(queue[j])
  }

  lemma WithoutInTimeOrder(t: U64 -> int, queue: seq<U64>, id: U64)
    requires InTimeOrder(t, queue)
    ensures InTimeOrder(t, Without(queue, id))
  {
    hide Without;
    if id in queue {
      var k :| 0 <= k < |queue| && queue[k] == id;
      WithoutAt(queue, k);
    } else {
      WithoutAbsent(queue, id);
    }
  }

  /** What the operation does to one queue. */
  ghost predicate QueueStep(cfg: Config, b: Book, op: Op, side: Side, level: nat)
    requires Consistent(cfg, b) && op != Clear && level < cfg.LevelCount()
  {
    var after := Apply(cfg, b, op).book;
    var queue := b.Queues(side)[level];
    && |after.Queues(side)| == cfg.LevelCount()
    && after.Queues(side)[level] ==
       if !RestsAt(cfg, after, op.id, side, level) then Without(queue, op.id)
       else if SendsToBack(cfg, b, op, op.id) then Without(queue, op.id) + [op.id]
       else queue
  }

  lemma QueueAfterRequeue(cfg: Config, b: Book, op: Op, side: Side, level: nat)
    requires Consistent(cfg, b) && op.Modify? && level < cfg.LevelCount()
    requires SendsToBack(cfg, b, op, op.id)
    ensures QueueStep(cfg, b, op, side, level)
  {
    assert QueueHolds(cfg, b, side, level);
    if !RestsAt(cfg, b, op.id, side, level) {
      WithoutAbsent(b.Queues(side)[level], op.id);
    }
  }

  /** Every level queue after one operation.  An order sent to the back is last at its new level; any
      other order still at the level keeps its place; no other order moves. */
  lemma QueueAfter(cfg: Config, b: Book, op: Op, side: Side, level: nat)
    requires Consistent(cfg, b) && op != Clear && level < cfg.LevelCount()
    ensures QueueStep(cfg, b, op, side, level)
  {
    assert QueueHolds(cfg, b, side, level);
    if !RestsAt(cfg, b, op.id, side, level) {
      WithoutAbsent(b.Queues(side)[level], op.id);
    }
    if op.Modify? && SendsToBack(cfg, b, op, op.id) {
      QueueAfterRequeue(cfg, b, op, side, level);
    }
  }

  /** Price-time priority: after any history, every queue is ordered by the time at which its
      orders were added or last lost their place. */
  lemma {:induction false} TimePriority(cfg: Config, ops: seq<Op>, side: Side, level: nat)
    requires cfg.Valid() && level < cfg.LevelCount()
    ensures |Run(cfg, ops).Queues(side)| == cfg.LevelCount()
    ensures InTimeOrder((id: U64) => LastQueued(cfg, ops, id), Run(cfg, ops).Queues(side)[level])
  {
    if ops != [] {
      var earlier := ops[..|ops| - 1];
      TimePriority(cfg, earlier, side, level);
      if ops[|ops| - 1] != Clear {
        var b, op := Run(cfg, earlier), ops[|ops| - 1];
        QueueAfter(cfg, b, op, side, level);
        assert QueueHolds(cfg, b, side, level);
        PriorityStep((id: U64) => LastQueued(cfg, earlier, id), (id: U64) => LastQueued(cfg, ops, id), |earlier|,
                     b.Queues(side)[level], Run(cfg, ops).Queues(side)[level], op.id, SendsToBack(cfg, b, op, op.id));
      }
    }
  }

  /** A queue stays ordered when one order leaves it, or is re-queued behind all others with a later time. */
  lemma PriorityStep(t: U64 -> int, t': U64 -> int, now: nat, queue: seq<U64>, after: seq<U64>, id: U64, sent: bool)
    requires NoDuplicates(queue) && InTimeOrder(t, queue)
    requires forall x :: t(x) < now && t'(x) == if sent && x == id then now else t(x)
    requires || after == Without(queue, id)
             || after == if sent then Without(queue, id) + [id] else queue
    ensures InTimeOrder(t', after)
  {
    WithoutInTimeOrder(t, queue, id);
    WithoutMembers(queue, id);
    LaterTimes(t, t', Without(queue, id), id);
  }

  /** Raising the time of an order that is not in the queue keeps the queue ordered. */
  lemma LaterTimes(t: U64 -> int, t': U64 -> int, queue: seq<U64>, id: U64)
    requires InTimeOrder(t, queue) && id !in queue
    requires forall x :: x != id ==> t'(x) == t(x)
    ensures InTimeOrder(t', queue)
  {
  }

  // ---- Keeping one's place ----

  /** Whether an order stands last at its level. */
  ghost predicate IsLast(cfg: Config, b: Book, id: U64)
    requires Consistent(cfg, b) && id in b.orders
  {
    var queue := b.Queues(b.orders[id].side)[cfg.LevelIndex(b.orders[id].price)];
    queue != [] && queue[|queue| - 1] == id
  }

  lemma RequeuedQueue(queue: seq<U64>, id: U64)
    requires NoDuplicates(queue) && id in queue
    ensures Without(queue, id) + [id] == queue <==> queue[|queue| - 1] == id
  {
    var k :| 0 <= k < |queue| && queue[k] == id;
    WithoutAt(queue, k);
    if k == |queue| - 1 {
      assert Cut(queue, k) + [id] == queue;
    } else {
      assert (Cut(queue, k) + [id])[|queue| - 1] == id;
    }
  }

  /** A modification at an unchanged price leaves every queue as it is if and only if it shrinks the order or nobody
      stands behind the order. */
  lemma KeepsPlaceIff(cfg: Config, b: Book, id: U64, quantity: U32)
    requires Consistent(cfg, b) && id in b.orders && quantity > 0
    ensures var e := b.orders[id];
            var after := Apply(cfg, b, Op.Modify(id, e.price, quantity)).book;
            after.bids == b.bids && after.asks == b.asks <==> quantity < e.quantity || IsLast(cfg, b, id)
  {
    var e := b.orders[id];
    var level := cfg.LevelIndex(e.price);
    var after := Apply(cfg, b, Op.Modify(id, e.price, quantity)).book;
    if quantity >= e.quantity {
      assert QueueHolds(cfg, b, e.side, level);
      assert RestsAt(cfg, b, id, e.side, level);
      var queue := b.Queues(e.side)[level];
      RequeuedQueue(queue, id);
      assert after.Queues(e.side)[level] == Without(queue, id) + [id];
    }
  }
}
