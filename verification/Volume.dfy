/** Conservation of quantity: what rests in a book is what entered it less what left it. */
module Volume {
  import opened Market
  import opened BookSpec

  /** Total size of a set of orders. */
  ghost function Resting(orders: map<U64, Entry>): nat
    decreases |orders|
  {
    if orders == map[] then 0
    else
      var id :| id in orders;
      orders[id].quantity + Resting(orders - {id})
  }

  /** The total does not depend on the order of summation. */
  lemma {:induction false} RestingTake(orders: map<U64, Entry>, id: U64)
    requires id in orders
    ensures Resting(orders) == orders[id].quantity + Resting(orders - {id})
    decreases |orders|
  {
    var first :| first in orders && Resting(orders) == orders[first].quantity + Resting(orders - {first});
    if first != id {
      var rest := orders - {first};
      RestingTake(rest, id);
      RestingTake(orders - {id}, first);
      assert rest - {id} == orders - {id} - {first};
    }
  }

  lemma RestingPut(orders: map<U64, Entry>, id: U64, e: Entry)
    ensures Resting(orders[id := e]) == Resting(orders - {id}) + e.quantity
  {
    RestingTake(orders[id := e], id);
    assert orders[id := e] - {id} == orders - {id};
  }

  /** Size brought into the book by an operation: of a new order, or of a modified one. */
  ghost function Entering(cfg: Config, b: Book, op: Op): nat
    requires Consistent(cfg, b)
  {
    if Apply(cfg, b, op).result != Ok then 0
    else if op.Add? || op.Modify? then op.quantity
    else 0
  }

  /** Size taken out of the book: of a cancelled order, of the order a modification replaces, of a fill (never more
      than what rested), or of everything. */
  ghost function Leaving(cfg: Config, b: Book, op: Op): nat
    requires Consistent(cfg, b)
  {
    if Apply(cfg, b, op).result != Ok then 0
    else
      match op
      case Add(_, _, _, _) => 0
      case Cancel(id) => b.orders[id].quantity
      case Modify(id, _, _) => b.orders[id].quantity
      case Execute(id, quantity) => if quantity < b.orders[id].quantity then quantity else b.orders[id].quantity
      case Clear => Resting(b.orders)
  }

  lemma ApplyBalance(cfg: Config, b: Book, op: Op)
    requires Consistent(cfg, b)
    ensures Resting(Apply(cfg, b, op).book.orders) + Leaving(cfg, b, op) == Resting(b.orders) + Entering(cfg, b, op)
  {
    hide Consistent, Apply;
    if op.Clear? {
      ClearEmpties(cfg, b);
    } else if Apply(cfg, b, op).result == Ok {
      ApplyOrders(cfg, b, op);
      OrdersBalance(b.orders, op);
      AcceptedAdd(cfg, b, op);
    } else {
      RefusedKeeps(cfg, b, op);
    }
  }

  lemma ClearEmpties(cfg: Config, b: Book)
    requires Consistent(cfg, b)
    ensures Apply(cfg, b, Clear).result == Ok && Apply(cfg, b, Clear).book.orders == map[]
  {
  }

  lemma RefusedKeeps(cfg: Config, b: Book, op: Op)
    requires Consistent(cfg, b)
    ensures Apply(cfg, b, op).result != Ok ==> Apply(cfg, b, op).book == b
  {
  }

  lemma AcceptedAdd(cfg: Config, b: Book, op: Op)
    requires Consistent(cfg, b) && Apply(cfg, b, op).result == Ok
    ensures op.Add? ==> op.id !in b.orders
  {
  }

  lemma OrdersBalance(orders: map<U64, Entry>, op: Op)
    requires !op.Clear? && (op.Add? || op.id in orders)
    ensures op.Add? && op.id !in orders ==> Resting(OrdersAfter(orders, op)) == Resting(orders) + op.quantity
    ensures op.Cancel? ==> Resting(OrdersAfter(orders, op)) + orders[op.id].quantity == Resting(orders)
    ensures op.Modify? ==> Resting(OrdersAfter(orders, op)) + orders[op.id].quantity == Resting(orders) + op.quantity
    ensures op.Execute? ==>
              var fill := if op.quantity < orders[op.id].quantity then op.quantity else orders[op.id].quantity;
              Resting(OrdersAfter(orders, op)) + fill == Resting(orders)
  {
    hide Resting;
    if op.id in orders {
      RestingTake(orders, op.id);
    } else {
      assert orders - {op.id} == orders;
    }
    match op
    case Add(id, side, price, quantity) => RestingPut(orders, id, Entry(side, price, quantity));
    case Cancel(_) =>
    case Modify(id, price, quantity) => RestingPut(orders, id, Entry(orders[id].side, price, quantity));
    case Execute(id, quantity) =>
      if quantity < orders[id].quantity {
        RestingPut(orders, id, orders[id].(quantity := orders[id].quantity - quantity));
      }
  }

  ghost function TotalEntered(cfg: Config, ops: seq<Op>): nat
    requires cfg.Valid()
  {
    if ops == [] then 0
    else TotalEntered(cfg, ops[..|ops| - 1]) + Entering(cfg, Run(cfg, ops[..|ops| - 1]), ops[|ops| - 1])
  }

  ghost function TotalLeft(cfg: Config, ops: seq<Op>): nat
    requires cfg.Valid()
  {
    if ops == [] then 0
    else TotalLeft(cfg, ops[..|ops| - 1]) + Leaving(cfg, Run(cfg, ops[..|ops| - 1]), ops[|ops| - 1])
  }

  /** Over every history, quantity is conserved. */
  lemma {:induction false} VolumeConserved(cfg: Config, ops: seq<Op>)
    requires cfg.Valid()
    ensures Resting(Run(cfg, ops).orders) + TotalLeft(cfg, ops) == TotalEntered(cfg, ops)
  {
    hide Apply, Consistent;
    if ops != [] {
      VolumeConserved(cfg, ops[..|ops| - 1]);
      ApplyBalance(cfg, Run(cfg, ops[..|ops| - 1]), ops[|ops| - 1]);
    }
  }

  // ---- Depth ----

  /** The orders that rest on `side` below level `n`. */
  ghost function Below(cfg: Config, b: Book, side: Side, n: nat): set<U64> {
    set id | id in b.orders && b.orders[id].side == side && b.orders[id].price < cfg.minPrice + n
  }

  /** What the book shows at the first `n` levels of a side, level by level. */
  ghost function Depth(cfg: Config, b: Book, side: Side, n: nat): nat
    requires Consistent(cfg, b)
  {
    if n == 0 then 0 else Depth(cfg, b, side, n - 1) + QuantityAt(cfg, b, side, cfg.minPrice + n - 1)
  }

  /** Taking a queue out of the orders takes its quantity out of the total. */
  lemma {:induction false} QueueTaken(b: Book, orders: map<U64, Entry>, ids: seq<U64>)
    requires NoDuplicates(ids)
    requires forall id :: id in ids ==> id in orders && id in b.orders && orders[id] == b.orders[id]
    ensures Resting(orders) == QueueQuantity(b, ids) + Resting(orders - (set id | id in ids))
  {
    hide Resting;
    if ids == [] {
      assert orders - (set id | id in ids) == orders;
    } else {
      var last := |ids| - 1;
      var rest, id := ids[..last], ids[last];
      QueueTaken(b, orders, rest);
      var left := orders - (set x | x in rest);
      RestingTake(left, id);
      assert ids == rest + [id];
      assert (set x | x in ids) == (set x | x in rest) + {id};
      assert left - {id} == orders - (set x | x in ids);
    }
  }

  lemma {:induction false} DepthTaken(cfg: Config, b: Book, orders: map<U64, Entry>, side: Side, n: nat)
    requires Consistent(cfg, b) && n <= cfg.LevelCount()
    requires forall id :: id in b.orders && b.orders[id].side == side ==> id in orders && orders[id] == b.orders[id]
    ensures Resting(orders) == Depth(cfg, b, side, n) + Resting(orders - Below(cfg, b, side, n))
  {
    hide Resting, Consistent, Below, QuantityAt;
    if n == 0 {
      BandBelow(cfg, b, side);
      assert orders - Below(cfg, b, side, 0) == orders;
    } else {
      DepthTaken(cfg, b, orders, side, n - 1);
      OneLevelTaken(cfg, b, orders, side, n - 1);
    }
  }

  lemma OneLevelTaken(cfg: Config, b: Book, orders: map<U64, Entry>, side: Side, level: nat)
    requires Consistent(cfg, b) && level < cfg.LevelCount()
    requires forall id :: id in b.orders && b.orders[id].side == side ==> id in orders && orders[id] == b.orders[id]
    ensures Resting(orders - Below(cfg, b, side, level))
         == QuantityAt(cfg, b, side, cfg.minPrice + level) + Resting(orders - Below(cfg, b, side, level + 1))
  {
    hide Resting, QueueQuantity, Consistent, Below, QuantityAt;
    LevelTaken(cfg, b, side, level);
    QuantityAtLevel(cfg, b, side, level);
    var left, ids := orders - Below(cfg, b, side, level), b.Queues(side)[level];
    QueueTaken(b, left, ids);
    assert left - (set id | id in ids) == orders - Below(cfg, b, side, level + 1);
  }

  lemma QuantityAtLevel(cfg: Config, b: Book, side: Side, level: nat)
    requires Consistent(cfg, b) && level < cfg.LevelCount()
    ensures level < |b.Queues(side)| && forall id :: id in b.Queues(side)[level] ==> id in b.orders
    ensures QuantityAt(cfg, b, side, cfg.minPrice + level) == QueueQuantity(b, b.Queues(side)[level])
  {
    assert QueueHolds(cfg, b, side, level);
  }

  lemma BandBelow(cfg: Config, b: Book, side: Side)
    requires Consistent(cfg, b)
    ensures Below(cfg, b, side, 0) == {}
    ensures forall id :: id in b.orders && b.orders[id].side == side ==> id in Below(cfg, b, side, cfg.LevelCount())
  {
  }

  lemma LevelTaken(cfg: Config, b: Book, side: Side, level: nat)
    requires Consistent(cfg, b) && level < cfg.LevelCount()
    ensures level < |b.Queues(side)| && NoDuplicates(b.Queues(side)[level])
    ensures forall id :: id in b.Queues(side)[level] ==> id in b.orders && b.orders[id].side == side
    ensures (set id | id in b.Queues(side)[level]) !! Below(cfg, b, side, level)
    ensures Below(cfg, b, side, level + 1) == Below(cfg, b, side, level) + (set id | id in b.Queues(side)[level])
  {
    assert QueueHolds(cfg, b, side, level);
    forall id: U64 ensures id in Below(cfg, b, side, level + 1) <==>
                           id in Below(cfg, b, side, level) || id in b.Queues(side)[level]
    {
      assert id in b.Queues(side)[level] <==> RestsAt(cfg, b, id, side, level);
    }
  }

  /** The level totals of both sides add up to the size of all resting orders. */
  lemma DepthIsResting(cfg: Config, b: Book)
    requires Consistent(cfg, b)
    ensures Depth(cfg, b, Buy, cfg.LevelCount()) + Depth(cfg, b, Sell, cfg.LevelCount()) == Resting(b.orders)
  {
    hide Depth;
    var n := cfg.LevelCount();
    DepthTaken(cfg, b, b.orders, Buy, n);
    var asks := b.orders - Below(cfg, b, Buy, n);
    DepthTaken(cfg, b, asks, Sell, n);
    BandBelow(cfg, b, Buy);
    BandBelow(cfg, b, Sell);
    forall id | id in b.orders ensures id in Below(cfg, b, Buy, n) || id in Below(cfg, b, Sell, n) {
      assert b.orders[id].side == Buy || b.orders[id].side == Sell;
    }
    assert asks - Below(cfg, b, Sell, n) == map[];
  }
}
