/** The node-based book the benchmark compares with: sorted maps of price to list, and an index of locations.
    It performs no checks, and re-queues an order on every modification. */
module NodeBooks {
  import opened Market
  import opened BookSpec

  datatype Node = Node(id: U64, quantity: U32)

  datatype Location = Location(side: Side, price: int)

  type Levels = map<int, seq<Node>>

  function NodesAt(levels: Levels, price: int): seq<Node> {
    if price in levels then levels[price] else []
  }

  /** A queue of the book with its quantities. */
  ghost function QueueNodes(b: Book, ids: seq<U64>): (nodes: seq<Node>)
    requires forall i :: 0 <= i < |ids| ==> ids[i] in b.orders
    ensures |nodes| == |ids| && forall i :: 0 <= i < |ids| ==> nodes[i] == Node(ids[i], b.orders[ids[i]].quantity)
  {
    seq(|ids|, i requires 0 <= i < |ids| => Node(ids[i], b.orders[ids[i]].quantity))
  }

  /** The list at a price holds the book's queue, and an empty list is not kept. */
  ghost predicate LevelHolds(cfg: Config, levels: Levels, b: Book, side: Side, level: nat)
    requires level < |b.Queues(side)|
  {
    && (forall i :: 0 <= i < |b.Queues(side)[level]| ==> b.Queues(side)[level][i] in b.orders)
    && NodesAt(levels, cfg.minPrice + level) == QueueNodes(b, b.Queues(side)[level])
    && (cfg.minPrice + level in levels ==> levels[cfg.minPrice + level] != [])
  }

  /** What the benchmark book makes of an operation that the checked book accepts. */
  function NodeApply(cfg: Config, b: Book, op: Op): Book
    requires Consistent(cfg, b) && Apply(cfg, b, op).result == Ok && op != Clear
  {
    match op
    case Modify(id, price, quantity) => Requeue(cfg, b, id, price, quantity)
    case _ => Apply(cfg, b, op).book
  }

  // ---- How the two books compare ----

  /** On one accepted operation the books agree exactly unless it shrinks, in place, an order that others stand
      behind: there the checked book keeps the order's place and the benchmark book does not. */
  lemma AgreesIff(cfg: Config, b: Book, op: Op)
    requires Consistent(cfg, b) && Apply(cfg, b, op).result == Ok && op != Clear
    ensures NodeApply(cfg, b, op) == Apply(cfg, b, op).book <==>
            !(op.Modify? && ShrinksInPlace(b.orders[op.id], op.price, op.quantity) && !IsLast(cfg, b, op.id))
  {
    if op.Modify? && ShrinksInPlace(b.orders[op.id], op.price, op.quantity) {
      var id, e := op.id, b.orders[op.id];
      var level := cfg.LevelIndex(e.price);
      assert QueueHolds(cfg, b, e.side, level);
      var queue := b.Queues(e.side)[level];
      assert RestsAt(cfg, b, id, e.side, level);
      RequeuedQueue(queue, id);
      var n, a := NodeApply(cfg, b, op), Apply(cfg, b, op).book;
      assert n.Queues(e.side)[level] == Without(queue, id) + [id];
      assert a.Queues(e.side)[level] == queue;
      assert n.orders == a.orders;
      if IsLast(cfg, b, id) {
        assert n.bids == a.bids && n.asks == a.asks;
      }
    }
  }

  lemma NodeApplyConsistent(cfg: Config, b: Book, op: Op)
    requires Consistent(cfg, b) && Apply(cfg, b, op).result == Ok && op != Clear
    ensures Consistent(cfg, NodeApply(cfg, b, op))
  {
    hide QueueHolds;
    if op.Modify? {
      RequeueConsistent(cfg, b, op.id, op.price, op.quantity);
    } else {
      ApplyConsistent(cfg, b, op);
    }
  }

  lemma NodeApplyOrders(cfg: Config, b: Book, op: Op)
    requires Consistent(cfg, b) && Apply(cfg, b, op).result == Ok && op != Clear
    ensures op.Add? || op.id in b.orders
    ensures NodeApply(cfg, b, op).orders == OrdersAfter(b.orders, op)
  {
    hide QueueHolds, Apply;
    ApplyOrders(cfg, b, op);
  }

  lemma SameResult(cfg: Config, a: Book, n: Book, op: Op)
    requires Consistent(cfg, a) && Consistent(cfg, n) && a.orders == n.orders && op != Clear
    ensures Apply(cfg, n, op).result == Apply(cfg, a, op).result
  {
    hide QueueHolds;
  }

  /** Books with the same orders accept the same operations and still have the same orders afterwards. */
  lemma SameOrdersAfter(cfg: Config, a: Book, n: Book, op: Op)
    requires Consistent(cfg, a) && Consistent(cfg, n) && a.orders == n.orders && op != Clear
    ensures Apply(cfg, n, op).result == Apply(cfg, a, op).result
    ensures Apply(cfg, a, op).result == Ok ==> NodeApply(cfg, n, op).orders == Apply(cfg, a, op).book.orders
  {
    hide Apply, NodeApply, QueueHolds;
    SameResult(cfg, a, n, op);
    if Apply(cfg, a, op).result == Ok {
      ApplyOrders(cfg, a, op);
      NodeApplyOrders(cfg, n, op);
    }
  }

  /** Both books ignore the operation: it names no resting order, or it fills nothing. */
  predicate Ignored(b: Book, op: Op) {
    match op
    case Add(_, _, _, _) => false
    case Cancel(id) => id !in b.orders
    case Modify(id, _, _) => id !in b.orders
    case Execute(id, quantity) => id !in b.orders || quantity == 0
    case Clear => false
  }

  /** The checked book accepts the operation, or both books ignore it. */
  predicate Handled(cfg: Config, b: Book, op: Op)
    requires Consistent(cfg, b)
  {
    op != Clear && (Apply(cfg, b, op).result == Ok || Ignored(b, op))
  }

  /** What the benchmark book makes of such an operation. */
  function NodeStep(cfg: Config, n: Book, op: Op): Book
    requires Consistent(cfg, n) && Handled(cfg, n, op)
  {
    if Apply(cfg, n, op).result == Ok then NodeApply(cfg, n, op) else n
  }

  /** Books with the same orders handle the same operations and still have the same orders afterwards. */
  lemma SameOrdersStep(cfg: Config, a: Book, n: Book, op: Op)
    requires Consistent(cfg, a) && Consistent(cfg, n) && a.orders == n.orders && Handled(cfg, a, op)
    ensures Handled(cfg, n, op) && Consistent(cfg, NodeStep(cfg, n, op))
    ensures NodeStep(cfg, n, op).orders == Apply(cfg, a, op).book.orders
  {
    SameOrdersAfter(cfg, a, n, op);
    if Apply(cfg, n, op).result == Ok {
      NodeApplyConsistent(cfg, n, op);
    }
  }

  /** Every operation of the history is accepted by the checked book or ignored by both. */
  ghost predicate AllHandled(cfg: Config, ops: seq<Op>)
    requires cfg.Valid()
  {
    forall i :: 0 <= i < |ops| ==> Handled(cfg, Run(cfg, ops[..i]), ops[i])
  }

  /** The benchmark book after such a history: it holds the same orders as the checked book. */
  ghost function NodeRun(cfg: Config, ops: seq<Op>): (n: Book)
    requires cfg.Valid() && AllHandled(cfg, ops)
    ensures Consistent(cfg, n) && n.orders == Run(cfg, ops).orders
  {
    if ops == [] then
      EmptyConsistent(cfg);
      EmptyBook(cfg)
    else
      HandledPrefix(cfg, ops);
      var m := NodeRun(cfg, ops[..|ops| - 1]);
      SameOrdersStep(cfg, Run(cfg, ops[..|ops| - 1]), m, ops[|ops| - 1]);
      NodeStep(cfg, m, ops[|ops| - 1])
  }

  lemma HandledPrefix(cfg: Config, ops: seq<Op>)
    requires cfg.Valid() && ops != [] && AllHandled(cfg, ops)
    ensures AllHandled(cfg, ops[..|ops| - 1])
    ensures Handled(cfg, Run(cfg, ops[..|ops| - 1]), ops[|ops| - 1])
  {
    hide Run, Handled;
    var before := ops[..|ops| - 1];
    forall i | 0 <= i < |before| ensures Handled(cfg, Run(cfg, before[..i]), before[i]) {
      assert before[..i] == ops[..i] && before[i] == ops[i];
    }
  }

  // ---- The benchmark's workload ----

  /** The id that the workload gives to the next order it adds. */
  function NextId(ops: seq<Op>): nat {
    if ops == [] then 1 else NextId(ops[..|ops| - 1]) + if ops[|ops| - 1].Add? then 1 else 0
  }

  /** What the workload generator may append: an order under the next id, or an amendment of any earlier id, dead or
      alive; sizes are positive and prices lie in the band. */
  predicate Issues(cfg: Config, next: nat, op: Op) {
    match op
    case Add(id, _, price, quantity) => id == next && quantity > 0 && cfg.InBand(price)
    case Cancel(id) => id < next
    case Modify(id, price, quantity) => id < next && quantity > 0 && cfg.InBand(price)
    case Execute(id, quantity) => id < next && quantity > 0
    case Clear => false
  }

  ghost predicate Workload(cfg: Config, ops: seq<Op>) {
    forall i :: 0 <= i < |ops| ==> Issues(cfg, NextId(ops[..i]), ops[i])
  }

  lemma WorkloadPrefix(cfg: Config, ops: seq<Op>)
    requires ops != [] && Workload(cfg, ops)
    ensures Workload(cfg, ops[..|ops| - 1]) && Issues(cfg, NextId(ops[..|ops| - 1]), ops[|ops| - 1])
  {
    hide NextId, Issues;
    var before := ops[..|ops| - 1];
    forall i | 0 <= i < |before| ensures Issues(cfg, NextId(before[..i]), before[i]) {
      assert before[..i] == ops[..i] && before[i] == ops[i];
    }
  }

  /** The orders resting after a workload carry ids it has issued, and there are no more of them than it has added. */
  ghost predicate IdsIssued(b: Book, next: nat) {
    (forall id :: id in b.orders ==> id < next) && |b.orders| < next
  }

  lemma IssuedHandled(cfg: Config, b: Book, op: Op, next: nat)
    requires Consistent(cfg, b) && IdsIssued(b, next) && Issues(cfg, next, op)
    requires next <= cfg.maxOrders + if op.Add? then 0 else 1
    ensures Handled(cfg, b, op) && (Apply(cfg, b, op).result != Ok ==> Apply(cfg, b, op).book == b)
    ensures next > 0
  {
    hide QueueHolds, Enqueue, Remove, Requeue, Resize;
  }

  lemma OrdersIssued(orders: map<U64, Entry>, op: Op, next: nat)
    requires !op.Clear? && (op.Add? || op.id in orders) && (op.Add? ==> op.id == next)
    requires (forall id :: id in orders ==> id < next) && |orders| < next
    ensures forall id :: id in OrdersAfter(orders, op) ==> id < next + if op.Add? then 1 else 0
    ensures |OrdersAfter(orders, op)| < next + if op.Add? then 1 else 0
  {
    OrdersSize(orders, op);
  }

  lemma StepIssued(cfg: Config, b: Book, op: Op, next: nat)
    requires Consistent(cfg, b) && IdsIssued(b, next) && Issues(cfg, next, op)
    requires next <= cfg.maxOrders + if op.Add? then 0 else 1
    ensures Handled(cfg, b, op)
    ensures IdsIssued(Apply(cfg, b, op).book, next + if op.Add? then 1 else 0)
  {
    hide Consistent, Apply, OrdersAfter, Handled;
    IssuedHandled(cfg, b, op, next);
    if Apply(cfg, b, op).result == Ok {
      ApplyOrders(cfg, b, op);
      OrdersIssued(b.orders, op, next);
    }
  }

  lemma OrdersSize(orders: map<U64, Entry>, op: Op)
    requires !op.Clear? && (op.Add? || op.id in orders)
    ensures |OrdersAfter(orders, op)| <= |orders| + if op.Add? then 1 else 0
  {
    var after := OrdersAfter(orders, op);
    assert after.Keys <= orders.Keys + {op.id};
    if op.Add? && op.id !in orders {
      assert after.Keys == orders.Keys + {op.id};
    } else {
      assert after.Keys <= orders.Keys;
      SubsetSize(after.Keys, orders.Keys);
    }
  }

  lemma {:induction false} SubsetSize(a: set<U64>, b: set<U64>)
    requires a <= b
    ensures |a| <= |b|
  {
    assert b == a + (b - a);
  }

  /** The benchmark's workload is handled throughout, as long as it does not add more orders than the pool has slots;
      so the two books hold the same orders all along. */
  lemma {:induction false} WorkloadHandled(cfg: Config, ops: seq<Op>)
    requires cfg.Valid() && Workload(cfg, ops) && NextId(ops) <= cfg.maxOrders + 1
    ensures AllHandled(cfg, ops) && IdsIssued(Run(cfg, ops), NextId(ops))
  {
    hide Handled, Issues, IdsIssued, Apply, QueueHolds, AllHandled, Workload;
    if ops == [] {
      NothingIssued(cfg);
      NothingHandled(cfg);
    } else {
      var last := |ops| - 1;
      var before := ops[..last];
      WorkloadPrefix(cfg, ops);
      WorkloadHandled(cfg, before);
      StepIssued(cfg, Run(cfg, before), ops[last], NextId(before));
      OneMoreHandled(cfg, ops);
    }
  }

  lemma NothingHandled(cfg: Config)
    requires cfg.Valid()
    ensures AllHandled(cfg, [])
  {
  }

  lemma OneMoreHandled(cfg: Config, ops: seq<Op>)
    requires cfg.Valid() && ops != [] && AllHandled(cfg, ops[..|ops| - 1])
    requires Handled(cfg, Run(cfg, ops[..|ops| - 1]), ops[|ops| - 1])
    ensures AllHandled(cfg, ops)
  {
    hide Run, Handled;
    var before := ops[..|ops| - 1];
    forall i | 0 <= i < |ops| ensures Handled(cfg, Run(cfg, ops[..i]), ops[i]) {
      if i < |before| {
        assert before[..i] == ops[..i] && before[i] == ops[i];
      }
    }
  }

  lemma NothingIssued(cfg: Config)
    requires cfg.Valid()
    ensures IdsIssued(EmptyBook(cfg), 1)
  {
  }

  // ---- The book itself ----

  function WithNodes(levels: Levels, price: int, nodes: seq<Node>): Levels {
    if nodes == [] then levels - {price} else levels[price := nodes]
  }

  ghost predicate SideHolds(cfg: Config, levels: Levels, b: Book, side: Side) {
    forall level :: 0 <= level < |b.Queues(side)| ==> LevelHolds(cfg, levels, b, side, level)
  }

  /** Replacing one level's list keeps the others, if their orders are unchanged. */
  lemma ReplaceLevel(cfg: Config, levels: Levels, b: Book, b': Book, side: Side, level: nat, nodes: seq<Node>)
    requires SideHolds(cfg, levels, b, side) && level < |b.Queues(side)| == |b'.Queues(side)|
    requires forall i :: 0 <= i < |b'.Queues(side)[level]| ==> b'.Queues(side)[level][i] in b'.orders
    requires nodes == QueueNodes(b', b'.Queues(side)[level])
    requires forall l :: 0 <= l < |b.Queues(side)| && l != level ==> SameLevel(b, b', side, l)
    ensures SideHolds(cfg, WithNodes(levels, cfg.minPrice + level, nodes), b', side)
  {
    var levels' := WithNodes(levels, cfg.minPrice + level, nodes);
    forall l | 0 <= l < |b.Queues(side)| ensures LevelHolds(cfg, levels', b', side, l) {
      assert LevelHolds(cfg, levels, b, side, l);
      if l != level {
        KeepLevel(cfg, levels, b, b', side, l);
        assert NodesAt(levels', cfg.minPrice + l) == NodesAt(levels, cfg.minPrice + l);
      }
    }
  }

  /** A level whose queue and orders are the same in both books. */
  ghost predicate SameLevel(b: Book, b': Book, side: Side, level: nat)
    requires level < |b.Queues(side)| && level < |b'.Queues(side)|
  {
    && b'.Queues(side)[level] == b.Queues(side)[level]
    && forall i :: 0 <= i < |b.Queues(side)[level]| && b.Queues(side)[level][i] in b.orders ==>
         && b.Queues(side)[level][i] in b'.orders
         && b'.orders[b.Queues(side)[level][i]] == b.orders[b.Queues(side)[level][i]]
  }

  lemma KeepLevel(cfg: Config, levels: Levels, b: Book, b': Book, side: Side, level: nat)
    requires level < |b.Queues(side)| && level < |b'.Queues(side)|
    requires LevelHolds(cfg, levels, b, side, level) && SameLevel(b, b', side, level)
    ensures LevelHolds(cfg, levels, b', side, level)
  {
    assert QueueNodes(b', b'.Queues(side)[level]) == QueueNodes(b, b.Queues(side)[level]);
  }

  lemma KeepSide(cfg: Config, levels: Levels, b: Book, b': Book, side: Side)
    requires SideHolds(cfg, levels, b, side) && |b'.Queues(side)| == |b.Queues(side)|
    requires forall l :: 0 <= l < |b.Queues(side)| ==> SameLevel(b, b', side, l)
    ensures SideHolds(cfg, levels, b', side)
  {
    forall l | 0 <= l < |b.Queues(side)| ensures LevelHolds(cfg, levels, b', side, l) {
      KeepLevel(cfg, levels, b, b', side, l);
    }
  }

  /** A change to one order leaves every level at which it does not rest as it was. */
  lemma OtherLevels(cfg: Config, b: Book, b': Book, id: U64, side: Side, level: nat)
    requires Consistent(cfg, b) && level < cfg.LevelCount() && |b'.Queues(side)| == cfg.LevelCount()
    requires b'.orders - {id} == b.orders - {id} && !RestsAt(cfg, b, id, side, level)
    requires b'.Queues(side)[level] == b.Queues(side)[level]
    ensures SameLevel(b, b', side, level)
  {
    assert QueueHolds(cfg, b, side, level);
    forall i | 0 <= i < |b.Queues(side)[level]|
      ensures b.Queues(side)[level][i] in b'.orders
              && b.Queues(side)[level][i] in b.orders
              && b'.orders[b.Queues(side)[level][i]] == b.orders[b.Queues(side)[level][i]]
    {
      var x := b.Queues(side)[level][i];
      assert RestsAt(cfg, b, x, side, level);
      assert x in b.orders - {id};
      assert x in b'.orders - {id} && (b'.orders - {id})[x] == (b.orders - {id})[x];
    }
  }

  /** The books differ, in queues and in the place of `id`, at most at one level. */
  ghost predicate OnlyAt(cfg: Config, b: Book, b': Book, id: U64, side: Side, price: int)
    requires Consistent(cfg, b) && Consistent(cfg, b') && cfg.InBand(price)
  {
    forall side', l :: 0 <= l < cfg.LevelCount() && (side' != side || l != cfg.LevelIndex(price)) ==>
      b'.Queues(side')[l] == b.Queues(side')[l] && !RestsAt(cfg, b, id, side', l)
  }

  lemma EnqueueOnlyAt(cfg: Config, b: Book, id: U64, e: Entry)
    requires Consistent(cfg, b) && cfg.InBand(e.price) && id !in b.orders && Consistent(cfg, Enqueue(cfg, b, id, e))
    ensures OnlyAt(cfg, b, Enqueue(cfg, b, id, e), id, e.side, e.price)
    ensures Enqueue(cfg, b, id, e).orders == b.orders[id := e]
  {
    hide QueueHolds;
  }

  lemma RemoveOnlyAt(cfg: Config, b: Book, id: U64)
    requires Consistent(cfg, b) && id in b.orders && Consistent(cfg, Remove(cfg, b, id))
    ensures OnlyAt(cfg, b, Remove(cfg, b, id), id, b.orders[id].side, b.orders[id].price)
    ensures Remove(cfg, b, id).orders == b.orders - {id}
  {
    hide QueueHolds;
  }

  class NodeBook {
    ghost const cfg: Config
    var bids: Levels
    var asks: Levels
    var index: map<U64, Location>
    ghost var book: Book

    ghost predicate Valid()
      reads this
    {
      && Consistent(cfg, book)
      && SideHolds(cfg, bids, book, Buy) && SideHolds(cfg, asks, book, Sell)
      && index.Keys == book.orders.Keys
      && forall id :: id in index ==> index[id] == Location(book.orders[id].side, book.orders[id].price)
    }

    constructor (ghost cfg: Config)
      requires cfg.Valid()
      ensures Valid() && this.cfg == cfg && book == EmptyBook(cfg)
    {
      this.cfg := cfg;
      bids, asks, index, book := map[], map[], map[], EmptyBook(cfg);
    }

    /** Replaces the list at one price. */
    method PutNodes(side: Side, price: int, nodes: seq<Node>)
      modifies this`bids, this`asks
      ensures bids == if side == Buy then WithNodes(old(bids), price, nodes) else old(bids)
      ensures asks == if side == Sell then WithNodes(old(asks), price, nodes) else old(asks)
    {
      if side == Buy {
        bids := WithNodes(bids, price, nodes);
      } else {
        asks := WithNodes(asks, price, nodes);
      }
    }

    /** Installs the new list at one price together with the book it stands for. */
    method PutLevel(side: Side, price: int, nodes: seq<Node>, ghost id: U64, ghost b: Book)
      requires Valid() && Consistent(cfg, b) && cfg.InBand(price) && b.orders - {id} == book.orders - {id}
      requires LevelIs(cfg, b, side, price, nodes)
      requires OnlyAt(cfg, book, b, id, side, price)
      modifies this`bids, this`asks, this`book
      ensures book == b && SideHolds(cfg, bids, book, Buy) && SideHolds(cfg, asks, book, Sell)
    {
      hide QueueHolds, LevelHolds;
      ghost var level := cfg.LevelIndex(price);
      forall side', l | 0 <= l < cfg.LevelCount() && (side' != side || l != level)
        ensures SameLevel(book, b, side', l)
      {
        OtherLevels(cfg, book, b, id, side', l);
      }
      if side == Buy {
        ReplaceLevel(cfg, bids, book, b, Buy, level, nodes);
        KeepSide(cfg, asks, book, b, Sell);
      } else {
        ReplaceLevel(cfg, asks, book, b, Sell, level, nodes);
        KeepSide(cfg, bids, book, b, Buy);
      }
      PutNodes(side, price, nodes);
      book := b;
    }

    function LevelsOf(side: Side): Levels
      reads this
    {
      if side == Buy then bids else asks
    }

    method Add(id: U64, side: Side, price: int, quantity: U32)
      requires Valid() && Apply(cfg, book, Op.Add(id, side, price, quantity)).result == Ok
      modifies this
      ensures Valid() && book == NodeApply(cfg, old(book), Op.Add(id, side, price, quantity))
    {
      hide QueueHolds, LevelHolds, SideHolds, Apply, NodeApply;
      hide Enqueue, OnlyAt, LevelIs;
      AddAccepted(cfg, book, id, side, price, quantity);
      ghost var e := Entry(side, price, quantity);
      ghost var b := Enqueue(cfg, book, id, e);
      EnqueueConsistent(cfg, book, id, e);
      EnqueueOnlyAt(cfg, book, id, e);
      AddedNodes(cfg, LevelsOf(side), book, id, e);
      PutLevel(side, price, NodesAt(LevelsOf(side), price) + [Node(id, quantity)], id, b);
      index := index[id := Location(side, price)];
    }

    method Cancel(id: U64)
      requires Valid()
      modifies this
      ensures Valid()
      ensures if id in old(book).orders then book == NodeApply(cfg, old(book), Op.Cancel(id)) else book == old(book)
    {
      hide QueueHolds, LevelHolds, SideHolds, Apply, NodeApply;
      hide Remove, OnlyAt, LevelIs;
      if id !in index {
        return;
      }
      CancelAccepted(cfg, book, id);
      var Location(side, price) := index[id];
      ghost var b := Remove(cfg, book, id);
      RemoveConsistent(cfg, book, id);
      RemoveOnlyAt(cfg, book, id);
      var nodes := NodesAt(LevelsOf(side), price);
      LocateNode(cfg, LevelsOf(side), book, id);
      var k :| 0 <= k < |nodes| && nodes[k].id == id;
      RemovedNodes(cfg, LevelsOf(side), book, id, k);
      PutLevel(side, price, nodes[..k] + nodes[k + 1..], id, b);
      index := index - {id};
    }

    method Modify(id: U64, price: int, quantity: U32)
      requires Valid() && (id in book.orders ==> quantity > 0 && cfg.InBand(price))
      modifies this
      ensures Valid()
      ensures if id in old(book).orders then book == NodeApply(cfg, old(book), Op.Modify(id, price, quantity))
              else book == old(book)
    {
      hide QueueHolds, LevelHolds, SideHolds;
      if id !in index {
        return;
      }
      var side := index[id].side;
      Cancel(id);
      Add(id, side, price, quantity);
    }

    method Execute(id: U64, quantity: U32)
      requires Valid()
      modifies this
      ensures Valid()
      ensures if id in old(book).orders && quantity > 0 then
                book == NodeApply(cfg, old(book), Op.Execute(id, quantity))
              else book == old(book)
    {
      hide QueueHolds, LevelHolds, SideHolds, Apply, NodeApply;
      if id !in index {
        return;
      }
      if quantity > 0 {
        ExecuteAccepted(cfg, book, id, quantity);
      }
      var Location(side, price) := index[id];
      var nodes := NodesAt(LevelsOf(side), price);
      LocateNode(cfg, LevelsOf(side), book, id);
      var k :| 0 <= k < |nodes| && nodes[k].id == id;
      NodeQuantity(cfg, LevelsOf(side), book, id, k);
      if nodes[k].quantity <= quantity {
        Cancel(id);
        return;
      }
      var left := nodes[k].quantity - quantity;
      assert quantity == 0 ==> book.orders[id := book.orders[id].(quantity := left)] == book.orders;
      ResizeConsistent(cfg, book, id, left);
      ResizedNodes(cfg, LevelsOf(side), book, id, k, left);
      PutLevel(side, price, nodes[k := Node(id, left)], id, Resize(book, id, left));
    }
  }

  // ---- What accepted operations come to ----

  lemma AddAccepted(cfg: Config, b: Book, id: U64, side: Side, price: int, quantity: U32)
    requires Consistent(cfg, b) && Apply(cfg, b, Op.Add(id, side, price, quantity)).result == Ok
    ensures id != 0 && id !in b.orders && quantity > 0 && cfg.InBand(price) && |b.orders| < cfg.maxOrders
    ensures NodeApply(cfg, b, Op.Add(id, side, price, quantity)) == Enqueue(cfg, b, id, Entry(side, price, quantity))
  {
  }

  lemma CancelAccepted(cfg: Config, b: Book, id: U64)
    requires Consistent(cfg, b) && id in b.orders
    ensures Apply(cfg, b, Op.Cancel(id)).result == Ok
    ensures NodeApply(cfg, b, Op.Cancel(id)) == Remove(cfg, b, id)
  {
  }

  lemma ExecuteAccepted(cfg: Config, b: Book, id: U64, quantity: U32)
    requires Consistent(cfg, b) && id in b.orders && quantity > 0
    ensures Apply(cfg, b, Op.Execute(id, quantity)).result == Ok
    ensures Apply(cfg, b, Op.Cancel(id)).result == Ok
    ensures NodeApply(cfg, b, Op.Execute(id, quantity)) ==
            if b.orders[id].quantity <= quantity then NodeApply(cfg, b, Op.Cancel(id))
            else Resize(b, id, b.orders[id].quantity - quantity)
  {
  }

  // ---- One list ----

  /** `nodes` is the book's queue at a price. */
  ghost predicate LevelIs(cfg: Config, b: Book, side: Side, price: int, nodes: seq<Node>)
    requires Consistent(cfg, b) && cfg.InBand(price)
  {
    var queue := b.Queues(side)[cfg.LevelIndex(price)];
    && (forall i :: 0 <= i < |queue| ==> queue[i] in b.orders)
    && nodes == QueueNodes(b, queue)
  }

  lemma HeldNodes(cfg: Config, levels: Levels, b: Book, side: Side, price: int)
    requires Consistent(cfg, b) && SideHolds(cfg, levels, b, side) && cfg.InBand(price)
    ensures LevelIs(cfg, b, side, price, NodesAt(levels, price))
  {
    assert LevelHolds(cfg, levels, b, side, cfg.LevelIndex(price));
  }

  lemma AddedNodes(cfg: Config, levels: Levels, b: Book, id: U64, e: Entry)
    requires Consistent(cfg, b) && SideHolds(cfg, levels, b, e.side) && cfg.InBand(e.price) && id !in b.orders
    requires Consistent(cfg, Enqueue(cfg, b, id, e))
    ensures LevelIs(cfg, Enqueue(cfg, b, id, e), e.side, e.price, NodesAt(levels, e.price) + [Node(id, e.quantity)])
  {
    hide QueueHolds;
    HeldNodes(cfg, levels, b, e.side, e.price);
    var queue, b' := b.Queues(e.side)[cfg.LevelIndex(e.price)], Enqueue(cfg, b, id, e);
    assert b'.Queues(e.side)[cfg.LevelIndex(e.price)] == queue + [id];
    assert QueueNodes(b', queue + [id]) == NodesAt(levels, e.price) + [Node(id, e.quantity)];
  }

  lemma LocateNode(cfg: Config, levels: Levels, b: Book, id: U64)
    requires Consistent(cfg, b) && id in b.orders && SideHolds(cfg, levels, b, b.orders[id].side)
    ensures exists k ::
              0 <= k < |NodesAt(levels, b.orders[id].price)| && NodesAt(levels, b.orders[id].price)[k].id == id
  {
    var e := b.orders[id];
    HeldNodes(cfg, levels, b, e.side, e.price);
    assert QueueHolds(cfg, b, e.side, cfg.LevelIndex(e.price));
    assert RestsAt(cfg, b, id, e.side, cfg.LevelIndex(e.price));
    var queue := b.Queues(e.side)[cfg.LevelIndex(e.price)];
    var k :| 0 <= k < |queue| && queue[k] == id;
    assert NodesAt(levels, e.price)[k].id == id;
  }

  lemma NodeQuantity(cfg: Config, levels: Levels, b: Book, id: U64, k: nat)
    requires Consistent(cfg, b) && id in b.orders && SideHolds(cfg, levels, b, b.orders[id].side)
    requires k < |NodesAt(levels, b.orders[id].price)| && NodesAt(levels, b.orders[id].price)[k].id == id
    ensures NodesAt(levels, b.orders[id].price)[k].quantity == b.orders[id].quantity
  {
    hide QueueHolds;
    HeldNodes(cfg, levels, b, b.orders[id].side, b.orders[id].price);
  }

  lemma RemovedNodes(cfg: Config, levels: Levels, b: Book, id: U64, k: nat)
    requires Consistent(cfg, b) && id in b.orders && SideHolds(cfg, levels, b, b.orders[id].side)
    requires k < |NodesAt(levels, b.orders[id].price)| && NodesAt(levels, b.orders[id].price)[k].id == id
    requires Consistent(cfg, Remove(cfg, b, id))
    ensures var e, nodes := b.orders[id], NodesAt(levels, b.orders[id].price);
            LevelIs(cfg, Remove(cfg, b, id), e.side, e.price, nodes[..k] + nodes[k + 1..])
  {
    hide SideHolds;
    var e, b' := b.orders[id], Remove(cfg, b, id);
    HeldNodes(cfg, levels, b, e.side, e.price);
    var level := cfg.LevelIndex(e.price);
    var queue, nodes := b.Queues(e.side)[level], NodesAt(levels, e.price);
    assert QueueHolds(cfg, b, e.side, level);
    WithoutAt(queue, k);
    WithoutMembers(queue, id);
    var rest := b'.Queues(e.side)[level];
    assert rest == Cut(queue, k);
    forall i | 0 <= i < |rest| ensures rest[i] in b'.orders && b'.orders[rest[i]] == b.orders[rest[i]] {
      assert rest[i] in rest;
    }
    assert QueueNodes(b', rest) == nodes[..k] + nodes[k + 1..];
  }

  lemma ResizedNodes(cfg: Config, levels: Levels, b: Book, id: U64, k: nat, quantity: U32)
    requires Consistent(cfg, b) && id in b.orders && SideHolds(cfg, levels, b, b.orders[id].side)
    requires k < |NodesAt(levels, b.orders[id].price)| && NodesAt(levels, b.orders[id].price)[k].id == id
    requires Consistent(cfg, Resize(b, id, quantity))
    ensures var e, nodes := b.orders[id], NodesAt(levels, b.orders[id].price);
            LevelIs(cfg, Resize(b, id, quantity), e.side, e.price, nodes[k := Node(id, quantity)])
  {
    hide SideHolds;
    var e, b' := b.orders[id], Resize(b, id, quantity);
    HeldNodes(cfg, levels, b, e.side, e.price);
    var queue := b.Queues(e.side)[cfg.LevelIndex(e.price)];
    assert QueueHolds(cfg, b, e.side, cfg.LevelIndex(e.price));
    assert QueueNodes(b', queue) == NodesAt(levels, e.price)[k := Node(id, quantity)];
  }
}
