/** How the pool, the level queues, the free list and the id index together stand for a book. */
module Representation {
  import opened Market
  import opened BookSpec
  import opened LevelLists

  /** The slots queued at every level of both sides. */
  datatype Queues = Queues(bids: seq<seq<nat>>, asks: seq<seq<nat>>) {
    function Of(side: Side): seq<seq<nat>> {
      if side == Buy then bids else asks
    }

    function With(side: Side, level: nat, q: seq<nat>): Queues
      requires level < |Of(side)|
    {
      if side == Buy then Queues(bids[level := q], asks) else Queues(bids, asks[level := q])
    }
  }

  /** An order apart from its place in a list. */
  function Plain(o: Order): Order {
    o.(next := NULL_ORDER, prev := NULL_ORDER)
  }

  ghost predicate Lists(cfg: Config, pool: seq<Order>, bids: seq<Level>, asks: seq<Level>, qs: Queues) {
    && cfg.Valid()
    && |qs.bids| == |qs.asks| == |bids| == |asks| == cfg.LevelCount()
    && SideLists(pool, bids, qs.bids, Buy, cfg.minPrice)
    && SideLists(pool, asks, qs.asks, Sell, cfg.minPrice)
  }

  /** The slot is queued at the level its order's side and price name. */
  ghost predicate Resting(cfg: Config, pool: seq<Order>, qs: Queues, s: nat)
    requires s < |pool|
  {
    && cfg.InBand(pool[s].price)
    && cfg.LevelIndex(pool[s].price) < |qs.Of(pool[s].side)|
    && s in qs.Of(pool[s].side)[cfg.LevelIndex(pool[s].price)]
  }

  /** Every slot is in exactly one of the free list and the level queues. */
  ghost predicate Partition(cfg: Config, pool: seq<Order>, free: seq<nat>, qs: Queues) {
    forall s :: 0 <= s < |pool| ==> (s in free <==> !Resting(cfg, pool, qs, s))
  }

  /** The index holds exactly the ids of the orders that are not free, each with its slot. */
  ghost predicate Indexed(pool: seq<Order>, free: seq<nat>, slotOf: map<U64, U32>) {
    && (forall id :: id in slotOf ==> slotOf[id] < |pool| && slotOf[id] !in free && pool[slotOf[id]].id == id)
    && forall s :: 0 <= s < |pool| && s !in free ==> pool[s].id in slotOf && slotOf[pool[s].id] == s
  }

  function EntryOf(o: Order): Entry {
    Entry(o.side, o.price, o.quantity)
  }

  ghost predicate ShowsQueue(pool: seq<Order>, q: seq<nat>, ids: seq<U64>) {
    InPool(|pool|, q) && ids == Ids(pool, q)
  }

  /** The pool, read through the index and the queues, is the book. */
  ghost predicate Shows(pool: seq<Order>, slotOf: map<U64, U32>, qs: Queues, b: Book) {
    && b.orders.Keys == slotOf.Keys
    && (forall id :: id in slotOf ==> slotOf[id] < |pool| && b.orders[id] == EntryOf(pool[slotOf[id]]))
    && |b.bids| == |qs.bids| && |b.asks| == |qs.asks|
    && forall side, l :: 0 <= l < |qs.Of(side)| ==> ShowsQueue(pool, qs.Of(side)[l], b.Queues(side)[l])
  }

  ghost predicate Represents(
    cfg: Config, pool: seq<Order>, free: seq<nat>, slotOf: map<U64, U32>, qs: Queues, b: Book)
  {
    && Partition(cfg, pool, free, qs)
    && Indexed(pool, free, slotOf)
    && Shows(pool, slotOf, qs, b)
  }

  /** The pools hold the same orders everywhere but at `slot`. */
  ghost predicate SameBut(pool: seq<Order>, pool': seq<Order>, slot: int) {
    |pool'| == |pool| && forall s :: 0 <= s < |pool| && s != slot ==> Plain(pool'[s]) == Plain(pool[s])
  }

  /** Relinking: apart from the list links of the slots in `touched`, the pools are equal. */
  ghost predicate Relinked(pool: seq<Order>, pool': seq<Order>, touched: seq<nat>) {
    SameBut(pool, pool', -1) && forall s :: 0 <= s < |pool| && s !in touched ==> pool'[s] == pool[s]
  }

  ghost predicate Queued(qs: Queues, s: nat) {
    exists side, l :: 0 <= l < |qs.Of(side)| && s in qs.Of(side)[l]
  }

  /** Two lists share no slot, because their orders differ in side or price. */
  lemma ListsDisjoint(cfg: Config, pool: seq<Order>, bids: seq<Level>, asks: seq<Level>, qs: Queues,
                      side: Side, l: nat, side': Side, l': nat, s: nat)
    requires Lists(cfg, pool, bids, asks, qs) && l < cfg.LevelCount() && l' < cfg.LevelCount()
    requires s in qs.Of(side)[l] && s in qs.Of(side')[l']
    ensures side == side' && l == l'
  {
    var i :| 0 <= i < |qs.Of(side)[l]| && qs.Of(side)[l][i] == s;
    var i' :| 0 <= i' < |qs.Of(side')[l']| && qs.Of(side')[l'][i'] == s;
    QueuedRests(cfg, pool, bids, asks, qs, side, l, i);
    QueuedRests(cfg, pool, bids, asks, qs, side', l', i');
  }

  /** A change to the slots of one list, or to unqueued slots, does not touch another list. */
  lemma OtherListAgrees(cfg: Config, pool: seq<Order>, pool': seq<Order>, bids: seq<Level>, asks: seq<Level>,
                        qs: Queues, side: Side, level: nat, side': Side, l: nat)
    requires Lists(cfg, pool, bids, asks, qs) && level < cfg.LevelCount() && |pool'| == |pool|
    requires forall s :: 0 <= s < |pool| && pool'[s] != pool[s] ==> s in qs.Of(side)[level] || !Queued(qs, s)
    requires l < cfg.LevelCount() && (side' != side || l != level)
    ensures InPool(|pool|, qs.Of(side')[l]) && Agree(pool, pool', qs.Of(side')[l])
  {
    var other := qs.Of(side')[l];
    forall i | 0 <= i < |other| ensures other[i] < |pool| && pool'[other[i]] == pool[other[i]] {
      QueuedRests(cfg, pool, bids, asks, qs, side', l, i);
      assert other[i] in other && Queued(qs, other[i]);
      if other[i] in qs.Of(side)[level] {
        ListsDisjoint(cfg, pool, bids, asks, qs, side, level, side', l, other[i]);
      }
    }
  }

  /** The levels of a side, with one of them replaced if the side is `changed`. */
  ghost function Replaced(levels: seq<Level>, mine: bool, level: nat, lv: Level): seq<Level>
    requires level < |levels|
  {
    if mine then levels[level := lv] else levels
  }

  /** Replacing one level's list by another well-formed one leaves every other list as it was. */
  lemma ListsUpdate(cfg: Config, pool: seq<Order>, pool': seq<Order>, bids: seq<Level>, asks: seq<Level>, qs: Queues,
                    side: Side, level: nat, lv: Level, q: seq<nat>)
    requires Lists(cfg, pool, bids, asks, qs) && level < cfg.LevelCount() && |pool'| == |pool|
    requires forall s :: 0 <= s < |pool| && pool'[s] != pool[s] ==> s in qs.Of(side)[level] || !Queued(qs, s)
    requires Chain(pool', lv, q) && Homed(pool', q, side, cfg.minPrice + level)
    ensures Lists(cfg, pool', Replaced(bids, side == Buy, level, lv), Replaced(asks, side == Sell, level, lv),
                  qs.With(side, level, q))
  {
    if side == Buy {
      forall l | 0 <= l < |qs.asks| ensures Agree(pool, pool', qs.asks[l]) {
        OtherListAgrees(cfg, pool, pool', bids, asks, qs, side, level, Sell, l);
      }
      forall l | 0 <= l < |qs.bids| && l != level ensures Agree(pool, pool', qs.bids[l]) {
        OtherListAgrees(cfg, pool, pool', bids, asks, qs, side, level, Buy, l);
      }
      SideFrame(pool, pool', asks, qs.asks, Sell, cfg.minPrice);
      SideUpdate(pool, pool', bids, qs.bids, Buy, cfg.minPrice, level, lv, q);
    } else {
      forall l | 0 <= l < |qs.bids| ensures Agree(pool, pool', qs.bids[l]) {
        OtherListAgrees(cfg, pool, pool', bids, asks, qs, side, level, Buy, l);
      }
      forall l | 0 <= l < |qs.asks| && l != level ensures Agree(pool, pool', qs.asks[l]) {
        OtherListAgrees(cfg, pool, pool', bids, asks, qs, side, level, Sell, l);
      }
      SideFrame(pool, pool', bids, qs.bids, Buy, cfg.minPrice);
      SideUpdate(pool, pool', asks, qs.asks, Sell, cfg.minPrice, level, lv, q);
    }
  }

  /** The pool after an order has been linked behind `tail`. */
  ghost function Pushed(pool: seq<Order>, tail: U32, slot: U32): (r: seq<Order>)
    requires slot < |pool| && (tail < |pool| || tail == NULL_ORDER)
    ensures |r| == |pool|
  {
    var p := pool[slot := pool[slot].(next := NULL_ORDER, prev := tail)];
    if tail == NULL_ORDER then p else p[tail := p[tail].(next := slot)]
  }

  /** A level's record after an order has been linked behind its tail. */
  ghost function PushedLevel(lv: Level, o: Order, slot: U32): Level
    requires lv.orderCount < 0xFFFF_FFFF && lv.totalQuantity + o.quantity < 0x1_0000_0000_0000_0000
  {
    Level(lv.totalQuantity + o.quantity, lv.orderCount + 1, if lv.tail == NULL_ORDER then slot else lv.head, slot)
  }

  lemma PushedChain(pool: seq<Order>, lv: Level, q: seq<nat>, slot: U32)
    requires Chain(pool, lv, q) && slot < |pool| < 0x1_0000_0000 && slot !in q
    ensures lv.orderCount < 0xFFFF_FFFF && lv.totalQuantity + pool[slot].quantity < 0x1_0000_0000_0000_0000
    ensures lv.tail < |pool| || lv.tail == NULL_ORDER
    ensures Relinked(pool, Pushed(pool, lv.tail, slot), q + [slot])
    ensures Chain(Pushed(pool, lv.tail, slot), PushedLevel(lv, pool[slot], slot), q + [slot])
  {
    PushedJoins(pool, q, lv.tail, slot);
    ChainPush(pool, Pushed(pool, lv.tail, slot), lv, q, slot);
  }

  lemma PushedJoins(pool: seq<Order>, q: seq<nat>, tail: U32, slot: U32)
    requires InPool(|pool|, q) && NoDuplicates(q) && slot < |pool| < 0x1_0000_0000 && slot !in q
    requires tail == At(q, |q| - 1)
    ensures tail < |pool| || tail == NULL_ORDER
    ensures var pool' := Pushed(pool, tail, slot);
            && pool'[slot] == pool[slot].(next := NULL_ORDER, prev := tail)
            && (forall i {:trigger pool'[q[i]]} :: 0 <= i < |q| ==>
                  pool'[q[i]] == if i == |q| - 1 then pool[q[i]].(next := slot) else pool[q[i]])
            && Relinked(pool, pool', q + [slot])
  {
  }

  ghost function LevelOf(bids: seq<Level>, asks: seq<Level>, side: Side, level: nat): Level
    requires level < |bids| && level < |asks|
  {
    if side == Buy then bids[level] else asks[level]
  }

  lemma LevelChain(cfg: Config, pool: seq<Order>, bids: seq<Level>, asks: seq<Level>, qs: Queues, side: Side,
                   level: nat)
    requires Lists(cfg, pool, bids, asks, qs) && level < cfg.LevelCount()
    ensures Chain(pool, LevelOf(bids, asks, side, level), qs.Of(side)[level])
    ensures InPool(|pool|, qs.Of(side)[level])
    ensures Homed(pool, qs.Of(side)[level], side, cfg.minPrice + level)
  {
  }

  lemma ListsPush(cfg: Config, pool: seq<Order>, bids: seq<Level>, asks: seq<Level>, qs: Queues, side: Side, level: nat,
                  slot: U32)
    requires Lists(cfg, pool, bids, asks, qs) && level < cfg.LevelCount() && slot < |pool| < 0x1_0000_0000
    requires !Queued(qs, slot) && pool[slot].side == side && pool[slot].price == cfg.minPrice + level
    ensures var lv, q := LevelOf(bids, asks, side, level), qs.Of(side)[level];
            && (lv.tail < |pool| || lv.tail == NULL_ORDER)
            && lv.orderCount < 0xFFFF_FFFF && lv.totalQuantity + pool[slot].quantity < 0x1_0000_0000_0000_0000
            && var pool', lv' := Pushed(pool, lv.tail, slot), PushedLevel(lv, pool[slot], slot);
               && Relinked(pool, pool', q + [slot])
               && Lists(cfg, pool', Replaced(bids, side == Buy, level, lv'), Replaced(asks, side == Sell, level, lv'),
                        qs.With(side, level, q + [slot]))
  {
    hide SideLists, Chain, Homed;
    var lv, q := LevelOf(bids, asks, side, level), qs.Of(side)[level];
    LevelChain(cfg, pool, bids, asks, qs, side, level);
    assert slot !in q;
    PushedChain(pool, lv, q, slot);
    var pool' := Pushed(pool, lv.tail, slot);
    PushHomed(pool, pool', q, slot, side, cfg.minPrice + level);
    ListsUpdate(cfg, pool, pool', bids, asks, qs, side, level, PushedLevel(lv, pool[slot], slot), q + [slot]);
  }

  lemma PushHomed(pool: seq<Order>, pool': seq<Order>, q: seq<nat>, slot: nat, side: Side, price: int)
    requires InPool(|pool|, q) && Homed(pool, q, side, price) && SameBut(pool, pool', -1)
    requires slot < |pool| && pool[slot].side == side && pool[slot].price == price
    ensures InPool(|pool'|, q + [slot]) && Homed(pool', q + [slot], side, price)
  {
    forall i | 0 <= i < |q + [slot]|
      ensures pool'[(q + [slot])[i]].side == side && pool'[(q + [slot])[i]].price == price
    {
      var s := (q + [slot])[i];
      assert Plain(pool'[s]) == Plain(pool[s]);
      assert i < |q| ==> pool[q[i]].side == side;
    }
  }

  lemma CutHomed(pool: seq<Order>, pool': seq<Order>, q: seq<nat>, k: nat, side: Side, price: int)
    requires InPool(|pool|, q) && Homed(pool, q, side, price) && SameBut(pool, pool', -1) && k < |q|
    ensures InPool(|pool'|, Cut(q, k)) && Homed(pool', Cut(q, k), side, price)
  {
    forall i | 0 <= i < |q| - 1 ensures pool'[Cut(q, k)[i]].side == side && pool'[Cut(q, k)[i]].price == price {
      var j := if i < k then i else i + 1;
      assert Plain(pool'[q[j]]) == Plain(pool[q[j]]);
      assert pool[q[j]].side == side;
    }
  }

  /** The pool after the neighbours of `slot` have been joined. */
  ghost function Unhooked(pool: seq<Order>, slot: U32): (r: seq<Order>)
    requires slot < |pool|
    requires var o := pool[slot]; (o.prev < |pool| || o.prev == NULL_ORDER) && (o.next < |pool| || o.next == NULL_ORDER)
    ensures |r| == |pool|
  {
    var o := pool[slot];
    var p := if o.prev == NULL_ORDER then pool else pool[o.prev := pool[o.prev].(next := o.next)];
    if o.next == NULL_ORDER then p else p[o.next := p[o.next].(prev := o.prev)]
  }

  lemma UnhookedJoins(pool: seq<Order>, q: seq<nat>, k: nat, slot: U32)
    requires InPool(|pool|, q) && NoDuplicates(q) && |pool| < 0x1_0000_0000 && k < |q| && slot == q[k]
    requires pool[slot].next == At(q, k + 1) && pool[slot].prev == At(q, k - 1)
    ensures Joined(pool, Unhooked(pool, slot), q, k) && Relinked(pool, Unhooked(pool, slot), q)
  {
    var pool' := Unhooked(pool, slot);
    forall i | 0 <= i < |q| && i != k
      ensures pool'[q[i]] == if i == k - 1 then pool[q[i]].(next := pool[q[k]].next)
                             else if i == k + 1 then pool[q[i]].(prev := pool[q[k]].prev)
                             else pool[q[i]]
    {
    }
  }

  /** A level's record after one of its orders has been taken out. */
  ghost function UnhookedLevel(lv: Level, o: Order): Level
    requires lv.orderCount > 0 && lv.totalQuantity >= o.quantity
  {
    Level(lv.totalQuantity - o.quantity, lv.orderCount - 1, if o.prev == NULL_ORDER then o.next else lv.head,
          if o.next == NULL_ORDER then o.prev else lv.tail)
  }

  lemma UnhookedChain(pool: seq<Order>, lv: Level, q: seq<nat>, k: nat, slot: U32)
    requires Chain(pool, lv, q) && |pool| < 0x1_0000_0000 && k < |q| && q[k] == slot
    ensures var o := pool[slot]; (o.prev < |pool| || o.prev == NULL_ORDER) && (o.next < |pool| || o.next == NULL_ORDER)
    ensures lv.orderCount > 0 && lv.totalQuantity >= pool[slot].quantity
    ensures Relinked(pool, Unhooked(pool, slot), q)
    ensures Chain(Unhooked(pool, slot), UnhookedLevel(lv, pool[slot]), Cut(q, k))
  {
    assert pool[q[k]].next == At(q, k + 1) && pool[q[k]].prev == At(q, k - 1);
    UnhookedJoins(pool, q, k, slot);
    ChainUnlink(pool, Unhooked(pool, slot), lv, q, k);
  }

  lemma ListsUnlink(cfg: Config, pool: seq<Order>, bids: seq<Level>, asks: seq<Level>, qs: Queues, side: Side,
                    level: nat, k: nat, slot: U32)
    requires Lists(cfg, pool, bids, asks, qs) && level < cfg.LevelCount() && |pool| < 0x1_0000_0000
    requires k < |qs.Of(side)[level]| && qs.Of(side)[level][k] == slot
    ensures slot < |pool|
    ensures var lv, q, o := LevelOf(bids, asks, side, level), qs.Of(side)[level], pool[slot];
            && (o.prev < |pool| || o.prev == NULL_ORDER) && (o.next < |pool| || o.next == NULL_ORDER)
            && lv.orderCount > 0 && lv.totalQuantity >= o.quantity
            && var pool', lv' := Unhooked(pool, slot), UnhookedLevel(lv, o);
               && Relinked(pool, pool', q)
               && Lists(cfg, pool', Replaced(bids, side == Buy, level, lv'), Replaced(asks, side == Sell, level, lv'),
                        qs.With(side, level, Cut(q, k)))
  {
    var lv, q := LevelOf(bids, asks, side, level), qs.Of(side)[level];
    LevelChain(cfg, pool, bids, asks, qs, side, level);
    UnhookedChain(pool, lv, q, k, slot);
    var pool' := Unhooked(pool, slot);
    CutHomed(pool, pool', q, k, side, cfg.minPrice + level);
    ListsUpdate(cfg, pool, pool', bids, asks, qs, side, level, UnhookedLevel(lv, pool[slot]), Cut(q, k));
  }

  // ---- What each kind of change does to the book that is represented ----

  lemma RelinkRepresents(cfg: Config, pool: seq<Order>, pool': seq<Order>, free: seq<nat>, slotOf: map<U64, U32>,
                         qs: Queues, b: Book)
    requires Represents(cfg, pool, free, slotOf, qs, b) && SameBut(pool, pool', -1)
    ensures Represents(cfg, pool', free, slotOf, qs, b)
  {
    forall s | 0 <= s < |pool| ensures Resting(cfg, pool', qs, s) <==> Resting(cfg, pool, qs, s) {
      assert Plain(pool'[s]) == Plain(pool[s]);
    }
    forall side, l | 0 <= l < |qs.Of(side)| ensures ShowsQueue(pool', qs.Of(side)[l], b.Queues(side)[l]) {
      assert ShowsQueue(pool, qs.Of(side)[l], b.Queues(side)[l]);
      KeepsQueue(pool, pool', -1, qs.Of(side)[l], b.Queues(side)[l]);
    }
    assert forall s :: 0 <= s < |pool| ==>
             pool'[s].id == Plain(pool'[s]).id && EntryOf(pool'[s]) == EntryOf(Plain(pool'[s]));
  }

  lemma KeepsQueue(pool: seq<Order>, pool': seq<Order>, slot: int, q: seq<nat>, ids: seq<U64>)
    requires ShowsQueue(pool, q, ids) && SameBut(pool, pool', slot) && slot !in q
    ensures ShowsQueue(pool', q, ids)
  {
    forall i | 0 <= i < |q| ensures pool'[q[i]].id == pool[q[i]].id {
      assert Plain(pool'[q[i]]) == Plain(pool[q[i]]);
    }
    assert Ids(pool', q) == ids;
  }

  lemma QueuedRests(cfg: Config, pool: seq<Order>, bids: seq<Level>, asks: seq<Level>, qs: Queues, side: Side,
                    level: nat, k: nat)
    requires Lists(cfg, pool, bids, asks, qs) && level < cfg.LevelCount() && k < |qs.Of(side)[level]|
    ensures QueuedAt(cfg, pool, qs, side, level, k)
  {
    if side == Buy {
      assert Chain(pool, bids[level], qs.bids[level]);
    } else {
      assert Chain(pool, asks[level], qs.asks[level]);
    }
  }

  /** Position `k` of a level's queue holds an order of that side and price, once. */
  ghost predicate QueuedAt(cfg: Config, pool: seq<Order>, qs: Queues, side: Side, level: nat, k: nat) {
    && cfg.Valid()
    && |qs.bids| == |qs.asks| == cfg.LevelCount() && level < cfg.LevelCount()
    && k < |qs.Of(side)[level]| && qs.Of(side)[level][k] < |pool|
    && NoDuplicates(qs.Of(side)[level])
    && pool[qs.Of(side)[level][k]].side == side
    && pool[qs.Of(side)[level][k]].price == cfg.minPrice + level
  }

  lemma CutMembers(q: seq<nat>, k: nat, s: nat)
    requires k < |q| && NoDuplicates(q)
    ensures s in Cut(q, k) <==> s in q && s != q[k]
  {
    if s in q && s != q[k] {
      var i :| 0 <= i < |q| && q[i] == s;
      assert Cut(q, k)[if i < k then i else i - 1] == s;
    }
  }

  // ---- Taking an order out of its queue ----

  lemma DetachPartition(cfg: Config, pool: seq<Order>, free: seq<nat>, qs: Queues, side: Side, level: nat, k: nat)
    requires Partition(cfg, pool, free, qs) && QueuedAt(cfg, pool, qs, side, level, k)
    ensures var q := qs.Of(side)[level];
            q[k] !in free && Partition(cfg, pool, [q[k]] + free, qs.With(side, level, Cut(q, k)))
  {
    var q := qs.Of(side)[level];
    var qs' := qs.With(side, level, Cut(q, k));
    assert Resting(cfg, pool, qs, q[k]);
    forall s | 0 <= s < |pool| ensures s in [q[k]] + free <==> !Resting(cfg, pool, qs', s) {
      CutMembers(q, k, s);
    }
  }

  lemma DetachQueue(pool: seq<Order>, q: seq<nat>, ids: seq<U64>, k: nat)
    requires ShowsQueue(pool, q, ids) && NoDuplicates(ids) && k < |q|
    ensures ShowsQueue(pool, Cut(q, k), Without(ids, pool[q[k]].id))
  {
    WithoutAt(ids, k);
    assert Ids(pool, Cut(q, k)) == Cut(Ids(pool, q), k);
  }

  lemma DetachShows(cfg: Config, pool: seq<Order>, slotOf: map<U64, U32>, qs: Queues, b: Book, side: Side, level: nat,
                    k: nat)
    requires Consistent(cfg, b) && Shows(pool, slotOf, qs, b) && QueuedAt(cfg, pool, qs, side, level, k)
    requires var slot := qs.Of(side)[level][k]; pool[slot].id in slotOf && slotOf[pool[slot].id] == slot
    ensures var id := pool[qs.Of(side)[level][k]].id;
            && id in b.orders && b.orders[id].side == side && b.orders[id].price == cfg.minPrice + level
            && Shows(pool, slotOf - {id}, qs.With(side, level, Cut(qs.Of(side)[level], k)), Remove(cfg, b, id))
  {
    var q := qs.Of(side)[level];
    var id := pool[q[k]].id;
    var qs', b' := qs.With(side, level, Cut(q, k)), Remove(cfg, b, id);
    forall side', l | 0 <= l < |qs'.Of(side')| ensures ShowsQueue(pool, qs'.Of(side')[l], b'.Queues(side')[l]) {
      assert ShowsQueue(pool, qs.Of(side')[l], b.Queues(side')[l]);
      if side' == side && l == level {
        assert QueueHolds(cfg, b, side, level);
        DetachQueue(pool, q, b.Queues(side)[level], k);
      }
    }
  }

  lemma DetachIndexed(pool: seq<Order>, free: seq<nat>, slotOf: map<U64, U32>, slot: nat)
    requires Indexed(pool, free, slotOf) && slot < |pool| && slot !in free
    ensures Indexed(pool, [slot] + free, slotOf - {pool[slot].id})
  {
  }

  /** Taking the order at position `k` out of its queue removes it from the book and frees its slot. */
  lemma DetachRepresents(cfg: Config, pool: seq<Order>, free: seq<nat>, slotOf: map<U64, U32>, qs: Queues, b: Book,
                         side: Side, level: nat, k: nat)
    requires Consistent(cfg, b) && Represents(cfg, pool, free, slotOf, qs, b) && QueuedAt(cfg, pool, qs, side, level, k)
    ensures var slot := qs.Of(side)[level][k];
            var id := pool[slot].id;
            && id in b.orders && slot !in free && id in slotOf && slotOf[id] == slot
            && Represents(cfg, pool, [slot] + free, slotOf - {id}, qs.With(side, level, Cut(qs.Of(side)[level], k)),
                          Remove(cfg, b, id))
  {
    DetachPartition(cfg, pool, free, qs, side, level, k);
    DetachShows(cfg, pool, slotOf, qs, b, side, level, k);
    DetachIndexed(pool, free, slotOf, qs.Of(side)[level][k]);
  }

  // ---- Queueing an order that fills a free slot ----

  lemma AttachPartition(cfg: Config, pool: seq<Order>, pool': seq<Order>, free: seq<nat>, qs: Queues, level: nat)
    requires cfg.Valid() && |qs.bids| == |qs.asks| == cfg.LevelCount()
    requires free != [] && NoDuplicates(free) && free[0] < |pool| && SameBut(pool, pool', free[0])
    requires Partition(cfg, pool, free, qs)
    requires cfg.InBand(pool'[free[0]].price) && level == cfg.LevelIndex(pool'[free[0]].price)
    ensures var side := pool'[free[0]].side;
            Partition(cfg, pool', free[1..], qs.With(side, level, qs.Of(side)[level] + [free[0]]))
  {
    var slot, side := free[0], pool'[free[0]].side;
    var qs' := qs.With(side, level, qs.Of(side)[level] + [slot]);
    forall s | 0 <= s < |pool| ensures s in free[1..] <==> !Resting(cfg, pool', qs', s) {
      if s != slot {
        assert Plain(pool'[s]) == Plain(pool[s]);
        assert Resting(cfg, pool', qs', s) <==> Resting(cfg, pool, qs, s);
      }
    }
  }

  lemma AttachShows(cfg: Config, pool: seq<Order>, pool': seq<Order>, free: seq<nat>, slotOf: map<U64, U32>,
                    qs: Queues, b: Book, slot: U32, level: nat)
    requires cfg.Valid() && |qs.bids| == |qs.asks| == cfg.LevelCount() == |b.bids| == |b.asks|
    requires slot in free && slot < |pool| && SameBut(pool, pool', slot)
    requires Indexed(pool, free, slotOf) && Shows(pool, slotOf, qs, b)
    requires !Queued(qs, slot)
    requires cfg.InBand(pool'[slot].price) && level == cfg.LevelIndex(pool'[slot].price)
    ensures var o := pool'[slot];
            Shows(pool', slotOf[o.id := slot], qs.With(o.side, level, qs.Of(o.side)[level] + [slot]),
                  Enqueue(cfg, b, o.id, EntryOf(o)))
  {
    var o := pool'[slot];
    var q := qs.Of(o.side)[level];
    var qs', b' := qs.With(o.side, level, q + [slot]), Enqueue(cfg, b, o.id, EntryOf(o));
    forall id | id in slotOf && id != o.id ensures b'.orders[id] == EntryOf(pool'[slotOf[id]]) {
      assert Plain(pool'[slotOf[id]]) == Plain(pool[slotOf[id]]);
    }
    forall side, l | 0 <= l < |qs'.Of(side)| ensures ShowsQueue(pool', qs'.Of(side)[l], b'.Queues(side)[l]) {
      assert ShowsQueue(pool, qs.Of(side)[l], b.Queues(side)[l]);
      KeepsQueue(pool, pool', slot, qs.Of(side)[l], b.Queues(side)[l]);
      if side == o.side && l == level {
        assert Ids(pool', q + [slot]) == Ids(pool', q) + [o.id];
      }
    }
  }

  lemma AttachIndexed(pool: seq<Order>, pool': seq<Order>, free: seq<nat>, slotOf: map<U64, U32>, slot: U32)
    requires free != [] && NoDuplicates(free) && free[0] == slot < |pool| && SameBut(pool, pool', slot)
    requires Indexed(pool, free, slotOf) && pool'[slot].id !in slotOf
    ensures Indexed(pool', free[1..], slotOf[pool'[slot].id := slot])
  {
    forall s | 0 <= s < |pool| && s != slot ensures pool'[s].id == pool[s].id {
      assert Plain(pool'[s]) == Plain(pool[s]);
    }
  }

  /** Filling a free slot with an order and queueing it adds the order to the book. */
  lemma AttachRepresents(cfg: Config, pool: seq<Order>, pool': seq<Order>, free: seq<nat>, slotOf: map<U64, U32>,
                         qs: Queues, b: Book, slot: U32, level: nat)
    requires Represents(cfg, pool, free, slotOf, qs, b)
    requires free != [] && NoDuplicates(free) && free[0] == slot < |pool| && SameBut(pool, pool', slot)
    requires !Queued(qs, slot)
    requires cfg.Valid() && |b.bids| == |b.asks| == cfg.LevelCount()
    requires pool'[slot].id !in b.orders && cfg.InBand(pool'[slot].price) && level == cfg.LevelIndex(pool'[slot].price)
    ensures var o := pool'[slot];
            Represents(cfg, pool', free[1..], slotOf[o.id := slot],
                       qs.With(o.side, level, qs.Of(o.side)[level] + [slot]), Enqueue(cfg, b, o.id, EntryOf(o)))
  {
    AttachPartition(cfg, pool, pool', free, qs, level);
    AttachIndexed(pool, pool', free, slotOf, slot);
    AttachShows(cfg, pool, pool', free, slotOf, qs, b, slot, level);
  }

  // ---- Resizing an order in place ----

  /** Changing only the size of a resting order changes only its size in the book. */
  lemma ResizeRepresents(cfg: Config, pool: seq<Order>, free: seq<nat>, slotOf: map<U64, U32>, qs: Queues, b: Book,
                         slot: nat, quantity: U32)
    requires Represents(cfg, pool, free, slotOf, qs, b)
    requires slot < |pool| && slot !in free
    ensures var id := pool[slot].id;
            && id in b.orders
            && Represents(cfg, pool[slot := pool[slot].(quantity := quantity)], free, slotOf, qs,
                          Resize(b, id, quantity))
  {
    ResizePartition(cfg, pool, free, qs, slot, quantity);
    ResizeShows(pool, free, slotOf, qs, b, slot, quantity);
  }

  lemma ResizePartition(cfg: Config, pool: seq<Order>, free: seq<nat>, qs: Queues, slot: nat, quantity: U32)
    requires Partition(cfg, pool, free, qs) && slot < |pool|
    ensures Partition(cfg, pool[slot := pool[slot].(quantity := quantity)], free, qs)
  {
    var pool' := pool[slot := pool[slot].(quantity := quantity)];
    forall s | 0 <= s < |pool| ensures Resting(cfg, pool', qs, s) <==> Resting(cfg, pool, qs, s) {
    }
  }

  lemma ResizeShows(pool: seq<Order>, free: seq<nat>, slotOf: map<U64, U32>, qs: Queues, b: Book, slot: nat,
                    quantity: U32)
    requires Indexed(pool, free, slotOf) && Shows(pool, slotOf, qs, b) && slot < |pool| && slot !in free
    ensures var id := pool[slot].id;
            && id in b.orders
            && Shows(pool[slot := pool[slot].(quantity := quantity)], slotOf, qs,
                     Resize(b, id, quantity))
  {
    var id := pool[slot].id;
    var pool' := pool[slot := pool[slot].(quantity := quantity)];
    forall side, l | 0 <= l < |qs.Of(side)| ensures ShowsQueue(pool', qs.Of(side)[l], b.Queues(side)[l]) {
      assert ShowsQueue(pool, qs.Of(side)[l], b.Queues(side)[l]);
      assert Ids(pool', qs.Of(side)[l]) == Ids(pool, qs.Of(side)[l]);
    }
  }

  // ---- Free slots and the lists ----

  lemma FreeNotQueued(cfg: Config, pool: seq<Order>, bids: seq<Level>, asks: seq<Level>, free: seq<nat>, qs: Queues,
                      s: nat)
    requires Lists(cfg, pool, bids, asks, qs) && Partition(cfg, pool, free, qs) && s in free
    ensures !Queued(qs, s)
  {
    hide SideLists;
    if Queued(qs, s) {
      var side, l :| 0 <= l < |qs.Of(side)| && s in qs.Of(side)[l];
      var k :| 0 <= k < |qs.Of(side)[l]| && qs.Of(side)[l][k] == s;
      QueuedRests(cfg, pool, bids, asks, qs, side, l, k);
    }
  }

  /** Writing to a slot that is in no queue leaves every list as it was. */
  lemma ListsUnqueued(cfg: Config, pool: seq<Order>, bids: seq<Level>, asks: seq<Level>, qs: Queues, slot: nat,
                      o: Order)
    requires Lists(cfg, pool, bids, asks, qs) && slot < |pool| && !Queued(qs, slot)
    ensures Lists(cfg, pool[slot := o], bids, asks, qs)
  {
    var pool' := pool[slot := o];
    forall side, l | 0 <= l < cfg.LevelCount()
      ensures InPool(|pool|, qs.Of(side)[l]) && Agree(pool, pool', qs.Of(side)[l])
    {
      LevelChain(cfg, pool, bids, asks, qs, side, l);
      forall i | 0 <= i < |qs.Of(side)[l]| ensures pool'[qs.Of(side)[l][i]] == pool[qs.Of(side)[l][i]] {
        assert qs.Of(side)[l][i] in qs.Of(side)[l];
      }
    }
    forall l | 0 <= l < |qs.bids| ensures Agree(pool, pool', qs.bids[l]) {
      assert Agree(pool, pool', qs.Of(Buy)[l]);
    }
    forall l | 0 <= l < |qs.asks| ensures Agree(pool, pool', qs.asks[l]) {
      assert Agree(pool, pool', qs.Of(Sell)[l]);
    }
    SideFrame(pool, pool', bids, qs.bids, Buy, cfg.minPrice);
    SideFrame(pool, pool', asks, qs.asks, Sell, cfg.minPrice);
  }

  /** Relinking a level's queue and one slot outside the free list leaves the free list as it was. */
  lemma FreeRelinked(cfg: Config, pool: seq<Order>, pool': seq<Order>, bids: seq<Level>, asks: seq<Level>, head: U32,
                     free: seq<nat>, frees: seq<nat>, qs: Queues, side: Side, level: nat, slot: nat)
    requires Lists(cfg, pool, bids, asks, qs) && level < cfg.LevelCount()
    requires Partition(cfg, pool, frees, qs) && FreeChain(pool, head, free) && forall s :: s in free ==> s in frees
    requires slot !in free && Relinked(pool, pool', qs.Of(side)[level] + [slot])
    ensures FreeChain(pool', head, free)
  {
    forall i | 0 <= i < |free| ensures pool'[free[i]] == pool[free[i]] {
      FreeNotQueued(cfg, pool, bids, asks, frees, qs, free[i]);
      assert free[i] !in qs.Of(side)[level];
    }
    FreeFrame(pool, pool', head, free);
  }

  lemma IndexedAt(pool: seq<Order>, free: seq<nat>, slotOf: map<U64, U32>, slot: U32)
    requires Indexed(pool, free, slotOf) && slot < |pool| && slot !in free
    ensures pool[slot].id in slotOf && (slotOf - {pool[slot].id})[pool[slot].id := slot] == slotOf
  {
  }

  /** The index and the book hold the same ids. */
  lemma SameIds(pool: seq<Order>, slotOf: map<U64, U32>, qs: Queues, b: Book)
    requires Shows(pool, slotOf, qs, b)
    ensures b.orders.Keys == slotOf.Keys
  {
  }

  /** What the pool says of an indexed order is what the book says. */
  lemma SlotShows(pool: seq<Order>, free: seq<nat>, slotOf: map<U64, U32>, qs: Queues, b: Book, id: U64)
    requires Indexed(pool, free, slotOf) && Shows(pool, slotOf, qs, b) && id in slotOf
    ensures slotOf[id] < |pool| && slotOf[id] !in free && pool[slotOf[id]].id == id
    ensures id in b.orders && b.orders[id] == EntryOf(pool[slotOf[id]])
  {
  }

  lemma ListsResize(cfg: Config, pool: seq<Order>, bids: seq<Level>, asks: seq<Level>, qs: Queues, side: Side,
                    level: nat, k: nat, slot: U32, quantity: U32)
    requires Lists(cfg, pool, bids, asks, qs) && level < cfg.LevelCount()
    requires k < |qs.Of(side)[level]| && qs.Of(side)[level][k] == slot < |pool| && quantity <= pool[slot].quantity
    ensures var lv := LevelOf(bids, asks, side, level);
            && lv.totalQuantity >= pool[slot].quantity - quantity
            && var lv' := lv.(totalQuantity := lv.totalQuantity - (pool[slot].quantity - quantity));
               Lists(cfg, pool[slot := pool[slot].(quantity := quantity)], Replaced(bids, side == Buy, level, lv'),
                     Replaced(asks, side == Sell, level, lv'), qs.With(side, level, qs.Of(side)[level]))
  {
    var lv, q := LevelOf(bids, asks, side, level), qs.Of(side)[level];
    LevelChain(cfg, pool, bids, asks, qs, side, level);
    ChainResize(pool, lv, q, k, quantity);
    ListsUpdate(cfg, pool, pool[slot := pool[slot].(quantity := quantity)], bids, asks, qs, side, level,
                lv.(totalQuantity := lv.totalQuantity - (pool[slot].quantity - quantity)), q);
  }

  lemma FrontOfFree(pool: seq<Order>, head: U32, free: seq<nat>, slot: nat)
    requires FreeChain(pool, head, free) && slot !in free
    ensures NoDuplicates([slot] + free)
  {
  }

  /** An order that is not free stands at one position of the queue its side and price name. */
  lemma Locate(cfg: Config, pool: seq<Order>, bids: seq<Level>, asks: seq<Level>, free: seq<nat>, slotOf: map<U64, U32>,
               qs: Queues, b: Book, slot: nat) returns (k: nat)
    requires Lists(cfg, pool, bids, asks, qs) && Represents(cfg, pool, free, slotOf, qs, b)
    requires slot < |pool| && slot !in free
    ensures cfg.InBand(pool[slot].price)
    ensures var level := cfg.LevelIndex(pool[slot].price);
            && QueuedAt(cfg, pool, qs, pool[slot].side, level, k)
            && qs.Of(pool[slot].side)[level][k] == slot
  {
    assert Resting(cfg, pool, qs, slot);
    var side, level := pool[slot].side, cfg.LevelIndex(pool[slot].price);
    k :| 0 <= k < |qs.Of(side)[level]| && qs.Of(side)[level][k] == slot;
    QueuedRests(cfg, pool, bids, asks, qs, side, level, k);
  }

  lemma RestingQueued(cfg: Config, pool: seq<Order>, qs: Queues, s: nat)
    requires s < |pool|
    ensures Resting(cfg, pool, qs, s) ==> Queued(qs, s)
  {
  }

  lemma WriteFreePartition(cfg: Config, pool: seq<Order>, free: seq<nat>, qs: Queues, slot: nat, o: Order)
    requires Partition(cfg, pool, free, qs) && slot < |pool| && slot in free && !Queued(qs, slot)
    ensures Partition(cfg, pool[slot := o], free, qs)
  {
    var pool' := pool[slot := o];
    forall s | 0 <= s < |pool| ensures s in free <==> !Resting(cfg, pool', qs, s) {
      if s == slot {
        RestingQueued(cfg, pool', qs, s);
      } else {
        assert Resting(cfg, pool, qs, s) <==> Resting(cfg, pool', qs, s);
      }
    }
  }

  /** Writing an order into a free slot does not change the book. */
  lemma WriteFreeRepresents(cfg: Config, pool: seq<Order>, bids: seq<Level>, asks: seq<Level>, free: seq<nat>,
                            slotOf: map<U64, U32>, qs: Queues, b: Book, slot: nat, o: Order)
    requires Represents(cfg, pool, free, slotOf, qs, b) && Lists(cfg, pool, bids, asks, qs)
    requires slot < |pool| && slot in free
    ensures Represents(cfg, pool[slot := o], free, slotOf, qs, b)
  {
    hide SideLists, Partition;
    var pool' := pool[slot := o];
    FreeNotQueued(cfg, pool, bids, asks, free, qs, slot);
    WriteFreePartition(cfg, pool, free, qs, slot, o);
    forall side, l | 0 <= l < |qs.Of(side)| ensures ShowsQueue(pool', qs.Of(side)[l], b.Queues(side)[l]) {
      assert ShowsQueue(pool, qs.Of(side)[l], b.Queues(side)[l]);
      KeepsQueue(pool, pool', slot, qs.Of(side)[l], b.Queues(side)[l]);
    }
  }

  // ---- What the queries read ----

  /** A level's queue is empty exactly when no order of the book rests there. */
  lemma OccupiedLevel(cfg: Config, pool: seq<Order>, slotOf: map<U64, U32>, qs: Queues, b: Book, side: Side, level: nat)
    requires Consistent(cfg, b) && Shows(pool, slotOf, qs, b) && level < cfg.LevelCount()
    ensures |qs.Of(side)| == cfg.LevelCount()
    ensures qs.Of(side)[level] != [] <==> exists id :: RestsAt(cfg, b, id, side, level)
  {
    assert ShowsQueue(pool, qs.Of(side)[level], b.Queues(side)[level]);
    assert QueueHolds(cfg, b, side, level);
    if qs.Of(side)[level] != [] {
      assert b.Queues(side)[level][0] in b.Queues(side)[level];
    }
  }

  /** The quantity of a level's list is the quantity of the book's queue. */
  lemma {:induction false} TotalShows(pool: seq<Order>, slotOf: map<U64, U32>, q: seq<nat>, b: Book)
    requires InPool(|pool|, q)
    requires forall i :: 0 <= i < |q| ==> pool[q[i]].id in b.orders && b.orders[pool[q[i]].id] == EntryOf(pool[q[i]])
    ensures forall id :: id in Ids(pool, q) ==> id in b.orders
    ensures QueueQuantity(b, Ids(pool, q)) == Total(pool, q)
  {
    if q != [] {
      var last := |q| - 1;
      assert Ids(pool, q)[..last] == Ids(pool, q[..last]);
      TotalShows(pool, slotOf, q[..last], b);
    }
  }

  /** A queued order is an order of the book. */
  lemma QueuedShows(cfg: Config, pool: seq<Order>, bids: seq<Level>, asks: seq<Level>, free: seq<nat>,
                    slotOf: map<U64, U32>, qs: Queues, b: Book, side: Side, level: nat, i: nat)
    requires Represents(cfg, pool, free, slotOf, qs, b) && Lists(cfg, pool, bids, asks, qs)
    requires level < cfg.LevelCount() && i < |qs.Of(side)[level]|
    ensures var slot := qs.Of(side)[level][i];
            slot < |pool| && pool[slot].id in b.orders && b.orders[pool[slot].id] == EntryOf(pool[slot])
  {
    hide SideLists;
    QueuedRests(cfg, pool, bids, asks, qs, side, level, i);
    assert Resting(cfg, pool, qs, qs.Of(side)[level][i]);
  }

  /** A level's record agrees with the book. */
  lemma LevelShows(cfg: Config, pool: seq<Order>, bids: seq<Level>, asks: seq<Level>, free: seq<nat>,
                   slotOf: map<U64, U32>, qs: Queues, b: Book, side: Side, level: nat)
    requires Consistent(cfg, b) && Represents(cfg, pool, free, slotOf, qs, b) && Lists(cfg, pool, bids, asks, qs)
    requires level < cfg.LevelCount()
    ensures LevelOf(bids, asks, side, level).orderCount == |b.Queues(side)[level]|
    ensures LevelOf(bids, asks, side, level).totalQuantity == QuantityAt(cfg, b, side, cfg.minPrice + level)
  {
    hide SideLists, Partition, Indexed, QueueHolds, Linked;
    LevelChain(cfg, pool, bids, asks, qs, side, level);
    var q := qs.Of(side)[level];
    assert ShowsQueue(pool, q, b.Queues(side)[level]);
    forall i | 0 <= i < |q| ensures pool[q[i]].id in b.orders && b.orders[pool[q[i]].id] == EntryOf(pool[q[i]]) {
      QueuedShows(cfg, pool, bids, asks, free, slotOf, qs, b, side, level, i);
    }
    TotalShows(pool, slotOf, q, b);
  }

  // ---- The empty book ----

  ghost function NoQueues(cfg: Config): Queues
    requires cfg.Valid()
  {
    var none: seq<seq<nat>> := seq(cfg.LevelCount(), _ => []);
    Queues(none, none)
  }

  /** All slots of a pool, in order: the free list of an empty book. */
  ghost function AllSlots(n: nat): (free: seq<nat>)
    ensures |free| == n && forall i :: 0 <= i < n ==> free[i] == i
  {
    seq(n, i => i)
  }

  lemma EmptyRepresents(cfg: Config, pool: seq<Order>)
    requires cfg.Valid()
    ensures Represents(cfg, pool, AllSlots(|pool|), map[], NoQueues(cfg), EmptyBook(cfg))
  {
    forall s | 0 <= s < |pool| ensures s in AllSlots(|pool|) {
      assert AllSlots(|pool|)[s] == s;
    }
  }

  lemma EmptyLists(cfg: Config, pool: seq<Order>, bids: seq<Level>, asks: seq<Level>)
    requires cfg.Valid() && |bids| == |asks| == cfg.LevelCount()
    requires forall l :: 0 <= l < |bids| ==> bids[l] == EMPTY_LEVEL && asks[l] == EMPTY_LEVEL
    ensures Lists(cfg, pool, bids, asks, NoQueues(cfg))
  {
  }
}
