/** The preallocated order book: arrays of levels, a pool of orders with an intrusive free list, a
    probed id index and cached best levels, all updated in place. */
module OrderBooks {
  import opened Market
  import opened BookSpec
  import opened LevelLists
  import opened Representation
  import ProbeIndex

  /** "No level": the largest 64-bit value, beyond any level number. */
  const NO_LEVEL: nat := 0xFFFF_FFFF_FFFF_FFFF

  /** Returned for the best price of an empty side: the smallest 64-bit signed value. */
  const NO_PRICE: int := -0x8000_0000_0000_0000

  /** `best` is the highest occupied level, or no level if all are empty. */
  ghost predicate HighestIs(best: nat, qs: seq<seq<nat>>) {
    if best == NO_LEVEL then forall l :: 0 <= l < |qs| ==> qs[l] == []
    else best < |qs| && qs[best] != [] && forall l :: best < l < |qs| ==> qs[l] == []
  }

  /** `best` is the lowest occupied level, or no level if all are empty. */
  ghost predicate LowestIs(best: nat, qs: seq<seq<nat>>) {
    if best == NO_LEVEL then forall l :: 0 <= l < |qs| ==> qs[l] == []
    else best < |qs| && qs[best] != [] && forall l :: 0 <= l < best ==> qs[l] == []
  }

  ghost predicate BestIs(bestBid: nat, bestAsk: nat, qs: Queues) {
    HighestIs(bestBid, qs.bids) && LowestIs(bestAsk, qs.asks)
  }

  /** The least power of two, at least 2, that is not below `value`. */
  function RoundUpPow2(value: nat): (r: nat)
    ensures IsPow2(r) && r >= 2 && r >= value && (value >= 2 ==> r < 2 * value)
    decreases value
  {
    if value <= 2 then 2 else 2 * RoundUpPow2((value + 1) / 2)
  }

  class OrderBook {
    const cfg: Config
    const hash: U64 -> U64
    const bidLevels: array<Level>
    const askLevels: array<Level>
    const pool: array<Order>
    const index: array<ProbeIndex.Cell>
    var freeHead: U32
    var liveOrders: nat
    var bestBidLevel: nat
    var bestAskLevel: nat

    ghost var free: seq<nat>
    ghost var queues: Queues
    ghost var book: Book

    ghost predicate Sized() {
      && cfg.Valid()
      && bidLevels != askLevels
      && bidLevels.Length == askLevels.Length == cfg.LevelCount()
      && pool.Length == cfg.maxOrders
      && IsPow2(index.Length) && 2 * cfg.maxOrders <= index.Length < ProbeIndex.NOT_FOUND
    }

    /** The level lists are well formed and visit `queues`. */
    ghost predicate Listed()
      reads this, pool, bidLevels, askLevels
    {
      Sized() && Lists(cfg, pool[..], bidLevels[..], askLevels[..], queues)
    }

    ghost predicate Valid()
      reads this, pool, bidLevels, askLevels, index
    {
      && Listed()
      && FreeChain(pool[..], freeHead, free)
      && |free| + liveOrders == pool.Length
      && ProbeIndex.Valid(hash, index[..])
      && ProbeIndex.Load(index[..]) == liveOrders == |book.orders|
      && Consistent(cfg, book)
      && Represents(cfg, pool[..], free, ProbeIndex.Contents(index[..]), queues, book)
      && BestIs(bestBidLevel, bestAskLevel, queues)
    }

    function LevelsFor(side: Side): array<Level> {
      if side == Buy then bidLevels else askLevels
    }

    constructor (cfg: Config, hash: U64 -> U64)
      requires cfg.Valid()
      ensures Valid() && this.cfg == cfg && book == EmptyBook(cfg)
      ensures fresh(pool) && fresh(bidLevels) && fresh(askLevels) && fresh(index)
    {
      this.cfg, this.hash := cfg, hash;
      bidLevels := new Level[cfg.LevelCount()](_ => EMPTY_LEVEL);
      askLevels := new Level[cfg.LevelCount()](_ => EMPTY_LEVEL);
      pool := new Order[cfg.maxOrders](_ => Order(0, 0, 0, 0, 0, Buy));
      index := new ProbeIndex.Cell[RoundUpPow2(cfg.maxOrders * 2)](_ => ProbeIndex.Cell(ProbeIndex.EMPTY_KEY, 0));
      freeHead, liveOrders, bestBidLevel, bestAskLevel := NULL_ORDER, 0, NO_LEVEL, NO_LEVEL;
      free, queues, book := [], NoQueues(cfg), EmptyBook(cfg);
      new;
      Clear();
    }

    method Clear()
      requires Sized()
      modifies this, pool, bidLevels, askLevels, index
      ensures Valid() && book == EmptyBook(cfg)
    {
      ResetLevels(bidLevels);
      ResetLevels(askLevels);
      ResetIndex();
      ThreadFreeList();
      freeHead, liveOrders, bestBidLevel, bestAskLevel := 0, 0, NO_LEVEL, NO_LEVEL;
      free, queues, book := AllSlots(pool.Length), NoQueues(cfg), EmptyBook(cfg);
      hide Represents, Lists, Consistent;
      EmptyRepresents(cfg, pool[..]);
      EmptyLists(cfg, pool[..], bidLevels[..], askLevels[..]);
      EmptyConsistent(cfg);
    }

    static method ResetLevels(levels: array<Level>)
      modifies levels
      ensures forall l :: 0 <= l < levels.Length ==> levels[l] == EMPTY_LEVEL
    {
      for i := 0 to levels.Length
        invariant forall l :: 0 <= l < i ==> levels[l] == EMPTY_LEVEL
      {
        levels[i] := EMPTY_LEVEL;
      }
    }

    method ResetIndex()
      requires index.Length > 0
      modifies index
      ensures ProbeIndex.Valid(hash, index[..]) && ProbeIndex.Load(index[..]) == 0
      ensures ProbeIndex.Contents(index[..]) == map[]
    {
      for i := 0 to index.Length
        invariant forall p :: 0 <= p < i ==> index[p].key == ProbeIndex.EMPTY_KEY
      {
        index[i] := ProbeIndex.Cell(ProbeIndex.EMPTY_KEY, 0);
      }
      ProbeIndex.LoadEmpty(index[..]);
      assert ProbeIndex.Keys(index[..]) == {};
    }

    method ThreadFreeList()
      requires 0 < pool.Length < 0x1_0000_0000
      modifies pool
      ensures FreeChain(pool[..], 0, AllSlots(pool.Length))
    {
      for i := 0 to pool.Length
        invariant forall s :: 0 <= s < i ==> pool[s].next == if s + 1 < pool.Length then s + 1 else NULL_ORDER
      {
        pool[i] := pool[i].(next := if i + 1 < pool.Length then i + 1 else NULL_ORDER);
      }
    }

    method AcquireSlot() returns (slot: U32)
      requires Sized() && FreeChain(pool[..], freeHead, free)
      modifies this`freeHead, this`free
      ensures FreeChain(pool[..], freeHead, free)
      ensures old(free) == [] ==> slot == NULL_ORDER && free == []
      ensures old(free) != [] ==> slot == old(free)[0] && free == old(free)[1..] && slot < pool.Length && slot !in free
    {
      if freeHead == NULL_ORDER {
        return NULL_ORDER;
      }
      slot := freeHead;
      freeHead := pool[slot].next;
      free := free[1..];
    }

    method ReleaseSlot(slot: U32)
      requires Sized() && FreeChain(pool[..], freeHead, free) && slot < pool.Length && slot !in free
      modifies this`freeHead, this`free, pool
      ensures FreeChain(pool[..], freeHead, free)
      ensures free == [slot as nat] + old(free)
      ensures pool[..] == old(pool[..])[slot := old(pool[slot]).(next := old(freeHead))]
    {
      pool[slot] := pool[slot].(next := freeHead);
      freeHead := slot;
      free := [slot as nat] + free;
    }

    method LinkBack(level: nat, side: Side, slot: U32)
      requires Listed() && level < cfg.LevelCount() && slot < pool.Length
      requires !Queued(queues, slot)
      requires pool[slot].side == side && pool[slot].price == cfg.minPrice + level
      modifies pool, LevelsFor(side), this`queues
      ensures Listed()
      ensures queues == old(queues).With(side, level, old(queues).Of(side)[level] + [slot])
      ensures Relinked(old(pool[..]), pool[..], old(queues).Of(side)[level] + [slot])
    {
      hide SideLists;
      ghost var before, q, bids, asks := pool[..], queues.Of(side)[level], bidLevels[..], askLevels[..];
      ListsPush(cfg, before, bids, asks, queues, side, level, slot);
      var levels := LevelsFor(side);
      var lv := levels[level];
      assert lv == LevelOf(bids, asks, side, level);
      pool[slot] := pool[slot].(next := NULL_ORDER, prev := lv.tail);
      if lv.tail != NULL_ORDER {
        pool[lv.tail] := pool[lv.tail].(next := slot);
      }
      assert pool[..] == Pushed(before, lv.tail, slot);
      levels[level] := Level(lv.totalQuantity + pool[slot].quantity, lv.orderCount + 1,
                             if lv.tail == NULL_ORDER then slot else lv.head, slot);
      queues := queues.With(side, level, q + [slot]);
      assert pool[..] == Pushed(before, lv.tail, slot);
      assert levels[level] == PushedLevel(lv, before[slot], slot);
      assert bidLevels[..] == Replaced(bids, side == Buy, level, levels[level]);
      assert askLevels[..] == Replaced(asks, side == Sell, level, levels[level]);
    }

    /** Walks down from an emptied best bid level to the next occupied one. */
    method NextBidBelow(level: nat) returns (best: nat)
      requires Listed() && level < cfg.LevelCount()
      requires forall l :: level <= l < |queues.bids| ==> queues.bids[l] == []
      ensures HighestIs(best, queues.bids)
    {
      var scan: nat := level;
      while scan > 0
        invariant scan <= level
        invariant forall l :: scan <= l < |queues.bids| ==> queues.bids[l] == []
      {
        scan := scan - 1;
        assert Chain(pool[..], bidLevels[..][scan], queues.bids[scan]);
        if bidLevels[scan].orderCount > 0 {
          return scan;
        }
      }
      best := NO_LEVEL;
    }

    /** Walks up from an emptied best ask level to the next occupied one. */
    method NextAskAbove(level: nat) returns (best: nat)
      requires Listed() && level < cfg.LevelCount()
      requires forall l :: 0 <= l <= level ==> queues.asks[l] == []
      ensures LowestIs(best, queues.asks)
    {
      for scan := level + 1 to askLevels.Length
        invariant forall l :: 0 <= l < scan ==> queues.asks[l] == []
      {
        assert Chain(pool[..], askLevels[..][scan], queues.asks[scan]);
        if askLevels[scan].orderCount > 0 {
          return scan;
        }
      }
      best := NO_LEVEL;
    }

    method OnLevelEmptied(side: Side, level: nat, ghost q: seq<nat>)
      requires Listed() && level < cfg.LevelCount() && queues.Of(side)[level] == []
      requires q != [] && BestIs(bestBidLevel, bestAskLevel, queues.With(side, level, q))
      modifies this`bestBidLevel, this`bestAskLevel
      ensures BestIs(bestBidLevel, bestAskLevel, queues)
    {
      EmptiedLevel(bestBidLevel, bestAskLevel, queues, side, level, q);
      if side == Buy {
        if level == bestBidLevel {
          bestBidLevel := NextBidBelow(level);
        }
      } else {
        if level == bestAskLevel {
          bestAskLevel := NextAskAbove(level);
        }
      }
    }

    method NoteLevelFilled(side: Side, level: nat, ghost q: seq<nat>)
      requires Sized() && level < |queues.Of(side)| <= cfg.LevelCount() && queues.Of(side)[level] != []
      requires BestIs(bestBidLevel, bestAskLevel, queues.With(side, level, q))
      modifies this`bestBidLevel, this`bestAskLevel
      ensures BestIs(bestBidLevel, bestAskLevel, queues)
    {
      ghost var before := queues.With(side, level, q);
      if side == Buy {
        assert forall l :: 0 <= l < |queues.bids| && l != level ==> before.bids[l] == queues.bids[l];
        if bestBidLevel == NO_LEVEL || level > bestBidLevel {
          bestBidLevel := level;
        }
      } else {
        assert forall l :: 0 <= l < |queues.asks| && l != level ==> before.asks[l] == queues.asks[l];
        if bestAskLevel == NO_LEVEL || level < bestAskLevel {
          bestAskLevel := level;
        }
      }
    }

    method Unlink(level: nat, side: Side, slot: U32, ghost k: nat)
      requires Listed() && level < cfg.LevelCount()
      requires k < |queues.Of(side)[level]| && queues.Of(side)[level][k] == slot
      requires BestIs(bestBidLevel, bestAskLevel, queues)
      modifies pool, LevelsFor(side), this`queues, this`bestBidLevel, this`bestAskLevel
      ensures Listed() && BestIs(bestBidLevel, bestAskLevel, queues)
      ensures queues == old(queues).With(side, level, Cut(old(queues).Of(side)[level], k))
      ensures Relinked(old(pool[..]), pool[..], old(queues).Of(side)[level])
    {
      hide SideLists;
      ghost var qs, q := queues, queues.Of(side)[level];
      UnlinkFromLevel(level, side, slot, k);
      assert queues.With(side, level, q) == qs;
      var levels := LevelsFor(side);
      LevelChain(cfg, pool[..], bidLevels[..], askLevels[..], queues, side, level);
      if levels[level].orderCount == 0 {
        OnLevelEmptied(side, level, q);
      } else {
        StillBest(bestBidLevel, bestAskLevel, qs, side, level, Cut(q, k));
      }
    }

    method JoinNeighbours(slot: U32)
      requires slot < pool.Length
      requires pool[slot].prev < pool.Length || pool[slot].prev == NULL_ORDER
      requires pool[slot].next < pool.Length || pool[slot].next == NULL_ORDER
      modifies pool
      ensures pool[..] == Unhooked(old(pool[..]), slot)
    {
      var order := pool[slot];
      if order.prev != NULL_ORDER {
        pool[order.prev] := pool[order.prev].(next := order.next);
      }
      if order.next != NULL_ORDER {
        pool[order.next] := pool[order.next].(prev := order.prev);
      }
    }

    /** The part of an unlink that joins the neighbours and updates the level's record. */
    method UnlinkFromLevel(level: nat, side: Side, slot: U32, ghost k: nat)
      requires Listed() && level < cfg.LevelCount()
      requires k < |queues.Of(side)[level]| && queues.Of(side)[level][k] == slot
      modifies pool, LevelsFor(side), this`queues
      ensures Listed()
      ensures queues == old(queues).With(side, level, Cut(old(queues).Of(side)[level], k))
      ensures Relinked(old(pool[..]), pool[..], old(queues).Of(side)[level])
    {
      hide SideLists;
      ghost var before, q, bids, asks := pool[..], queues.Of(side)[level], bidLevels[..], askLevels[..];
      ListsUnlink(cfg, before, bids, asks, queues, side, level, k, slot);
      var levels := LevelsFor(side);
      var lv, order := levels[level], pool[slot];
      assert lv == LevelOf(bids, asks, side, level);
      JoinNeighbours(slot);
      levels[level] := Level(lv.totalQuantity - order.quantity, lv.orderCount - 1,
                             if order.prev == NULL_ORDER then order.next else lv.head,
                             if order.next == NULL_ORDER then order.prev else lv.tail);
      queues := queues.With(side, level, Cut(q, k));
      assert pool[..] == Unhooked(before, slot);
      assert levels[level] == UnhookedLevel(lv, before[slot]);
      assert bidLevels[..] == Replaced(bids, side == Buy, level, levels[level]);
      assert askLevels[..] == Replaced(asks, side == Sell, level, levels[level]);
    }

    // ---- An order between two places ----

    /** `slot` is in no list: the rest of the structure stands for `b`, with ids indexed by `slotOf`. */
    ghost predicate Pending(slot: U32, slotOf: map<U64, U32>, b: Book)
      reads this, pool, bidLevels, askLevels
    {
      && Listed() && BestIs(bestBidLevel, bestAskLevel, queues)
      && slot < pool.Length && slot !in free && FreeChain(pool[..], freeHead, free)
      && Represents(cfg, pool[..], [slot as nat] + free, slotOf, queues, b)
    }

    /** Takes the order in `slot` out of its level. */
    method Detach(slot: U32)
      requires Valid() && slot < pool.Length && slot !in free
      modifies pool, bidLevels, askLevels, this`queues, this`bestBidLevel, this`bestAskLevel
      ensures Plain(pool[slot]) == old(Plain(pool[slot])) && pool[slot].id in book.orders
      ensures Pending(slot, ProbeIndex.Contents(index[..]) - {pool[slot].id}, Remove(cfg, book, pool[slot].id))
    {
      hide SideLists, Partition, Indexed, Shows, FreeChain, QueueHolds, BestIs;
      hide ProbeIndex.Contiguous, ProbeIndex.Distinct, ProbeIndex.Contents, ProbeIndex.Load;
      ghost var before, bids, asks := pool[..], bidLevels[..], askLevels[..];
      ghost var slotOf, qs := ProbeIndex.Contents(index[..]), queues;
      ghost var k := Locate(cfg, before, bids, asks, free, slotOf, qs, book, slot);
      var side := pool[slot].side;
      var level := cfg.LevelIndex(pool[slot].price);
      DetachRepresents(cfg, before, free, slotOf, qs, book, side, level, k);
      Unlink(level, side, slot, k);
      assert Plain(pool[..][slot]) == Plain(before[slot]);
      RelinkRepresents(cfg, before, pool[..], [slot as nat] + free, slotOf - {before[slot].id}, queues,
                       Remove(cfg, book, before[slot].id));
      FreeRelinked(cfg, before, pool[..], bids, asks, freeHead, free, free, qs, side, level, slot);
    }

    /** Writes an order that is in no list. */
    method Write(slot: U32, order: Order, ghost slotOf: map<U64, U32>, ghost b: Book)
      requires Pending(slot, slotOf, b)
      modifies pool
      ensures Pending(slot, slotOf, b) && pool[slot] == order
    {
      ghost var before, frees := pool[..], [slot as nat] + free;
      assert slot in frees;
      WriteFreeRepresents(cfg, before, bidLevels[..], askLevels[..], frees, slotOf, queues, b, slot, order);
      FreeNotQueued(cfg, before, bidLevels[..], askLevels[..], frees, queues, slot);
      ListsUnqueued(cfg, before, bidLevels[..], askLevels[..], queues, slot, order);
      pool[slot] := order;
      assert pool[..] == before[slot := order];
      FreeFrame(before, pool[..], freeHead, free);
    }

    /** Queues the order in `slot` behind its level. */
    method Attach(slot: U32, ghost slotOf: map<U64, U32>, ghost b: Book)
      requires Pending(slot, slotOf, b) && cfg.InBand(pool[slot].price)
      requires |b.bids| == |b.asks| == cfg.LevelCount() && pool[slot].id !in b.orders
      modifies pool, bidLevels, askLevels, this`queues, this`bestBidLevel, this`bestAskLevel
      ensures Listed() && BestIs(bestBidLevel, bestAskLevel, queues) && FreeChain(pool[..], freeHead, free)
      ensures pool[slot].id == old(pool[slot].id)
      ensures Represents(cfg, pool[..], free, slotOf[old(pool[slot].id) := slot], queues,
                         Enqueue(cfg, b, old(pool[slot].id), old(EntryOf(pool[slot]))))
    {
      hide SideLists, Partition, Indexed, Shows, FreeChain, BestIs, Queued, NoDuplicates;
      ghost var before, frees, qs, bids, asks := pool[..], [slot as nat] + free, queues, bidLevels[..], askLevels[..];
      var side := pool[slot].side;
      var level := cfg.LevelIndex(pool[slot].price);
      ghost var q := queues.Of(side)[level];
      FreeNotQueued(cfg, before, bids, asks, frees, queues, slot);
      FrontOfFree(before, freeHead, free, slot);
      LinkBack(level, side, slot);
      assert Plain(pool[..][slot]) == Plain(before[slot]);
      AttachRepresents(cfg, before, pool[..], frees, slotOf, qs, b, slot, level);
      FreeRelinked(cfg, before, pool[..], bids, asks, freeHead, free, frees, qs, side, level, slot);
      assert queues.With(side, level, q) == qs;
      NoteLevelFilled(side, level, q);
    }

    /** Removes the order whose id is stored at `position` of the index. */
    method RemoveAt(position: nat)
      requires Valid() && position < index.Length && index[position].key != ProbeIndex.EMPTY_KEY
      modifies this, pool, bidLevels, askLevels, index
      ensures Valid()
      ensures old(index[position].key) in old(book.orders) && book == Remove(cfg, old(book), old(index[position].key))
    {
      hide SideLists, Partition, Indexed, Shows, FreeChain, QueueHolds, BestIs;
      hide ProbeIndex.Contiguous, ProbeIndex.Distinct, ProbeIndex.Contents, ProbeIndex.Load;
      ghost var id := index[position].key;
      ProbeIndex.ContentsAt(index[..], position);
      var slot := index[position].value;
      SlotShows(pool[..], free, ProbeIndex.Contents(index[..]), queues, book, id);
      RemoveConsistent(cfg, book, id);
      ghost var rest := Remove(cfg, book, id);
      Detach(slot);
      ProbeIndex.Erase(index, hash, position);
      Release(slot, ProbeIndex.Contents(index[..]), rest);
      liveOrders := liveOrders - 1;
      book := rest;
    }

    /** Frees a slot that is in no list. */
    method Release(slot: U32, ghost slotOf: map<U64, U32>, ghost b: Book)
      requires Pending(slot, slotOf, b)
      modifies this`freeHead, this`free, pool
      ensures Listed() && FreeChain(pool[..], freeHead, free)
      ensures free == [slot as nat] + old(free)
      ensures Represents(cfg, pool[..], free, slotOf, queues, b)
    {
      hide SideLists, Partition, Indexed, Shows, FreeChain, BestIs, Queued;
      ghost var before, frees := pool[..], [slot as nat] + free;
      ghost var order := pool[slot].(next := freeHead);
      WriteFreeRepresents(cfg, before, bidLevels[..], askLevels[..], frees, slotOf, queues, b, slot, order);
      FreeNotQueued(cfg, before, bidLevels[..], askLevels[..], frees, queues, slot);
      ListsUnqueued(cfg, before, bidLevels[..], askLevels[..], queues, slot, order);
      ReleaseSlot(slot);
    }

    // ---- The operations ----

    method Add(id: U64, side: Side, price: int, quantity: U32) returns (r: Result)
      requires Valid()
      modifies this, pool, bidLevels, askLevels, index
      ensures Valid()
      ensures Outcome(r, book) == Apply(cfg, old(book), Op.Add(id, side, price, quantity))
    {
      hide SideLists, Partition, Indexed, Shows, FreeChain, QueueHolds, BestIs;
      hide ProbeIndex.Contiguous, ProbeIndex.Distinct, ProbeIndex.Contents, ProbeIndex.Load;
      SameIds(pool[..], ProbeIndex.Contents(index[..]), queues, book);
      if id == ProbeIndex.EMPTY_KEY {
        return UnknownOrder;
      }
      if quantity == 0 {
        return InvalidQuantity;
      }
      if !cfg.InBand(price) {
        return PriceOutOfBand;
      }
      var position := ProbeIndex.Find(index, hash, id);
      if position != ProbeIndex.NOT_FOUND {
        return DuplicateOrder;
      }
      r := AddNew(id, side, price, quantity);
    }

    /** The part of an add that follows its checks. */
    method AddNew(id: U64, side: Side, price: int, quantity: U32) returns (r: Result)
      requires Valid() && id != 0 && quantity > 0 && cfg.InBand(price) && id !in book.orders
      modifies this, pool, bidLevels, askLevels, index
      ensures Valid()
      ensures if |old(book).orders| == cfg.maxOrders then r == PoolExhausted && book == old(book)
              else r == Ok && book == Enqueue(cfg, old(book), id, Entry(side, price, quantity))
    {
      hide SideLists, Partition, Indexed, Shows, FreeChain, QueueHolds, BestIs;
      hide ProbeIndex.Contiguous, ProbeIndex.Distinct, ProbeIndex.Contents, ProbeIndex.Load;
      SameIds(pool[..], ProbeIndex.Contents(index[..]), queues, book);
      ghost var slotOf, frees := ProbeIndex.Contents(index[..]), free;
      var slot := AcquireSlot();
      if slot == NULL_ORDER {
        return PoolExhausted;
      }
      assert frees == [slot as nat] + free;
      Write(slot, pool[slot].(id := id, price := price, quantity := quantity, side := side), slotOf, book);
      Attach(slot, slotOf, book);
      ProbeIndex.Insert(index, hash, id, slot);
      liveOrders := liveOrders + 1;
      EnqueueConsistent(cfg, book, id, Entry(side, price, quantity));
      book := Enqueue(cfg, book, id, Entry(side, price, quantity));
      r := Ok;
    }

    method Cancel(id: U64) returns (r: Result)
      requires Valid()
      modifies this, pool, bidLevels, askLevels, index
      ensures Valid()
      ensures Outcome(r, book) == Apply(cfg, old(book), Op.Cancel(id))
    {
      hide SideLists, Partition, Indexed, Shows, FreeChain, QueueHolds, BestIs;
      hide ProbeIndex.Contiguous, ProbeIndex.Distinct, ProbeIndex.Contents, ProbeIndex.Load;
      SameIds(pool[..], ProbeIndex.Contents(index[..]), queues, book);
      var position := ProbeIndex.Find(index, hash, id);
      if position == ProbeIndex.NOT_FOUND {
        return UnknownOrder;
      }
      RemoveAt(position);
      r := Ok;
    }

    method Modify(id: U64, price: int, quantity: U32) returns (r: Result)
      requires Valid()
      modifies this, pool, bidLevels, askLevels, index
      ensures Valid()
      ensures Outcome(r, book) == Apply(cfg, old(book), Op.Modify(id, price, quantity))
    {
      hide SideLists, Partition, Indexed, Shows, FreeChain, QueueHolds, BestIs;
      hide ProbeIndex.Contiguous, ProbeIndex.Distinct, ProbeIndex.Contents, ProbeIndex.Load;
      SameIds(pool[..], ProbeIndex.Contents(index[..]), queues, book);
      if quantity == 0 {
        return InvalidQuantity;
      }
      if !cfg.InBand(price) {
        return PriceOutOfBand;
      }
      var position := ProbeIndex.Find(index, hash, id);
      if position == ProbeIndex.NOT_FOUND {
        return UnknownOrder;
      }
      ProbeIndex.ContentsAt(index[..], position);
      var slot := index[position].value;
      SlotShows(pool[..], free, ProbeIndex.Contents(index[..]), queues, book, id);
      if price == pool[slot].price && quantity < pool[slot].quantity {
        Shrink(slot, quantity);
      } else {
        MoveToBack(slot, price, quantity);
      }
      r := Ok;
    }

    method Execute(id: U64, quantity: U32) returns (r: Result)
      requires Valid()
      modifies this, pool, bidLevels, askLevels, index
      ensures Valid()
      ensures Outcome(r, book) == Apply(cfg, old(book), Op.Execute(id, quantity))
    {
      hide SideLists, Partition, Indexed, Shows, FreeChain, QueueHolds, BestIs;
      hide ProbeIndex.Contiguous, ProbeIndex.Distinct, ProbeIndex.Contents, ProbeIndex.Load;
      SameIds(pool[..], ProbeIndex.Contents(index[..]), queues, book);
      if quantity == 0 {
        return InvalidQuantity;
      }
      var position := ProbeIndex.Find(index, hash, id);
      if position == ProbeIndex.NOT_FOUND {
        return UnknownOrder;
      }
      ProbeIndex.ContentsAt(index[..], position);
      var slot := index[position].value;
      SlotShows(pool[..], free, ProbeIndex.Contents(index[..]), queues, book, id);
      if quantity >= pool[slot].quantity {
        RemoveAt(position);
      } else {
        Shrink(slot, pool[slot].quantity - quantity);
      }
      r := Ok;
    }

    /** Reduces an order's size where it stands. */
    method Shrink(slot: U32, quantity: U32)
      requires Valid() && slot < pool.Length && slot !in free && 0 < quantity < pool[slot].quantity
      modifies pool, bidLevels, askLevels, this`book
      ensures Valid()
      ensures var id := old(pool[slot].id);
              && id in old(book).orders
              && book == Resize(old(book), id, quantity)
    {
      hide SideLists, Partition, Indexed, Shows, FreeChain, QueueHolds, BestIs;
      hide ProbeIndex.Contiguous, ProbeIndex.Distinct, ProbeIndex.Contents, ProbeIndex.Load;
      ghost var before, bids, asks, slotOf := pool[..], bidLevels[..], askLevels[..], ProbeIndex.Contents(index[..]);
      ghost var k := Locate(cfg, before, bids, asks, free, slotOf, queues, book, slot);
      ResizeRepresents(cfg, before, free, slotOf, queues, book, slot, quantity);
      ResizeConsistent(cfg, book, before[slot].id, quantity);
      ShrinkInLevel(slot, quantity, k);
      FreeResized(before, freeHead, free, slot, quantity);
      book := Resize(book, before[slot].id, quantity);
    }

    method ShrinkInLevel(slot: U32, quantity: U32, ghost k: nat)
      requires Listed() && slot < pool.Length && quantity < pool[slot].quantity && cfg.InBand(pool[slot].price)
      requires var level := cfg.LevelIndex(pool[slot].price);
               && k < |queues.Of(pool[slot].side)[level]| && queues.Of(pool[slot].side)[level][k] == slot
      modifies pool, bidLevels, askLevels
      ensures Listed()
      ensures pool[..] == old(pool[..])[slot := old(pool[slot]).(quantity := quantity)]
    {
      hide SideLists;
      ghost var before, bids, asks, side := pool[..], bidLevels[..], askLevels[..], pool[slot].side;
      var levels := LevelsFor(pool[slot].side);
      var level := cfg.LevelIndex(pool[slot].price);
      ListsResize(cfg, before, bids, asks, queues, side, level, k, slot, quantity);
      var lv := levels[level];
      levels[level] := lv.(totalQuantity := lv.totalQuantity - (pool[slot].quantity - quantity));
      pool[slot] := pool[slot].(quantity := quantity);
      assert pool[..] == before[slot := before[slot].(quantity := quantity)];
      assert queues.With(side, level, queues.Of(side)[level]) == queues;
      assert bidLevels[..] == Replaced(bids, side == Buy, level, levels[level]);
      assert askLevels[..] == Replaced(asks, side == Sell, level, levels[level]);
    }

    /** Moves an order to the back of the queue at a possibly different price. */
    method MoveToBack(slot: U32, price: int, quantity: U32)
      requires Valid() && slot < pool.Length && slot !in free && quantity > 0 && cfg.InBand(price)
      modifies pool, bidLevels, askLevels, this`queues, this`bestBidLevel, this`bestAskLevel, this`book
      ensures Valid()
      ensures var id := old(pool[slot].id);
              && id in old(book).orders
              && book == Requeue(cfg, old(book), id, price, quantity)
    {
      hide SideLists, Partition, Indexed, Shows, FreeChain, QueueHolds, BestIs;
      hide ProbeIndex.Contiguous, ProbeIndex.Distinct, ProbeIndex.Contents, ProbeIndex.Load;
      ghost var id, slotOf := pool[slot].id, ProbeIndex.Contents(index[..]);
      IndexedAt(pool[..], free, slotOf, slot);
      SlotShows(pool[..], free, slotOf, queues, book, id);
      Detach(slot);
      ghost var rest := Remove(cfg, book, id);
      Write(slot, pool[slot].(price := price, quantity := quantity), slotOf - {id}, rest);
      Attach(slot, slotOf - {id}, rest);
      RequeueConsistent(cfg, book, id, price, quantity);
      book := Requeue(cfg, book, id, price, quantity);
    }

    // ---- Queries ----

    method BestBid() returns (price: int)
      requires Valid()
      ensures if HasOrders(book, Buy) then IsBestBid(book, price) else price == NO_PRICE
      ensures cfg.minPrice > NO_PRICE ==> (price == NO_PRICE <==> !HasOrders(book, Buy))
    {
      hide SideLists, Partition, Indexed, Shows, FreeChain, QueueHolds;
      hide ProbeIndex.Contiguous, ProbeIndex.Distinct, ProbeIndex.Contents, ProbeIndex.Load;
      BestBidExact(cfg, pool[..], ProbeIndex.Contents(index[..]), queues, book, bestBidLevel);
      price := if bestBidLevel == NO_LEVEL then NO_PRICE else cfg.minPrice + bestBidLevel;
    }

    method BestAsk() returns (price: int)
      requires Valid()
      ensures if HasOrders(book, Sell) then IsBestAsk(book, price) else price == NO_PRICE
      ensures cfg.minPrice > NO_PRICE ==> (price == NO_PRICE <==> !HasOrders(book, Sell))
    {
      hide SideLists, Partition, Indexed, Shows, FreeChain, QueueHolds;
      hide ProbeIndex.Contiguous, ProbeIndex.Distinct, ProbeIndex.Contents, ProbeIndex.Load;
      BestAskExact(cfg, pool[..], ProbeIndex.Contents(index[..]), queues, book, bestAskLevel);
      price := if bestAskLevel == NO_LEVEL then NO_PRICE else cfg.minPrice + bestAskLevel;
    }

    method QuantityAtPrice(side: Side, price: int) returns (total: U64)
      requires Valid()
      ensures total == QuantityAt(cfg, book, side, price)
    {
      hide SideLists, Partition, Indexed, Shows, FreeChain, QueueHolds;
      hide ProbeIndex.Contiguous, ProbeIndex.Distinct, ProbeIndex.Contents, ProbeIndex.Load;
      if !cfg.InBand(price) {
        return 0;
      }
      var level := cfg.LevelIndex(price);
      LevelShows(cfg, pool[..], bidLevels[..], askLevels[..], free, ProbeIndex.Contents(index[..]), queues, book,
                 side, level);
      total := LevelsFor(side)[level].totalQuantity;
    }

    method OrderCountAt(side: Side, price: int) returns (count: U32)
      requires Valid()
      ensures count == if cfg.InBand(price) then |book.Queues(side)[cfg.LevelIndex(price)]| else 0
    {
      hide SideLists, Partition, Indexed, Shows, FreeChain, QueueHolds;
      hide ProbeIndex.Contiguous, ProbeIndex.Distinct, ProbeIndex.Contents, ProbeIndex.Load;
      if !cfg.InBand(price) {
        return 0;
      }
      var level := cfg.LevelIndex(price);
      LevelShows(cfg, pool[..], bidLevels[..], askLevels[..], free, ProbeIndex.Contents(index[..]), queues, book,
                 side, level);
      count := LevelsFor(side)[level].orderCount;
    }

    method LiveOrderCount() returns (count: nat)
      requires Valid()
      ensures count == |book.orders|
    {
      count := liveOrders;
    }

    method Contains(id: U64) returns (found: bool)
      requires Valid()
      ensures found <==> id in book.orders
    {
      hide SideLists, Partition, Indexed, Shows, FreeChain, QueueHolds;
      hide ProbeIndex.Contiguous, ProbeIndex.Distinct, ProbeIndex.Contents, ProbeIndex.Load;
      SameIds(pool[..], ProbeIndex.Contents(index[..]), queues, book);
      var position := ProbeIndex.Find(index, hash, id);
      found := position != ProbeIndex.NOT_FOUND;
    }
  }

  /** The cached best bid level is the level of the best bid of the book. */
  lemma BestBidExact(cfg: Config, pool: seq<Order>, slotOf: map<U64, U32>, qs: Queues, b: Book, best: nat)
    requires Consistent(cfg, b) && Shows(pool, slotOf, qs, b) && HighestIs(best, qs.bids)
    ensures best == NO_LEVEL <==> !HasOrders(b, Buy)
    ensures best != NO_LEVEL ==> IsBestBid(b, cfg.minPrice + best)
  {
    hide Shows, QueueHolds;
    forall level | 0 <= level < cfg.LevelCount()
      ensures |qs.bids| == cfg.LevelCount() && (qs.bids[level] != [] <==> exists id :: RestsAt(cfg, b, id, Buy, level))
    {
      OccupiedLevel(cfg, pool, slotOf, qs, b, Buy, level);
    }
    assert |qs.bids| == cfg.LevelCount() by {
      OccupiedLevel(cfg, pool, slotOf, qs, b, Buy, 0);
    }
    forall id | id in b.orders && b.orders[id].side == Buy
      ensures best != NO_LEVEL && b.orders[id].price <= cfg.minPrice + best
    {
      var level := cfg.LevelIndex(b.orders[id].price);
      assert RestsAt(cfg, b, id, Buy, level);
      assert qs.bids[level] != [];
    }
  }

  lemma BestAskExact(cfg: Config, pool: seq<Order>, slotOf: map<U64, U32>, qs: Queues, b: Book, best: nat)
    requires Consistent(cfg, b) && Shows(pool, slotOf, qs, b) && LowestIs(best, qs.asks)
    ensures best == NO_LEVEL <==> !HasOrders(b, Sell)
    ensures best != NO_LEVEL ==> IsBestAsk(b, cfg.minPrice + best)
  {
    hide Shows, QueueHolds;
    forall level | 0 <= level < cfg.LevelCount()
      ensures |qs.asks| == cfg.LevelCount() && (qs.asks[level] != [] <==> exists id :: RestsAt(cfg, b, id, Sell, level))
    {
      OccupiedLevel(cfg, pool, slotOf, qs, b, Sell, level);
    }
    assert |qs.asks| == cfg.LevelCount() by {
      OccupiedLevel(cfg, pool, slotOf, qs, b, Sell, 0);
    }
    forall id | id in b.orders && b.orders[id].side == Sell
      ensures best != NO_LEVEL && b.orders[id].price >= cfg.minPrice + best
    {
      var level := cfg.LevelIndex(b.orders[id].price);
      assert RestsAt(cfg, b, id, Sell, level);
      assert qs.asks[level] != [];
    }
  }

  /** When a level empties, either the best levels stand or the walk can start beside it. */
  lemma EmptiedLevel(bestBid: nat, bestAsk: nat, qs: Queues, side: Side, level: nat, q: seq<nat>)
    requires level < |qs.Of(side)| < NO_LEVEL && qs.Of(side)[level] == [] && q != []
    requires BestIs(bestBid, bestAsk, qs.With(side, level, q))
    ensures if side == Buy then
              && LowestIs(bestAsk, qs.asks)
              && if level == bestBid then forall l :: level <= l < |qs.bids| ==> qs.bids[l] == []
                 else HighestIs(bestBid, qs.bids)
            else
              && HighestIs(bestBid, qs.bids)
              && if level == bestAsk then forall l :: 0 <= l <= level ==> qs.asks[l] == []
                 else LowestIs(bestAsk, qs.asks)
  {
    var full := qs.With(side, level, q);
    assert full.Of(side)[level] == q;
    assert forall l :: 0 <= l < |qs.Of(side)| && l != level ==> full.Of(side)[l] == qs.Of(side)[l];
  }

  /** A level that stays occupied does not move the best levels. */
  lemma StillBest(bestBid: nat, bestAsk: nat, qs: Queues, side: Side, level: nat, q: seq<nat>)
    requires BestIs(bestBid, bestAsk, qs) && level < |qs.Of(side)| && qs.Of(side)[level] != [] && q != []
    ensures BestIs(bestBid, bestAsk, qs.With(side, level, q))
  {
  }
}
