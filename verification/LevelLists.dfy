/** The order pool and the intrusive lists threaded through it: one doubly linked queue per price
    level and side, and one singly linked free list.  Each list is described by the sequence of pool
    slots it visits. */
module LevelLists {
  import opened Market
  import opened BookSpec

  /** Ends a list: the largest 32-bit value, never a slot because a pool has fewer slots. */
  const NULL_ORDER: U32 := 0xFFFF_FFFF

  datatype Order = Order(id: U64, price: int, quantity: U32, next: U32, prev: U32, side: Side)

  datatype Level = Level(totalQuantity: U64, orderCount: U32, head: U32, tail: U32)

  const EMPTY_LEVEL := Level(0, 0, NULL_ORDER, NULL_ORDER)

  /** The slot at position `i` of a list, or the null slot beyond either end. */
  function At(q: seq<nat>, i: int): int {
    if 0 <= i < |q| then q[i] else NULL_ORDER
  }

  ghost predicate InPool(n: nat, q: seq<nat>) {
    forall i :: 0 <= i < |q| ==> q[i] < n
  }

  ghost function Total(pool: seq<Order>, q: seq<nat>): nat
    requires InPool(|pool|, q)
  {
    if q == [] then 0 else Total(pool, q[..|q| - 1]) + pool[q[|q| - 1]].quantity
  }

  ghost function Ids(pool: seq<Order>, q: seq<nat>): (ids: seq<U64>)
    requires InPool(|pool|, q)
    ensures |ids| == |q| && forall i :: 0 <= i < |q| ==> ids[i] == pool[q[i]].id
  {
    seq<U64>(|q|, i requires 0 <= i < |q| => pool[q[i]].id)
  }

  /** The links from `head` to `tail` visit `q`, and back. */
  ghost predicate Linked(pool: seq<Order>, head: int, tail: int, q: seq<nat>) {
    && InPool(|pool|, q) && NoDuplicates(q)
    && head == At(q, 0) && tail == At(q, |q| - 1)
    && forall i {:trigger pool[q[i]]} :: 0 <= i < |q| ==>
         pool[q[i]].next == At(q, i + 1) && pool[q[i]].prev == At(q, i - 1)
  }

  /** The level's list visits `q` and its aggregates are exact. */
  ghost predicate Chain(pool: seq<Order>, lv: Level, q: seq<nat>) {
    && Linked(pool, lv.head, lv.tail, q)
    && lv.orderCount == |q| && lv.totalQuantity == Total(pool, q)
  }

  ghost predicate FreeChain(pool: seq<Order>, head: U32, free: seq<nat>) {
    && InPool(|pool|, free) && NoDuplicates(free)
    && head == At(free, 0)
    && forall i {:trigger pool[free[i]]} :: 0 <= i < |free| ==> pool[free[i]].next == At(free, i + 1)
  }

  /** All orders of a list belong to one side and price. */
  ghost predicate Homed(pool: seq<Order>, q: seq<nat>, side: Side, price: int)
    requires InPool(|pool|, q)
  {
    forall i {:trigger pool[q[i]]} :: 0 <= i < |q| ==> pool[q[i]].side == side && pool[q[i]].price == price
  }

  /** All levels of one side. */
  ghost predicate SideLists(pool: seq<Order>, levels: seq<Level>, qs: seq<seq<nat>>, side: Side, minPrice: int) {
    && |levels| == |qs|
    && forall l :: 0 <= l < |qs| ==> Chain(pool, levels[l], qs[l]) && Homed(pool, qs[l], side, minPrice + l)
  }

  /** The slots of a list hold the same orders in both pools. */
  ghost predicate Agree(pool: seq<Order>, pool': seq<Order>, q: seq<nat>)
    requires InPool(|pool|, q)
  {
    |pool'| == |pool| && forall i {:trigger pool'[q[i]]} :: 0 <= i < |q| ==> pool'[q[i]] == pool[q[i]]
  }

  // ---- Bounds: the aggregates never leave their machine words ----

  /** A list of distinct slots is no longer than the pool. */
  lemma {:induction false} SlotsBound(q: seq<nat>, n: nat)
    requires InPool(n, q) && NoDuplicates(q)
    ensures |q| <= n
  {
    assert q == [] || q[0] < n;
    if n > 0 {
      if n - 1 in q {
        var k :| 0 <= k < |q| && q[k] == n - 1;
        SlotsBound(Cut(q, k), n - 1);
      } else {
        SlotsBound(q, n - 1);
      }
    }
  }

  lemma {:induction false} TotalBound(pool: seq<Order>, q: seq<nat>)
    requires InPool(|pool|, q)
    ensures Total(pool, q) <= |q| * 0xFFFF_FFFF
  {
    if q != [] {
      TotalBound(pool, q[..|q| - 1]);
    }
  }

  /** The quantity resting at a level fits 64 bits even after one more order is added. */
  lemma AggregatesFit(pool: seq<Order>, q: seq<nat>)
    requires InPool(|pool|, q) && NoDuplicates(q) && |pool| < 0x1_0000_0000
    ensures |q| <= |pool|
    ensures Total(pool, q) + 0xFFFF_FFFF < 0x1_0000_0000_0000_0000
  {
    SlotsBound(q, |pool|);
    TotalBound(pool, q);
  }

  // ---- Totals ----

  lemma {:induction false} TotalFrame(pool: seq<Order>, pool': seq<Order>, q: seq<nat>)
    requires |pool| == |pool'| && InPool(|pool|, q)
    requires forall i {:trigger pool'[q[i]]} :: 0 <= i < |q| ==> pool'[q[i]].quantity == pool[q[i]].quantity
    ensures Total(pool', q) == Total(pool, q)
  {
    if q != [] {
      TotalFrame(pool, pool', q[..|q| - 1]);
    }
  }

  lemma {:induction false} TotalWithout(pool: seq<Order>, q: seq<nat>, k: nat)
    requires k < |q| && InPool(|pool|, q)
    ensures InPool(|pool|, Cut(q, k))
    ensures Total(pool, Cut(q, k)) == Total(pool, q) - pool[q[k]].quantity
  {
    var rest := Cut(q, k);
    var last := |q| - 1;
    if k == last {
      assert rest == q[..last];
    } else {
      TotalWithout(pool, q[..last], k);
      assert rest[..|rest| - 1] == Cut(q[..last], k);
    }
  }

  lemma {:induction false} TotalResize(pool: seq<Order>, q: seq<nat>, k: nat, quantity: U32)
    requires InPool(|pool|, q) && NoDuplicates(q) && k < |q|
    ensures Total(pool[q[k] := pool[q[k]].(quantity := quantity)], q) == Total(pool, q) + quantity - pool[q[k]].quantity
  {
    var pool' := pool[q[k] := pool[q[k]].(quantity := quantity)];
    var last := |q| - 1;
    if k == last {
      TotalFrame(pool, pool', q[..last]);
    } else {
      TotalResize(pool, q[..last], k, quantity);
    }
  }

  // ---- One list ----

  lemma ChainFrame(pool: seq<Order>, pool': seq<Order>, lv: Level, q: seq<nat>)
    requires Chain(pool, lv, q) && Agree(pool, pool', q)
    ensures Chain(pool', lv, q)
  {
    TotalFrame(pool, pool', q);
  }

  /** Linking an order behind the tail. */
  lemma ChainPush(pool: seq<Order>, pool': seq<Order>, lv: Level, q: seq<nat>, slot: nat)
    requires Chain(pool, lv, q) && |pool'| == |pool| < 0x1_0000_0000
    requires slot < |pool| && slot !in q
    requires pool'[slot] == pool[slot].(next := NULL_ORDER, prev := lv.tail)
    requires forall i {:trigger pool'[q[i]]} :: 0 <= i < |q| ==>
               pool'[q[i]] == if i == |q| - 1 then pool[q[i]].(next := slot) else pool[q[i]]
    ensures lv.orderCount + 1 < 0x1_0000_0000
    ensures lv.totalQuantity + pool[slot].quantity < 0x1_0000_0000_0000_0000
    ensures Chain(pool', Level(lv.totalQuantity + pool[slot].quantity, lv.orderCount + 1,
                               if q == [] then slot else lv.head, slot), q + [slot])
  {
    AggregatesFit(pool, q);
    SlotsBound(q + [slot], |pool|);
    TotalFrame(pool, pool', q);
    assert (q + [slot])[..|q|] == q;
  }

  /** The pool after the neighbours of position `k` have been joined. */
  ghost predicate Joined(pool: seq<Order>, pool': seq<Order>, q: seq<nat>, k: nat)
    requires InPool(|pool|, q) && k < |q|
  {
    && |pool'| == |pool|
    && forall i {:trigger pool'[q[i]]} :: 0 <= i < |q| && i != k ==>
                     pool'[q[i]] == if i == k - 1 then pool[q[i]].(next := pool[q[k]].next)
                                    else if i == k + 1 then pool[q[i]].(prev := pool[q[k]].prev)
                                    else pool[q[i]]
  }

  lemma CutAt(q: seq<nat>, k: nat, i: int)
    requires k < |q| && -1 <= i < |q|
    ensures At(Cut(q, k), i) == if i < k then At(q, i) else At(q, i + 1)
  {
  }

  /** The links of position `i` once the neighbours of position `k` have been joined. */
  lemma UnlinkAt(pool: seq<Order>, pool': seq<Order>, q: seq<nat>, k: nat, i: nat)
    requires InPool(|pool|, q) && k < |q| && Joined(pool, pool', q, k) && i < |q| - 1
    requires forall i {:trigger pool[q[i]]} :: 0 <= i < |q| ==>
               pool[q[i]].next == At(q, i + 1) && pool[q[i]].prev == At(q, i - 1)
    ensures var o := pool'[Cut(q, k)[i]];
            o.next == At(Cut(q, k), i + 1) && o.prev == At(Cut(q, k), i - 1)
  {
    hide At;
    CutAt(q, k, i + 1);
    CutAt(q, k, i - 1);
    var j := if i < k then i else i + 1;
    assert Cut(q, k)[i] == q[j];
    assert pool[q[j]].next == At(q, j + 1) && pool[q[j]].prev == At(q, j - 1);
    assert pool[q[k]].next == At(q, k + 1) && pool[q[k]].prev == At(q, k - 1);
  }

  lemma UnlinkLinks(pool: seq<Order>, pool': seq<Order>, head: int, tail: int, q: seq<nat>, k: nat)
    requires Linked(pool, head, tail, q) && k < |q| && Joined(pool, pool', q, k)
    ensures Linked(pool', if k == 0 then pool[q[k]].next else head, if k == |q| - 1 then pool[q[k]].prev else tail,
                   Cut(q, k))
  {
    hide Joined, At;
    var rest := Cut(q, k);
    JoinedLength(pool, pool', q, k);
    CutAt(q, k, 0);
    CutAt(q, k, |rest| - 1);
    assert pool[q[k]].next == At(q, k + 1) && pool[q[k]].prev == At(q, k - 1);
    forall i | 0 <= i < |rest|
      ensures pool'[rest[i]].next == At(rest, i + 1) && pool'[rest[i]].prev == At(rest, i - 1)
    {
      UnlinkAt(pool, pool', q, k, i);
    }
  }

  lemma JoinedLength(pool: seq<Order>, pool': seq<Order>, q: seq<nat>, k: nat)
    requires InPool(|pool|, q) && k < |q| && Joined(pool, pool', q, k)
    ensures |pool'| == |pool|
  {
  }

  /** Unlinking the order at position `k`. */
  lemma ChainUnlink(pool: seq<Order>, pool': seq<Order>, lv: Level, q: seq<nat>, k: nat)
    requires Chain(pool, lv, q) && k < |q| && Joined(pool, pool', q, k)
    ensures lv.totalQuantity >= pool[q[k]].quantity
    ensures Chain(pool', Level(lv.totalQuantity - pool[q[k]].quantity, lv.orderCount - 1,
                               if k == 0 then pool[q[k]].next else lv.head,
                               if k == |q| - 1 then pool[q[k]].prev else lv.tail), Cut(q, k))
  {
    TotalWithout(pool, q, k);
    TotalFrame(pool, pool', Cut(q, k));
    UnlinkLinks(pool, pool', lv.head, lv.tail, q, k);
  }

  /** Shrinking an order in place. */
  lemma ChainResize(pool: seq<Order>, lv: Level, q: seq<nat>, k: nat, quantity: U32)
    requires Chain(pool, lv, q) && k < |q| && quantity <= pool[q[k]].quantity
    ensures lv.totalQuantity >= pool[q[k]].quantity - quantity
    ensures Chain(pool[q[k] := pool[q[k]].(quantity := quantity)],
                  lv.(totalQuantity := lv.totalQuantity - (pool[q[k]].quantity - quantity)), q)
  {
    TotalResize(pool, q, k, quantity);
  }

  // ---- All lists of a side ----

  lemma SideFrame(pool: seq<Order>, pool': seq<Order>, levels: seq<Level>, qs: seq<seq<nat>>, side: Side, minPrice: int)
    requires SideLists(pool, levels, qs, side, minPrice)
    requires forall l :: 0 <= l < |qs| ==> Agree(pool, pool', qs[l])
    ensures SideLists(pool', levels, qs, side, minPrice)
  {
    forall l | 0 <= l < |qs| ensures Chain(pool', levels[l], qs[l]) && Homed(pool', qs[l], side, minPrice + l) {
      ChainFrame(pool, pool', levels[l], qs[l]);
    }
  }

  /** Replacing one level's list leaves the others as they were. */
  lemma SideUpdate(pool: seq<Order>, pool': seq<Order>, levels: seq<Level>, qs: seq<seq<nat>>, side: Side,
                   minPrice: int, l: nat, lv: Level, q: seq<nat>)
    requires SideLists(pool, levels, qs, side, minPrice) && l < |qs|
    requires forall m :: 0 <= m < |qs| && m != l ==> Agree(pool, pool', qs[m])
    requires Chain(pool', lv, q) && Homed(pool', q, side, minPrice + l)
    ensures SideLists(pool', levels[l := lv], qs[l := q], side, minPrice)
  {
    forall m | 0 <= m < |qs| && m != l
      ensures Chain(pool', levels[m], qs[m]) && Homed(pool', qs[m], side, minPrice + m)
    {
      ChainFrame(pool, pool', levels[m], qs[m]);
    }
  }

  // ---- The free list ----

  lemma FreeFrame(pool: seq<Order>, pool': seq<Order>, head: U32, free: seq<nat>)
    requires FreeChain(pool, head, free) && Agree(pool, pool', free)
    ensures FreeChain(pool', head, free)
  {
  }

  lemma FreeResized(pool: seq<Order>, head: U32, free: seq<nat>, slot: nat, quantity: U32)
    requires FreeChain(pool, head, free) && slot < |pool| && slot !in free
    ensures FreeChain(pool[slot := pool[slot].(quantity := quantity)], head, free)
  {
  }
}
