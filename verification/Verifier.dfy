/** The checker at the end of the merge: it counts damage in the stream it receives. */
module StreamVerifier {
  import opened Merge

  datatype Verdict = Verdict(nextExpected: seq<nat>, received: nat, corrupted: nat, outOfOrder: nat)

  /** The verdict after one more item. */
  function Judge(cfg: Config, v: Verdict, item: Item): Verdict {
    var w := v.(received := v.received + 1);
    if item.producer >= |v.nextExpected| || item.checksum != cfg.checksum(item.producer, item.sequence) then
      w.(corrupted := w.corrupted + 1)
    else
      w.(outOfOrder := w.outOfOrder + (if item.sequence != v.nextExpected[item.producer] then 1 else 0),
         nextExpected := w.nextExpected[item.producer := item.sequence + 1])
  }

  function JudgeAll(cfg: Config, n: nat, items: seq<Item>): (v: Verdict)
    ensures |v.nextExpected| == n
  {
    if items == [] then Verdict(seq(n, _ => 0), 0, 0, 0)
    else Judge(cfg, JudgeAll(cfg, n, items[..|items| - 1]), items[|items| - 1])
  }

  class Verifier {
    const cfg: Config
    const nextExpected: array<nat>
    var received: nat
    var corrupted: nat
    var outOfOrder: nat
    ghost var items: seq<Item>

    ghost predicate Valid()
      reads this, nextExpected
    {
      Verdict(nextExpected[..], received, corrupted, outOfOrder) == JudgeAll(cfg, nextExpected.Length, items)
    }

    constructor (cfg: Config, producers: nat)
      ensures Valid() && items == [] && this.cfg == cfg && nextExpected.Length == producers && fresh(nextExpected)
    {
      this.cfg := cfg;
      nextExpected := new nat[producers](_ => 0);
      received, corrupted, outOfOrder, items := 0, 0, 0, [];
      new;
      assert nextExpected[..] == seq(producers, _ => 0);
    }

    method Check(item: Item)
      requires Valid()
      modifies this, nextExpected
      ensures Valid() && items == old(items) + [item]
    {
      ghost var before := nextExpected[..];
      items := items + [item];
      assert items[..|items| - 1] == old(items);
      received := received + 1;
      if item.producer >= nextExpected.Length || item.checksum != cfg.checksum(item.producer, item.sequence) {
        corrupted := corrupted + 1;
        return;
      }
      if item.sequence != nextExpected[item.producer] {
        outOfOrder := outOfOrder + 1;
      }
      nextExpected[item.producer] := item.sequence + 1;
      assert nextExpected[..] == before[item.producer := nextExpected[item.producer]];
    }
  }

  /** Every item is genuine, and each producer's items run 0, 1, 2, ... without a gap. */
  ghost predicate Clean(cfg: Config, n: nat, items: seq<Item>) {
    && (forall j :: 0 <= j < |items| ==> items[j].producer < n)
    && forall p :: 0 <= p < n ==> Project(items, p) == Items(cfg, p, |Project(items, p)|)
  }

  /** The verdict is exact: it reports no damage if and only if the stream is clean. */
  lemma {:induction false} VerdictExact(cfg: Config, n: nat, items: seq<Item>)
    ensures var v := JudgeAll(cfg, n, items);
            && v.received == |items|
            && (v.corrupted == 0 && v.outOfOrder == 0 <==> Clean(cfg, n, items))
            && (Clean(cfg, n, items) ==> forall p :: 0 <= p < n ==> v.nextExpected[p] == |Project(items, p)|)
  {
    if items != [] {
      var last := |items| - 1;
      var rest, item := items[..last], items[last];
      VerdictExact(cfg, n, rest);
      CleanStep(cfg, n, rest, item);
      assert items == rest + [item];
      if Clean(cfg, n, items) {
        forall p | 0 <= p < n ensures JudgeAll(cfg, n, items).nextExpected[p] == |Project(items, p)| {
          ProjectAppend(rest, item, p);
        }
      }
    }
  }

  // ---- What each counter counts ----

  predicate Genuine(cfg: Config, n: nat, item: Item) {
    item.producer < n && item.checksum == cfg.checksum(item.producer, item.sequence)
  }

  /** One more than the number of producer `p`'s last genuine item, or 0 before the first. */
  function Due(cfg: Config, n: nat, items: seq<Item>, p: nat): nat {
    if items == [] then 0
    else
      var item := items[|items| - 1];
      if Genuine(cfg, n, item) && item.producer == p then item.sequence + 1
      else Due(cfg, n, items[..|items| - 1], p)
  }

  /** The item is genuine but not the one due from its producer. */
  predicate Misplaced(cfg: Config, n: nat, before: seq<Item>, item: Item) {
    Genuine(cfg, n, item) && item.sequence != Due(cfg, n, before, item.producer)
  }

  ghost function Forged(cfg: Config, n: nat, items: seq<Item>): set<int> {
    set i | 0 <= i < |items| && !Genuine(cfg, n, items[i])
  }

  ghost function OffOrder(cfg: Config, n: nat, items: seq<Item>): set<int> {
    set i | 0 <= i < |items| && Misplaced(cfg, n, items[..i], items[i])
  }

  lemma ForgedStep(cfg: Config, n: nat, rest: seq<Item>, item: Item)
    ensures |Forged(cfg, n, rest + [item])| == |Forged(cfg, n, rest)| + if Genuine(cfg, n, item) then 0 else 1
  {
    hide Genuine;
    var items := rest + [item];
    assert Forged(cfg, n, items) == Forged(cfg, n, rest) + if Genuine(cfg, n, item) then {} else {|rest|};
  }

  lemma OffOrderStep(cfg: Config, n: nat, rest: seq<Item>, item: Item)
    ensures |OffOrder(cfg, n, rest + [item])|
         == |OffOrder(cfg, n, rest)| + if Misplaced(cfg, n, rest, item) then 1 else 0
  {
    hide Misplaced;
    var items := rest + [item];
    assert items[..|rest|] == rest && forall i :: 0 <= i < |rest| ==> rest[i] == items[i] && rest[..i] == items[..i];
    assert OffOrder(cfg, n, items) == OffOrder(cfg, n, rest) + if Misplaced(cfg, n, rest, item) then {|rest|} else {};
  }

  /** `corrupted` counts the items that are not genuine and `outOfOrder` the misplaced ones, each once: a gap raises it
      by one however long it is, and an item that is not genuine moves nothing. */
  lemma {:induction false} VerdictCounts(cfg: Config, n: nat, items: seq<Item>)
    ensures var v := JudgeAll(cfg, n, items);
            && v.received == |items|
            && v.corrupted == |Forged(cfg, n, items)|
            && v.outOfOrder == |OffOrder(cfg, n, items)|
            && forall p :: 0 <= p < n ==> v.nextExpected[p] == Due(cfg, n, items, p)
  {
    hide Forged, OffOrder;
    if items == [] {
      NoDamage(cfg, n);
    } else {
      var last := |items| - 1;
      var rest, item := items[..last], items[last];
      VerdictCounts(cfg, n, rest);
      ForgedStep(cfg, n, rest, item);
      OffOrderStep(cfg, n, rest, item);
      assert rest + [item] == items;
    }
  }

  lemma NoDamage(cfg: Config, n: nat)
    ensures Forged(cfg, n, []) == {} && OffOrder(cfg, n, []) == {}
  {
  }

  lemma CleanStep(cfg: Config, n: nat, rest: seq<Item>, item: Item)
    ensures Clean(cfg, n, rest + [item]) <==>
            && Clean(cfg, n, rest) && item.producer < n
            && item == cfg.ItemOf(item.producer, |Project(rest, item.producer)|)
  {
    var items := rest + [item];
    forall p ensures Project(items, p) == Project(rest, p) + (if item.producer == p then [item] else []) {
      ProjectAppend(rest, item, p);
    }
    var q := item.producer;
    var k := |Project(rest, q)|;
    assert Items(cfg, q, k + 1) == Items(cfg, q, k) + [cfg.ItemOf(q, k)];
    assert items[|rest|] == item && forall j :: 0 <= j < |rest| ==> items[j] == rest[j];
    if Clean(cfg, n, items) {
      forall p | 0 <= p < n ensures Project(rest, p) == Items(cfg, p, |Project(rest, p)|) {
        assert Project(items, p) == Items(cfg, p, |Project(items, p)|);
      }
    }
  }

  /** A run of the merge with no abandoned push is judged clean. */
  lemma MergeJudgedClean(cfg: Config, n: nat, steps: seq<Step>, t: State)
    requires Reachable(cfg, n, steps, t)
    requires t.stalledOut == 0 && forall q :: 0 <= q < |t.producers| ==> t.producers[q].stalled == 0
    ensures t.downstream.taken <= |t.downstream.sent|
    ensures var v := JudgeAll(cfg, n, t.downstream.Received());
            v.received == |t.downstream.Received()| && v.corrupted == 0 && v.outOfOrder == 0
  {
    InitialInv(cfg, n);
    RunInv(cfg, Initial(n), steps, t);
    var items := t.downstream.Received();
    assert items <= t.merged;
    forall p | 0 <= p < n ensures Project(items, p) == Items(cfg, p, |Project(items, p)|) {
      StreamIntact(cfg, n, steps, t, p);
    }
    VerdictExact(cfg, n, items);
  }
}
