/** Many producers, one queue each, merged by one sequencer thread into one downstream queue.  Every thread
    moves by its own steps; loads of counters and flags may be stale. */
module Merge {
  import opened Channels

  datatype Item = Item(producer: nat, sequence: nat, checksum: nat)

  datatype Config = Config(perProducer: nat, checksum: (nat, nat) -> nat) {
    function ItemOf(p: nat, i: nat): Item {
      Item(p, i, checksum(p, i))
    }
  }

  datatype Producer = Producer(next: nat, stalled: nat, finished: bool)

  /** The sequencer: trying queue `i` of a pass, holding an item for downstream, about to load the finished
      count, checking queue `i` for emptiness, or returned. */
  datatype Sequencer =
    | Passing(i: nat, moved: bool)
    | Holding(item: Item, i: nat)
    | AtFinished
    | Draining(i: nat)
    | Returned

  datatype Consumer = Popping | AtDone | AtEmpty | Exited

  /** `merged` records what the sequencer has taken from its queues; no step looks at it. */
  datatype State = State(
    producers: seq<Producer>, inbound: seq<Channel<Item>>, sequencer: Sequencer,
    downstream: Channel<Item>, sequencerDone: bool, consumer: Consumer, stalledOut: nat, merged: seq<Item>)

  datatype Step =
    | Push(p: nat)
    | StallIn(p: nat)
    | Finish(p: nat)
    | PopInbound(seen: nat)
    | EndPass
    | PushDownstream
    | StallOut
    | LoadFinished(all: bool)
    | CheckInbound(seen: nat)
    | EndDrain
    | PopDownstream(seen: nat)
    | LoadDone(yes: bool)
    | CheckDownstream(seen: nat)

  function Initial(n: nat): State {
    State(seq(n, _ => Producer(0, 0, false)), seq(n, _ => EmptyChannel()), Passing(0, false),
          EmptyChannel(), false, Popping, 0, [])
  }

  predicate Loads(c: Channel<Item>, seen: nat) {
    c.seen <= seen <= |c.sent|
  }

  predicate AllFinished(s: State) {
    forall p :: 0 <= p < |s.producers| ==> s.producers[p].finished
  }

  predicate Enabled(cfg: Config, s: State, step: Step) {
    match step
    case Push(p) => p < |s.producers| && s.producers[p].next < cfg.perProducer
    case StallIn(p) => p < |s.producers| && s.producers[p].next < cfg.perProducer
    case Finish(p) => p < |s.producers| && s.producers[p].next == cfg.perProducer
    case PopInbound(seen) =>
      s.sequencer.Passing? && s.sequencer.i < |s.inbound| && Loads(s.inbound[s.sequencer.i], seen)
    case EndPass => s.sequencer.Passing? && s.sequencer.i == |s.inbound|
    case PushDownstream => s.sequencer.Holding?
    case StallOut => s.sequencer.Holding?
    case LoadFinished(all) => s.sequencer.AtFinished? && (all ==> AllFinished(s))
    case CheckInbound(seen) =>
      s.sequencer.Draining? && s.sequencer.i < |s.inbound| && Loads(s.inbound[s.sequencer.i], seen)
    case EndDrain => s.sequencer.Draining? && s.sequencer.i == |s.inbound|
    case PopDownstream(seen) => s.consumer.Popping? && Loads(s.downstream, seen)
    case LoadDone(yes) => s.consumer.AtDone? && (yes ==> s.sequencerDone)
    case CheckDownstream(seen) => s.consumer.AtEmpty? && Loads(s.downstream, seen)
  }

  /** After an acquire load has seen a flag its writer set last, everything that writer sent is visible. */
  function AllSeen(c: Channel<Item>): Channel<Item> {
    c.(seen := |c.sent|)
  }

  ghost predicate WellSized(s: State) {
    && |s.inbound| == |s.producers|
    && (forall p :: 0 <= p < |s.inbound| ==> s.inbound[p].Valid())
    && s.downstream.Valid()
  }

  function Apply(cfg: Config, s: State, step: Step): State
    requires WellSized(s) && Enabled(cfg, s, step)
  {
    match step
    case Push(p) =>
      var c := s.inbound[p];
      s.(inbound := s.inbound[p := c.(sent := c.sent + [cfg.ItemOf(p, s.producers[p].next)])],
         producers := s.producers[p := s.producers[p].(next := s.producers[p].next + 1)])
    case StallIn(p) =>
      var q := s.producers[p];
      s.(producers := s.producers[p := q.(next := q.next + 1, stalled := q.stalled + 1)])
    case Finish(p) =>
      s.(producers := s.producers[p := s.producers[p].(finished := true)])
    case PopInbound(seen) =>
      var i := s.sequencer.i;
      var c := s.inbound[i];
      if c.taken == seen then
        s.(inbound := s.inbound[i := c.(seen := seen)], sequencer := Passing(i + 1, s.sequencer.moved))
      else
        s.(inbound := s.inbound[i := c.(seen := seen, taken := c.taken + 1)], sequencer := Holding(c.sent[c.taken], i),
           merged := s.merged + [c.sent[c.taken]])
    case EndPass =>
      s.(sequencer := if s.sequencer.moved then Passing(0, false) else AtFinished)
    case PushDownstream =>
      s.(downstream := s.downstream.(sent := s.downstream.sent + [s.sequencer.item]),
         sequencer := Passing(s.sequencer.i + 1, true))
    case StallOut =>
      s.(stalledOut := s.stalledOut + 1, sequencer := Passing(s.sequencer.i + 1, true))
    case LoadFinished(all) =>
      if all then
        s.(inbound := seq(|s.inbound|, p requires 0 <= p < |s.inbound| => AllSeen(s.inbound[p])),
           sequencer := Draining(0))
      else s.(sequencer := Passing(0, false))
    case CheckInbound(seen) =>
      var i := s.sequencer.i;
      s.(inbound := s.inbound[i := s.inbound[i].(seen := seen)],
         sequencer := if s.inbound[i].taken == seen then Draining(i + 1) else Passing(0, false))
    case EndDrain =>
      s.(sequencer := Returned, sequencerDone := true)
    case PopDownstream(seen) =>
      var c := s.downstream;
      if c.taken == seen then s.(downstream := c.(seen := seen), consumer := AtDone)
      else s.(downstream := c.(seen := seen, taken := c.taken + 1))
    case LoadDone(yes) =>
      if yes then s.(downstream := AllSeen(s.downstream), consumer := AtEmpty) else s.(consumer := Popping)
    case CheckDownstream(seen) =>
      s.(downstream := s.downstream.(seen := seen), consumer := if s.downstream.taken == seen then Exited else Popping)
  }

  // ---- Per-producer streams ----

  /** The items of producer `p`, in order. */
  function Project(items: seq<Item>, p: nat): seq<Item> {
    if items == [] then []
    else
      var rest := Project(items[..|items| - 1], p);
      if items[|items| - 1].producer == p then rest + [items[|items| - 1]] else rest
  }

  /** The first `n` items of producer `p`. */
  function Items(cfg: Config, p: nat, n: nat): seq<Item> {
    seq(n, (i: nat) => cfg.ItemOf(p, i))
  }

  lemma ProjectAppend(items: seq<Item>, item: Item, p: nat)
    ensures Project(items + [item], p) == Project(items, p) + (if item.producer == p then [item] else [])
  {
    assert (items + [item])[..|items|] == items;
  }

  function Held(s: State): seq<Item> {
    if s.sequencer.Holding? then [s.sequencer.item] else []
  }

  // ---- What every step keeps ----

  /** A producer's queue holds its own items; none is missing unless it stalled. */
  ghost predicate ProducerOk(cfg: Config, q: Producer, c: Channel<Item>, p: nat) {
    && c.Valid()
    && q.next <= cfg.perProducer
    && (q.finished ==> q.next == cfg.perProducer)
    && |c.sent| + q.stalled == q.next
    && (forall j :: 0 <= j < |c.sent| ==> c.sent[j].producer == p)
    && (q.stalled == 0 ==> c.sent == Items(cfg, p, q.next))
  }

  ghost predicate ProducersOk(cfg: Config, s: State) {
    && |s.inbound| == |s.producers|
    && forall p :: 0 <= p < |s.producers| ==> ProducerOk(cfg, s.producers[p], s.inbound[p], p)
  }

  /** What was merged is, for each producer, what was taken from its queue; it is what went downstream, what
      is in hand and what was dropped. */
  ghost predicate MergedOk(s: State) {
    && s.downstream.Valid()
    && (forall p :: 0 <= p < |s.inbound| ==> s.inbound[p].Valid() && Project(s.merged, p) == s.inbound[p].Received())
    && (forall j :: 0 <= j < |s.merged| ==> s.merged[j].producer < |s.inbound|)
    && |s.merged| == |s.downstream.sent| + |Held(s)| + s.stalledOut
    && (s.stalledOut == 0 ==> s.merged == s.downstream.sent + Held(s))
  }

  /** The queues before `i` are empty for good. */
  ghost predicate EmptyForGood(s: State, i: nat)
    requires i <= |s.inbound|
  {
    forall p :: 0 <= p < i ==> s.inbound[p].taken == |s.inbound[p].sent|
  }

  /** The exit tests never miss an item in flight. */
  ghost predicate ExitsOk(cfg: Config, s: State)
    requires |s.inbound| == |s.producers|
  {
    && (s.sequencer.Passing? || s.sequencer.Draining? ==> s.sequencer.i <= |s.inbound|)
    && (s.sequencer.Holding? ==> s.sequencer.i < |s.inbound|)
    && (s.sequencer.Draining? || s.sequencer.Returned? ==>
          && (forall p :: 0 <= p < |s.producers| ==> s.producers[p].next == cfg.perProducer)
          && forall p :: 0 <= p < |s.inbound| ==> s.inbound[p].seen == |s.inbound[p].sent|)
    && (s.sequencer.Draining? ==> EmptyForGood(s, s.sequencer.i))
    && (s.sequencer.Returned? ==> EmptyForGood(s, |s.inbound|))
    && (s.sequencerDone <==> s.sequencer.Returned?)
    && (s.consumer.AtEmpty? || s.consumer.Exited? ==> s.sequencerDone && s.downstream.seen == |s.downstream.sent|)
    && (s.consumer.Exited? ==> s.downstream.taken == |s.downstream.sent|)
  }

  ghost predicate Inv(cfg: Config, s: State) {
    ProducersOk(cfg, s) && MergedOk(s) && ExitsOk(cfg, s)
  }

  lemma InvSized(cfg: Config, s: State)
    requires Inv(cfg, s)
    ensures WellSized(s)
  {
  }

  lemma InitialInv(cfg: Config, n: nat)
    ensures Inv(cfg, Initial(n))
  {
  }

  lemma StepProducers(cfg: Config, s: State, step: Step)
    requires Inv(cfg, s) && Enabled(cfg, s, step)
    ensures ProducersOk(cfg, Apply(cfg, s, step))
  {
    hide MergedOk, ExitsOk, Project;
    InvSized(cfg, s);
    if step.Push? {
      var q := s.producers[step.p];
      assert Items(cfg, step.p, q.next + 1) == Items(cfg, step.p, q.next) + [cfg.ItemOf(step.p, q.next)];
    }
  }

  lemma PopMerged(cfg: Config, s: State, step: Step)
    requires Inv(cfg, s) && Enabled(cfg, s, step) && step.PopInbound? && s.inbound[s.sequencer.i].taken != step.seen
    ensures MergedOk(Apply(cfg, s, step))
  {
    hide Items, ExitsOk;
    InvSized(cfg, s);
    var t, i := Apply(cfg, s, step), s.sequencer.i;
    var c := s.inbound[i];
    var item := c.sent[c.taken];
    assert ProducerOk(cfg, s.producers[i], c, i);
    assert c.sent[..c.taken + 1] == c.sent[..c.taken] + [item];
    forall p | 0 <= p < |s.inbound| ensures t.inbound[p].Valid() && Project(t.merged, p) == t.inbound[p].Received() {
      assert Project(s.merged, p) == s.inbound[p].Received();
      ProjectAppend(s.merged, item, p);
    }
  }

  lemma StepMerged(cfg: Config, s: State, step: Step)
    requires Inv(cfg, s) && Enabled(cfg, s, step)
    ensures MergedOk(Apply(cfg, s, step))
  {
    hide ProducersOk, Project, ExitsOk;
    InvSized(cfg, s);
    if step.PopInbound? && s.inbound[s.sequencer.i].taken != step.seen {
      PopMerged(cfg, s, step);
    } else {
      var t := Apply(cfg, s, step);
      forall p | 0 <= p < |s.inbound| ensures t.inbound[p].Valid() && Project(t.merged, p) == t.inbound[p].Received() {
        assert s.inbound[p].Valid() && Project(s.merged, p) == s.inbound[p].Received();
      }
    }
  }

  lemma StepExits(cfg: Config, s: State, step: Step)
    requires Inv(cfg, s) && Enabled(cfg, s, step)
    ensures ExitsOk(cfg, Apply(cfg, s, step))
  {
    hide MergedOk, Project, Items;
    InvSized(cfg, s);
    if step.LoadFinished? && step.all {
      forall p | 0 <= p < |s.producers| ensures s.producers[p].next == cfg.perProducer {
        assert ProducerOk(cfg, s.producers[p], s.inbound[p], p);
      }
    } else if step.Push? || step.StallIn? {
      assert ProducerOk(cfg, s.producers[step.p], s.inbound[step.p], step.p);
    }
  }

  lemma StepInv(cfg: Config, s: State, step: Step)
    requires Inv(cfg, s) && Enabled(cfg, s, step)
    ensures Inv(cfg, Apply(cfg, s, step))
  {
    StepProducers(cfg, s, step);
    StepMerged(cfg, s, step);
    StepExits(cfg, s, step);
  }

  // ---- Whole runs ----

  ghost predicate Leads(cfg: Config, s: State, steps: seq<Step>, t: State)
    requires Inv(cfg, s)
    decreases |steps|
  {
    InvSized(cfg, s);
    if steps == [] then t == s
    else
      Enabled(cfg, s, steps[0]) &&
      (StepInv(cfg, s, steps[0]);
       Leads(cfg, Apply(cfg, s, steps[0]), steps[1..], t))
  }

  lemma {:induction false} RunInv(cfg: Config, s: State, steps: seq<Step>, t: State)
    requires Inv(cfg, s) && Leads(cfg, s, steps, t)
    ensures Inv(cfg, t) && |t.producers| == |s.producers|
    decreases |steps|
  {
    if steps != [] {
      StepInv(cfg, s, steps[0]);
      RunInv(cfg, Apply(cfg, s, steps[0]), steps[1..], t);
    }
  }

  /** `t` is reached from the start by some schedule of `n` producers, the sequencer and the consumer. */
  ghost predicate Reachable(cfg: Config, n: nat, steps: seq<Step>, t: State) {
    InitialInv(cfg, n);
    Leads(cfg, Initial(n), steps, t)
  }

  ghost predicate AllExited(s: State) {
    AllFinished(s) && s.sequencer.Returned? && s.consumer.Exited?
  }

  function StalledIn(producers: seq<Producer>): nat {
    if producers == [] then 0 else StalledIn(producers[..|producers| - 1]) + producers[|producers| - 1].stalled
  }

  /** Sum of the lengths of the first `n` projections. */
  function Projected(items: seq<Item>, n: nat): nat {
    if n == 0 then 0 else Projected(items, n - 1) + |Project(items, n - 1)|
  }

  lemma {:induction false} ProjectedAppend(items: seq<Item>, item: Item, n: nat)
    ensures Projected(items + [item], n) == Projected(items, n) + if item.producer < n then 1 else 0
  {
    if n > 0 {
      ProjectedAppend(items, item, n - 1);
      ProjectAppend(items, item, n - 1);
    }
  }

  /** The projections partition a stream. */
  lemma {:induction false} ProjectedAll(items: seq<Item>, n: nat)
    requires forall j :: 0 <= j < |items| ==> items[j].producer < n
    ensures Projected(items, n) == |items|
  {
    if items == [] {
      ProjectedNone(n);
    } else {
      var last := |items| - 1;
      ProjectedAll(items[..last], n);
      ProjectedAppend(items[..last], items[last], n);
      assert items == items[..last] + [items[last]];
    }
  }

  lemma {:induction false} ProjectedNone(n: nat)
    ensures Projected([], n) == 0
  {
    if n > 0 {
      ProjectedNone(n - 1);
    }
  }

  /** If every producer's items are all taken, what was merged and what stalled make up what was to be sent. */
  lemma {:induction false} TakenCounts(cfg: Config, s: State, n: nat)
    requires Inv(cfg, s) && n <= |s.producers|
    requires forall p :: 0 <= p < n ==> s.producers[p].next == cfg.perProducer
    requires EmptyForGood(s, n)
    ensures Projected(s.merged, n) + StalledIn(s.producers[..n]) == n * cfg.perProducer
  {
    if n > 0 {
      TakenCounts(cfg, s, n - 1);
      assert ProducerOk(cfg, s.producers[n - 1], s.inbound[n - 1], n - 1);
      assert Project(s.merged, n - 1) == s.inbound[n - 1].Received();
      assert s.producers[..n][..n - 1] == s.producers[..n - 1];
      assert n * cfg.perProducer == (n - 1) * cfg.perProducer + cfg.perProducer;
    }
  }

  /** Conservation: when all threads have exited, every item was received or its push was abandoned. */
  lemma NothingLost(cfg: Config, n: nat, steps: seq<Step>, t: State)
    requires Reachable(cfg, n, steps, t) && AllExited(t)
    ensures t.downstream.taken <= |t.downstream.sent|
    ensures |t.downstream.Received()| + StalledIn(t.producers) + t.stalledOut == n * cfg.perProducer
  {
    InitialInv(cfg, n);
    RunInv(cfg, Initial(n), steps, t);
    TakenCounts(cfg, t, n);
    ProjectedAll(t.merged, n);
    assert t.producers[..n] == t.producers;
  }

  /** With no abandoned push, each producer's part of what has been received is a prefix of what it sent; once
      all threads have exited it is everything it sent, in order. */
  lemma StreamIntact(cfg: Config, n: nat, steps: seq<Step>, t: State, p: nat)
    requires Reachable(cfg, n, steps, t) && p < n
    requires t.stalledOut == 0 && forall q :: 0 <= q < |t.producers| ==> t.producers[q].stalled == 0
    ensures t.downstream.taken <= |t.downstream.sent|
    ensures Project(t.downstream.Received(), p) <= Items(cfg, p, cfg.perProducer)
    ensures AllExited(t) ==> Project(t.downstream.Received(), p) == Items(cfg, p, cfg.perProducer)
  {
    InitialInv(cfg, n);
    RunInv(cfg, Initial(n), steps, t);
    var c := t.inbound[p];
    assert ProducerOk(cfg, t.producers[p], c, p);
    assert t.merged == t.downstream.sent + Held(t);
    assert t.downstream.Received() <= t.merged;
    ProjectPrefix(t.downstream.Received(), t.merged, p);
    assert Project(t.merged, p) == c.Received();
    assert Items(cfg, p, t.producers[p].next) <= Items(cfg, p, cfg.perProducer);
    if AllExited(t) {
      assert t.downstream.Received() == t.merged;
    }
  }

  lemma {:induction false} ProjectPrefix(a: seq<Item>, b: seq<Item>, p: nat)
    requires a <= b
    ensures Project(a, p) <= Project(b, p)
  {
    if |a| < |b| {
      ProjectPrefix(a, b[..|b| - 1], p);
    } else {
      assert a == b;
    }
  }
}
