/** The benchmark's ring without cached indices, and why the cached one answers the same. */
module Uncached {
  import opened Market
  import opened Spsc
  import Rings

  datatype Plain<T> = Plain(capacity: nat, buffer: seq<T>, writeIdx: U64, readIdx: U64)

  datatype Op<T> = Push(value: T) | Pop

  datatype Answer<T> = Pushed(ok: bool) | Popped(out: Option<T>)

  datatype Outcome<S, T> = Outcome(state: S, answer: Answer<T>)

  /** One operation of the ring that loads the other side's index every time. */
  function PlainDo<T>(p: Plain<T>, op: Op<T>): Outcome<Plain<T>, T>
    requires 0 < p.capacity == |p.buffer|
  {
    match op
    case Push(v) =>
      if LooksFull(p.writeIdx, p.readIdx, p.capacity) then Outcome(p, Pushed(false))
      else Outcome(p.(buffer := p.buffer[Rings.Slot(p.writeIdx, p.capacity) := v], writeIdx := Wrap(p.writeIdx + 1)),
                   Pushed(true))
    case Pop =>
      if p.readIdx == p.writeIdx then Outcome(p, Popped(None))
      else Outcome(p.(readIdx := Wrap(p.readIdx + 1)), Popped(Some(p.buffer[Rings.Slot(p.readIdx, p.capacity)])))
  }

  ghost predicate Idle<T>(s: State<T>) {
    Inv(s) && s.producer.PushIdle? && s.consumer.PopIdle?
  }

  /** One operation of the cached ring, run to its end with loads that return the current index. */
  ghost function CachedDo<T>(s: State<T>, op: Op<T>): (o: Outcome<State<T>, T>)
    requires Idle(s)
    ensures Idle(o.state)
  {
    match op
    case Push(v) =>
      StepInv(s, StartPush(v));
      var a := Apply(s, StartPush(v));
      if a.producer.PushReload? then
        StepInv(a, ReloadRead(a.r));
        var b := Apply(a, ReloadRead(a.r));
        if b.producer.PushIdle? then Outcome(b, Pushed(false)) else Outcome(Publish(b), Pushed(true))
      else Outcome(Publish(a), Pushed(true))
    case Pop =>
      StepInv(s, StartPop);
      var a := Apply(s, StartPop);
      if a.consumer.PopReload? then
        StepInv(a, ReloadWrite(a.w));
        var b := Apply(a, ReloadWrite(a.w));
        if b.consumer.PopIdle? then Outcome(b, Popped(None)) else Take(b)
      else Take(a)
  }

  ghost function Publish<T>(s: State<T>): (t: State<T>)
    requires Inv(s) && s.producer.PushWrite? && s.consumer.PopIdle?
    ensures Idle(t)
  {
    StepInv(s, WriteSlot);
    var a := Apply(s, WriteSlot);
    StepInv(a, PublishWrite);
    Apply(a, PublishWrite)
  }

  ghost function Take<T>(s: State<T>): (o: Outcome<State<T>, T>)
    requires Inv(s) && s.consumer.PopRead? && s.producer.PushIdle?
    ensures Idle(o.state)
  {
    StepInv(s, ReadSlot);
    var a := Apply(s, ReadSlot);
    StepInv(a, PublishRead);
    Outcome(Apply(a, PublishRead), Popped(Some(a.consumer.out)))
  }

  /** The cached ring without its caches. */
  function Uncache<T>(s: State<T>): Plain<T> {
    Plain(s.capacity, s.buffer, s.writeIdx, s.readIdx)
  }

  lemma SameStep<T>(s: State<T>, op: Op<T>)
    requires Idle(s)
    ensures var o := CachedDo(s, op);
            PlainDo(Uncache(s), op) == Outcome(Uncache(o.state), o.answer)
  {
    if op.Push? {
      SamePush(s, op.value);
    } else {
      SamePop(s);
    }
  }

  lemma SamePush<T>(s: State<T>, v: T)
    requires Idle(s)
    ensures var o := CachedDo(s, Push(v));
            PlainDo(Uncache(s), Push(v)) == Outcome(Uncache(o.state), o.answer)
  {
    hide Intact, Owned, IsPow2, Rings.Slot, Wrap, LooksFull;
    FullTest(s.w, s.cr, s.capacity);
    FullTest(s.w, s.r, s.capacity);
  }

  lemma SamePop<T>(s: State<T>)
    requires Idle(s)
    ensures var o := CachedDo(s, Pop);
            PlainDo(Uncache(s), Pop) == Outcome(Uncache(o.state), o.answer)
  {
    hide Intact, Owned, IsPow2, Rings.Slot, Wrap;
    WrappedSame(s.cw, s.r);
    WrappedSame(s.w, s.r);
  }

  ghost function CachedRun<T>(s: State<T>, ops: seq<Op<T>>): seq<Answer<T>>
    requires Idle(s)
    decreases |ops|
  {
    if ops == [] then []
    else
      var o := CachedDo(s, ops[0]);
      [o.answer] + CachedRun(o.state, ops[1..])
  }

  function PlainRun<T>(p: Plain<T>, ops: seq<Op<T>>): seq<Answer<T>>
    requires 0 < p.capacity == |p.buffer|
    decreases |ops|
  {
    if ops == [] then []
    else
      var o := PlainDo(p, ops[0]);
      [o.answer] + PlainRun(o.state, ops[1..])
  }

  /** Caching the other side's index changes no answer, over any sequence of whole operations. */
  lemma {:induction false} SameAnswers<T>(s: State<T>, ops: seq<Op<T>>)
    requires Idle(s)
    ensures CachedRun(s, ops) == PlainRun(Uncache(s), ops)
    decreases |ops|
  {
    hide CachedDo, PlainDo;
    if ops != [] {
      SameStep(s, ops[0]);
      SameAnswers(CachedDo(s, ops[0]).state, ops[1..]);
    }
  }
}
