/** The single-producer single-consumer ring buffer, step by step.  The producer and the consumer each run
    their own load, test, copy and publish steps, interleaved in any order; an acquire load of the
    other side's index may return any value between the last one seen and the current one. */
module Spsc {
  import opened Market
  import opened Channels
  import Rings

  /** Where the producer is in `try_push(value)`. */
  datatype Producer<T> = PushIdle | PushReload(value: T) | PushWrite(value: T) | PushPublish(value: T)

  /** Where the consumer is in `try_pop(out)`; `empty()` is a single load between two pops. */
  datatype Consumer<T> = PopIdle | PopReload | PopRead | PopPublish(out: T)

  /** The indices are 64-bit words that wrap.  `w`, `r`, `cr` and `cw` count the same events without
      wrapping, `sw` is the latest write count the consumer has seen by any load, and `pushed` and `popped` record
      the values; no step's effect depends on them. */
  datatype State<T> = State(
    capacity: nat, buffer: seq<T>,
    writeIdx: U64, readIdx: U64, cachedReadIdx: U64, cachedWriteIdx: U64,
    producer: Producer<T>, consumer: Consumer<T>,
    w: nat, r: nat, cr: nat, cw: nat, sw: nat, pushed: seq<T>, popped: seq<T>)

  datatype Step<T> =
    | StartPush(value: T)
    | ReloadRead(seen: nat)
    | Scribble(junk: T)
    | WriteSlot
    | PublishWrite
    | StartPop
    | ReloadWrite(seen: nat)
    | ReadSlot
    | PublishRead
    | LoadEmpty(seen: nat)
    | SeeFlag(seen: nat)

  function Wrap(k: int): U64 {
    k % WORD
  }

  function Initial<T>(capacity: nat, buffer: seq<T>): State<T> {
    State(capacity, buffer, 0, 0, 0, 0, PushIdle, PopIdle, 0, 0, 0, 0, 0, [], [])
  }

  predicate Enabled<T>(s: State<T>, step: Step<T>) {
    match step
    case StartPush(_) => s.producer.PushIdle?
    case ReloadRead(seen) => s.producer.PushReload? && s.cr <= seen <= s.r
    case Scribble(_) => s.producer.PushWrite?
    case WriteSlot => s.producer.PushWrite?
    case PublishWrite => s.producer.PushPublish?
    case StartPop => s.consumer.PopIdle?
    case ReloadWrite(seen) => s.consumer.PopReload? && s.sw <= seen <= s.w
    case ReadSlot => s.consumer.PopRead?
    case PublishRead => s.consumer.PopPublish?
    case LoadEmpty(seen) => s.consumer.PopIdle? && s.sw <= seen <= s.w
    case SeeFlag(seen) => s.consumer.PopIdle? && s.sw <= seen <= s.w
  }

  /** The ring looks full: the test of `try_push` on machine words. */
  predicate LooksFull(writeIdx: U64, cachedReadIdx: U64, capacity: nat) {
    Wrap(writeIdx - cachedReadIdx) >= capacity
  }

  /** What `empty()` answers the consumer when its load of the write index returns `seen`. */
  predicate SaysEmpty(readIdx: U64, seen: nat) {
    readIdx == Wrap(seen)
  }

  function Apply<T>(s: State<T>, step: Step<T>): State<T>
    requires 0 < s.capacity == |s.buffer| && Enabled(s, step)
  {
    match step
    case StartPush(v) =>
      s.(producer := if LooksFull(s.writeIdx, s.cachedReadIdx, s.capacity) then PushReload(v) else PushWrite(v))
    case ReloadRead(seen) =>
      s.(cachedReadIdx := Wrap(seen), cr := seen,
         producer := if LooksFull(s.writeIdx, Wrap(seen), s.capacity) then PushIdle else PushWrite(s.producer.value))
    case Scribble(junk) =>
      s.(buffer := s.buffer[Rings.Slot(s.writeIdx, s.capacity) := junk])
    case WriteSlot =>
      s.(buffer := s.buffer[Rings.Slot(s.writeIdx, s.capacity) := s.producer.value],
         producer := PushPublish(s.producer.value))
    case PublishWrite =>
      s.(writeIdx := Wrap(s.writeIdx + 1), w := s.w + 1, pushed := s.pushed + [s.producer.value], producer := PushIdle)
    case StartPop =>
      s.(consumer := if s.readIdx == s.cachedWriteIdx then PopReload else PopRead)
    case ReloadWrite(seen) =>
      s.(cachedWriteIdx := Wrap(seen), cw := seen, sw := seen,
         consumer := if s.readIdx == Wrap(seen) then PopIdle else PopRead)
    case ReadSlot =>
      s.(consumer := PopPublish(s.buffer[Rings.Slot(s.readIdx, s.capacity)]))
    case PublishRead =>
      s.(readIdx := Wrap(s.readIdx + 1), r := s.r + 1, popped := s.popped + [s.consumer.out], consumer := PopIdle)
    // The load in `empty()`, and an acquire load of a flag that the producer raised, leave the cached index alone.
    case LoadEmpty(seen) => s.(sw := seen)
    case SeeFlag(seen) => s.(sw := seen)
  }

  // ---- What every step keeps ----

  /** The words are the counters modulo 2^64, and the counters are in order. */
  ghost predicate Counted<T>(s: State<T>) {
    && IsPow2(s.capacity) && s.capacity < WORD && |s.buffer| == s.capacity
    && s.writeIdx == Wrap(s.w) && s.readIdx == Wrap(s.r)
    && s.cachedReadIdx == Wrap(s.cr) && s.cachedWriteIdx == Wrap(s.cw)
    && s.cr <= s.r <= s.cw <= s.sw <= s.w <= s.cr + s.capacity
  }

  /** Published values that are not popped yet are intact in their slots; popped values are the first ones pushed. */
  ghost predicate Intact<T>(s: State<T>)
    requires Counted(s)
  {
    && |s.pushed| == s.w && s.popped == s.pushed[..s.r]
    && forall k :: s.r <= k < s.w ==> s.buffer[Rings.Slot(k, s.capacity)] == s.pushed[k]
  }

  /** What each thread may rely on between its steps. */
  ghost predicate Owned<T>(s: State<T>)
    requires Counted(s) && |s.pushed| == s.w
  {
    && (s.producer.PushWrite? || s.producer.PushPublish? ==> s.w < s.cr + s.capacity)
    && (s.producer.PushPublish? ==> s.buffer[Rings.Slot(s.w, s.capacity)] == s.producer.value)
    && (s.consumer.PopRead? || s.consumer.PopPublish? ==> s.r < s.cw)
    && (s.consumer.PopPublish? ==> s.consumer.out == s.pushed[s.r])
  }

  ghost predicate Inv<T>(s: State<T>) {
    Counted(s) && Intact(s) && Owned(s)
  }

  lemma InitialInv<T>(capacity: nat, buffer: seq<T>)
    requires IsPow2(capacity) && capacity < WORD && |buffer| == capacity
    ensures Inv(Initial(capacity, buffer))
  {
  }

  /** The wrapped full test is the true one. */
  lemma FullTest(w: nat, cr: nat, capacity: nat)
    requires capacity < WORD && cr <= w <= cr + capacity
    ensures LooksFull(Wrap(w), Wrap(cr), capacity) <==> w == cr + capacity
  {
    Rings.WrappedDistance(w, cr);
  }

  lemma NextWord(k: nat)
    ensures Wrap(Wrap(k) + 1) == Wrap(k + 1)
  {
  }

  lemma WrappedSame(a: nat, b: nat)
    requires b <= a < b + WORD
    ensures Wrap(a) == Wrap(b) <==> a == b
  {
    Rings.WrappedEqual(a, b);
  }

  /** A write to the slot after the newest value touches no value still to be popped. */
  lemma WriteApart<T>(s: State<T>, v: T)
    requires Counted(s) && Intact(s) && s.w < s.cr + s.capacity
    ensures Rings.Slot(s.writeIdx, s.capacity) == Rings.Slot(s.w, s.capacity)
    ensures Intact(s.(buffer := s.buffer[Rings.Slot(s.writeIdx, s.capacity) := v]))
  {
    Rings.WrappedSlot(s.w, s.capacity);
    forall k | s.r <= k < s.w
      ensures s.buffer[Rings.Slot(s.w, s.capacity) := v][Rings.Slot(k, s.capacity)] == s.pushed[k]
    {
      Rings.DistinctSlots(k, s.w, s.capacity);
    }
  }

  /** Every step of either thread keeps the invariant, whatever the acquire loads return. */
  lemma StepInv<T>(s: State<T>, step: Step<T>)
    requires Inv(s) && Enabled(s, step)
    ensures Inv(Apply(s, step))
  {
    hide Inv;
    if step.StartPush? || step.ReloadRead? || step.Scribble? || step.WriteSlot? || step.PublishWrite? {
      ProducerInv(s, step);
    } else {
      ConsumerInv(s, step);
    }
  }

  lemma ProducerInv<T>(s: State<T>, step: Step<T>)
    requires Inv(s) && Enabled(s, step)
    requires step.StartPush? || step.ReloadRead? || step.Scribble? || step.WriteSlot? || step.PublishWrite?
    ensures Inv(Apply(s, step))
  {
    hide IsPow2, Rings.Slot, Wrap, LooksFull;
    match step
    case StartPush(v) =>
      FullTest(s.w, s.cr, s.capacity);
    case ReloadRead(seen) =>
      FullTest(s.w, seen, s.capacity);
    case Scribble(junk) =>
      WriteApart(s, junk);
    case WriteSlot =>
      WriteApart(s, s.producer.value);
    case PublishWrite =>
      NextWord(s.w);
  }

  lemma ConsumerInv<T>(s: State<T>, step: Step<T>)
    requires Inv(s) && Enabled(s, step)
    requires step.StartPop? || step.ReloadWrite? || step.ReadSlot? || step.PublishRead? || step.LoadEmpty?
             || step.SeeFlag?
    ensures Inv(Apply(s, step))
  {
    hide IsPow2, Rings.Slot, Wrap;
    match step
    case StartPop =>
      WrappedSame(s.cw, s.r);
    case ReloadWrite(seen) =>
      WrappedSame(seen, s.r);
    case ReadSlot =>
      ReadIntact(s);
    case PublishRead =>
      NextWord(s.r);
    case LoadEmpty(_) =>
    case SeeFlag(_) =>
  }

  /** The slot at the read index holds the oldest value not popped yet. */
  lemma ReadIntact<T>(s: State<T>)
    requires Inv(s) && s.r < s.w
    ensures s.buffer[Rings.Slot(s.readIdx, s.capacity)] == s.pushed[s.r]
  {
    Rings.WrappedSlot(s.r, s.capacity);
  }

  // ---- Whole runs ----

  /** The steps can be taken one after the other from `s`, and lead to `t`. */
  ghost predicate Leads<T>(s: State<T>, steps: seq<Step<T>>, t: State<T>)
    requires 0 < s.capacity == |s.buffer|
    decreases |steps|
  {
    if steps == [] then t == s
    else Enabled(s, steps[0]) && Leads(Apply(s, steps[0]), steps[1..], t)
  }

  lemma {:induction false} RunInv<T>(s: State<T>, steps: seq<Step<T>>, t: State<T>)
    requires Inv(s) && Leads(s, steps, t)
    ensures Inv(t)
    decreases |steps|
  {
    if steps != [] {
      StepInv(s, steps[0]);
      RunInv(Apply(s, steps[0]), steps[1..], t);
    }
  }

  /** In every interleaving the values popped are a prefix of the values pushed, and the counters keep
      `cached read <= read <= cached write <= write <= read + capacity`. */
  lemma Fifo<T>(capacity: nat, buffer: seq<T>, steps: seq<Step<T>>, t: State<T>)
    requires IsPow2(capacity) && capacity < WORD && |buffer| == capacity
    requires Leads(Initial(capacity, buffer), steps, t)
    ensures t.popped <= t.pushed && |t.pushed| == t.w && |t.popped| == t.r
    ensures t.cr <= t.r <= t.cw <= t.w <= t.r + capacity
    ensures t.writeIdx == Wrap(t.w) && t.readIdx == Wrap(t.r)
  {
    InitialInv(capacity, buffer);
    RunInv(Initial(capacity, buffer), steps, t);
    RunCapacity(Initial(capacity, buffer), steps, t);
  }

  lemma {:induction false} RunCapacity<T>(s: State<T>, steps: seq<Step<T>>, t: State<T>)
    requires 0 < s.capacity == |s.buffer| && Leads(s, steps, t)
    ensures t.capacity == s.capacity
    decreases |steps|
  {
    if steps != [] {
      RunCapacity(Apply(s, steps[0]), steps[1..], t);
    }
  }

  /** No race: while the producer writes a slot the consumer is not reading it; what the consumer reads was published
      under an index it has acquired; and what the producer overwrites was released under an index it has acquired. */
  lemma NoRace<T>(capacity: nat, buffer: seq<T>, steps: seq<Step<T>>, t: State<T>)
    requires IsPow2(capacity) && capacity < WORD && |buffer| == capacity
    requires Leads(Initial(capacity, buffer), steps, t)
    ensures t.producer.PushWrite? && t.consumer.PopRead? ==>
              Rings.Slot(t.writeIdx, capacity) != Rings.Slot(t.readIdx, capacity)
    ensures t.consumer.PopRead? ==> |t.buffer| == capacity && t.r < t.cw <= |t.pushed|
                                    && t.buffer[Rings.Slot(t.readIdx, capacity)] == t.pushed[t.r]
    ensures t.producer.PushWrite? && t.w >= capacity ==>
              && Rings.Slot(t.w - capacity, capacity) == Rings.Slot(t.writeIdx, capacity)
              && t.w - capacity < t.cr <= t.r
  {
    InitialInv(capacity, buffer);
    RunInv(Initial(capacity, buffer), steps, t);
    RunCapacity(Initial(capacity, buffer), steps, t);
    Rings.WrappedSlot(t.w, capacity);
    Rings.WrappedSlot(t.r, capacity);
    if t.producer.PushWrite? && t.consumer.PopRead? {
      Rings.DistinctSlots(t.r, t.w, capacity);
    }
    if t.w >= capacity {
      Rings.SameSlot(t.w - capacity, capacity);
    }
  }

  // ---- The ring is a channel ----

  /** What the two ends can observe of the ring. */
  function View<T>(s: State<T>): Channel<T> {
    Channel(s.pushed, s.r, s.sw)
  }

  /** Every step is invisible, or sends one value into a ring that has room, or looks, or takes. */
  lemma RefinesChannel<T>(s: State<T>, step: Step<T>)
    requires Inv(s) && Enabled(s, step)
    ensures var c, c' := View(s), View(Apply(s, step));
            && c.Valid()
            && match step
               case PublishWrite => |c.InFlight()| < s.capacity && Sends(c, c', s.producer.value)
               case ReloadWrite(_) => Looks(c, c')
               case LoadEmpty(_) => Looks(c, c')
               case SeeFlag(_) => Looks(c, c')
               case PublishRead => Takes(c, c', s.consumer.out)
               case _ => c' == c
  {
  }

  /** What the ring answers is what the channel shows: a pop goes ahead only with a value the consumer has seen, it is
      refused exactly when the reload shows that there is none, `empty()` answers by the same test on its own load, and
      a push is refused exactly when the reload shows a full ring. */
  lemma AnswersAsChannel<T>(s: State<T>, step: Step<T>)
    requires Inv(s) && Enabled(s, step)
    ensures var t := Apply(s, step);
            var c := View(t);
            match step
            case StartPop =>
              (t.consumer.PopReload? || t.consumer.PopRead?) && (t.consumer.PopRead? ==> c.taken < c.seen)
            case ReloadWrite(_) =>
              && (t.consumer.PopIdle? <==> c.taken == c.seen)
              && (t.consumer.PopRead? <==> c.taken < c.seen)
            case LoadEmpty(seen) => SaysEmpty(s.readIdx, seen) <==> c.taken == c.seen
            case ReloadRead(_) => t.producer.PushIdle? <==> |c.sent| == t.cr + t.capacity
            case _ => true
  {
    match step
    case StartPop => WrappedSame(s.cw, s.r);
    case ReloadWrite(seen) => WrappedSame(seen, s.r);
    case LoadEmpty(seen) => WrappedSame(seen, s.r);
    case ReloadRead(seen) => FullTest(s.w, seen, s.capacity);
    case _ =>
  }

  /** With current loads the cached indices change no answer: a push is refused exactly when the ring is
      full and a pop exactly when it is empty. */
  lemma CachingIsExact<T>(s: State<T>, v: T)
    requires Inv(s) && s.producer.PushIdle? && s.consumer.PopIdle?
    ensures var t := Apply(s, StartPush(v));
            (t.producer.PushReload? && Apply(t, ReloadRead(t.r)).producer.PushIdle?) <==> s.w == s.r + s.capacity
    ensures var t := Apply(s, StartPop);
            (t.consumer.PopReload? && Apply(t, ReloadWrite(t.w)).consumer.PopIdle?) <==> s.w == s.r
  {
    FullTest(s.w, s.cr, s.capacity);
    FullTest(s.w, s.r, s.capacity);
    Rings.WrappedEqual(s.cw, s.r);
    Rings.WrappedEqual(s.w, s.r);
  }
}
