/** When the sequencer lets the stream move on. */
module Progress {
  import opened Market
  import opened Sequencing

  /** Nothing is deliverable. */
  predicate Drained(s: Sequencer) {
    !s.started || s.expected !in s.held
  }

  /** Every number from the stream position to `k` is held. */
  ghost predicate Covered(s: Sequencer, k: nat) {
    s.started && forall j :: s.expected <= j <= k ==> j in s.held
  }

  lemma {:induction false} NextShrinks(s: Sequencer)
    ensures Next(s).message.Some? ==> |Next(s).state.held| < |s.held|
    ensures Next(s).message.None? ==> Drained(Next(s).state)
    decreases |s.held|
  {
    if s.started && s.expected in s.held && s.held[s.expected].Skipped? {
      NextShrinks(Advance(s));
    }
  }

  /** Taking messages until there is none: the handler's drain loop, which stops because every
      delivery empties a slot. */
  function Drain(s: Sequencer): Sequencer
    decreases |s.held|
  {
    NextShrinks(s);
    var d := Next(s);
    if d.message.None? then d.state else Drain(d.state)
  }

  /** A drain is a walk over the held slots from the stream position. */
  lemma {:induction false} DrainWalks(s: Sequencer)
    ensures Drain(s) == if Drained(s) then s else Drain(Advance(s))
    decreases |s.held|
  {
    if !Drained(s) {
      NextShrinks(s);
      if s.held[s.expected].Skipped? {
        DrainWalks(Advance(s));
        NextShrinks(Advance(s));
      }
    }
  }

  lemma {:induction false} DrainGood(s: Sequencer)
    requires Good(s)
    ensures Good(Drain(s)) && Drained(Drain(s))
    decreases |s.held|
  {
    NextShrinks(s);
    NextGood(s);
    if Next(s).message.Some? {
      DrainGood(Next(s).state);
    }
  }

  lemma {:induction false} DrainPasses(s: Sequencer, k: nat)
    requires Covered(s, k)
    ensures Drain(s).expected > k
    decreases k + 1 - s.expected, |s.held|
  {
    DrainWalks(s);
    if s.expected <= k {
      assert s.expected in s.held;
      DrainPasses(Advance(s), k);
    } else {
      DrainMonotone(s);
    }
  }

  lemma {:induction false} DrainMonotone(s: Sequencer)
    ensures Drain(s).expected >= s.expected
    decreases |s.held|
  {
    DrainWalks(s);
    if !Drained(s) {
      DrainMonotone(Advance(s));
    }
  }

  lemma {:induction false} DrainStops(s: Sequencer, j: nat)
    requires s.expected <= j && j !in s.held
    ensures Drain(s).expected <= j
    decreases |s.held|
  {
    DrainWalks(s);
    if !Drained(s) {
      DrainStops(Advance(s), j);
    }
  }

  // ---- What recovery leaves behind ----

  lemma {:induction false} RequestChunksKeeps(s: Sequencer, start: nat, to: nat, request: (nat, nat) -> Reply)
    ensures var t := RequestChunks(s, start, to, request);
            && t.expected == s.expected && t.capacity == s.capacity && t.started == s.started
            && s.held.Keys <= t.held.Keys
            && forall k :: IsFilled(s, k) ==> IsFilled(t, k) && t.held[k] == s.held[k]
    decreases 1 + to - start
  {
    if start <= to {
      var end := ChunkEnd(start, to);
      var t := s.(stats := s.stats.(recoveryRequests := s.stats.recoveryRequests + 1));
      match request(start, end)
      case Failed =>
      case Answer(ms) =>
        StoreAllKeeps(t, ms);
        RequestChunksKeeps(StoreAll(t, ms), start + MAX_RECOVERY_BATCH, to, request);
    }
  }

  /** Whatever recovery answers, no slot of the range is left empty and nothing held is lost. */
  lemma RecoverRangeCovers(s: Sequencer, from: nat, to: nat, recovery: Recovery)
    requires GoodBut(s, 0) && s.expected <= from <= to < s.expected + s.capacity
    ensures var t := RecoverRange(s, from, to, recovery);
            && t.expected == s.expected && t.started
            && s.held.Keys <= t.held.Keys
            && forall k :: from <= k <= to ==> k in t.held
  {
    hide Windowed, BalancedBut, Ordered;
    var t := s.(stats := s.stats.(gapsDetected := s.stats.gapsDetected + 1,
                                  missingMessages := s.stats.missingMessages + (to - from + 1)));
    GapCountersFree(s, s.stats.gapsDetected + 1, s.stats.missingMessages + (to - from + 1), s.stats.recoveryRequests);
    match recovery
    case NoRecovery =>
      SkipRangeGood(t, from, to + 1);
    case Client(request) =>
      RequestChunksGood(t, from, to, request);
      RequestChunksKeeps(t, from, to, request);
      SkipRangeGood(RequestChunks(t, from, to, request), from, to + 1);
  }

  /** Accepting `k` when nothing is deliverable, or when everything before `k` is held, leaves
      everything up to `k` held, unless `k` is already behind the stream. */
  lemma AcceptCovers(s: Sequencer, f: FeedMessage, recovery: Recovery)
    requires Good(s)
    requires var k := f.message.sequence; Drained(s) || (s.expected < k && Covered(s, k - 1))
    ensures var k, t := f.message.sequence, Accept(s, f, recovery);
            && Good(t)
            && if s.started && k < s.expected then Drained(t) && t.expected == s.expected
               else Covered(t, k) && t.expected <= k
  {
    hide BalancedBut, Balanced, Ordered;
    AcceptGood(s, f, recovery);
    var k := f.message.sequence;
    var t := Start(s.(stats := s.stats.(accepted := s.stats.accepted + 1)), k);
    if t.expected <= k < t.expected + t.capacity {
      StartGood(s, k);
      StoreGood(t, f);
      if k > t.expected && t.expected !in t.held {
        RecoverRangeCovers(Store(t, f), t.expected, k - 1, recovery);
      }
    }
  }

  /** No stall: from a drained state, accepting a message that is not behind the stream and then
      draining moves the stream past it, whatever recovery answers. */
  lemma NoStall(s: Sequencer, f: FeedMessage, recovery: Recovery)
    requires Good(s) && Drained(s)
    requires s.started ==> s.expected <= f.message.sequence
    ensures Drain(Accept(s, f, recovery)).expected > f.message.sequence
  {
    AcceptCovers(s, f, recovery);
    DrainPasses(Accept(s, f, recovery), f.message.sequence);
  }

  // ---- Packets ----

  /** Accepts the messages of a packet in order; each arrival may trigger its own recovery. */
  function AcceptAll(s: Sequencer, fs: seq<FeedMessage>, recoveries: seq<Recovery>): Sequencer
    requires |fs| == |recoveries|
  {
    if fs == [] then s
    else
      var last := |fs| - 1;
      Accept(AcceptAll(s, fs[..last], recoveries[..last]), fs[last], recoveries[last])
  }

  predicate Contiguous(fs: seq<FeedMessage>) {
    forall i :: 0 < i < |fs| ==> fs[i].message.sequence == fs[i - 1].message.sequence + 1
  }

  lemma {:induction false} PacketCovers(s: Sequencer, fs: seq<FeedMessage>, recoveries: seq<Recovery>)
    requires |fs| == |recoveries| > 0 && Good(s) && Drained(s) && Contiguous(fs)
    ensures var k, t := fs[|fs| - 1].message.sequence, AcceptAll(s, fs, recoveries);
            && Good(t) && t.started
            && if k < t.expected then Drained(t) && s.started && t.expected == s.expected else Covered(t, k)
  {
    var last := |fs| - 1;
    if last == 0 {
      assert AcceptAll(s, fs, recoveries) == Accept(s, fs[0], recoveries[0]);
      AcceptCovers(s, fs[0], recoveries[0]);
    } else {
      PacketCovers(s, fs[..last], recoveries[..last]);
      AcceptCovers(AcceptAll(s, fs[..last], recoveries[..last]), fs[last], recoveries[last]);
    }
  }

  /** No stall for a packet of consecutive messages. */
  lemma PacketNoStall(s: Sequencer, fs: seq<FeedMessage>, recoveries: seq<Recovery>)
    requires |fs| == |recoveries| > 0 && Good(s) && Drained(s) && Contiguous(fs)
    requires s.started ==> s.expected <= fs[|fs| - 1].message.sequence
    ensures Drain(AcceptAll(s, fs, recoveries)).expected > fs[|fs| - 1].message.sequence
  {
    PacketCovers(s, fs, recoveries);
    DrainPasses(AcceptAll(s, fs, recoveries), fs[|fs| - 1].message.sequence);
  }

  // ---- What an arrival leaves held ----

  predicate Has(ms: seq<Message>, j: nat) {
    exists i :: 0 <= i < |ms| && ms[i].sequence == j
  }

  lemma HasAppend(a: seq<Message>, b: seq<Message>, j: nat)
    ensures Has(a + b, j) <==> Has(a, j) || Has(b, j)
  {
    if Has(a, j) {
      var i :| 0 <= i < |a| && a[i].sequence == j;
      assert (a + b)[i].sequence == j;
    }
    if Has(b, j) {
      var i :| 0 <= i < |b| && b[i].sequence == j;
      assert (a + b)[|a| + i].sequence == j;
    }
  }

  lemma {:induction false} StoreAllHeld(s: Sequencer, ms: seq<Message>, j: nat)
    ensures s.expected <= j < s.expected + s.capacity ==> (j in StoreAll(s, ms).held <==> j in s.held || Has(ms, j))
    ensures IsSkipped(StoreAll(s, ms), j) ==> IsSkipped(s, j)
  {
    if ms != [] {
      var last := |ms| - 1;
      StoreAllHeld(s, ms[..last], j);
      StoreAllKeeps(s, ms[..last]);
      HasAppend(ms[..last], [ms[last]], j);
      assert ms[..last] + [ms[last]] == ms;
      assert Has([ms[last]], j) <==> ms[last].sequence == j;
    }
  }

  lemma {:induction false} ChunksHeld(s: Sequencer, start: nat, to: nat, request: (nat, nat) -> Reply, j: nat)
    ensures var t := RequestChunks(s, start, to, request);
            && (s.expected <= j < s.expected + s.capacity ==>
                  (j in t.held <==> j in s.held || Has(Answers(request, start, to), j)))
            && (IsSkipped(t, j) ==> IsSkipped(s, j))
    decreases 1 + to - start
  {
    hide StoreAll, Has;
    if start <= to {
      var t := s.(stats := s.stats.(recoveryRequests := s.stats.recoveryRequests + 1));
      match request(start, ChunkEnd(start, to))
      case Failed =>
        HasNone(j);
      case Answer(ms) =>
        StoreAllHeld(t, ms, j);
        StoreAllKeeps(t, ms);
        ChunksHeld(StoreAll(t, ms), start + MAX_RECOVERY_BATCH, to, request, j);
        HasAppend(ms, Answers(request, start + MAX_RECOVERY_BATCH, to), j);
    } else {
      HasNone(j);
    }
  }

  lemma HasNone(j: nat)
    ensures !Has([], j)
  {
  }

  /** After recovery a number of the window is held if it was, if it is in the range, or if it was answered. */
  lemma RecoverHeld(s: Sequencer, from: nat, to: nat, recovery: Recovery, j: nat)
    requires GoodBut(s, 0) && s.expected <= from <= to < s.expected + s.capacity
    requires s.expected <= j < s.expected + s.capacity
    ensures j in RecoverRange(s, from, to, recovery).held <==>
            || j in s.held || from <= j <= to
            || (recovery.Client? && Has(Answers(recovery.request, from, to), j))
    ensures RecoverRange(s, from, to, recovery).capacity == s.capacity
  {
    hide Windowed, BalancedBut, Ordered, RequestChunks, SkipRange, Answers, Has;
    var t := s.(stats := s.stats.(gapsDetected := s.stats.gapsDetected + 1,
                                  missingMessages := s.stats.missingMessages + (to - from + 1)));
    GapCountersFree(s, s.stats.gapsDetected + 1, s.stats.missingMessages + (to - from + 1), s.stats.recoveryRequests);
    match recovery
    case NoRecovery =>
      SkipRangeGood(t, from, to + 1);
    case Client(request) =>
      RequestChunksGood(t, from, to, request);
      ChunksHeld(t, from, to, request, j);
      SkipRangeGood(RequestChunks(t, from, to, request), from, to + 1);
  }

  /** An arrival within the window adds its own number and, if it shows a gap, the gap and what was answered. */
  lemma AcceptHolds(s: Sequencer, f: FeedMessage, recovery: Recovery, k: nat)
    requires Good(s) && s.started && s.expected <= f.message.sequence < s.expected + s.capacity && s.expected <= k
    ensures var t, n := Accept(s, f, recovery), f.message.sequence;
            && t.expected == s.expected && t.capacity == s.capacity
            && (k in t.held <==>
                  || k in s.held || k == n || (ShowsGap(s, n) && k < n)
                  || (k < s.expected + s.capacity && Has(GapAnswers(s, n, recovery), k)))
  {
    hide Balanced, BalancedBut, Ordered, RecoverRange, Has, Answers;
    var n := f.message.sequence;
    AcceptGood(s, f, recovery);
    AcceptStream(s, f, recovery);
    var t := Start(s.(stats := s.stats.(accepted := s.stats.accepted + 1)), n);
    StartGood(s, n);
    StoreGood(t, f);
    HasNone(k);
    if ShowsGap(s, n) {
      var u := Store(t, f);
      RecoverHeld(u, s.expected, n - 1, recovery, if k < s.expected + s.capacity then k else n);
    }
  }

  lemma RecoverKeeps(s: Sequencer, from: nat, to: nat, recovery: Recovery, k: nat)
    requires GoodBut(s, 0) && s.expected <= from <= to < s.expected + s.capacity && IsFilled(s, k)
    ensures var t := RecoverRange(s, from, to, recovery); k in t.held && t.held[k] == s.held[k]
  {
    hide Windowed, BalancedBut, Ordered, RequestChunks, SkipRange;
    var t := s.(stats := s.stats.(gapsDetected := s.stats.gapsDetected + 1,
                                  missingMessages := s.stats.missingMessages + (to - from + 1)));
    GapCountersFree(s, s.stats.gapsDetected + 1, s.stats.missingMessages + (to - from + 1), s.stats.recoveryRequests);
    assert IsFilled(t, k);
    match recovery
    case NoRecovery =>
      SkipRangeGood(t, from, to + 1);
    case Client(request) =>
      RequestChunksGood(t, from, to, request);
      RequestChunksKeeps(t, from, to, request);
      SkipRangeGood(RequestChunks(t, from, to, request), from, to + 1);
  }

  /** The first message with a number wins: an arrival is stored unless its number is behind the stream or already
      filled, and no filled slot is overwritten, by it or by what recovery answers. */
  lemma FirstWins(s: Sequencer, f: FeedMessage, recovery: Recovery, k: nat)
    requires Good(s) && s.started && f.message.sequence < s.expected + s.capacity
    ensures var t, n := Accept(s, f, recovery), f.message.sequence;
            && (IsFilled(s, k) ==> k in t.held && t.held[k] == s.held[k])
            && (s.expected <= n && !IsFilled(s, n) ==> n in t.held && t.held[n] == Filled(f))
  {
    hide Balanced, BalancedBut, Ordered, RecoverRange;
    var n := f.message.sequence;
    if ShowsGap(s, n) {
      var t := s.(stats := s.stats.(accepted := s.stats.accepted + 1));
      StartGood(s, n);
      StoreGood(t, f);
      var u := Store(t, f);
      RecoverKeeps(u, s.expected, n - 1, recovery, n);
      if IsFilled(s, k) {
        RecoverKeeps(u, s.expected, n - 1, recovery, k);
      }
    }
  }

  // ---- Exactly which packets stall ----

  predicate Increasing(fs: seq<FeedMessage>) {
    forall i :: 0 < i < |fs| ==> fs[i - 1].message.sequence < fs[i].message.sequence
  }

  predicate Carried(fs: seq<FeedMessage>, k: nat) {
    exists i :: 0 <= i < |fs| && fs[i].message.sequence == k
  }

  /** The packet carries a number beyond `k`. */
  predicate Exceeded(fs: seq<FeedMessage>, k: nat) {
    exists i :: 0 <= i < |fs| && fs[i].message.sequence > k
  }

  /** The packet carries a number before `k` that is not behind the stream. */
  predicate Overtaken(expected: nat, fs: seq<FeedMessage>, k: nat) {
    exists i :: 0 <= i < |fs| && expected <= fs[i].message.sequence < k
  }

  lemma OneMore(fs: seq<FeedMessage>, f: FeedMessage, expected: nat, k: nat)
    ensures Carried(fs + [f], k) <==> Carried(fs, k) || f.message.sequence == k
    ensures Exceeded(fs + [f], k) <==> Exceeded(fs, k) || f.message.sequence > k
    ensures Overtaken(expected, fs + [f], k) <==> Overtaken(expected, fs, k) || expected <= f.message.sequence < k
  {
    var gs := fs + [f];
    assert gs[|fs|] == f && forall i :: 0 <= i < |fs| ==> gs[i] == fs[i];
  }

  /** Where the stream stands after a packet: at the last number that overflowed the window, if one did. */
  function Base(expected: nat, capacity: nat, fs: seq<FeedMessage>): nat {
    if fs == [] then expected
    else
      var last := |fs| - 1;
      var base := Base(expected, capacity, fs[..last]);
      if fs[last].message.sequence >= base + capacity then fs[last].message.sequence else base
  }

  /** What recovery answers while a packet is accepted: only its first number that is not behind the stream asks. */
  function PacketAnswers(s: Sequencer, fs: seq<FeedMessage>, recoveries: seq<Recovery>): seq<Message>
    requires |fs| == |recoveries|
  {
    if fs == [] then []
    else
      var last := |fs| - 1;
      if Overtaken(s.expected, fs[..last], fs[last].message.sequence) then
        PacketAnswers(s, fs[..last], recoveries[..last])
      else GapAnswers(s, fs[last].message.sequence, recoveries[last])
  }

  /** What is held after a packet.  After an overflow only what the packet carries; otherwise what was held, what it
      carries, what was answered, and everything before its first number that is not behind the stream. */
  ghost predicate HeldAfter(s: Sequencer, fs: seq<FeedMessage>, recoveries: seq<Recovery>, k: nat)
    requires |fs| == |recoveries|
  {
    if Base(s.expected, s.capacity, fs) != s.expected then Carried(fs, k)
    else
      || k in s.held || Carried(fs, k) || (Exceeded(fs, k) && !Overtaken(s.expected, fs, k))
      || (k < s.expected + s.capacity && Has(PacketAnswers(s, fs, recoveries), k))
  }

  ghost predicate PacketHolds(s: Sequencer, fs: seq<FeedMessage>, recoveries: seq<Recovery>, t: Sequencer)
    requires |fs| == |recoveries|
  {
    && Good(t) && t.started && t.expected == Base(s.expected, s.capacity, fs) && t.capacity == s.capacity
    && forall k: nat :: t.expected <= k ==> (k in t.held <==> HeldAfter(s, fs, recoveries, k))
  }

  lemma {:induction false} BaseCarried(expected: nat, capacity: nat, fs: seq<FeedMessage>)
    ensures var base := Base(expected, capacity, fs);
            base >= expected && (base != expected ==> Carried(fs, base))
  {
    if fs != [] {
      var last := |fs| - 1;
      BaseCarried(expected, capacity, fs[..last]);
      OneMore(fs[..last], fs[last], expected, Base(expected, capacity, fs));
      assert fs[..last] + [fs[last]] == fs;
    }
  }

  lemma BaseMore(expected: nat, capacity: nat, fs: seq<FeedMessage>, f: FeedMessage)
    ensures var base := Base(expected, capacity, fs);
            Base(expected, capacity, fs + [f]) ==
            if f.message.sequence >= base + capacity then f.message.sequence else base
  {
    assert (fs + [f])[..|fs|] == fs;
  }

  lemma AnswersMore(s: Sequencer, fs: seq<FeedMessage>, recoveries: seq<Recovery>, f: FeedMessage, recovery: Recovery)
    requires |fs| == |recoveries|
    ensures PacketAnswers(s, fs + [f], recoveries + [recovery]) ==
            if Overtaken(s.expected, fs, f.message.sequence) then PacketAnswers(s, fs, recoveries)
            else GapAnswers(s, f.message.sequence, recovery)
  {
    assert (fs + [f])[..|fs|] == fs && (recoveries + [recovery])[..|fs|] == recoveries;
  }

  /** An arrival that overflows the window leaves only itself. */
  lemma OverflowHolds(t: Sequencer, f: FeedMessage, recovery: Recovery)
    requires t.started && t.capacity > 0 && f.message.sequence >= t.expected + t.capacity
    ensures var u := Accept(t, f, recovery);
            u.started && u.capacity == t.capacity && u.expected == f.message.sequence
            && u.held == map[f.message.sequence := Filled(f)]
  {
  }

  /** One more message, with a number above all the others. */
  lemma PacketStep(s: Sequencer, fs: seq<FeedMessage>, recoveries: seq<Recovery>, t: Sequencer, f: FeedMessage,
                   recovery: Recovery)
    requires |fs| == |recoveries| && Good(s) && Drained(s) && s.started && PacketHolds(s, fs, recoveries, t)
    requires forall i :: 0 <= i < |fs| ==> fs[i].message.sequence < f.message.sequence
    ensures PacketHolds(s, fs + [f], recoveries + [recovery], Accept(t, f, recovery))
  {
    hide Good, Base, PacketAnswers, Has, GapAnswers;
    var n, u := f.message.sequence, Accept(t, f, recovery);
    var gs, rs := fs + [f], recoveries + [recovery];
    AcceptGood(t, f, recovery);
    AcceptStream(t, f, recovery);
    GoodCapacity(s);
    BaseMore(s.expected, s.capacity, fs, f);
    BaseCarried(s.expected, s.capacity, fs);
    if n >= t.expected + t.capacity {
      OverflowHolds(t, f, recovery);
      forall k: nat | u.expected <= k ensures k in u.held <==> HeldAfter(s, gs, rs, k) {
        OneMore(fs, f, s.expected, k);
      }
    } else if n < t.expected {
      forall k: nat | u.expected <= k ensures k in u.held <==> HeldAfter(s, gs, rs, k) {
        OneMore(fs, f, s.expected, k);
        BehindStep(s, fs, recoveries, t, f, recovery, k);
      }
    } else {
      forall k: nat | u.expected <= k ensures k in u.held <==> HeldAfter(s, gs, rs, k) {
        InsideStep(s, fs, recoveries, t, f, recovery, k);
      }
      AcceptHolds(t, f, recovery, n);
    }
  }

  lemma GoodCapacity(s: Sequencer)
    requires Good(s)
    ensures s.capacity > 0
  {
  }

  lemma BehindStep(s: Sequencer, fs: seq<FeedMessage>, recoveries: seq<Recovery>, t: Sequencer, f: FeedMessage,
                   recovery: Recovery, k: nat)
    requires |fs| == |recoveries| && s.started && PacketHolds(s, fs, recoveries, t)
    requires f.message.sequence < t.expected <= k
    requires forall i :: 0 <= i < |fs| ==> fs[i].message.sequence < f.message.sequence
    ensures Accept(t, f, recovery).held == t.held && Accept(t, f, recovery).expected == t.expected
    ensures Accept(t, f, recovery).capacity == t.capacity
    ensures HeldAfter(s, fs + [f], recoveries + [recovery], k) <==> k in t.held
  {
    hide Good, Base, PacketAnswers, Has;
    BaseMore(s.expected, s.capacity, fs, f);
    BaseCarried(s.expected, s.capacity, fs);
    OneMore(fs, f, s.expected, k);
    AnswersMore(s, fs, recoveries, f, recovery);
    NoAnswers(s, fs, recoveries);
    HasNone(k);
  }

  /** If every number of the packet is behind the stream, nothing is asked. */
  lemma {:induction false} NoAnswers(s: Sequencer, fs: seq<FeedMessage>, recoveries: seq<Recovery>)
    requires |fs| == |recoveries|
    ensures (forall i :: 0 <= i < |fs| ==> fs[i].message.sequence < s.expected) ==>
              PacketAnswers(s, fs, recoveries) == []
  {
    if fs != [] {
      NoAnswers(s, fs[..|fs| - 1], recoveries[..|fs| - 1]);
    }
  }

  lemma InsideStep(s: Sequencer, fs: seq<FeedMessage>, recoveries: seq<Recovery>, t: Sequencer, f: FeedMessage,
                   recovery: Recovery, k: nat)
    requires |fs| == |recoveries| && Drained(s) && s.started && PacketHolds(s, fs, recoveries, t) && t.expected <= k
    requires forall i :: 0 <= i < |fs| ==> fs[i].message.sequence < f.message.sequence
    requires t.expected <= f.message.sequence < t.expected + t.capacity
    ensures k in Accept(t, f, recovery).held <==> HeldAfter(s, fs + [f], recoveries + [recovery], k)
  {
    hide Good, Base, PacketAnswers, Has, Accept, Answers;
    var n := f.message.sequence;
    BaseMore(s.expected, s.capacity, fs, f);
    BaseCarried(s.expected, s.capacity, fs);
    OneMore(fs, f, s.expected, k);
    AnswersMore(s, fs, recoveries, f, recovery);
    AcceptHolds(t, f, recovery, k);
    HasNone(k);
    assert t.expected in t.held <==> HeldAfter(s, fs, recoveries, t.expected);
    if !Overtaken(s.expected, fs, n) {
      NoAnswers(s, fs, recoveries);
      HasNone(t.expected);
    }
  }

  lemma {:induction false} PacketHeld(s: Sequencer, fs: seq<FeedMessage>, recoveries: seq<Recovery>)
    requires |fs| == |recoveries| && Good(s) && s.started && Drained(s) && Increasing(fs)
    ensures PacketHolds(s, fs, recoveries, AcceptAll(s, fs, recoveries))
  {
    hide Good, Accept, Drained;
    if fs == [] {
      assert forall k :: !Has([], k);
    } else {
      var last := |fs| - 1;
      IncreasingOrder(fs);
      PacketHeld(s, fs[..last], recoveries[..last]);
      PacketStep(s, fs[..last], recoveries[..last], AcceptAll(s, fs[..last], recoveries[..last]), fs[last],
                 recoveries[last]);
      assert fs[..last] + [fs[last]] == fs && recoveries[..last] + [recoveries[last]] == recoveries;
    }
  }

  lemma {:induction false} IncreasingOrder(fs: seq<FeedMessage>)
    requires Increasing(fs)
    ensures forall i, j :: 0 <= i < j < |fs| ==> fs[i].message.sequence < fs[j].message.sequence
  {
    if |fs| > 1 {
      var rest := fs[..|fs| - 1];
      IncreasingOrder(rest);
      forall i, j | 0 <= i < j < |fs| ensures fs[i].message.sequence < fs[j].message.sequence {
        assert j < |rest| ==> rest[i].message.sequence < rest[j].message.sequence;
        assert i < |rest| - 1 ==> rest[i].message.sequence < rest[|rest| - 1].message.sequence;
      }
    }
  }

  /** A packet that is first to arrive is handled as if the stream had stood at its first number. */
  lemma {:induction false} FirstPacket(s: Sequencer, fs: seq<FeedMessage>, recoveries: seq<Recovery>)
    requires |fs| == |recoveries| > 0 && !s.started
    ensures AcceptAll(s, fs, recoveries) == AcceptAll(Start(s, fs[0].message.sequence), fs, recoveries)
  {
    hide RecoverRange, Store, Resynchronize;
    var last := |fs| - 1;
    if last > 0 {
      FirstPacket(s, fs[..last], recoveries[..last]);
    }
  }

  /** The condition for a packet to get through, from a started stream.  After an overflow the packet must carry every
      number from the place of the overflow on.  Otherwise every number that it overtakes must have been held, carried
      or answered: a hole is not noticed, because the first message of the packet is still undelivered. */
  ghost predicate GetsThrough(s: Sequencer, fs: seq<FeedMessage>, recoveries: seq<Recovery>)
    requires |fs| == |recoveries| > 0
  {
    var base, last := Base(s.expected, s.capacity, fs), fs[|fs| - 1].message.sequence;
    if base != s.expected then forall k: nat :: base <= k <= last ==> Carried(fs, k)
    else forall k: nat :: k <= last && Overtaken(s.expected, fs, k) ==>
           k in s.held || Carried(fs, k) || Has(PacketAnswers(s, fs, recoveries), k)
  }

  /** From any drained state, and whatever recovery answers, the stream passes an increasing packet if and only if the
      packet meets the condition. */
  lemma PacketStallsIff(s: Sequencer, fs: seq<FeedMessage>, recoveries: seq<Recovery>)
    requires |fs| == |recoveries| > 0 && Good(s) && Drained(s) && Increasing(fs)
    ensures Drain(AcceptAll(s, fs, recoveries)).expected > fs[|fs| - 1].message.sequence <==>
            GetsThrough(Start(s, fs[0].message.sequence), fs, recoveries)
  {
    hide Good, Drain, GetsThrough;
    var u := Start(s, fs[0].message.sequence);
    IncreasingOrder(fs);
    StartDrained(s, fs[0].message.sequence);
    if !s.started {
      FirstPacket(s, fs, recoveries);
    }
    PacketHeld(u, fs, recoveries);
    GoodCapacity(u);
    PacketPasses(u, fs, recoveries, AcceptAll(u, fs, recoveries));
  }

  lemma StartDrained(s: Sequencer, k: nat)
    requires Good(s) && Drained(s)
    ensures var u := Start(s, k);
            Good(u) && Drained(u) && u.started && (s.started ==> u == s)
  {
  }

  lemma PacketPasses(s: Sequencer, fs: seq<FeedMessage>, recoveries: seq<Recovery>, t: Sequencer)
    requires |fs| == |recoveries| > 0 && s.started && s.capacity > 0 && PacketHolds(s, fs, recoveries, t)
    requires forall i, j :: 0 <= i < j < |fs| ==> fs[i].message.sequence < fs[j].message.sequence
    ensures Drain(t).expected > fs[|fs| - 1].message.sequence <==> GetsThrough(s, fs, recoveries)
  {
    hide Good, Drain, Has, PacketAnswers;
    var last := fs[|fs| - 1].message.sequence;
    assert Carried(fs, last) && last < t.expected + t.capacity;
    DrainMonotone(t);
    if GetsThrough(s, fs, recoveries) {
      if last >= t.expected {
        forall k | t.expected <= k <= last ensures k in t.held {
          assert Overtaken(s.expected, fs, k) || k == last || Exceeded(fs, k);
          assert HeldAfter(s, fs, recoveries, k);
        }
        DrainPasses(t, last);
      }
    } else {
      var k := Hole(s, fs, recoveries);
      assert !HeldAfter(s, fs, recoveries, k);
      DrainStops(t, k);
    }
  }

  /** A number at which a packet that does not get through stops the stream. */
  lemma Hole(s: Sequencer, fs: seq<FeedMessage>, recoveries: seq<Recovery>) returns (k: nat)
    requires |fs| == |recoveries| > 0 && !GetsThrough(s, fs, recoveries)
    ensures Base(s.expected, s.capacity, fs) <= k <= fs[|fs| - 1].message.sequence
    ensures !HeldAfter(s, fs, recoveries, k)
  {
    var base, last := Base(s.expected, s.capacity, fs), fs[|fs| - 1].message.sequence;
    if base != s.expected {
      k :| base <= k <= last && !Carried(fs, k);
    } else {
      k :| k <= last && Overtaken(s.expected, fs, k) && k !in s.held && !Carried(fs, k)
           && !Has(PacketAnswers(s, fs, recoveries), k);
    }
  }
}
