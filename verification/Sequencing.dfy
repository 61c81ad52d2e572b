/** What the sequencer does, with its reorder window seen as a map from sequence number to slot. */
module Sequencing {
  import opened Market

  /** Largest range requested, and served, at once. */
  const MAX_RECOVERY_BATCH: nat := 1024

  datatype FeedMessage = FeedMessage(message: Message, recovered: bool)

  datatype Held = Filled(payload: FeedMessage) | Skipped

  datatype Stats = Stats(
    accepted: nat, delivered: nat, duplicates: nat, gapsDetected: nat, missingMessages: nat,
    recoveryRequests: nat, messagesRecovered: nat, unrecoverable: nat, reorderOverflows: nat)

  /** History that the counters do not keep: where the stream began, what was delivered, how many numbers
      were passed over undelivered, how many skipped slots were filled late, and what resynchronization
      threw away. */
  datatype Ledger = Ledger(
    first: nat, out: seq<FeedMessage>, passed: nat, overwritten: nat, discardedFilled: nat, clearedSkipped: nat)

  datatype Reply = Failed | Answer(messages: seq<Message>)

  /** The recovery client: absent, or an arbitrary answer to every range asked for. */
  datatype Recovery = NoRecovery | Client(request: (nat, nat) -> Reply)

  datatype Sequencer = Sequencer(
    capacity: nat, expected: nat, started: bool, held: map<nat, Held>, stats: Stats, ledger: Ledger)

  function Initial(capacity: nat): Sequencer {
    Sequencer(capacity, 0, false, map[], Stats(0, 0, 0, 0, 0, 0, 0, 0, 0), Ledger(0, [], 0, 0, 0, 0))
  }

  predicate IsFilled(s: Sequencer, k: nat) {
    k in s.held && s.held[k].Filled?
  }

  predicate IsSkipped(s: Sequencer, k: nat) {
    k in s.held && s.held[k].Skipped?
  }

  // ---- The operations ----

  /** Puts a message into a slot that is not filled. */
  function Fill(s: Sequencer, f: FeedMessage): Sequencer {
    var k := f.message.sequence;
    s.(held := s.held[k := Filled(f)],
       ledger := s.ledger.(overwritten := s.ledger.overwritten + if IsSkipped(s, k) then 1 else 0))
  }

  function Store(s: Sequencer, f: FeedMessage): Sequencer {
    if IsFilled(s, f.message.sequence) then s.(stats := s.stats.(duplicates := s.stats.duplicates + 1))
    else Fill(s, f)
  }

  function StoreRecovered(s: Sequencer, m: Message): Sequencer {
    if m.sequence < s.expected || m.sequence - s.expected >= s.capacity || IsFilled(s, m.sequence) then s
    else
      var t := Fill(s, FeedMessage(m, true));
      t.(stats := t.stats.(messagesRecovered := t.stats.messagesRecovered + 1))
  }

  function StoreAll(s: Sequencer, ms: seq<Message>): Sequencer {
    if ms == [] then s else StoreRecovered(StoreAll(s, ms[..|ms| - 1]), ms[|ms| - 1])
  }

  /** Where the chunk of [start, to] that begins at `start` ends. */
  function ChunkEnd(start: nat, to: nat): nat {
    if start + MAX_RECOVERY_BATCH - 1 < to then start + MAX_RECOVERY_BATCH - 1 else to
  }

  /** Requests [start, to] in chunks until a request fails. */
  function RequestChunks(s: Sequencer, start: nat, to: nat, request: (nat, nat) -> Reply): Sequencer
    decreases 1 + to - start
  {
    if start > to then s
    else
      var end := ChunkEnd(start, to);
      var t := s.(stats := s.stats.(recoveryRequests := s.stats.recoveryRequests + 1));
      match request(start, end)
      case Failed => t
      case Answer(ms) => RequestChunks(StoreAll(t, ms), start + MAX_RECOVERY_BATCH, to, request)
  }

  /** All the answers to the chunks of [start, to] that are requested before the first request that fails. */
  function Answers(request: (nat, nat) -> Reply, start: nat, to: nat): seq<Message>
    decreases 1 + to - start
  {
    if start > to then []
    else
      match request(start, ChunkEnd(start, to))
      case Failed => []
      case Answer(ms) => ms + Answers(request, start + MAX_RECOVERY_BATCH, to)
  }

  /** Gives up on every number in [from, to) that is not held. */
  function SkipRange(s: Sequencer, from: nat, to: nat): Sequencer
    decreases 0 + to - from
  {
    if from >= to then s
    else
      var t := SkipRange(s, from, to - 1);
      if to - 1 in t.held then t
      else t.(held := t.held[to - 1 := Skipped], stats := t.stats.(unrecoverable := t.stats.unrecoverable + 1))
  }

  function RecoverRange(s: Sequencer, from: nat, to: nat, recovery: Recovery): Sequencer
    requires from <= to
  {
    var t := s.(stats := s.stats.(gapsDetected := s.stats.gapsDetected + 1,
                                  missingMessages := s.stats.missingMessages + (to - from + 1)));
    var u := match recovery
             case NoRecovery => t
             case Client(request) => RequestChunks(t, from, to, request);
    SkipRange(u, from, to + 1)
  }

  /** The window is too small to hold `f`: everything held is dropped and the stream restarts at `f`. */
  function Resynchronize(s: Sequencer, f: FeedMessage): Sequencer
    requires s.expected <= f.message.sequence
  {
    var jump := f.message.sequence - s.expected;
    Store(s.(expected := f.message.sequence, held := map[],
             stats := s.stats.(reorderOverflows := s.stats.reorderOverflows + 1,
                               unrecoverable := s.stats.unrecoverable + jump),
             ledger := s.ledger.(passed := s.ledger.passed + jump,
                                 discardedFilled := s.ledger.discardedFilled + |FilledKeys(s.held)|,
                                 clearedSkipped := s.ledger.clearedSkipped + |SkippedKeys(s.held)|)), f)
  }

  function Start(s: Sequencer, k: nat): Sequencer {
    if s.started then s else s.(expected := k, started := true, ledger := s.ledger.(first := k))
  }

  function Accept(s: Sequencer, f: FeedMessage, recovery: Recovery): Sequencer {
    var k := f.message.sequence;
    var t := Start(s.(stats := s.stats.(accepted := s.stats.accepted + 1)), k);
    if k < t.expected then t.(stats := t.stats.(duplicates := t.stats.duplicates + 1))
    else if k - t.expected >= t.capacity then Resynchronize(t, f)
    else
      var u := Store(t, f);
      if k > t.expected && t.expected !in t.held then RecoverRange(u, t.expected, k - 1, recovery) else u
  }

  /** The arrival of `k` shows that the number at the stream position is missing: it causes a recovery. */
  predicate ShowsGap(s: Sequencer, k: nat) {
    s.started && s.expected < k < s.expected + s.capacity && s.expected !in s.held
  }

  /** What recovery answers to the arrival of `k`. */
  function GapAnswers(s: Sequencer, k: nat, recovery: Recovery): seq<Message> {
    if recovery.Client? && ShowsGap(s, k) then Answers(recovery.request, s.expected, k - 1) else []
  }

  datatype Delivery = Delivery(state: Sequencer, message: Option<FeedMessage>)

  /** Moves past the slot at `expected`, delivering it if it is filled. */
  function Advance(s: Sequencer): Sequencer
    requires s.expected in s.held
  {
    var t := s.(held := s.held - {s.expected}, expected := s.expected + 1);
    match s.held[s.expected]
    case Skipped => t.(ledger := t.ledger.(passed := t.ledger.passed + 1))
    case Filled(f) => t.(stats := t.stats.(delivered := t.stats.delivered + 1),
                         ledger := t.ledger.(out := t.ledger.out + [f]))
  }

  function Next(s: Sequencer): Delivery
    decreases |s.held|
  {
    if !s.started || s.expected !in s.held then Delivery(s, None)
    else
      match s.held[s.expected]
      case Filled(f) => Delivery(Advance(s), Some(f))
      case Skipped => Next(Advance(s))
  }

  function FilledKeys(held: map<nat, Held>): set<nat> {
    set k | k in held && held[k].Filled?
  }

  function SkippedKeys(held: map<nat, Held>): set<nat> {
    set k | k in held && held[k].Skipped?
  }

  // ---- What every operation keeps ----

  /** Held numbers lie in the window, and a filled slot holds the message with its own number. */
  ghost predicate Windowed(s: Sequencer) {
    && s.capacity > 0
    && (s.started || (s.held == map[] && s.expected == 0))
    && forall k :: k in s.held ==>
                     && s.expected <= k < s.expected + s.capacity
                     && (s.held[k].Filled? ==> s.held[k].payload.message.sequence == k)
  }

  /** Every message taken in is delivered, refused, held or discarded; every number counted as
      unrecoverable was passed over, or its slot is skipped, was filled late or was cleared. */
  ghost predicate Balanced(s: Sequencer) {
    && s.stats.accepted + s.stats.messagesRecovered
       == s.stats.delivered + s.stats.duplicates + |FilledKeys(s.held)| + s.ledger.discardedFilled
    && s.stats.unrecoverable
       == s.ledger.passed + |SkippedKeys(s.held)| + s.ledger.overwritten + s.ledger.clearedSkipped
    && s.stats.delivered + s.ledger.passed == s.expected - s.ledger.first
    && |s.ledger.out| == s.stats.delivered
  }

  /** What has been delivered is in increasing order and behind the stream position. */
  ghost predicate Ordered(s: Sequencer) {
    && (forall i, j :: 0 <= i < j < |s.ledger.out| ==>
                         s.ledger.out[i].message.sequence < s.ledger.out[j].message.sequence)
    && forall i :: 0 <= i < |s.ledger.out| ==>
                     s.ledger.first <= s.ledger.out[i].message.sequence < s.expected
  }

  ghost predicate Good(s: Sequencer) {
    Windowed(s) && Balanced(s) && Ordered(s)
  }

  // ---- Counting slots ----

  lemma CountFill(held: map<nat, Held>, k: nat, f: FeedMessage)
    requires !(k in held && held[k].Filled?)
    ensures |FilledKeys(held[k := Filled(f)])| == |FilledKeys(held)| + 1
    ensures |SkippedKeys(held[k := Filled(f)])| == |SkippedKeys(held)| - if k in held then 1 else 0
  {
    assert FilledKeys(held[k := Filled(f)]) == FilledKeys(held) + {k};
    assert SkippedKeys(held[k := Filled(f)]) == SkippedKeys(held) - {k};
    assert k in held ==> k in SkippedKeys(held);
  }

  lemma CountSkip(held: map<nat, Held>, k: nat)
    requires k !in held
    ensures |FilledKeys(held[k := Skipped])| == |FilledKeys(held)|
    ensures |SkippedKeys(held[k := Skipped])| == |SkippedKeys(held)| + 1
  {
    var after := held[k := Skipped];
    assert forall j :: j in held ==> j in after && after[j] == held[j];
    assert FilledKeys(after) == FilledKeys(held);
    assert SkippedKeys(after) == SkippedKeys(held) + {k};
  }

  lemma CountRemove(held: map<nat, Held>, k: nat)
    requires k in held
    ensures |FilledKeys(held - {k})| == |FilledKeys(held)| - if held[k].Filled? then 1 else 0
    ensures |SkippedKeys(held - {k})| == |SkippedKeys(held)| - if held[k].Skipped? then 1 else 0
  {
    assert FilledKeys(held - {k}) == FilledKeys(held) - {k};
    assert SkippedKeys(held - {k}) == SkippedKeys(held) - {k};
    assert k in if held[k].Filled? then FilledKeys(held) else SkippedKeys(held);
  }

  // ---- Each operation keeps the stream good ----

  /** The accounts once `pending` accepted messages have still to be stored. */
  ghost predicate BalancedBut(s: Sequencer, pending: nat) {
    Balanced(s.(stats := s.stats.(duplicates := s.stats.duplicates + pending)))
  }

  /** Good, except that `pending` accepted messages have still to be stored. */
  ghost predicate GoodBut(s: Sequencer, pending: nat) {
    Windowed(s) && BalancedBut(s, pending) && Ordered(s) && s.started
  }

  /** The gap and request counters take no part in the accounts. */
  lemma GapCountersFree(s: Sequencer, gaps: nat, missing: nat, requests: nat)
    requires GoodBut(s, 0)
    ensures GoodBut(s.(stats := s.stats.(gapsDetected := gaps, missingMessages := missing,
                                         recoveryRequests := requests)), 0)
  {
  }

  lemma StoreGood(s: Sequencer, f: FeedMessage)
    requires GoodBut(s, 1) && s.expected <= f.message.sequence < s.expected + s.capacity
    ensures GoodBut(Store(s, f), 0)
  {
    if !IsFilled(s, f.message.sequence) {
      CountFill(s.held, f.message.sequence, f);
    }
  }

  lemma StoreRecoveredGood(s: Sequencer, m: Message)
    requires GoodBut(s, 0)
    ensures GoodBut(StoreRecovered(s, m), 0)
  {
    if !IsFilled(s, m.sequence) {
      CountFill(s.held, m.sequence, FeedMessage(m, true));
    }
  }

  lemma {:induction false} StoreAllGood(s: Sequencer, ms: seq<Message>)
    requires GoodBut(s, 0)
    ensures GoodBut(StoreAll(s, ms), 0)
  {
    if ms != [] {
      StoreAllGood(s, ms[..|ms| - 1]);
      StoreRecoveredGood(StoreAll(s, ms[..|ms| - 1]), ms[|ms| - 1]);
    }
  }

  lemma {:induction false} RequestChunksGood(s: Sequencer, start: nat, to: nat, request: (nat, nat) -> Reply)
    requires GoodBut(s, 0)
    ensures GoodBut(RequestChunks(s, start, to, request), 0)
    ensures RequestChunks(s, start, to, request).expected == s.expected
    ensures RequestChunks(s, start, to, request).capacity == s.capacity
    decreases 1 + to - start
  {
    hide Windowed, BalancedBut, Ordered;
    if start <= to {
      var end := ChunkEnd(start, to);
      var t := s.(stats := s.stats.(recoveryRequests := s.stats.recoveryRequests + 1));
      GapCountersFree(s, s.stats.gapsDetected, s.stats.missingMessages, s.stats.recoveryRequests + 1);
      match request(start, end)
      case Failed =>
      case Answer(ms) =>
        StoreAllGood(t, ms);
        StoreAllKeeps(t, ms);
        RequestChunksGood(StoreAll(t, ms), start + MAX_RECOVERY_BATCH, to, request);
    }
  }

  /** Recovery only ever fills slots; it neither moves the stream nor delivers. */
  lemma {:induction false} StoreAllKeeps(s: Sequencer, ms: seq<Message>)
    ensures var t := StoreAll(s, ms);
            && t.expected == s.expected && t.capacity == s.capacity && t.started == s.started
            && s.held.Keys <= t.held.Keys
            && forall k :: IsFilled(s, k) ==> IsFilled(t, k) && t.held[k] == s.held[k]
  {
    if ms != [] {
      StoreAllKeeps(s, ms[..|ms| - 1]);
    }
  }

  lemma SkipOneGood(s: Sequencer, k: nat)
    requires GoodBut(s, 0) && s.expected <= k < s.expected + s.capacity && k !in s.held
    ensures GoodBut(s.(held := s.held[k := Skipped], stats := s.stats.(unrecoverable := s.stats.unrecoverable + 1)), 0)
  {
    CountSkip(s.held, k);
  }

  lemma {:induction false} SkipRangeGood(s: Sequencer, from: nat, to: nat)
    requires GoodBut(s, 0) && s.expected <= from && to <= s.expected + s.capacity
    ensures var t := SkipRange(s, from, to);
            && GoodBut(t, 0) && t.expected == s.expected && t.capacity == s.capacity
            && (forall k :: k in s.held ==> k in t.held && t.held[k] == s.held[k])
            && (forall k :: from <= k < to ==> k in t.held)
            && forall k :: k in t.held && k !in s.held ==> t.held[k] == Skipped && from <= k < to
    decreases 0 + to - from
  {
    hide GoodBut;
    if from < to {
      SkipRangeGood(s, from, to - 1);
      var t := SkipRange(s, from, to - 1);
      if to - 1 !in t.held {
        SkipOneGood(t, to - 1);
      }
    }
  }

  lemma RecoverRangeGood(s: Sequencer, from: nat, to: nat, recovery: Recovery)
    requires GoodBut(s, 0) && s.expected <= from <= to < s.expected + s.capacity
    ensures GoodBut(RecoverRange(s, from, to, recovery), 0)
  {
    hide Windowed, BalancedBut, Ordered;
    var t := s.(stats := s.stats.(gapsDetected := s.stats.gapsDetected + 1,
                                  missingMessages := s.stats.missingMessages + (to - from + 1)));
    GapCountersFree(s, s.stats.gapsDetected + 1, s.stats.missingMessages + (to - from + 1), s.stats.recoveryRequests);
    match recovery
    case NoRecovery =>
      SkipRangeGood(t, from, to + 1);
    case Client(request) =>
      RequestChunksGood(t, from, to, request);
      SkipRangeGood(RequestChunks(t, from, to, request), from, to + 1);
  }

  lemma ResynchronizeGood(s: Sequencer, f: FeedMessage)
    requires GoodBut(s, 1) && s.expected <= f.message.sequence
    ensures GoodBut(Resynchronize(s, f), 0)
  {
    CountFill(map[], f.message.sequence, f);
    assert FilledKeys(map[]) == {} && SkippedKeys(map[]) == {};
  }

  /** Accepting any message, whatever recovery answers, keeps the window, the accounts and the order. */
  lemma AcceptGood(s: Sequencer, f: FeedMessage, recovery: Recovery)
    requires Good(s)
    ensures Good(Accept(s, f, recovery))
  {
    hide Good, GoodBut, RecoverRange, Resynchronize;
    var k := f.message.sequence;
    var t := Start(s.(stats := s.stats.(accepted := s.stats.accepted + 1)), k);
    StartGood(s, k);
    if k < t.expected {
      RefusedGood(t);
    } else if k - t.expected >= t.capacity {
      ResynchronizeGood(t, f);
      SettledGood(Resynchronize(t, f));
    } else {
      StoreGood(t, f);
      if k > t.expected && t.expected !in t.held {
        RecoverRangeGood(Store(t, f), t.expected, k - 1, recovery);
      }
      SettledGood(Accept(s, f, recovery));
    }
  }

  lemma SettledGood(s: Sequencer)
    requires GoodBut(s, 0)
    ensures Good(s)
  {
  }

  /** A message that is behind the stream is counted as a duplicate. */
  lemma RefusedGood(s: Sequencer)
    requires GoodBut(s, 1)
    ensures Good(s.(stats := s.stats.(duplicates := s.stats.duplicates + 1)))
  {
  }

  lemma StartGood(s: Sequencer, k: nat)
    requires Good(s)
    ensures GoodBut(Start(s.(stats := s.stats.(accepted := s.stats.accepted + 1)), k), 1)
  {
    if !s.started {
      assert FilledKeys(s.held) == {} && SkippedKeys(s.held) == {};
    }
  }

  lemma AdvanceGood(s: Sequencer)
    requires Good(s) && s.expected in s.held
    ensures Good(Advance(s))
  {
    CountRemove(s.held, s.expected);
  }

  /** Taking the next message keeps the window, the accounts and the order, and appends it to what was delivered. */
  lemma {:induction false} NextGood(s: Sequencer)
    requires Good(s)
    ensures var d := Next(s);
            && Good(d.state)
            && d.state.ledger.out == s.ledger.out + (if d.message.Some? then [d.message.value] else [])
            && (d.message.None? && s.started ==> d.state.expected !in d.state.held)
            && (d.message.Some? ==> d.message.value.message.sequence == d.state.expected - 1 >= s.expected)
    decreases |s.held|
  {
    if s.started && s.expected in s.held {
      AdvanceGood(s);
      if s.held[s.expected].Skipped? {
        NextGood(Advance(s));
      }
    }
  }

  // ---- Whole runs ----

  datatype Event = Take(message: FeedMessage, recovery: Recovery) | Pull

  function Step(s: Sequencer, e: Event): Sequencer {
    match e
    case Take(f, recovery) => Accept(s, f, recovery)
    case Pull => Next(s).state
  }

  /** The sequencer after any interleaving of arrivals and deliveries. */
  function Run(capacity: nat, events: seq<Event>): Sequencer {
    if events == [] then Initial(capacity) else Step(Run(capacity, events[..|events| - 1]), events[|events| - 1])
  }

  /** In every run: each filled slot holds its own number within the window, deliveries strictly increase,
      and the accounts close. */
  lemma {:induction false} RunGood(capacity: nat, events: seq<Event>)
    requires capacity > 0
    ensures Good(Run(capacity, events))
  {
    if events != [] {
      var before := events[..|events| - 1];
      RunGood(capacity, before);
      match events[|events| - 1]
      case Take(f, recovery) => AcceptGood(Run(capacity, before), f, recovery);
      case Pull => NextGood(Run(capacity, before));
    } else {
      assert FilledKeys(map[]) == {} && SkippedKeys(map[]) == {};
    }
  }

  /** Numbers the stream has moved past are delivered or counted as unrecoverable. */
  lemma NothingSilentlyLost(capacity: nat, events: seq<Event>)
    requires capacity > 0
    ensures var s := Run(capacity, events);
            s.stats.delivered + s.stats.unrecoverable >= s.expected - s.ledger.first
  {
    RunGood(capacity, events);
  }

  // ---- What accepting leaves alone ----

  /** Delivery history and stream position. */
  predicate SameStream(s: Sequencer, t: Sequencer) {
    t.expected == s.expected && t.started == s.started && t.ledger.first == s.ledger.first
    && t.ledger.out == s.ledger.out && t.ledger.passed == s.ledger.passed
  }

  lemma {:induction false} StoreAllStream(s: Sequencer, ms: seq<Message>)
    ensures SameStream(s, StoreAll(s, ms))
  {
    if ms != [] {
      StoreAllStream(s, ms[..|ms| - 1]);
    }
  }

  lemma {:induction false} RequestChunksStream(s: Sequencer, start: nat, to: nat, request: (nat, nat) -> Reply)
    ensures SameStream(s, RequestChunks(s, start, to, request))
    decreases 1 + to - start
  {
    if start <= to {
      var end := ChunkEnd(start, to);
      var t := s.(stats := s.stats.(recoveryRequests := s.stats.recoveryRequests + 1));
      match request(start, end)
      case Failed =>
      case Answer(ms) =>
        StoreAllStream(t, ms);
        RequestChunksStream(StoreAll(t, ms), start + MAX_RECOVERY_BATCH, to, request);
    }
  }

  lemma {:induction false} SkipRangeStream(s: Sequencer, from: nat, to: nat)
    ensures SameStream(s, SkipRange(s, from, to))
    decreases 0 + to - from
  {
    if from < to {
      SkipRangeStream(s, from, to - 1);
    }
  }

  /** Accepting delivers nothing; unless it overflows the window or starts the stream, it does not move it. */
  lemma AcceptStream(s: Sequencer, f: FeedMessage, recovery: Recovery)
    ensures var t := Accept(s, f, recovery);
            && t.started && t.ledger.out == s.ledger.out
            && (s.started ==> t.ledger.first == s.ledger.first)
            && (s.started && f.message.sequence < s.expected + s.capacity ==> SameStream(s, t))
            && (!s.started && s.capacity > 0 ==>
                  SameStream(s.(started := true, expected := f.message.sequence,
                                ledger := s.ledger.(first := f.message.sequence)), t))
  {
    var k := f.message.sequence;
    var t := Start(s.(stats := s.stats.(accepted := s.stats.accepted + 1)), k);
    if t.expected < k < t.expected + t.capacity && t.expected !in t.held {
      var u := Store(t, f);
      var from, to := t.expected, k - 1;
      var v := u.(stats := u.stats.(gapsDetected := u.stats.gapsDetected + 1,
                                    missingMessages := u.stats.missingMessages + (to - from + 1)));
      if recovery.Client? {
        RequestChunksStream(v, from, to, recovery.request);
        SkipRangeStream(RequestChunks(v, from, to, recovery.request), from, k);
      } else {
        SkipRangeStream(v, from, k);
      }
    }
  }

  // ---- Where messages come from ----

  /** Every message held or delivered satisfies `p`. */
  ghost predicate AllFrom(s: Sequencer, p: FeedMessage -> bool) {
    && (forall k :: IsFilled(s, k) ==> p(s.held[k].payload))
    && forall i :: 0 <= i < |s.ledger.out| ==> p(s.ledger.out[i])
  }

  lemma {:induction false} StoreAllFrom(s: Sequencer, ms: seq<Message>, p: FeedMessage -> bool)
    requires AllFrom(s, p) && forall m :: m in ms ==> p(FeedMessage(m, true))
    ensures AllFrom(StoreAll(s, ms), p)
  {
    if ms != [] {
      StoreAllFrom(s, ms[..|ms| - 1], p);
    }
  }

  lemma {:induction false} RequestChunksFrom(s: Sequencer, start: nat, to: nat, request: (nat, nat) -> Reply,
                                             p: FeedMessage -> bool)
    requires AllFrom(s, p) && forall m :: m in Answers(request, start, to) ==> p(FeedMessage(m, true))
    ensures AllFrom(RequestChunks(s, start, to, request), p)
    decreases 1 + to - start
  {
    if start <= to {
      var t := s.(stats := s.stats.(recoveryRequests := s.stats.recoveryRequests + 1));
      match request(start, ChunkEnd(start, to))
      case Failed =>
      case Answer(ms) =>
        StoreAllFrom(t, ms, p);
        RequestChunksFrom(StoreAll(t, ms), start + MAX_RECOVERY_BATCH, to, request, p);
    }
  }

  lemma {:induction false} SkipRangeFrom(s: Sequencer, from: nat, to: nat, p: FeedMessage -> bool)
    requires AllFrom(s, p)
    ensures AllFrom(SkipRange(s, from, to), p)
    decreases 0 + to - from
  {
    if from < to {
      SkipRangeFrom(s, from, to - 1, p);
    }
  }

  lemma RecoverRangeFrom(s: Sequencer, from: nat, to: nat, recovery: Recovery, p: FeedMessage -> bool)
    requires from <= to && AllFrom(s, p)
    requires recovery.Client? ==> forall m :: m in Answers(recovery.request, from, to) ==> p(FeedMessage(m, true))
    ensures AllFrom(RecoverRange(s, from, to, recovery), p)
  {
    var t := s.(stats := s.stats.(gapsDetected := s.stats.gapsDetected + 1,
                                  missingMessages := s.stats.missingMessages + (to - from + 1)));
    if recovery.Client? {
      RequestChunksFrom(t, from, to, recovery.request, p);
      SkipRangeFrom(RequestChunks(t, from, to, recovery.request), from, to + 1, p);
    } else {
      SkipRangeFrom(t, from, to + 1, p);
    }
  }

  lemma AcceptFrom(s: Sequencer, f: FeedMessage, recovery: Recovery, p: FeedMessage -> bool)
    requires AllFrom(s, p) && p(f)
    requires forall m :: m in GapAnswers(s, f.message.sequence, recovery) ==> p(FeedMessage(m, true))
    ensures AllFrom(Accept(s, f, recovery), p)
  {
    hide Answers;
    var k := f.message.sequence;
    var t := Start(s.(stats := s.stats.(accepted := s.stats.accepted + 1)), k);
    if t.expected < k < t.expected + t.capacity && t.expected !in t.held {
      RecoverRangeFrom(Store(t, f), t.expected, k - 1, recovery, p);
    }
  }

  lemma {:induction false} NextFrom(s: Sequencer, p: FeedMessage -> bool)
    requires AllFrom(s, p)
    ensures AllFrom(Next(s).state, p)
    decreases |s.held|
  {
    if s.started && s.expected in s.held && s.held[s.expected].Skipped? {
      NextFrom(Advance(s), p);
    }
  }

  /** The event brought the message: it was accepted, or it was in an answer to a chunk that this arrival requested. */
  ghost predicate Brings(s: Sequencer, e: Event, p: FeedMessage) {
    && e.Take?
    && (|| e.message == p
        || (p.recovered && p.message in GapAnswers(s, e.message.message.sequence, e.recovery)))
  }

  ghost predicate Brought(capacity: nat, events: seq<Event>, p: FeedMessage) {
    exists i :: 0 <= i < |events| && Brings(Run(capacity, events[..i]), events[i], p)
  }

  lemma BroughtBefore(capacity: nat, events: seq<Event>, p: FeedMessage)
    requires events != [] && Brought(capacity, events[..|events| - 1], p)
    ensures Brought(capacity, events, p)
  {
    var before := events[..|events| - 1];
    var i :| 0 <= i < |before| && Brings(Run(capacity, before[..i]), before[i], p);
    assert before[..i] == events[..i] && before[i] == events[i];
  }

  /** In every run, each message held or delivered was accepted, or was answered to a request made at its arrival. */
  lemma {:induction false} RunFrom(capacity: nat, events: seq<Event>)
    ensures AllFrom(Run(capacity, events), p => Brought(capacity, events, p))
  {
    hide Accept, Next, GapAnswers;
    if events != [] {
      var last := |events| - 1;
      var before, e := events[..last], events[last];
      RunFrom(capacity, before);
      var p := p => Brought(capacity, events, p);
      forall q | Brought(capacity, before, q) ensures p(q) {
        BroughtBefore(capacity, events, q);
      }
      assert AllFrom(Run(capacity, before), p);
      match e
      case Take(f, recovery) =>
        forall q | Brings(Run(capacity, before), e, q) ensures p(q) {
          assert Brings(Run(capacity, events[..last]), events[last], q);
        }
        assert Brings(Run(capacity, before), e, f);
        forall m | m in GapAnswers(Run(capacity, before), f.message.sequence, recovery)
          ensures p(FeedMessage(m, true))
        {
          assert Brings(Run(capacity, before), e, FeedMessage(m, true));
        }
        AcceptFrom(Run(capacity, before), f, recovery, p);
      case Pull =>
        NextFrom(Run(capacity, before), p);
    }
  }
}
