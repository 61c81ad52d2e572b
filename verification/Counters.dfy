/** What the sequencer's counters count, over every run and for every behaviour of recovery. */
module Counters {
  import opened Market
  import opened Sequencing
  import opened Progress

  // ---- Requests ----

  /** Number of requests made for [start, to]: one for each chunk, up to and including the first that fails. */
  function Asked(request: (nat, nat) -> Reply, start: nat, to: nat): nat
    decreases 1 + to - start
  {
    if start > to then 0
    else if request(start, ChunkEnd(start, to)).Failed? then 1
    else 1 + Asked(request, start + MAX_RECOVERY_BATCH, to)
  }

  /** The reply to chunk `i` of [start, to]. */
  function ChunkReply(request: (nat, nat) -> Reply, start: nat, to: nat, i: nat): Reply {
    request(start + i * MAX_RECOVERY_BATCH, ChunkEnd(start + i * MAX_RECOVERY_BATCH, to))
  }

  /** All chunks before the last one asked for are answered, and if there are chunks left the last one failed. */
  lemma {:induction false} AskedExactly(request: (nat, nat) -> Reply, start: nat, to: nat, i: nat)
    requires start <= to
    ensures var asked, chunks := Asked(request, start, to), (to - start) / MAX_RECOVERY_BATCH + 1;
            && 1 <= asked <= chunks
            && (i + 1 < asked ==> ChunkReply(request, start, to, i).Answer?)
            && (asked < chunks ==> ChunkReply(request, start, to, asked - 1).Failed?)
    decreases 1 + to - start
  {
    if request(start, ChunkEnd(start, to)).Answer? && start + MAX_RECOVERY_BATCH <= to {
      AskedExactly(request, start + MAX_RECOVERY_BATCH, to, if i > 0 then i - 1 else 0);
    }
  }

  // ---- One operation ----

  lemma {:induction false} StoreAllCounts(s: Sequencer, ms: seq<Message>)
    ensures var t := StoreAll(s, ms); t.stats == s.stats.(messagesRecovered := t.stats.messagesRecovered)
  {
    if ms != [] {
      StoreAllCounts(s, ms[..|ms| - 1]);
    }
  }

  lemma {:induction false} RequestChunksCounts(s: Sequencer, start: nat, to: nat, request: (nat, nat) -> Reply)
    ensures var t := RequestChunks(s, start, to, request);
            t.stats == s.stats.(recoveryRequests := s.stats.recoveryRequests + Asked(request, start, to),
                                messagesRecovered := t.stats.messagesRecovered)
    decreases 1 + to - start
  {
    hide StoreAll;
    if start <= to {
      var t := s.(stats := s.stats.(recoveryRequests := s.stats.recoveryRequests + 1));
      match request(start, ChunkEnd(start, to))
      case Failed =>
      case Answer(ms) =>
        StoreAllCounts(t, ms);
        RequestChunksCounts(StoreAll(t, ms), start + MAX_RECOVERY_BATCH, to, request);
    }
  }

  lemma {:induction false} SkipRangeCounts(s: Sequencer, from: nat, to: nat)
    ensures var t := SkipRange(s, from, to); t.stats == s.stats.(unrecoverable := t.stats.unrecoverable)
    decreases 0 + to - from
  {
    if from < to {
      SkipRangeCounts(s, from, to - 1);
    }
  }

  /** Requests that the arrival of `k` causes. */
  function AskedAt(s: Sequencer, k: nat, recovery: Recovery): nat {
    if recovery.Client? && ShowsGap(s, k) then Asked(recovery.request, s.expected, k - 1) else 0
  }

  lemma RecoverRangeCounts(s: Sequencer, from: nat, to: nat, recovery: Recovery)
    requires from <= to
    ensures var t := RecoverRange(s, from, to, recovery);
            var asked := if recovery.Client? then Asked(recovery.request, from, to) else 0;
            t.stats == s.stats.(gapsDetected := s.stats.gapsDetected + 1,
                                missingMessages := s.stats.missingMessages + (to - from + 1),
                                recoveryRequests := s.stats.recoveryRequests + asked,
                                messagesRecovered := t.stats.messagesRecovered,
                                unrecoverable := t.stats.unrecoverable)
  {
    hide RequestChunks, SkipRange, Asked;
    var u := s.(stats := s.stats.(gapsDetected := s.stats.gapsDetected + 1,
                                  missingMessages := s.stats.missingMessages + (to - from + 1)));
    match recovery
    case NoRecovery =>
      SkipRangeCounts(u, from, to + 1);
    case Client(request) =>
      RequestChunksCounts(u, from, to, request);
      SkipRangeCounts(RequestChunks(u, from, to, request), from, to + 1);
  }

  predicate Overflows(s: Sequencer, k: nat) {
    s.started && k >= s.expected + s.capacity
  }

  /** The number is behind the stream, or a message with it is held. */
  predicate Repeats(s: Sequencer, k: nat) {
    (s.started && k < s.expected) || IsFilled(s, k)
  }

  /** What an arrival adds to each counter. */
  lemma AcceptCounts(s: Sequencer, f: FeedMessage, recovery: Recovery)
    requires Windowed(s)
    ensures var t, k := Accept(s, f, recovery), f.message.sequence;
            && t.stats.accepted == s.stats.accepted + 1
            && t.stats.delivered == s.stats.delivered
            && t.stats.duplicates == s.stats.duplicates + (if Repeats(s, k) then 1 else 0)
            && t.stats.gapsDetected == s.stats.gapsDetected + (if ShowsGap(s, k) then 1 else 0)
            && t.stats.missingMessages == s.stats.missingMessages + (if ShowsGap(s, k) then k - s.expected else 0)
            && t.stats.recoveryRequests == s.stats.recoveryRequests + AskedAt(s, k, recovery)
            && t.stats.reorderOverflows == s.stats.reorderOverflows + (if Overflows(s, k) then 1 else 0)
  {
    hide RecoverRange, Asked;
    var k := f.message.sequence;
    if ShowsGap(s, k) {
      var t := Store(s.(stats := s.stats.(accepted := s.stats.accepted + 1)), f);
      RecoverRangeCounts(t, s.expected, k - 1, recovery);
    }
  }

  /** Taking a message changes no counter but that of deliveries. */
  lemma {:induction false} NextCounts(s: Sequencer)
    ensures var d := Next(s);
            d.state.stats == s.stats.(delivered := s.stats.delivered + if d.message.Some? then 1 else 0)
    decreases |s.held|
  {
    if s.started && s.expected in s.held && s.held[s.expected].Skipped? {
      NextCounts(Advance(s));
    }
  }

  // ---- Whole runs ----

  /** Sum over the arrivals of a run, each weighed in the state it finds. */
  ghost function Over(capacity: nat, events: seq<Event>, weight: (Sequencer, nat, Recovery) -> nat): nat {
    if events == [] then 0
    else
      var last := |events| - 1;
      Over(capacity, events[..last], weight)
      + match events[last]
        case Take(f, recovery) => weight(Run(capacity, events[..last]), f.message.sequence, recovery)
        case Pull => 0
  }

  function One(s: Sequencer, k: nat, recovery: Recovery): nat {
    1
  }

  function Repeated(s: Sequencer, k: nat, recovery: Recovery): nat {
    if Repeats(s, k) then 1 else 0
  }

  function Gap(s: Sequencer, k: nat, recovery: Recovery): nat {
    if ShowsGap(s, k) then 1 else 0
  }

  function GapLength(s: Sequencer, k: nat, recovery: Recovery): nat {
    if ShowsGap(s, k) then k - s.expected else 0
  }

  function Overflow(s: Sequencer, k: nat, recovery: Recovery): nat {
    if Overflows(s, k) then 1 else 0
  }

  /** In every run: `accepted` is the number of arrivals, `duplicates` of those that repeat a number, `gapsDetected` of
      those that show a gap, `reorderOverflows` of those that overflow the window; `missingMessages` is the length of
      all gaps, `recoveryRequests` the number of chunks asked for, and `delivered` the number of messages taken. */
  lemma {:induction false} CountersExact(capacity: nat, events: seq<Event>)
    requires capacity > 0
    ensures var s := Run(capacity, events);
            && s.stats.accepted == Over(capacity, events, One)
            && s.stats.duplicates == Over(capacity, events, Repeated)
            && s.stats.gapsDetected == Over(capacity, events, Gap)
            && s.stats.missingMessages == Over(capacity, events, GapLength)
            && s.stats.recoveryRequests == Over(capacity, events, AskedAt)
            && s.stats.reorderOverflows == Over(capacity, events, Overflow)
            && s.stats.delivered == |s.ledger.out|
  {
    hide Accept, Next, ShowsGap, Repeats, Overflows, AskedAt, Windowed, Ordered;
    RunGood(capacity, events);
    if events != [] {
      var last := |events| - 1;
      var s := Run(capacity, events[..last]);
      CountersExact(capacity, events[..last]);
      RunGood(capacity, events[..last]);
      match events[last]
      case Take(f, recovery) => AcceptCounts(s, f, recovery);
      case Pull => NextCounts(s);
    }
  }
}
