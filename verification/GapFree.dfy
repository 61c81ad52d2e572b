/** When the delivered stream is free of gaps.  It is not always: an arrival can force the sequencer to give
    numbers up.  Which arrivals do is decided exactly, for every behaviour of recovery. */
module GapFree {
  import opened Market
  import opened Sequencing
  import opened Progress
  import opened History
  import opened Completeness
  import Venues

  /** Nothing has been skipped since the first published message. */
  ghost predicate Unbroken(q: Sequencer) {
    && q.ledger.passed == 0
    && (q.started ==> q.ledger.first == Venues.FIRST_SEQUENCE)
    && forall k :: !IsSkipped(q, k)
  }

  /** The arrival of number `k` costs nothing: it opens the stream where the exchange did, or it fits the window
      and recovery answers with every number it shows to be missing. */
  ghost predicate Harmless(q: Sequencer, k: nat, recovery: Recovery) {
    if !q.started then k == Venues.FIRST_SEQUENCE
    else
      && k < q.expected + q.capacity
      && (ShowsGap(q, k) ==>
            forall j: nat :: q.expected <= j < k && j !in q.held ==> Has(GapAnswers(q, k, recovery), j))
  }

  /** Recovery skips exactly the numbers of the range that were neither held nor answered. */
  lemma RecoverSkips(s: Sequencer, from: nat, to: nat, recovery: Recovery, j: nat)
    requires GoodBut(s, 0) && s.expected <= from <= to < s.expected + s.capacity && !IsSkipped(s, j)
    ensures IsSkipped(RecoverRange(s, from, to, recovery), j) <==>
            && from <= j <= to && j !in s.held
            && !(recovery.Client? && Has(Answers(recovery.request, from, to), j))
  {
    hide Windowed, BalancedBut, Ordered, RequestChunks, SkipRange, Answers, Has;
    var t := s.(stats := s.stats.(gapsDetected := s.stats.gapsDetected + 1,
                                  missingMessages := s.stats.missingMessages + (to - from + 1)));
    GapCountersFree(s, s.stats.gapsDetected + 1, s.stats.missingMessages + (to - from + 1), s.stats.recoveryRequests);
    match recovery
    case NoRecovery =>
      SkipRangeGood(t, from, to + 1);
    case Client(request) =>
      RequestChunksGood(t, from, to, request);
      ChunksHeld(t, from, to, request, j);
      SkipRangeGood(RequestChunks(t, from, to, request), from, to + 1);
  }

  // ---- Exactly which arrivals break the stream ----

  /** Whatever recovery does, an unbroken stream stays unbroken exactly on a harmless arrival. */
  lemma UnbrokenIff(q: Sequencer, f: FeedMessage, recovery: Recovery)
    requires Good(q) && Unbroken(q)
    ensures Unbroken(Accept(q, f, recovery)) <==> Harmless(q, f.message.sequence, recovery)
  {
    hide RecoverRange, Balanced, Ordered, Has, Answers;
    var k := f.message.sequence;
    AcceptStream(q, f, recovery);
    var t := Start(q.(stats := q.stats.(accepted := q.stats.accepted + 1)), k);
    assert forall j :: IsSkipped(t, j) ==> IsSkipped(q, j);
    assert forall j :: IsSkipped(Store(t, f), j) ==> IsSkipped(t, j);
    if t.expected < k < t.expected + t.capacity && t.expected !in t.held {
      GapUnbrokenIff(q, f, recovery);
    } else if k < t.expected {
      assert Accept(q, f, recovery).held == t.held;
      assert forall j :: IsSkipped(Accept(q, f, recovery), j) ==> IsSkipped(t, j);
    } else if k - t.expected >= t.capacity {
      assert Accept(q, f, recovery).ledger.passed > 0;
    } else {
      assert Accept(q, f, recovery) == Store(t, f);
    }
  }

  lemma GapUnbrokenIff(q: Sequencer, f: FeedMessage, recovery: Recovery)
    requires Good(q) && Unbroken(q) && ShowsGap(q, f.message.sequence)
    ensures Unbroken(Accept(q, f, recovery)) <==> Harmless(q, f.message.sequence, recovery)
  {
    hide RecoverRange, GoodBut, Good, Has, Answers;
    var k := f.message.sequence;
    AcceptStream(q, f, recovery);
    var t := q.(stats := q.stats.(accepted := q.stats.accepted + 1));
    StartGood(q, k);
    StoredGood(t, f);
    var u := Store(t, f);
    var v := RecoverRange(u, q.expected, k - 1, recovery);
    assert Accept(q, f, recovery) == v;
    forall j: nat
      ensures IsSkipped(v, j) <==> q.expected <= j < k && j !in q.held && !Has(GapAnswers(q, k, recovery), j)
    {
      assert !IsSkipped(q, j);
      HasNone(j);
      RecoverSkips(u, q.expected, k - 1, recovery, j);
    }
  }

  lemma StoredGood(t: Sequencer, f: FeedMessage)
    requires GoodBut(t, 1) && t.expected <= f.message.sequence < t.expected + t.capacity
    ensures GoodBut(Store(t, f), 0) && Store(t, f).expected == t.expected && Store(t, f).capacity == t.capacity
  {
    StoreGood(t, f);
  }

  lemma NextUnbroken(q: Sequencer)
    requires Unbroken(q)
    ensures Unbroken(Next(q).state)
  {
    if q.started && q.expected in q.held {
      assert !IsSkipped(q, q.expected);
      var t := Advance(q);
      forall k ensures !IsSkipped(t, k) {
        assert !IsSkipped(q, k);
      }
    }
  }

  // ---- With the exchange's history behind recovery ----

  /** The recovery server while the exchange goes on publishing: the request that starts at `a` is answered from the log
      as it is by then, `logAt(a)`. */
  function MovingClient(logAt: nat -> seq<Message>, capacity: nat): Recovery {
    Client((from: nat, to: nat) => Served(logAt(from), capacity, from, to))
  }

  /** Where the chunk begins in which number `j` of a range from `start` is requested. */
  function ChunkStart(start: nat, j: nat): nat
    decreases 1 + j - start
  {
    if j < start + MAX_RECOVERY_BATCH then start else ChunkStart(start + MAX_RECOVERY_BATCH, j)
  }

  lemma ServedHas(log: seq<Message>, capacity: nat, from: nat, to: nat, j: nat)
    requires Consecutive(log) && from <= to < from + MAX_RECOVERY_BATCH
    ensures Served(log, capacity, from, to).Answer?
    ensures Has(Served(log, capacity, from, to).messages, j) <==> from <= j <= to && Retained(log, capacity, j)
  {
    hide Retained;
    ServedExactly(log, capacity, from, to);
    var ms := Served(log, capacity, from, to).messages;
    if ms != [] {
      var lo := if from < Oldest(log, capacity) then Oldest(log, capacity) else from;
      if lo <= j < lo + |ms| {
        assert ms[j - lo].sequence == j;
      }
    }
  }

  /** Over all the chunks of a range, a number is answered exactly when the history retains it at the moment its own
      chunk is requested. */
  lemma {:induction false} MovingAnswers(logAt: nat -> seq<Message>, capacity: nat, start: nat, to: nat, j: nat)
    requires forall a: nat :: Consecutive(logAt(a))
    ensures Has(Answers(MovingClient(logAt, capacity).request, start, to), j) <==>
            start <= j <= to && Retained(logAt(ChunkStart(start, j)), capacity, j)
    decreases 1 + to - start
  {
    hide Served, Retained, Has, Consecutive;
    var request := MovingClient(logAt, capacity).request;
    if start <= to {
      var end := ChunkEnd(start, to);
      assert Consecutive(logAt(start));
      ServedHas(logAt(start), capacity, start, end, j);
      assert request(start, end) == Served(logAt(start), capacity, start, end);
      MovingAnswers(logAt, capacity, start + MAX_RECOVERY_BATCH, to, j);
      HasAppend(request(start, end).messages, Answers(request, start + MAX_RECOVERY_BATCH, to), j);
    } else {
      HasNone(j);
    }
  }

  /** The condition on the history: each missing number is still retained when the chunk it lies in is requested. */
  ghost predicate Retaining(q: Sequencer, k: nat, logAt: nat -> seq<Message>, capacity: nat) {
    if !q.started then k == Venues.FIRST_SEQUENCE
    else
      && k < q.expected + q.capacity
      && (ShowsGap(q, k) ==>
            forall j: nat :: q.expected <= j < k && j !in q.held ==>
              Retained(logAt(ChunkStart(q.expected, j)), capacity, j))
  }

  /** Behind the recovery server an arrival is harmless exactly under that condition. */
  lemma HarmlessServed(q: Sequencer, k: nat, logAt: nat -> seq<Message>, capacity: nat)
    requires forall a: nat :: Consecutive(logAt(a))
    ensures Harmless(q, k, MovingClient(logAt, capacity)) <==> Retaining(q, k, logAt, capacity)
  {
    hide Answers, Retained, Has, ChunkStart;
    if ShowsGap(q, k) {
      forall j: nat | q.expected <= j < k
        ensures Has(GapAnswers(q, k, MovingClient(logAt, capacity)), j) <==>
                Retained(logAt(ChunkStart(q.expected, j)), capacity, j)
      {
        MovingAnswers(logAt, capacity, q.expected, k - 1, j);
      }
    }
  }

  /** A gap of one batch is answered from one log. */
  lemma OneBatch(q: Sequencer, k: nat, logAt: nat -> seq<Message>, capacity: nat)
    requires q.started && k <= q.expected + MAX_RECOVERY_BATCH
    ensures Retaining(q, k, logAt, capacity) <==>
            && k < q.expected + q.capacity
            && (ShowsGap(q, k) ==>
                  forall j: nat :: q.expected <= j < k && j !in q.held ==> Retained(logAt(q.expected), capacity, j))
  {
    forall j: nat | q.expected <= j < k ensures ChunkStart(q.expected, j) == q.expected {
    }
  }

  /** A history as long as everything published while the gap is recovered retains it all: then an arrival is harmless
      exactly when it opens the stream with the first message or fits the window. */
  lemma LargeHistory(q: Sequencer, k: nat, log: seq<Message>, logAt: nat -> seq<Message>, capacity: nat)
    requires log != [] && log[0].sequence == Venues.FIRST_SEQUENCE
    requires forall a: nat :: log <= logAt(a) && |logAt(a)| <= capacity
    requires k < Venues.FIRST_SEQUENCE + |log| && (q.started ==> q.expected >= Venues.FIRST_SEQUENCE)
    ensures Retaining(q, k, logAt, capacity) <==>
            if q.started then k < q.expected + q.capacity else k == Venues.FIRST_SEQUENCE
  {
    hide ChunkStart;
  }
}
