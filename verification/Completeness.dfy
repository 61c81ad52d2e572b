/** The sequencer served by the exchange's history: what a gap ends up holding. */
module Completeness {
  import opened Market
  import opened Sequencing
  import opened Progress
  import opened History

  /** A recovery client connected to a history with the given log. */
  function HistoryClient(log: seq<Message>, capacity: nat): Recovery {
    Client((from: nat, to: nat) => Served(log, capacity, from, to))
  }

  function SlotOf(s: Sequencer, k: nat): Option<Held> {
    if k in s.held then Some(s.held[k]) else None
  }

  /** What recovery should leave in slot `k`: a held message stays, a retained one is fetched. */
  function Recovered(s: Sequencer, log: seq<Message>, capacity: nat, k: nat): Option<Held>
    requires Consecutive(log)
  {
    if IsFilled(s, k) then Some(s.held[k])
    else if Retained(log, capacity, k) then Some(Filled(FeedMessage(log[k - log[0].sequence], true)))
    else SlotOf(s, k)
  }

  /** The slots of `lo..hi` are as recovery should leave them; the others are untouched. */
  ghost predicate RecoveredRange(s: Sequencer, t: Sequencer, log: seq<Message>, capacity: nat, lo: nat, hi: nat)
    requires Consecutive(log)
  {
    && t.expected == s.expected && t.capacity == s.capacity
    && forall k: nat :: SlotOf(t, k) == if lo <= k < hi then Recovered(s, log, capacity, k) else SlotOf(s, k)
  }

  /** Storing a run of consecutive messages fills exactly the slots that were not filled. */
  lemma {:induction false} StoreRun(s: Sequencer, ms: seq<Message>, lo: nat)
    requires forall i :: 0 <= i < |ms| ==> ms[i].sequence == lo + i
    requires s.expected <= lo && lo + |ms| <= s.expected + s.capacity
    ensures var t := StoreAll(s, ms);
            && t.expected == s.expected && t.capacity == s.capacity
            && t.stats.recoveryRequests == s.stats.recoveryRequests
            && forall k: nat :: SlotOf(t, k) == if lo <= k < lo + |ms| && !IsFilled(s, k)
                                           then Some(Filled(FeedMessage(ms[k - lo], true))) else SlotOf(s, k)
  {
    if ms != [] {
      StoreRun(s, ms[..|ms| - 1], lo);
    }
  }

  /** A request of at most a batch is answered with exactly the retained messages of its range. */
  lemma ServedExactly(log: seq<Message>, capacity: nat, from: nat, to: nat)
    requires Consecutive(log) && from <= to < from + MAX_RECOVERY_BATCH
    ensures Served(log, capacity, from, to).Answer?
    ensures var ms := Served(log, capacity, from, to).messages;
            && (ms == [] ==> forall k: nat :: from <= k <= to ==> !Retained(log, capacity, k))
            && (ms != [] ==>
                  && log != []
                  && var lo := if from < Oldest(log, capacity) then Oldest(log, capacity) else from;
                     && lo + |ms| <= to + 1
                     && (forall i :: 0 <= i < |ms| ==>
                           ms[i] == log[lo + i - log[0].sequence] && ms[i].sequence == lo + i)
                     && forall k: nat :: from <= k <= to ==> (Retained(log, capacity, k) <==> lo <= k < lo + |ms|))
  {
  }

  /** The numbers of [from, upto) that the history retains are `lo` up to, not including, `hi`. */
  ghost predicate RetainedSpan(log: seq<Message>, capacity: nat, from: nat, upto: nat, lo: nat, hi: nat) {
    && log != [] && from <= lo && hi <= upto && Oldest(log, capacity) <= lo && hi <= log[0].sequence + |log|
    && (lo == from || lo == Oldest(log, capacity)) && (hi == upto || hi == log[0].sequence + |log|)
  }

  lemma FetchedIs(log: seq<Message>, capacity: nat, from: nat, upto: nat, limit: nat) returns (lo: nat, hi: nat)
    requires log != []
    ensures RetainedSpan(log, capacity, from, upto, lo, hi)
    ensures FetchedBelow(log, capacity, from, upto, limit) ==
            if hi <= lo || limit == 0 then []
            else log[lo - log[0].sequence..(if hi - lo <= limit then hi else lo + limit) - log[0].sequence]
  {
    lo := if from < Oldest(log, capacity) then Oldest(log, capacity) else from;
    hi := if upto < log[0].sequence + |log| then upto else log[0].sequence + |log|;
  }

  /** The messages are the first retained ones of the range, in order, and all of them unless they are a whole batch. */
  ghost predicate FirstRetained(log: seq<Message>, capacity: nat, from: nat, to: nat, ms: seq<Message>) {
    && |ms| <= 1024
    && (forall i :: 0 <= i < |ms| ==>
          Retained(log, capacity, ms[i].sequence) && log[ms[i].sequence - log[0].sequence] == ms[i])
    && (forall i :: 0 < i < |ms| ==> ms[i].sequence == ms[i - 1].sequence + 1)
    && forall k: nat :: from <= k <= to && Retained(log, capacity, k) ==>
         ms != [] && ms[0].sequence <= k && (k < ms[0].sequence + |ms| || |ms| == 1024)
  }

  lemma SpanAnswer(log: seq<Message>, capacity: nat, from: nat, to: nat, lo: nat, hi: nat, limit: nat,
                   ms: seq<Message>)
    requires Consecutive(log) && from <= to && RetainedSpan(log, capacity, from, to + 1, lo, hi)
    requires limit == if to - from + 1 > 1024 then 1024 else to - from + 1
    requires ms == if hi <= lo || limit == 0 then []
                   else log[lo - log[0].sequence..(if hi - lo <= limit then hi else lo + limit) - log[0].sequence]
    ensures FirstRetained(log, capacity, from, to, ms)
  {
    hide Consecutive, FirstRetained, Retained;
    if hi <= lo {
      EmptySpan(log, capacity, from, to, lo, hi);
    } else {
      var n := if hi - lo <= limit then hi - lo else limit;
      SpanRun(log, lo, n, ms);
      RunRetained(log, capacity, from, to, lo, hi, ms);
    }
  }

  lemma SpanRun(log: seq<Message>, lo: nat, n: nat, ms: seq<Message>)
    requires Consecutive(log) && log != [] && log[0].sequence <= lo && lo + n <= log[0].sequence + |log|
    requires ms == log[lo - log[0].sequence..lo + n - log[0].sequence]
    ensures forall i :: 0 <= i < |ms| ==> ms[i] == log[lo - log[0].sequence + i] && ms[i].sequence == lo + i
  {
  }

  lemma EmptySpan(log: seq<Message>, capacity: nat, from: nat, to: nat, lo: nat, hi: nat)
    requires RetainedSpan(log, capacity, from, to + 1, lo, hi) && hi <= lo
    ensures FirstRetained(log, capacity, from, to, [])
  {
  }

  lemma RunRetained(log: seq<Message>, capacity: nat, from: nat, to: nat, lo: nat, hi: nat, ms: seq<Message>)
    requires RetainedSpan(log, capacity, from, to + 1, lo, hi) && lo < hi && 0 < |ms| <= 1024
    requires |ms| == hi - lo || |ms| == 1024 <= hi - lo
    requires forall i :: 0 <= i < |ms| ==> ms[i] == log[lo - log[0].sequence + i] && ms[i].sequence == lo + i
    ensures FirstRetained(log, capacity, from, to, ms)
  {
  }

  lemma NoneRetained(log: seq<Message>, capacity: nat, from: nat, to: nat)
    requires log == []
    ensures FirstRetained(log, capacity, from, to, [])
  {
  }

  /** A request is refused exactly if its range is empty; any other is answered with the first retained messages. */
  lemma ServedAnswer(log: seq<Message>, capacity: nat, from: nat, to: nat)
    requires Consecutive(log)
    ensures Served(log, capacity, from, to).Failed? <==> to < from
    ensures from <= to ==> FirstRetained(log, capacity, from, to, Served(log, capacity, from, to).messages)
  {
    hide FetchedBelow, FirstRetained, Consecutive, RetainedSpan, Retained;
    if from <= to {
      var limit := if to - from + 1 > 1024 then 1024 else to - from + 1;
      assert Served(log, capacity, from, to) == Answer(FetchedBelow(log, capacity, from, to + 1, limit));
      if log == [] {
        FetchNone(log, capacity, from, to + 1, limit);
        NoneRetained(log, capacity, from, to);
      } else {
        var lo, hi := FetchedIs(log, capacity, from, to + 1, limit);
        SpanAnswer(log, capacity, from, to, lo, hi, limit, FetchedBelow(log, capacity, from, to + 1, limit));
      }
    }
  }

  lemma ServedRange(s: Sequencer, log: seq<Message>, capacity: nat, from: nat, to: nat)
    requires Consecutive(log) && from <= to < from + MAX_RECOVERY_BATCH
    requires s.expected <= from && to < s.expected + s.capacity
    ensures Served(log, capacity, from, to).Answer?
    ensures var t := StoreAll(s, Served(log, capacity, from, to).messages);
            && RecoveredRange(s, t, log, capacity, from, to + 1)
            && t.stats.recoveryRequests == s.stats.recoveryRequests
  {
    var t := StoreAll(s, Served(log, capacity, from, to).messages);
    forall k: nat
      ensures SlotOf(t, k) == if from <= k < to + 1 then Recovered(s, log, capacity, k) else SlotOf(s, k)
    {
      ServedSlot(s, log, capacity, from, to, k);
    }
    ServedKeeps(s, log, capacity, from, to);
  }

  lemma ServedKeeps(s: Sequencer, log: seq<Message>, capacity: nat, from: nat, to: nat)
    requires Consecutive(log) && from <= to < from + MAX_RECOVERY_BATCH
    requires s.expected <= from && to < s.expected + s.capacity
    ensures Served(log, capacity, from, to).Answer?
    ensures var t := StoreAll(s, Served(log, capacity, from, to).messages);
            t.expected == s.expected && t.capacity == s.capacity && t.stats.recoveryRequests == s.stats.recoveryRequests
  {
    ServedExactly(log, capacity, from, to);
    var ms := Served(log, capacity, from, to).messages;
    if ms != [] {
      StoreRun(s, ms, ms[0].sequence);
    }
  }

  lemma ServedSlot(s: Sequencer, log: seq<Message>, capacity: nat, from: nat, to: nat, k: nat)
    requires Consecutive(log) && from <= to < from + MAX_RECOVERY_BATCH
    requires s.expected <= from && to < s.expected + s.capacity
    ensures SlotOf(StoreAll(s, Served(log, capacity, from, to).messages), k)
         == if from <= k < to + 1 then Recovered(s, log, capacity, k) else SlotOf(s, k)
  {
    hide Served, Fetched, Retained, StoreAll, Consecutive;
    ServedAt(log, capacity, from, to, k);
    StoredAt(s, log, capacity, from, to, k);
  }

  /** Position of number `k` in an answer, if the answer has it. */
  ghost predicate AnsweredAt(ms: seq<Message>, k: nat) {
    ms != [] && ms[0].sequence <= k < ms[0].sequence + |ms|
  }

  lemma ServedAt(log: seq<Message>, capacity: nat, from: nat, to: nat, k: nat)
    requires Consecutive(log) && from <= to < from + MAX_RECOVERY_BATCH
    ensures Served(log, capacity, from, to).Answer?
    ensures var ms := Served(log, capacity, from, to).messages;
            && (AnsweredAt(ms, k) <==> from <= k <= to && Retained(log, capacity, k))
            && (AnsweredAt(ms, k) ==> ms[k - ms[0].sequence] == log[k - log[0].sequence])
  {
    ServedExactly(log, capacity, from, to);
  }

  lemma StoredAt(s: Sequencer, log: seq<Message>, capacity: nat, from: nat, to: nat, k: nat)
    requires Consecutive(log) && from <= to < from + MAX_RECOVERY_BATCH
    requires s.expected <= from && to < s.expected + s.capacity
    ensures Served(log, capacity, from, to).Answer?
    ensures var ms := Served(log, capacity, from, to).messages;
            SlotOf(StoreAll(s, ms), k) == if AnsweredAt(ms, k) && !IsFilled(s, k)
                                          then Some(Filled(FeedMessage(ms[k - ms[0].sequence], true))) else SlotOf(s, k)
  {
    ServedExactly(log, capacity, from, to);
    var ms := Served(log, capacity, from, to).messages;
    if ms != [] {
      StoreRun(s, ms, ms[0].sequence);
    }
  }

  /** Number of requests for a range: one for each full or partial batch. */
  function Requests(start: nat, to: nat): nat
    decreases 1 + to - start
  {
    if start > to then 0 else 1 + Requests(start + MAX_RECOVERY_BATCH, to)
  }

  lemma {:induction false} RequestsCount(start: nat, to: nat)
    requires start <= to
    ensures Requests(start, to) == (to - start) / MAX_RECOVERY_BATCH + 1
    decreases 1 + to - start
  {
    if start + MAX_RECOVERY_BATCH <= to {
      RequestsCount(start + MAX_RECOVERY_BATCH, to);
    }
  }

  /** The chunks together recover the whole range. */
  lemma {:induction false} ChunksRecover(s: Sequencer, log: seq<Message>, capacity: nat, start: nat, to: nat)
    requires Consecutive(log) && s.expected <= start && to < s.expected + s.capacity
    ensures var t := RequestChunks(s, start, to, HistoryClient(log, capacity).request);
            && RecoveredRange(s, t, log, capacity, start, to + 1)
            && t.stats.recoveryRequests == s.stats.recoveryRequests + Requests(start, to)
    decreases 1 + to - start
  {
    hide Recovered, StoreAll, Served;
    if start <= to {
      var end := ChunkEnd(start, to);
      var t := s.(stats := s.stats.(recoveryRequests := s.stats.recoveryRequests + 1));
      ServedRange(t, log, capacity, start, end);
      var u := StoreAll(t, Served(log, capacity, start, end).messages);
      ChunksRecover(u, log, capacity, start + MAX_RECOVERY_BATCH, to);
      RecoveredCompose(s, t, u, RequestChunks(u, start + MAX_RECOVERY_BATCH, to, HistoryClient(log, capacity).request),
                       log, capacity, start, end + 1, start + MAX_RECOVERY_BATCH, to + 1);
    }
  }

  lemma RecoveredCompose(s: Sequencer, t: Sequencer, u: Sequencer, v: Sequencer, log: seq<Message>, capacity: nat,
                         lo: nat, mid: nat, mid': nat, hi: nat)
    requires Consecutive(log) && lo <= mid <= hi && (mid == mid' || mid == hi <= mid')
    requires t.held == s.held && t.expected == s.expected && t.capacity == s.capacity
    requires RecoveredRange(t, u, log, capacity, lo, mid) && RecoveredRange(u, v, log, capacity, mid', hi)
    ensures RecoveredRange(s, v, log, capacity, lo, hi)
  {
    forall k: nat ensures SlotOf(v, k) == if lo <= k < hi then Recovered(s, log, capacity, k) else SlotOf(s, k) {
      assert SlotOf(u, k) == if lo <= k < mid then Recovered(t, log, capacity, k) else SlotOf(t, k);
      assert SlotOf(v, k) == if mid' <= k < hi then Recovered(u, log, capacity, k) else SlotOf(u, k);
    }
  }

  /** Recovery is complete: after a gap, every number of the range is held; it is the message that was
      already held or that the history retains, and it is skipped only if there is neither. */
  lemma RecoverRangeComplete(s: Sequencer, log: seq<Message>, capacity: nat, from: nat, to: nat)
    requires Consecutive(log) && GoodBut(s, 0) && s.expected <= from <= to < s.expected + s.capacity
    ensures var t := RecoverRange(s, from, to, HistoryClient(log, capacity));
            && t.stats.recoveryRequests == s.stats.recoveryRequests + (to - from) / MAX_RECOVERY_BATCH + 1
            && forall k: nat ::
                 SlotOf(t, k) == if !(from <= k <= to) then SlotOf(s, k)
                                 else if IsFilled(s, k) then Some(s.held[k])
                                 else if Retained(log, capacity, k) then
                                   Some(Filled(FeedMessage(log[k - log[0].sequence], true)))
                                 else Some(Skipped)
  {
    hide Windowed, BalancedBut, Ordered, RequestChunks, SkipRange;
    var t := s.(stats := s.stats.(gapsDetected := s.stats.gapsDetected + 1,
                                  missingMessages := s.stats.missingMessages + (to - from + 1)));
    ChunksRecover(t, log, capacity, from, to);
    RequestsCount(from, to);
    var u := RequestChunks(t, from, to, HistoryClient(log, capacity).request);
    GapCountersFree(s, s.stats.gapsDetected + 1, s.stats.missingMessages + (to - from + 1), s.stats.recoveryRequests);
    RequestChunksGood(t, from, to, HistoryClient(log, capacity).request);
    SkipRangeGood(u, from, to + 1);
    SkipRangeRequests(u, from, to + 1);
    var v := SkipRange(u, from, to + 1);
    assert v == RecoverRange(s, from, to, HistoryClient(log, capacity));
    forall k: nat
      ensures SlotOf(v, k) == if !(from <= k <= to) then SlotOf(s, k)
                              else if IsFilled(s, k) then Some(s.held[k])
                              else if Retained(log, capacity, k) then
                                Some(Filled(FeedMessage(log[k - log[0].sequence], true)))
                              else Some(Skipped)
    {
      assert SlotOf(u, k) == if from <= k < to + 1 then Recovered(t, log, capacity, k) else SlotOf(t, k);
    }
  }

  lemma {:induction false} SkipRangeRequests(s: Sequencer, from: nat, to: nat)
    ensures SkipRange(s, from, to).stats.recoveryRequests == s.stats.recoveryRequests
    decreases 0 + to - from
  {
    if from < to {
      SkipRangeRequests(s, from, to - 1);
    }
  }

  // ---- The answers together ----

  lemma FetchedSplit(log: seq<Message>, capacity: nat, a: nat, b: nat, c: nat)
    requires a <= b <= c
    ensures FetchedBelow(log, capacity, a, c, c - a)
         == FetchedBelow(log, capacity, a, b, b - a) + FetchedBelow(log, capacity, b, c, c - b)
  {
    hide FetchedBelow;
    if log == [] {
      FetchNone(log, capacity, a, c, c - a);
      FetchNone(log, capacity, a, b, b - a);
      FetchNone(log, capacity, b, c, c - b);
    } else {
      var lo, hi := FetchedIs(log, capacity, a, c, c - a);
      var lo1, hi1 := FetchedIs(log, capacity, a, b, b - a);
      var lo2, hi2 := FetchedIs(log, capacity, b, c, c - b);
      if lo < b < hi {
        SliceSplit(log, lo - log[0].sequence, b - log[0].sequence, hi - log[0].sequence);
      }
    }
  }

  lemma SliceSplit(log: seq<Message>, i: nat, j: nat, k: nat)
    requires i <= j <= k <= |log|
    ensures log[i..k] == log[i..j] + log[j..k]
  {
  }

  /** The answers to all the chunks of a range, one after the other, are the retained messages of the range: each once,
      in order, and nothing else. */
  lemma {:induction false} AnswersTogether(log: seq<Message>, capacity: nat, start: nat, to: nat)
    requires start <= to + 1
    ensures Answers(HistoryClient(log, capacity).request, start, to)
         == FetchedBelow(log, capacity, start, to + 1, to + 1 - start)
    decreases 1 + to - start
  {
    hide FetchedBelow;
    var request := HistoryClient(log, capacity).request;
    if start > to {
      FetchNothing(log, capacity, start, to, 0);
    } else {
      var end := ChunkEnd(start, to);
      assert request(start, end) == Served(log, capacity, start, end);
      FetchedSplit(log, capacity, start, end + 1, to + 1);
      if end == to {
        assert Answers(request, start + MAX_RECOVERY_BATCH, to) == [];
        FetchNothing(log, capacity, to + 1, to, 0);
      } else {
        AnswersTogether(log, capacity, start + MAX_RECOVERY_BATCH, to);
      }
    }
  }
}
