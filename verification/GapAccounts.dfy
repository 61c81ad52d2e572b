/** The gap counters: what `missing_messages` says about a recovered range, and when `unrecoverable` is exact. */
module GapAccounts {
  import opened Market
  import opened Sequencing
  import opened Progress
  import opened GapFree

  /** Held slots and late fills, less everything recovered or given up: recovery does not change it. */
  function Balance(s: Sequencer): int {
    |s.held| + s.ledger.overwritten - s.stats.messagesRecovered - s.stats.unrecoverable
  }

  lemma {:induction false} StoreAllBalance(s: Sequencer, ms: seq<Message>)
    ensures Balance(StoreAll(s, ms)) == Balance(s)
    ensures StoreAll(s, ms).stats.missingMessages == s.stats.missingMessages
  {
    if ms != [] {
      StoreAllBalance(s, ms[..|ms| - 1]);
      var t, m := StoreAll(s, ms[..|ms| - 1]), ms[|ms| - 1];
      if m.sequence in t.held {
        assert t.held[m.sequence := Filled(FeedMessage(m, true))].Keys == t.held.Keys;
      }
    }
  }

  lemma {:induction false} RequestChunksBalance(s: Sequencer, start: nat, to: nat, request: (nat, nat) -> Reply)
    ensures Balance(RequestChunks(s, start, to, request)) == Balance(s)
    ensures RequestChunks(s, start, to, request).stats.missingMessages == s.stats.missingMessages
    decreases 1 + to - start
  {
    if start <= to {
      var end := ChunkEnd(start, to);
      var t := s.(stats := s.stats.(recoveryRequests := s.stats.recoveryRequests + 1));
      match request(start, end)
      case Failed =>
      case Answer(ms) =>
        StoreAllBalance(t, ms);
        RequestChunksBalance(StoreAll(t, ms), start + MAX_RECOVERY_BATCH, to, request);
    }
  }

  lemma {:induction false} SkipRangeBalance(s: Sequencer, from: nat, to: nat)
    ensures Balance(SkipRange(s, from, to)) == Balance(s)
    ensures SkipRange(s, from, to).stats.missingMessages == s.stats.missingMessages
    decreases 0 + to - from
  {
    if from < to {
      SkipRangeBalance(s, from, to - 1);
    }
  }

  /** The numbers from `from` up to, not including, `to`. */
  function Range(from: nat, to: nat): (r: set<nat>)
    ensures forall k :: k in r <==> from <= k < to
    decreases 0 + to - from
  {
    if from >= to then {} else Range(from, to - 1) + {to - 1}
  }

  lemma {:induction false} RangeSize(from: nat, to: nat)
    requires from <= to
    ensures |Range(from, to)| == to - from
    decreases 0 + to - from
  {
    if from < to {
      RangeSize(from, to - 1);
    }
  }

  /** How many numbers outside [from, to) are newly held. */
  function Beyond(before: set<nat>, after: set<nat>, from: nat, to: nat): nat {
    |after - before - Range(from, to)|
  }

  /** How many numbers of [from, to) were held. */
  function Within(before: set<nat>, from: nat, to: nat): nat {
    |before * Range(from, to)|
  }

  lemma RecoverRangeBalance(s: Sequencer, from: nat, to: nat, recovery: Recovery)
    requires from <= to
    ensures var t := RecoverRange(s, from, to, recovery);
            Balance(t) == Balance(s) && t.stats.missingMessages == s.stats.missingMessages + (to - from + 1)
  {
    var u := s.(stats := s.stats.(gapsDetected := s.stats.gapsDetected + 1,
                                  missingMessages := s.stats.missingMessages + (to - from + 1)));
    if recovery.Client? {
      RequestChunksBalance(u, from, to, recovery.request);
      SkipRangeBalance(RequestChunks(u, from, to, recovery.request), from, to + 1);
    } else {
      SkipRangeBalance(u, from, to + 1);
    }
  }

  /** A detected gap counts its whole range as missing.  Every number of it is then recovered, given up, or was held
      before; a number that had been given up earlier and is now filled is counted once more, and so is a number
      outside the range that an answer filled. */
  lemma GapCloses(s: Sequencer, from: nat, to: nat, recovery: Recovery)
    requires GoodBut(s, 0) && s.expected <= from <= to < s.expected + s.capacity
    ensures var t := RecoverRange(s, from, to, recovery);
            (t.stats.missingMessages - s.stats.missingMessages) + (t.ledger.overwritten - s.ledger.overwritten)
            + Beyond(s.held.Keys, t.held.Keys, from, to + 1)
            == (t.stats.messagesRecovered - s.stats.messagesRecovered) + (t.stats.unrecoverable - s.stats.unrecoverable)
               + Within(s.held.Keys, from, to + 1)
  {
    hide GoodBut, RecoverRange, Beyond, Within;
    RecoverRangeBalance(s, from, to, recovery);
    RecoverRangeCovers(s, from, to, recovery);
    HeldGrows(s.held.Keys, RecoverRange(s, from, to, recovery).held.Keys, from, to + 1);
  }

  lemma HeldGrows(before: set<nat>, after: set<nat>, from: nat, to: nat)
    requires from <= to && before <= after && Range(from, to) <= after
    ensures |after| == |before| + (to - from) - Within(before, from, to) + Beyond(before, after, from, to)
  {
    RangeSize(from, to);
    var beyond := after - before - Range(from, to);
    assert after == (before + Range(from, to)) + beyond && (before + Range(from, to)) !! beyond;
  }

  // ---- Slots that were given up ----

  /** Everything from the stream position up to a slot that was given up is held. */
  ghost predicate SkipsCovered(s: Sequencer) {
    forall k: nat, j: nat :: IsSkipped(s, k) && s.expected <= j <= k ==> j in s.held
  }

  /** So no gap is seen while there is such a slot. */
  lemma NoSkipsAtGap(s: Sequencer, k: nat, j: nat)
    requires Good(s) && SkipsCovered(s) && ShowsGap(s, k)
    ensures !IsSkipped(s, j)
  {
  }

  lemma GapSkipsCovered(s: Sequencer, f: FeedMessage, recovery: Recovery)
    requires Good(s) && SkipsCovered(s) && ShowsGap(s, f.message.sequence)
    ensures SkipsCovered(Accept(s, f, recovery))
  {
    hide Balanced, BalancedBut, Ordered, RecoverRange, Has, Answers;
    var k := f.message.sequence;
    var t := s.(stats := s.stats.(accepted := s.stats.accepted + 1));
    StartGood(s, k);
    StoreGood(t, f);
    var u := Store(t, f);
    RecoverRangeCovers(u, s.expected, k - 1, recovery);
    forall j: nat | IsSkipped(Accept(s, f, recovery), j) ensures s.expected <= j < k {
      NoSkipsAtGap(s, k, j);
      RecoverSkips(u, s.expected, k - 1, recovery, j);
    }
  }

  lemma AcceptSkipsCovered(s: Sequencer, f: FeedMessage, recovery: Recovery)
    requires Good(s) && SkipsCovered(s)
    ensures SkipsCovered(Accept(s, f, recovery))
  {
    hide Balanced, BalancedBut, Ordered, RecoverRange;
    var t := Accept(s, f, recovery);
    if ShowsGap(s, f.message.sequence) {
      GapSkipsCovered(s, f, recovery);
    } else {
      forall k: nat, j: nat | IsSkipped(t, k) && t.expected <= j <= k ensures j in t.held {
        assert IsSkipped(s, k) && j in s.held;
      }
    }
  }

  lemma {:induction false} NextSkipsCovered(s: Sequencer)
    requires SkipsCovered(s)
    ensures SkipsCovered(Next(s).state)
    decreases |s.held|
  {
    if s.started && s.expected in s.held {
      assert SkipsCovered(Advance(s)) by {
        forall k: nat, j: nat | IsSkipped(Advance(s), k) && s.expected + 1 <= j <= k ensures j in Advance(s).held {
          assert IsSkipped(s, k) && j in s.held;
        }
      }
      if s.held[s.expected].Skipped? {
        NextSkipsCovered(Advance(s));
      }
    }
  }

  /** In every run, everything before a slot that was given up is held. */
  lemma {:induction false} RunSkipsCovered(capacity: nat, events: seq<Event>)
    requires capacity > 0
    ensures SkipsCovered(Run(capacity, events))
  {
    hide Accept, Next, SkipsCovered, Good;
    if events == [] {
      NothingSkipped(capacity);
    } else {
      var before := events[..|events| - 1];
      RunSkipsCovered(capacity, before);
      RunGood(capacity, before);
      match events[|events| - 1]
      case Take(f, recovery) => AcceptSkipsCovered(Run(capacity, before), f, recovery);
      case Pull => NextSkipsCovered(Run(capacity, before));
    }
  }

  lemma NothingSkipped(capacity: nat)
    ensures SkipsCovered(Initial(capacity))
  {
  }

  // ---- Late fills and cleared slots ----

  predicate SameLate(s: Sequencer, t: Sequencer) {
    t.ledger.overwritten == s.ledger.overwritten && t.ledger.clearedSkipped == s.ledger.clearedSkipped
  }

  lemma {:induction false} StoreAllLate(s: Sequencer, ms: seq<Message>)
    requires forall k :: !IsSkipped(s, k)
    ensures SameLate(s, StoreAll(s, ms)) && forall k :: !IsSkipped(StoreAll(s, ms), k)
  {
    if ms != [] {
      StoreAllLate(s, ms[..|ms| - 1]);
      var t := StoreAll(s, ms[..|ms| - 1]);
      assert !IsSkipped(t, ms[|ms| - 1].sequence);
      forall k ensures !IsSkipped(StoreAll(s, ms), k) {
        assert !IsSkipped(t, k);
      }
    }
  }

  lemma {:induction false} RequestChunksLate(s: Sequencer, start: nat, to: nat, request: (nat, nat) -> Reply)
    requires forall k :: !IsSkipped(s, k)
    ensures SameLate(s, RequestChunks(s, start, to, request))
    decreases 1 + to - start
  {
    hide StoreAll;
    if start <= to {
      var t := s.(stats := s.stats.(recoveryRequests := s.stats.recoveryRequests + 1));
      assert forall k :: IsSkipped(t, k) ==> IsSkipped(s, k);
      match request(start, ChunkEnd(start, to))
      case Failed =>
      case Answer(ms) =>
        StoreAllLate(t, ms);
        RequestChunksLate(StoreAll(t, ms), start + MAX_RECOVERY_BATCH, to, request);
    }
  }

  lemma {:induction false} SkipRangeLate(s: Sequencer, from: nat, to: nat)
    ensures SameLate(s, SkipRange(s, from, to))
    decreases 0 + to - from
  {
    if from < to {
      SkipRangeLate(s, from, to - 1);
    }
  }

  /** Recovery fills no slot late if none was given up before. */
  lemma RecoverRangeLate(s: Sequencer, from: nat, to: nat, recovery: Recovery)
    requires from <= to && forall k :: !IsSkipped(s, k)
    ensures SameLate(s, RecoverRange(s, from, to, recovery))
  {
    hide RequestChunks, SkipRange;
    var u := s.(stats := s.stats.(gapsDetected := s.stats.gapsDetected + 1,
                                  missingMessages := s.stats.missingMessages + (to - from + 1)));
    assert forall k :: IsSkipped(u, k) ==> IsSkipped(s, k);
    if recovery.Client? {
      RequestChunksLate(u, from, to, recovery.request);
      SkipRangeLate(RequestChunks(u, from, to, recovery.request), from, to + 1);
    } else {
      SkipRangeLate(u, from, to + 1);
    }
  }

  lemma StoredWithoutSkips(s: Sequencer, f: FeedMessage)
    requires forall j :: !IsSkipped(s, j)
    ensures var u := Store(s.(stats := s.stats.(accepted := s.stats.accepted + 1)), f);
            SameLate(s, u) && forall j :: !IsSkipped(u, j)
  {
    var u := Store(s.(stats := s.stats.(accepted := s.stats.accepted + 1)), f);
    forall j ensures !IsSkipped(u, j) {
      assert !IsSkipped(s, j);
    }
    assert !IsSkipped(s, f.message.sequence);
  }

  /** An arrival fills a given-up slot late only if it is the number of one, and clears such slots only by overflow. */
  lemma AcceptLate(s: Sequencer, f: FeedMessage, recovery: Recovery)
    requires Good(s) && SkipsCovered(s)
    ensures var t, k := Accept(s, f, recovery), f.message.sequence;
            && t.ledger.overwritten == s.ledger.overwritten + (if IsSkipped(s, k) then 1 else 0)
            && t.ledger.clearedSkipped == s.ledger.clearedSkipped
                 + if s.started && k >= s.expected + s.capacity then |SkippedKeys(s.held)| else 0
  {
    hide Balanced, Ordered, RecoverRange;
    var k := f.message.sequence;
    if ShowsGap(s, k) {
      forall j ensures !IsSkipped(s, j) {
        NoSkipsAtGap(s, k, j);
      }
      StoredWithoutSkips(s, f);
      RecoverRangeLate(Store(s.(stats := s.stats.(accepted := s.stats.accepted + 1)), f), s.expected, k - 1, recovery);
    }
  }

  lemma {:induction false} NextLate(s: Sequencer)
    ensures SameLate(s, Next(s).state)
    decreases |s.held|
  {
    if s.started && s.expected in s.held && s.held[s.expected].Skipped? {
      NextLate(Advance(s));
    }
  }

  /** On a gap, the arrival is stored and then the range is recovered. */
  lemma StoredAtGap(s: Sequencer, f: FeedMessage, recovery: Recovery) returns (u: Sequencer)
    requires Good(s) && SkipsCovered(s) && ShowsGap(s, f.message.sequence)
    ensures GoodBut(u, 0) && u.expected == s.expected && u.capacity == s.capacity
    ensures u.held.Keys == s.held.Keys + {f.message.sequence} && forall j :: !IsSkipped(u, j)
    ensures u.stats == s.stats.(accepted := u.stats.accepted, duplicates := u.stats.duplicates)
    ensures Accept(s, f, recovery) == RecoverRange(u, s.expected, f.message.sequence - 1, recovery)
  {
    hide Balanced, BalancedBut, Ordered, RecoverRange;
    var k := f.message.sequence;
    var t := s.(stats := s.stats.(accepted := s.stats.accepted + 1));
    forall j ensures !IsSkipped(s, j) {
      NoSkipsAtGap(s, k, j);
    }
    StoredWithoutSkips(s, f);
    StartGood(s, k);
    StoreGood(t, f);
    u := Store(t, f);
  }

  /** In every run the gap counters close without late fills: recovery starts only when no slot has been given up. */
  lemma GapClosesExactly(s: Sequencer, f: FeedMessage, recovery: Recovery)
    requires Good(s) && SkipsCovered(s) && ShowsGap(s, f.message.sequence)
    ensures var t, k := Accept(s, f, recovery), f.message.sequence;
            (t.stats.missingMessages - s.stats.missingMessages)
            + Beyond(s.held.Keys, t.held.Keys, s.expected, k + 1)
            == (t.stats.messagesRecovered - s.stats.messagesRecovered) + (t.stats.unrecoverable - s.stats.unrecoverable)
               + Within(s.held.Keys, s.expected, k)
  {
    hide Good, GoodBut, Accept, RecoverRange, SkipsCovered, Beyond, Within;
    var k := f.message.sequence;
    var u := StoredAtGap(s, f, recovery);
    RecoverRangeLate(u, s.expected, k - 1, recovery);
    GapCloses(u, s.expected, k - 1, recovery);
    BesidesRange(s.held.Keys, Accept(s, f, recovery).held.Keys, s.expected, k);
  }

  lemma BesidesRange(before: set<nat>, after: set<nat>, from: nat, k: nat)
    requires from <= k
    ensures Within(before + {k}, from, k) == Within(before, from, k)
    ensures Beyond(before + {k}, after, from, k) == Beyond(before, after, from, k + 1)
  {
    assert (before + {k}) * Range(from, k) == before * Range(from, k);
    assert after - (before + {k}) - Range(from, k) == after - before - Range(from, k + 1);
  }

  // ---- When the counter of unrecoverable messages is exact ----

  /** The counter equals the numbers given up: those passed over and those still to be passed over. */
  ghost predicate Exact(s: Sequencer) {
    s.stats.unrecoverable == s.ledger.passed + |SkippedKeys(s.held)|
  }

  /** The arrival overstates the counter: its number had been given up, or it overflows a window with such slots. */
  ghost predicate Overstates(s: Sequencer, k: nat) {
    IsSkipped(s, k) || (s.started && k >= s.expected + s.capacity && exists j :: IsSkipped(s, j))
  }

  lemma ExactLedger(s: Sequencer)
    requires Good(s)
    ensures Exact(s) <==> s.ledger.overwritten == 0 && s.ledger.clearedSkipped == 0
  {
  }

  /** Whatever recovery does, the counter is exact after an arrival if and only if it was and the arrival does not
      overstate it. */
  lemma AcceptExactIff(s: Sequencer, f: FeedMessage, recovery: Recovery)
    requires Good(s) && SkipsCovered(s)
    ensures Exact(Accept(s, f, recovery)) <==> Exact(s) && !Overstates(s, f.message.sequence)
  {
    hide Accept, Good, Exact, SkipsCovered;
    AcceptGood(s, f, recovery);
    AcceptLate(s, f, recovery);
    ExactLedger(s);
    ExactLedger(Accept(s, f, recovery));
    if j: nat :| IsSkipped(s, j) {
      assert j in SkippedKeys(s.held);
    } else {
      forall j: nat ensures j !in SkippedKeys(s.held) {
        assert !IsSkipped(s, j);
      }
    }
  }

  /** Over every run the counter is exact if and only if no arrival overstated it. */
  lemma {:induction false} UnrecoverableIff(capacity: nat, events: seq<Event>)
    requires capacity > 0
    ensures Exact(Run(capacity, events)) <==>
            forall i :: 0 <= i < |events| && events[i].Take? ==>
                          !Overstates(Run(capacity, events[..i]), events[i].message.message.sequence)
  {
    hide Accept, Next, Good, Exact, Overstates, SkipsCovered;
    RunGood(capacity, events);
    ExactLedger(Run(capacity, events));
    if events == [] {
    } else {
      var last := |events| - 1;
      var before, s := events[..last], Run(capacity, events[..last]);
      UnrecoverableIff(capacity, before);
      assert forall i :: 0 <= i < last ==> before[i] == events[i] && before[..i] == events[..i];
      RunGood(capacity, before);
      RunSkipsCovered(capacity, before);
      match events[last]
      case Take(f, recovery) => AcceptExactIff(s, f, recovery);
      case Pull =>
        NextLate(s);
        ExactLedger(s);
    }
  }
}
