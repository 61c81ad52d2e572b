/** The pipeline with the exchange's own history behind recovery: every request is answered from what the history
    retains at that moment, and the exchange may go on publishing between two requests for one gap. */
module PipelineServed {
  import opened Market
  import opened BookSpec
  import opened Sequencing
  import opened History
  import opened Completeness
  import opened Channels
  import opened Venues
  import opened GapFree
  import opened Pipeline
  import opened PipelineProgress

  /** What the exchange may have published by the time each request is served: `log`, and any further messages under the
      numbers that follow. */
  ghost predicate Extends(log: seq<Message>, logAt: nat -> seq<Message>) {
    forall a: nat ::
      log <= logAt(a) && Consecutive(logAt(a)) && (logAt(a) != [] ==> logAt(a)[0].sequence == FIRST_SEQUENCE)
  }

  lemma ServedPublished(log: seq<Message>, later: seq<Message>, capacity: nat, from: nat, to: nat, m: Message)
    requires log <= later && Consecutive(later) && (later != [] ==> later[0].sequence == FIRST_SEQUENCE)
    requires to < FIRST_SEQUENCE + |log|
    requires Served(later, capacity, from, to).Answer? && m in Served(later, capacity, from, to).messages
    ensures Published(log, m)
  {
    var i :| 0 <= i < |later| && later[i] == m && m.sequence <= to;
  }

  /** Asked for published numbers, the recovery server answers only with what was published under them, however much
      more the exchange publishes meanwhile. */
  lemma {:induction false} MovingPublished(log: seq<Message>, logAt: nat -> seq<Message>, capacity: nat, start: nat,
                                           to: nat, m: Message)
    requires Extends(log, logAt) && to < FIRST_SEQUENCE + |log|
    requires m in Answers(MovingClient(logAt, capacity).request, start, to)
    ensures Published(log, m)
    decreases 1 + to - start
  {
    hide Served, Published;
    var request := MovingClient(logAt, capacity).request;
    var end := ChunkEnd(start, to);
    assert request(start, end) == Served(logAt(start), capacity, start, end);
    if m in request(start, end).messages {
      ServedPublished(log, logAt(start), capacity, start, end, m);
    } else {
      MovingPublished(log, logAt, capacity, start + MAX_RECOVERY_BATCH, to, m);
    }
  }

  lemma HistoryHonest(q: Sequencer, k: nat, log: seq<Message>, logAt: nat -> seq<Message>, capacity: nat)
    requires Extends(log, logAt) && k <= FIRST_SEQUENCE + |log|
    ensures Honest(q, k, MovingClient(logAt, capacity), log)
  {
    hide Extends, Published, MovingClient, Answers;
    forall m | m in GapAnswers(q, k, MovingClient(logAt, capacity)) ensures Published(log, m) {
      MovingPublished(log, logAt, capacity, q.expected, k - 1, m);
    }
  }

  /** The step's requests go to the exchange's history, which may move between two of them. */
  ghost predicate StepServed(s: System, step: Step, logAt: nat -> seq<Message>, historyCapacity: nat) {
    step.AcceptOne? ==> Extends(s.venue.log, logAt) && step.recovery == MovingClient(logAt, historyCapacity)
  }

  lemma ServedIsHonest(s: System, step: Step, logAt: nat -> seq<Message>, historyCapacity: nat)
    requires Inv(s) && StepServed(s, step, logAt, historyCapacity)
    ensures StepHonest(s, step)
  {
    hide EngineOk, Venues.Good, Sequencing.Good, AllFrom, Honest, MovingClient, Extends;
    if step.AcceptOne? && Enabled(s, step) {
      HistoryHonest(s.sequencer, s.handler.packet[s.handler.i].sequence, s.venue.log, logAt, historyCapacity);
    }
  }

  /** The steps lead from `s` to `t`, and every recovery request goes to the exchange's history; `logs[i]` says what has
      been published by the time each request of step `i` is served. */
  ghost predicate LeadsServed(s: System, steps: seq<Step>, logs: seq<nat -> seq<Message>>, t: System,
                              historyCapacity: nat)
    requires Inv(s) && |logs| == |steps|
    decreases |steps|
  {
    InvApplies(s);
    if steps == [] then t == s
    else
      Enabled(s, steps[0]) && StepServed(s, steps[0], logs[0], historyCapacity) &&
      (ServedIsHonest(s, steps[0], logs[0], historyCapacity);
       StepInv(s, steps[0]);
       LeadsServed(Pipeline.Apply(s, steps[0]), steps[1..], logs[1..], t, historyCapacity))
  }

  /** The history still retains each number that the arrival shows to be missing, when it is asked for it. */
  ghost predicate StepRetaining(s: System, step: Step, logAt: nat -> seq<Message>, historyCapacity: nat)
    requires Enabled(s, step)
  {
    step.AcceptOne? ==>
      Retaining(s.sequencer, s.handler.packet[s.handler.i].sequence, logAt, historyCapacity)
  }

  /** At every arrival the history retains what it has to. */
  ghost predicate RetainingRun(s: System, steps: seq<Step>, logs: seq<nat -> seq<Message>>, historyCapacity: nat)
    requires Inv(s) && |logs| == |steps|
    decreases |steps|
  {
    InvApplies(s);
    steps != [] && Enabled(s, steps[0]) && StepServed(s, steps[0], logs[0], historyCapacity) ==>
      && StepRetaining(s, steps[0], logs[0], historyCapacity)
      && (ServedIsHonest(s, steps[0], logs[0], historyCapacity);
          StepInv(s, steps[0]);
          RetainingRun(Pipeline.Apply(s, steps[0]), steps[1..], logs[1..], historyCapacity))
  }

  ghost predicate ReachableServed(capacity: nat, historyCapacity: nat, steps: seq<Step>,
                                  logs: seq<nat -> seq<Message>>, t: System)
    requires capacity > 0
  {
    StartInv(capacity);
    |logs| == |steps| && LeadsServed(Pipeline.Start(capacity), steps, logs, t, historyCapacity)
  }

  ghost predicate Retains(capacity: nat, historyCapacity: nat, steps: seq<Step>, logs: seq<nat -> seq<Message>>)
    requires capacity > 0
  {
    StartInv(capacity);
    |logs| == |steps| && RetainingRun(Pipeline.Start(capacity), steps, logs, historyCapacity)
  }

  lemma {:induction false} ServedLeads(s: System, steps: seq<Step>, logs: seq<nat -> seq<Message>>, t: System,
                                       historyCapacity: nat)
    requires Inv(s) && |logs| == |steps| && LeadsServed(s, steps, logs, t, historyCapacity)
    ensures Leads(s, steps, t)
    decreases |steps|
  {
    hide HandlerOk, EngineOk, Venues.Good, Pipeline.Apply, StepHonest, StepServed;
    if steps != [] {
      InvApplies(s);
      ServedIsHonest(s, steps[0], logs[0], historyCapacity);
      StepInv(s, steps[0]);
      ServedLeads(Pipeline.Apply(s, steps[0]), steps[1..], logs[1..], t, historyCapacity);
    }
  }

  lemma StepRetained(s: System, step: Step, logAt: nat -> seq<Message>, historyCapacity: nat)
    requires Enabled(s, step) && StepServed(s, step, logAt, historyCapacity)
    requires StepRetaining(s, step, logAt, historyCapacity)
    ensures StepClean(s, step)
  {
    hide Harmless, Retaining, MovingClient;
    if step.AcceptOne? {
      HarmlessServed(s.sequencer, s.handler.packet[s.handler.i].sequence, logAt, historyCapacity);
    }
  }

  lemma {:induction false} RetainedIsClean(s: System, steps: seq<Step>, logs: seq<nat -> seq<Message>>, t: System,
                                           historyCapacity: nat)
    requires Inv(s) && |logs| == |steps|
    requires LeadsServed(s, steps, logs, t, historyCapacity) && RetainingRun(s, steps, logs, historyCapacity)
    ensures CleanRun(s, steps)
    decreases |steps|
  {
    hide HandlerOk, EngineOk, Venues.Good, Pipeline.Apply, StepHonest, StepServed, StepClean, StepRetaining;
    if steps != [] {
      InvApplies(s);
      ServedIsHonest(s, steps[0], logs[0], historyCapacity);
      StepInv(s, steps[0]);
      StepRetained(s, steps[0], logs[0], historyCapacity);
      RetainedIsClean(Pipeline.Apply(s, steps[0]), steps[1..], logs[1..], t, historyCapacity);
    }
  }

  lemma ServedClean(capacity: nat, historyCapacity: nat, steps: seq<Step>, logs: seq<nat -> seq<Message>>, t: System)
    requires capacity > 0 && ReachableServed(capacity, historyCapacity, steps, logs, t)
    requires Retains(capacity, historyCapacity, steps, logs)
    ensures CleanlyReachable(capacity, steps, t)
  {
    hide Inv, LeadsServed, Leads, RetainingRun, CleanRun;
    StartInv(capacity);
    ServedLeads(Pipeline.Start(capacity), steps, logs, t, historyCapacity);
    RetainedIsClean(Pipeline.Start(capacity), steps, logs, t, historyCapacity);
  }

  /** Whatever the network does and whatever the history forgets: the engine consumes published messages, in order,
      each at most once; its book is theirs; and the stream passes everything that arrives. */
  lemma SubstreamServed(capacity: nat, historyCapacity: nat, steps: seq<Step>, logs: seq<nat -> seq<Message>>,
                        t: System)
    requires capacity > 0 && ReachableServed(capacity, historyCapacity, steps, logs, t)
    ensures t.ring.taken <= |t.ring.sent| && t.book == BookAfter(t.ring.Received())
    ensures forall i :: 0 <= i < |t.ring.sent| ==> Published(t.venue.log, t.ring.sent[i])
    ensures forall i, j :: 0 <= i < j < |t.ring.sent| ==> t.ring.sent[i].sequence < t.ring.sent[j].sequence
    ensures t.engine.Exited? ==> t.ring.Received() == Payloads(t.sequencer.ledger.out)
    ensures (t.handler.Waiting? || t.handler.Finished?) && t.sequencer.started ==> t.top <= t.sequencer.expected
  {
    hide Inv, LeadsServed, Leads, BookAfter;
    StartInv(capacity);
    ServedLeads(Pipeline.Start(capacity), steps, logs, t, historyCapacity);
    AlwaysASubstream(capacity, steps, t);
    NeverStalls(capacity, steps, t);
  }

  /** Replication: while the history retains what it is asked for, the events consumed are a prefix of the published
      stream and the engine's book is the exchange's book after that prefix. */
  lemma ReplicationServed(capacity: nat, historyCapacity: nat, steps: seq<Step>, logs: seq<nat -> seq<Message>>,
                          t: System)
    requires capacity > 0 && ReachableServed(capacity, historyCapacity, steps, logs, t)
    requires Retains(capacity, historyCapacity, steps, logs)
    ensures t.ring.taken <= |t.ring.sent| && t.ring.Received() <= t.venue.log
    ensures t.book == BookAfter(t.venue.log[..t.ring.taken])
    ensures t.venue.book == BookAfter(t.venue.log)
  {
    hide CleanlyReachable, ReachableServed, Retains, BookAfter;
    ServedClean(capacity, historyCapacity, steps, logs, t);
    Replication(capacity, steps, t);
  }

  /** End to end: if the history retained what it was asked for and the last message published got through, then once
      the engine has exited its book is the exchange's book. */
  lemma BooksEqualServed(capacity: nat, historyCapacity: nat, steps: seq<Step>, logs: seq<nat -> seq<Message>>,
                         t: System)
    requires capacity > 0 && ReachableServed(capacity, historyCapacity, steps, logs, t)
    requires Retains(capacity, historyCapacity, steps, logs)
    requires t.engine.Exited? && t.top == FIRST_SEQUENCE + |t.venue.log|
    ensures t.book == t.venue.book && t.ring.taken == |t.venue.log|
  {
    hide CleanlyReachable, ReachableServed, Retains;
    ServedClean(capacity, historyCapacity, steps, logs, t);
    BooksEqual(capacity, steps, t);
  }
}
