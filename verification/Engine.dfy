/** The order-book engine: it applies each event to its book and counts the outcomes. */
module Engines {
  import opened Market
  import opened BookSpec
  import opened OrderBooks
  import opened SpscQueues
  import Venues

  datatype ApplyCounters = ApplyCounters(
    applied: nat, unknownOrder: nat, duplicateOrder: nat, outOfBand: nat, poolExhausted: nat, invalid: nat)
  {
    function Total(): nat {
      applied + unknownOrder + duplicateOrder + outOfBand + poolExhausted + invalid
    }
  }

  const NO_COUNTS := ApplyCounters(0, 0, 0, 0, 0, 0)

  function Record(c: ApplyCounters, r: Result): ApplyCounters {
    match r
    case Ok => c.(applied := c.applied + 1)
    case UnknownOrder => c.(unknownOrder := c.unknownOrder + 1)
    case DuplicateOrder => c.(duplicateOrder := c.duplicateOrder + 1)
    case PriceOutOfBand => c.(outOfBand := c.outOfBand + 1)
    case PoolExhausted => c.(poolExhausted := c.poolExhausted + 1)
    case InvalidQuantity => c.(invalid := c.invalid + 1)
  }

  /** The results of a history of operations, one per operation. */
  ghost function Results(cfg: Config, ops: seq<Op>): (rs: seq<Result>)
    requires cfg.Valid()
    ensures |rs| == |ops|
  {
    if ops == [] then []
    else Results(cfg, ops[..|ops| - 1]) + [Apply(cfg, Run(cfg, ops[..|ops| - 1]), ops[|ops| - 1]).result]
  }

  ghost function Tally(rs: seq<Result>): ApplyCounters {
    if rs == [] then NO_COUNTS else Record(Tally(rs[..|rs| - 1]), rs[|rs| - 1])
  }

  lemma {:induction false} TallyTotal(rs: seq<Result>)
    ensures Tally(rs).Total() == |rs|
  {
    if rs != [] {
      TallyTotal(rs[..|rs| - 1]);
    }
  }

  /** Each counter has grown by the number of its own results. */
  ghost predicate Grew(before: ApplyCounters, after: ApplyCounters, rs: seq<Result>) {
    && after.applied == before.applied + multiset(rs)[Ok]
    && after.unknownOrder == before.unknownOrder + multiset(rs)[UnknownOrder]
    && after.duplicateOrder == before.duplicateOrder + multiset(rs)[DuplicateOrder]
    && after.outOfBand == before.outOfBand + multiset(rs)[PriceOutOfBand]
    && after.poolExhausted == before.poolExhausted + multiset(rs)[PoolExhausted]
    && after.invalid == before.invalid + multiset(rs)[InvalidQuantity]
  }

  lemma {:induction false} TallyCounts(rs: seq<Result>)
    ensures Grew(NO_COUNTS, Tally(rs), rs)
  {
    if rs != [] {
      TallyCounts(rs[..|rs| - 1]);
      assert rs == rs[..|rs| - 1] + [rs[|rs| - 1]];
    }
  }

  /** Result `i` is the answer of the book as operation `i` finds it. */
  lemma {:induction false} ResultAt(cfg: Config, ops: seq<Op>, i: nat)
    requires cfg.Valid() && i < |ops|
    ensures Results(cfg, ops)[i] == Apply(cfg, Run(cfg, ops[..i]), ops[i]).result
  {
    hide Run, Apply, Consistent;
    var last := |ops| - 1;
    var rest := ops[..last];
    if i < last {
      ResultAt(cfg, rest, i);
      assert rest[..i] == ops[..i] && rest[i] == ops[i];
      assert Results(cfg, ops)[i] == Results(cfg, rest)[i];
    } else {
      assert ops[..i] == rest;
    }
  }

  lemma {:induction false} ResultsGrow(cfg: Config, ops: seq<Op>, more: seq<Op>)
    requires cfg.Valid()
    ensures Results(cfg, ops) <= Results(cfg, ops + more)
  {
    hide Run, Apply;
    if more == [] {
      assert ops + more == ops;
    } else {
      var last := |more| - 1;
      ResultsGrow(cfg, ops, more[..last]);
      assert (ops + more)[..|ops| + last] == ops + more[..last];
    }
  }

  /** The results of the operations that come after `ops`. */
  ghost function ResultsSince(cfg: Config, ops: seq<Op>, more: seq<Op>): seq<Result>
    requires cfg.Valid()
  {
    Results(cfg, ops + more)[|ops|..]
  }

  lemma TallySince(cfg: Config, ops: seq<Op>, more: seq<Op>)
    requires cfg.Valid()
    ensures Grew(Tally(Results(cfg, ops)), Tally(Results(cfg, ops + more)), ResultsSince(cfg, ops, more))
  {
    hide Run, Apply, Tally, Results;
    ResultsGrow(cfg, ops, more);
    var a, b := Results(cfg, ops), Results(cfg, ops + more);
    TallyCounts(a);
    TallyCounts(b);
    assert b == a + b[|ops|..];
  }

  /** Calls the book operation that the message names. */
  method ApplyMessage(book: OrderBook, m: Message) returns (r: Result)
    requires book.Valid()
    modifies book, book.pool, book.bidLevels, book.askLevels, book.index
    ensures book.Valid()
    ensures Outcome(r, book.book) == Apply(book.cfg, old(book.book), Venues.OpOf(m))
  {
    hide OrderBook.Valid, Apply, Consistent;
    match m.kind {
      case Add => r := book.Add(m.orderId, m.side, m.price, m.quantity);
      case Cancel => r := book.Cancel(m.orderId);
      case Modify => r := book.Modify(m.orderId, m.price, m.quantity);
      case Trade => r := book.Execute(m.orderId, m.quantity);
    }
  }

  lemma BookConsistent(book: OrderBook)
    requires book.Valid()
    ensures book.cfg.Valid() && Consistent(book.cfg, book.book)
  {
  }

  lemma RecordGrows(c: ApplyCounters, r: Result)
    ensures Grew(c, Record(c, r), [r])
  {
  }

  /** One more operation: the book moves on and its answer is counted. */
  lemma HistoryGrows(cfg: Config, history: seq<Op>, op: Op)
    requires cfg.Valid()
    ensures var o := Apply(cfg, Run(cfg, history), op);
            && Run(cfg, history + [op]) == o.book
            && Tally(Results(cfg, history + [op])) == Record(Tally(Results(cfg, history)), o.result)
  {
    hide Apply, Record;
    assert (history + [op])[..|history|] == history;
    assert Results(cfg, history + [op])[..|history|] == Results(cfg, history);
  }

  class Engine {
    const book: OrderBook
    var counters: ApplyCounters
    ghost var history: seq<Op>

    /** The book and the counters are those of the events consumed so far. */
    ghost predicate Valid()
      reads this, book, book.pool, book.bidLevels, book.askLevels, book.index
    {
      && book.Valid()
      && book.book == Run(book.cfg, history)
      && counters == Tally(Results(book.cfg, history))
    }

    constructor (cfg: Config, hash: U64 -> U64)
      requires cfg.Valid()
      ensures Valid() && history == [] && book.cfg == cfg
      ensures fresh(book) && fresh(book.pool) && fresh(book.bidLevels) && fresh(book.askLevels) && fresh(book.index)
    {
      book := new OrderBook(cfg, hash);
      counters, history := NO_COUNTS, [];
    }

    method Dispatch(m: Message)
      requires Valid()
      modifies this, book, book.pool, book.bidLevels, book.askLevels, book.index
      ensures Valid() && history == old(history) + [Venues.OpOf(m)]
      ensures Grew(old(counters), counters, [Apply(book.cfg, old(book.book), Venues.OpOf(m)).result])
    {
      hide OrderBook.Valid, Apply, Consistent, Run, Results, Tally, Record, Grew;
      BookConsistent(book);
      var r := ApplyMessage(book, m);
      RecordGrows(counters, r);
      HistoryGrows(book.cfg, history, Venues.OpOf(m));
      counters := Record(counters, r);
      history := history + [Venues.OpOf(m)];
    }

    /** Pops and applies events until a pop is refused, then makes the exit test: the engine stops only if the
        producer was done and the ring is empty. */
    method Consume(queue: SpscQueue<Message>, producerDone: bool) returns (exit: bool)
      requires Valid() && queue.Valid()
      modifies this, book, book.pool, book.bidLevels, book.askLevels, book.index, queue
      ensures Valid() && queue.Valid() && queue.contents == []
      ensures history == old(history) + Venues.Ops(old(queue.contents))
      ensures counters.Total() == |old(history)| + |old(queue.contents)|
      ensures book.cfg.Valid()
      ensures Grew(old(counters), counters, ResultsSince(book.cfg, old(history), Venues.Ops(old(queue.contents))))
      ensures exit <==> producerDone
    {
      hide OrderBook.Valid, Run, Results, Tally, Venues.OpOf, SpscQueue.Valid;
      ghost var events := queue.contents;
      ghost var n := 0;
      while true
        invariant Valid() && queue.Valid()
        invariant n <= |events| && queue.contents == events[n..] && history == old(history) + Venues.Ops(events[..n])
        decreases |events| - n
      {
        var event := queue.TryPop();
        if event == None {
          break;
        }
        Dispatch(event.value);
        assert Venues.Ops(events[..n + 1]) == Venues.Ops(events[..n]) + [Venues.OpOf(events[n])];
        n := n + 1;
      }
      assert events[..n] == events;
      TallyTotal(Results(book.cfg, history));
      TallySince(book.cfg, old(history), Venues.Ops(events));
      var empty := queue.Empty();
      exit := producerDone && empty;
    }
  }
}
