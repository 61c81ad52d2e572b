/** The exchange's publishing loop over its mutable book, live list, history ring and packet buffer. */
module Exchanges {
  import opened Market
  import opened BookSpec
  import opened OrderBooks
  import opened Venues
  import opened Publishing
  import History
  import Engines

  class Exchange {
    const book: OrderBook
    const history: History.HistoryStore
    const batch: nat
    var live: seq<Live>
    var nextOrderId: nat
    var sequence: nat
    var pending: seq<Message>
    ghost var venue: Venue

    /** The fields stand for `venue`. */
    ghost predicate Stands()
      reads this, book, book.pool, book.bidLevels, book.askLevels, book.index, history, history.ring
    {
      && book.Valid() && book.cfg == CFG && history.Valid()
      && Good(venue)
      && venue.book == book.book && venue.log == history.log
      && venue.live == live && venue.nextId == nextOrderId && venue.pending == pending
      && sequence == NextSequence(venue)
    }

    /** So they do while the loop runs, and then every packet handed over so far is full. */
    ghost predicate Valid()
      reads this, book, book.pool, book.bidLevels, book.askLevels, book.index, history, history.ring
    {
      Stands() && 1 <= batch <= MAX_BATCH && Batched(venue, batch) && IdsInOrder(venue)
    }

    constructor (hash: U64 -> U64, historyCapacity: nat, batch: nat)
      requires 0 < historyCapacity < WORD
      ensures Valid() && venue == Opening()
      ensures 1 <= batch <= MAX_BATCH ==> this.batch == batch
      ensures batch < 1 ==> this.batch == 1
      ensures batch > MAX_BATCH ==> this.batch == MAX_BATCH
    {
      hide OrderBook.Valid, Good, History.HistoryStore.Valid, Batched, IdsInOrder;
      book := new OrderBook(CFG, hash);
      history := new History.HistoryStore(historyCapacity);
      this.batch := Clamped(batch);
      live, nextOrderId, sequence, pending, venue := [], 1, FIRST_SEQUENCE, [], Opening();
      new;
      OpeningKeeps(this.batch);
    }

    /** One turn: build the message, apply it, maintain the live list, retain the message and batch it; a full
        batch is handed to the network as a packet. */
    method PublishNext(c: Choice, now: nat) returns (packet: seq<Message>)
      requires Valid() && Drawable(venue, c)
      modifies this, book, book.pool, book.bidLevels, book.askLevels, book.index, history, history.ring
      ensures Valid() && venue == Publish(old(venue), c, now, batch)
      ensures venue.flushed == if packet == [] then old(venue).flushed else old(venue).flushed + [packet]
      ensures packet != [] <==> |old(pending)| + 1 == batch
      ensures packet != [] ==> |packet| == batch && old(pending) <= packet && pending == []
      ensures packet == [] ==> |pending| == |old(pending)| + 1 && old(pending) <= pending
    {
      hide Good, OrderBook.Valid, Apply, Consistent, History.HistoryStore.Valid, Batched, IdsInOrder;
      ghost var before := venue;
      GoodBook(venue);
      PublishGood(venue, c, now, batch);
      PublishBatched(venue, c, now, batch);
      PublishIds(venue, c, now, batch);
      var m := BuildMessage(c, now);
      var r := Engines.ApplyMessage(book, m);
      UpdateLive(c, r);
      history.Append(m);
      sequence := sequence + 1;
      packet := pending + [m];
      if |packet| == batch {
        pending := [];
      } else {
        pending := packet;
        packet := [];
      }
      venue := Publish(before, c, now, batch);
    }

    /** The flush after the loop: the messages left over, if any, go out in a last, shorter packet. */
    method FlushRest() returns (packet: seq<Message>)
      requires Valid()
      modifies this`pending, this`venue
      ensures Stands() && venue == FinalFlush(old(venue)) && pending == []
      ensures packet == old(pending) && |packet| < batch
      ensures venue.flushed == if packet == [] then old(venue).flushed else old(venue).flushed + [packet]
    {
      hide Good, OrderBook.Valid, History.HistoryStore.Valid;
      FinalFlushGood(venue);
      packet := pending;
      pending := [];
      venue := FinalFlush(venue);
    }

    /** The message a draw leads to. */
    method BuildMessage(c: Choice, now: nat) returns (m: Message)
      requires Drawable(venue, c) && venue.live == live && venue.nextId == nextOrderId
      requires sequence == NextSequence(venue)
      ensures m == MessageFor(venue, c, now)
    {
      match c {
        case NewOrder(side, distance, lots) =>
          m := Message(sequence, now, nextOrderId, PriceFor(side, distance), lots * 10, MessageType.Add, side);
        case CancelOne(i) =>
          m := Message(sequence, now, live[i].id, live[i].price, live[i].quantity, MessageType.Cancel, live[i].side);
        case ModifyOne(i, distance, lots) =>
          m := Message(sequence, now, live[i].id, PriceFor(live[i].side, distance), lots * 10, MessageType.Modify,
                       live[i].side);
        case TradeOne(i) =>
          m := Message(sequence, now, live[i].id, live[i].price, FillOf(live[i].quantity), MessageType.Trade,
                       live[i].side);
      }
    }

    method UpdateLive(c: Choice, r: Result)
      requires Drawable(venue, c) && venue.live == live && venue.nextId == nextOrderId
      modifies this`live, this`nextOrderId
      ensures live == LiveAfter(venue, c, r)
      ensures nextOrderId == venue.nextId + if c.NewOrder? then 1 else 0
    {
      match c {
        case NewOrder(side, distance, lots) =>
          if r == Ok {
            live := live + [Live(nextOrderId, side, PriceFor(side, distance), lots * 10)];
          }
          nextOrderId := nextOrderId + 1;
        case CancelOne(i) =>
          live := live[i := live[|live| - 1]][..|live| - 1];
        case ModifyOne(i, distance, lots) =>
          if r == Ok {
            live := live[i := live[i].(price := PriceFor(live[i].side, distance), quantity := lots * 10)];
          }
        case TradeOne(i) =>
          var fill := FillOf(live[i].quantity);
          if fill >= live[i].quantity {
            live := live[i := live[|live| - 1]][..|live| - 1];
          } else {
            live := live[i := live[i].(quantity := live[i].quantity - fill)];
          }
      }
    }
  }

  lemma GoodBook(v: Venue)
    requires Good(v)
    ensures Consistent(CFG, v.book)
  {
  }
}
