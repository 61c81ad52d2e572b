/** A one-way channel as its two ends can observe it: the receiver knows only a lower bound, `seen`, of
    what has been sent, because what it last loaded may be stale. */
module Channels {

  datatype Channel<T> = Channel(sent: seq<T>, taken: nat, seen: nat) {
    ghost predicate Valid() {
      taken <= seen <= |sent|
    }

    function Received(): seq<T>
      requires taken <= |sent|
    {
      sent[..taken]
    }

    function InFlight(): seq<T>
      requires taken <= |sent|
    {
      sent[taken..]
    }
  }

  function EmptyChannel<T>(): Channel<T> {
    Channel([], 0, 0)
  }

  /** The sender publishes one value. */
  ghost predicate Sends<T>(c: Channel<T>, c': Channel<T>, v: T) {
    c' == c.(sent := c.sent + [v])
  }

  /** The receiver loads how much has been sent, possibly an old count. */
  ghost predicate Looks<T>(c: Channel<T>, c': Channel<T>) {
    c' == c.(seen := c'.seen) && c.seen <= c'.seen <= |c.sent|
  }

  /** The receiver takes the next value it knows of. */
  ghost predicate Takes<T>(c: Channel<T>, c': Channel<T>, v: T) {
    c.taken < c.seen <= |c.sent| && v == c.sent[c.taken] && c' == c.(taken := c.taken + 1)
  }
}
