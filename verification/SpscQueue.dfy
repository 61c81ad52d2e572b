/** The ring buffer as an object whose operations run one at a time: a bounded first-in-first-out queue. */
module SpscQueues {
  import opened Market
  import opened Spsc
  import Rings

  /** From counter `r` on, the ring holds `contents`. */
  ghost predicate RingHolds<T>(ring: seq<T>, r: nat, contents: seq<T>) {
    |ring| > 0 && forall i :: 0 <= i < |contents| ==> ring[Rings.Slot(r + i, |ring|)] == contents[i]
  }

  lemma PushHolds<T>(ring: seq<T>, r: nat, contents: seq<T>, value: T)
    requires RingHolds(ring, r, contents) && |contents| < |ring|
    ensures RingHolds(ring[Rings.Slot(r + |contents|, |ring|) := value], r, contents + [value])
  {
    hide Rings.Slot;
    var w := r + |contents|;
    forall i | 0 <= i < |contents|
      ensures ring[Rings.Slot(w, |ring|) := value][Rings.Slot(r + i, |ring|)] == contents[i]
    {
      Rings.DistinctSlots(r + i, w, |ring|);
    }
  }

  lemma PopHolds<T>(ring: seq<T>, r: nat, contents: seq<T>)
    requires RingHolds(ring, r, contents) && contents != []
    ensures ring[Rings.Slot(r, |ring|)] == contents[0]
    ensures RingHolds(ring, r + 1, contents[1..])
  {
    hide Rings.Slot;
    assert r + 0 == r;
    forall i | 0 <= i < |contents| - 1 ensures ring[Rings.Slot(r + 1 + i, |ring|)] == contents[1..][i] {
      assert r + 1 + i == r + (i + 1);
    }
  }

  class SpscQueue<T> {
    const buffer: array<T>
    var writeIdx: U64
    var cachedReadIdx: U64
    var readIdx: U64
    var cachedWriteIdx: U64

    ghost var w: nat
    ghost var r: nat
    ghost var cr: nat
    ghost var cw: nat
    ghost var contents: seq<T>

    ghost predicate Valid()
      reads this, buffer
    {
      && IsPow2(buffer.Length) && buffer.Length < WORD
      && writeIdx == Wrap(w) && readIdx == Wrap(r) && cachedReadIdx == Wrap(cr) && cachedWriteIdx == Wrap(cw)
      && cr <= r <= cw <= w <= cr + buffer.Length
      && |contents| == w - r
      && RingHolds(buffer[..], r, contents)
    }

    constructor (capacity: nat, blank: T)
      requires IsPow2(capacity) && capacity < WORD
      ensures Valid() && contents == [] && buffer.Length == capacity && fresh(buffer)
    {
      buffer := new T[capacity](_ => blank);
      writeIdx, cachedReadIdx, readIdx, cachedWriteIdx := 0, 0, 0, 0;
      w, r, cr, cw, contents := 0, 0, 0, 0, [];
    }

    method TryPush(value: T) returns (ok: bool)
      requires Valid()
      modifies this, buffer
      ensures Valid()
      ensures ok <==> |old(contents)| < buffer.Length
      ensures contents == if ok then old(contents) + [value] else old(contents)
    {
      hide Rings.Slot, IsPow2;
      var write: int := writeIdx;
      FullTest(w, cr, buffer.Length);
      FullTest(w, r, buffer.Length);
      if LooksFull(write, cachedReadIdx, buffer.Length) {
        cachedReadIdx, cr := readIdx, r;
        if LooksFull(write, cachedReadIdx, buffer.Length) {
          return false;
        }
      }
      Rings.WrappedSlot(w, buffer.Length);
      NextWord(w);
      ghost var ring := buffer[..];
      PushHolds(ring, r, contents, value);
      buffer[Rings.Slot(write, buffer.Length)] := value;
      assert buffer[..] == ring[Rings.Slot(w, buffer.Length) := value];
      writeIdx := Wrap(write + 1);
      w, contents := w + 1, contents + [value];
      ok := true;
    }

    method TryPop() returns (out: Option<T>)
      requires Valid()
      modifies this
      ensures Valid()
      ensures if old(contents) == [] then out == None && contents == []
              else out == Some(old(contents)[0]) && contents == old(contents)[1..]
    {
      hide Rings.Slot, IsPow2;
      var read: int := readIdx;
      Rings.WrappedEqual(cw, r);
      Rings.WrappedEqual(w, r);
      if read == cachedWriteIdx {
        cachedWriteIdx, cw := writeIdx, w;
        if read == cachedWriteIdx {
          return None;
        }
      }
      Rings.WrappedSlot(r, buffer.Length);
      NextWord(r);
      PopHolds(buffer[..], r, contents);
      out := Some(buffer[Rings.Slot(read, buffer.Length)]);
      readIdx := Wrap(read + 1);
      r, contents := r + 1, contents[1..];
    }

    method Empty() returns (yes: bool)
      requires Valid()
      ensures yes <==> contents == []
    {
      Rings.WrappedEqual(w, r);
      yes := readIdx == writeIdx;
    }

    method Size() returns (n: U64)
      requires Valid()
      ensures n == |contents|
    {
      Rings.WrappedDistance(w, r);
      n := Wrap(writeIdx - readIdx);
    }
  }
}
