/** The order-id index of the book: an open-addressed table with linear probing and
    backward-shift deletion.  Every statement holds for an arbitrary hash function. */
module ProbeIndex {
  import opened Market

  /** One table cell.  Key 0 marks a free cell. */
  datatype Cell = Cell(key: U64, value: U32)

  const EMPTY_KEY: U64 := 0

  /** Returned by `Find` for a key that is not in the table. */
  const NOT_FOUND: nat := 0xFFFF_FFFF_FFFF_FFFF

  /** The cell after `p`, wrapping round; the table size is a power of two, so masking is modulo. */
  function Next(n: nat, p: nat): nat
    requires p < n
  {
    if p + 1 == n then 0 else p + 1
  }

  function Home(hash: U64 -> U64, n: nat, key: U64): (p: nat)
    requires n > 0
    ensures p < n
  {
    hash(key) % n
  }

  /** Number of forward steps from `a` to `b` round the table. */
  function Dist(n: nat, a: nat, b: nat): (d: nat)
    requires a < n && b < n
    ensures d < n
  {
    if a <= b then b - a else b + n - a
  }

  ghost predicate Used(cells: seq<Cell>, i: nat)
    requires i < |cells|
  {
    cells[i].key != EMPTY_KEY
  }

  /** No key is stored twice. */
  ghost predicate Distinct(cells: seq<Cell>) {
    forall i, j :: 0 <= i < j < |cells| && Used(cells, i) && Used(cells, j) ==> cells[i].key != cells[j].key
  }

  /** Cell `j` is probed before cell `i` by a search for the key stored at `i`. */
  ghost predicate Before(hash: U64 -> U64, cells: seq<Cell>, i: nat, j: nat)
    requires i < |cells| && j < |cells|
  {
    var home := Home(hash, |cells|, cells[i].key);
    Dist(|cells|, home, j) < Dist(|cells|, home, i)
  }

  /** Between a key's home cell and its own cell the only free cell allowed is `hole`. */
  ghost predicate ContiguousBut(hash: U64 -> U64, cells: seq<Cell>, hole: nat) {
    forall i, j :: 0 <= i < |cells| && 0 <= j < |cells| && Used(cells, i) && Before(hash, cells, i, j) && j != hole ==>
                     Used(cells, j)
  }

  ghost predicate Contiguous(hash: U64 -> U64, cells: seq<Cell>) {
    ContiguousBut(hash, cells, |cells|)
  }

  ghost predicate Valid(hash: U64 -> U64, cells: seq<Cell>) {
    && Distinct(cells)
    && Contiguous(hash, cells)
    && Load(cells) < |cells|
  }

  ghost function Keys(cells: seq<Cell>): set<U64> {
    set i | 0 <= i < |cells| && Used(cells, i) :: cells[i].key
  }

  /** The cell that holds a key. */
  ghost function CellOf(cells: seq<Cell>, key: U64): (i: nat)
    requires key in Keys(cells)
    ensures i < |cells| && Used(cells, i) && cells[i].key == key
  {
    var i :| 0 <= i < |cells| && Used(cells, i) && cells[i].key == key;
    i
  }

  /** The finite map the table stands for. */
  ghost function Contents(cells: seq<Cell>): map<U64, U32>
    requires Distinct(cells)
  {
    map key | key in Keys(cells) :: cells[CellOf(cells, key)].value
  }

  /** Number of used cells. */
  ghost function Load(cells: seq<Cell>): (c: nat)
    ensures c <= |cells|
  {
    if cells == [] then 0
    else Load(cells[..|cells| - 1]) + if Used(cells, |cells| - 1) then 1 else 0
  }

  lemma {:induction false} LoadUpdate(cells: seq<Cell>, i: nat, c: Cell)
    requires i < |cells|
    ensures Load(cells[i := c]) == Load(cells)
                                  - (if Used(cells, i) then 1 else 0) + (if c.key != EMPTY_KEY then 1 else 0)
  {
    var last := |cells| - 1;
    if i == last {
      assert cells[i := c][..last] == cells[..last];
    } else {
      assert cells[i := c][..last] == cells[..last][i := c];
      LoadUpdate(cells[..last], i, c);
    }
  }

  /** A table that is not full has a free cell, which is what makes every probe loop stop. */
  lemma {:induction false} FreeCell(cells: seq<Cell>) returns (e: nat)
    requires Load(cells) < |cells|
    ensures e < |cells| && !Used(cells, e)
  {
    var last := |cells| - 1;
    if Used(cells, last) {
      e := FreeCell(cells[..last]);
    } else {
      e := last;
    }
  }

  lemma {:induction false} LoadEmpty(cells: seq<Cell>)
    requires forall i :: 0 <= i < |cells| ==> cells[i].key == EMPTY_KEY
    ensures Load(cells) == 0
  {
    if cells != [] {
      LoadEmpty(cells[..|cells| - 1]);
    }
  }

  /** A key is present exactly when some cell holds it. */
  lemma ContentsAt(cells: seq<Cell>, i: nat)
    requires Distinct(cells)
    requires i < |cells| && Used(cells, i)
    ensures cells[i].key in Contents(cells) && Contents(cells)[cells[i].key] == cells[i].value
  {
    assert cells[i].key in Keys(cells);
    UniqueCell(cells, i, CellOf(cells, cells[i].key));
  }

  /** Filling a free cell with an absent key adds exactly that binding. */
  lemma FillContents(cells: seq<Cell>, p: nat, c: Cell)
    requires Distinct(cells) && p < |cells| && !Used(cells, p)
    requires c.key != EMPTY_KEY && c.key !in Contents(cells)
    ensures Distinct(cells[p := c])
    ensures Contents(cells[p := c]) == Contents(cells)[c.key := c.value]
  {
    var after := cells[p := c];
    forall i | 0 <= i < |cells| && Used(cells, i) ensures cells[i].key != c.key {
      ContentsAt(cells, i);
    }
    assert Distinct(after);
    SameBindings(cells, after, {c.key});
    assert Used(after, p);
    ContentsAt(after, p);
  }

  /** Freeing a used cell removes exactly its binding. */
  lemma FreeContents(cells: seq<Cell>, p: nat)
    requires Distinct(cells) && p < |cells| && Used(cells, p)
    ensures var after := cells[p := cells[p].(key := EMPTY_KEY)];
            && Distinct(after)
            && Contents(after) == Contents(cells) - {cells[p].key}
  {
    var after := cells[p := cells[p].(key := EMPTY_KEY)];
    assert Distinct(after);
    SameBindings(cells, after, {cells[p].key});
    if cells[p].key in Keys(after) {
      UniqueCell(cells, p, CellOf(after, cells[p].key));
    }
  }

  /** Tables that agree on every cell not holding a key of `except` agree as maps outside `except`. */
  lemma SameBindings(a: seq<Cell>, b: seq<Cell>, except: set<U64>)
    requires |a| == |b| && Distinct(a) && Distinct(b)
    requires forall i :: 0 <= i < |a| && Used(a, i) && a[i].key !in except ==> b[i] == a[i]
    requires forall i :: 0 <= i < |a| && Used(b, i) && b[i].key !in except ==> a[i] == b[i]
    ensures Contents(a) - except == Contents(b) - except
  {
    forall key | key in Keys(a) && key !in except ensures key in Contents(b) && Contents(b)[key] == Contents(a)[key] {
      var i := CellOf(a, key);
      assert Used(b, i);
      ContentsAt(b, i);
    }
    forall key | key in Keys(b) && key !in except ensures key in Contents(a) {
      var i := CellOf(b, key);
      assert Used(a, i);
    }
  }

  /** The cell a key is stored in is unique. */
  lemma UniqueCell(cells: seq<Cell>, i: nat, j: nat)
    requires Distinct(cells)
    requires i < |cells| && j < |cells| && Used(cells, i) && Used(cells, j) && cells[i].key == cells[j].key
    ensures i == j
  {
  }

  /** A probe that reaches a free cell has passed every cell in which the key could be. */
  lemma AbsentAt(hash: U64 -> U64, cells: seq<Cell>, key: U64, p: nat)
    requires Valid(hash, cells) && key != EMPTY_KEY
    requires p < |cells| && !Used(cells, p)
    requires var home := Home(hash, |cells|, key);
             forall j :: 0 <= j < |cells| && Dist(|cells|, home, j) < Dist(|cells|, home, p) ==> cells[j].key != key
    ensures key !in Contents(cells)
  {
    if key in Contents(cells) {
      var i :| 0 <= i < |cells| && Used(cells, i) && cells[i].key == key;
      assert Before(hash, cells, i, p);
    }
  }

  method Find(index: array<Cell>, hash: U64 -> U64, key: U64) returns (position: nat)
    requires Valid(hash, index[..]) && index.Length < NOT_FOUND
    ensures position == NOT_FOUND <==> key !in Contents(index[..])
    ensures position != NOT_FOUND ==> position < index.Length && index[position].key == key && key != EMPTY_KEY
  {
    ghost var cells := index[..];
    ghost var e := FreeCell(cells);
    var n := index.Length;
    var home := Home(hash, n, key);
    position := home;
    while index[position].key != EMPTY_KEY
      invariant position < n && Dist(n, home, position) <= Dist(n, home, e)
      invariant forall j :: 0 <= j < n && Dist(n, home, j) < Dist(n, home, position) ==> cells[j].key != key
      decreases Dist(n, home, e) - Dist(n, home, position)
    {
      if index[position].key == key {
        ContentsAt(cells, position);
        return;
      }
      position := Next(n, position);
    }
    if key != EMPTY_KEY {
      AbsentAt(hash, cells, key, position);
    }
    position := NOT_FOUND;
  }

  /** Storing a key in the first free cell of its probe sequence keeps every probe sequence contiguous. */
  lemma FillContiguous(hash: U64 -> U64, cells: seq<Cell>, p: nat, c: Cell)
    requires Contiguous(hash, cells) && p < |cells| && !Used(cells, p) && c.key != EMPTY_KEY
    requires var home := Home(hash, |cells|, c.key);
             forall j :: 0 <= j < |cells| && Dist(|cells|, home, j) < Dist(|cells|, home, p) ==> Used(cells, j)
    ensures Contiguous(hash, cells[p := c])
  {
    var after := cells[p := c];
    forall i, j | 0 <= i < |cells| && 0 <= j < |cells| && Used(after, i) && Before(hash, after, i, j)
      ensures Used(after, j)
    {
      if j != p {
        if i != p {
          assert Used(cells, i) && Before(hash, cells, i, j);
        }
        assert Used(cells, j);
      }
    }
  }

  method Insert(index: array<Cell>, hash: U64 -> U64, key: U64, value: U32)
    requires Valid(hash, index[..]) && Load(index[..]) + 1 < index.Length
    requires key != EMPTY_KEY && key !in Contents(index[..])
    modifies index
    ensures Valid(hash, index[..])
    ensures Contents(index[..]) == old(Contents(index[..]))[key := value]
    ensures Load(index[..]) == old(Load(index[..])) + 1
  {
    ghost var cells := index[..];
    ghost var e := FreeCell(cells);
    var n := index.Length;
    var home := Home(hash, n, key);
    var position: nat := home;
    while index[position].key != EMPTY_KEY
      invariant position < n && Dist(n, home, position) <= Dist(n, home, e)
      invariant forall j :: 0 <= j < n && Dist(n, home, j) < Dist(n, home, position) ==> Used(cells, j)
      invariant index[..] == cells
      decreases Dist(n, home, e) - Dist(n, home, position)
    {
      position := Next(n, position);
    }
    index[position] := Cell(key, value);
    assert index[..] == cells[position := Cell(key, value)];
    LoadUpdate(cells, position, Cell(key, value));
    FillContents(cells, position, Cell(key, value));
    FillContiguous(hash, cells, position, Cell(key, value));
  }

  /** `ideal` lies cyclically in (hole, probe]: the test of the deletion loop. */
  predicate MustStay(hole: nat, probe: nat, ideal: nat) {
    if hole < probe then hole < ideal <= probe else ideal > hole || ideal <= probe
  }

  /** The table after the key at `probe` has moved into the hole. */
  ghost function Shifted(cells: seq<Cell>, hole: nat, probe: nat): seq<Cell>
    requires hole < |cells| && probe < |cells|
  {
    cells[hole := cells[probe]][probe := cells[probe].(key := EMPTY_KEY)]
  }

  /** A shift keeps the map the table stands for. */
  lemma ShiftContents(cells: seq<Cell>, hole: nat, probe: nat)
    requires hole < |cells| && probe < |cells| && hole != probe
    requires Distinct(cells) && !Used(cells, hole) && Used(cells, probe)
    ensures Distinct(Shifted(cells, hole, probe))
    ensures Contents(Shifted(cells, hole, probe)) == Contents(cells)
  {
    var c := cells[probe];
    var freed := cells[probe := c.(key := EMPTY_KEY)];
    assert Shifted(cells, hole, probe) == freed[hole := c];
    FreeContents(cells, probe);
    ContentsAt(cells, probe);
    Rebind(Contents(cells), c.key, c.value);
    FillContents(freed, hole, c);
  }

  lemma Rebind(m: map<U64, U32>, key: U64, value: U32)
    requires key in m && m[key] == value
    ensures (m - {key})[key := value] == m
  {
  }

  lemma ShiftLoad(cells: seq<Cell>, hole: nat, probe: nat)
    requires hole < |cells| && probe < |cells| && hole != probe
    requires !Used(cells, hole) && Used(cells, probe)
    ensures Load(Shifted(cells, hole, probe)) == Load(cells)
  {
    var c := cells[probe];
    LoadUpdate(cells, hole, c);
    LoadUpdate(cells[hole := c], probe, c.(key := EMPTY_KEY));
  }

  /** A shift of a key that may move leaves `probe` as the only hole in any probe sequence. */
  lemma ShiftContiguous(hash: U64 -> U64, cells: seq<Cell>, hole: nat, probe: nat)
    requires hole < |cells| && probe < |cells| && hole != probe
    requires ContiguousBut(hash, cells, hole) && Used(cells, probe)
    requires !MustStay(hole, probe, Home(hash, |cells|, cells[probe].key))
    ensures ContiguousBut(hash, Shifted(cells, hole, probe), probe)
  {
    var after := Shifted(cells, hole, probe);
    forall i, j | 0 <= i < |cells| && 0 <= j < |cells| && Used(after, i) && Before(hash, after, i, j) && j != probe
      ensures Used(after, j)
    {
      if j != hole {
        assert Before(hash, cells, if i == hole then probe else i, j);
        assert Used(cells, j);
      }
    }
  }

  /** When the probe after the hole's run is free, no key's probe sequence crosses the hole. */
  lemma HoleClosed(hash: U64 -> U64, cells: seq<Cell>, hole: nat, probe: nat)
    requires hole < |cells| && probe < |cells| && probe != hole
    requires ContiguousBut(hash, cells, hole)
    requires !Used(cells, probe)
    requires forall i :: 0 <= i < |cells| && 0 < Dist(|cells|, hole, i) < Dist(|cells|, hole, probe) ==>
                           Used(cells, i) && MustStay(hole, i, Home(hash, |cells|, cells[i].key))
    ensures Contiguous(hash, cells)
  {
    forall i, j | 0 <= i < |cells| && 0 <= j < |cells| && Used(cells, i) && Before(hash, cells, i, j)
      ensures Used(cells, j)
    {
      if j == hole {
        if Dist(|cells|, hole, i) > Dist(|cells|, hole, probe) {
          assert Before(hash, cells, i, probe);
        }
      }
    }
  }

  /** The state of a deletion: `hole` is free, only it may interrupt a probe sequence, and the
      table stands for `rest`. */
  ghost predicate Hollow(hash: U64 -> U64, cells: seq<Cell>, hole: nat, rest: map<U64, U32>, load: int) {
    && hole < |cells| && !Used(cells, hole)
    && Distinct(cells) && ContiguousBut(hash, cells, hole)
    && Contents(cells) == rest && Load(cells) == load
  }

  lemma OpenHole(hash: U64 -> U64, cells: seq<Cell>, p: nat)
    requires Valid(hash, cells) && p < |cells| && Used(cells, p)
    ensures Hollow(hash, cells[p := cells[p].(key := EMPTY_KEY)], p, Contents(cells) - {cells[p].key}, Load(cells) - 1)
  {
    hide Contents, Load, Distinct, Home, Dist;
    var after := cells[p := cells[p].(key := EMPTY_KEY)];
    FreeContents(cells, p);
    LoadUpdate(cells, p, cells[p].(key := EMPTY_KEY));
    forall i, j | 0 <= i < |cells| && 0 <= j < |cells| && Used(after, i) && Before(hash, after, i, j) && j != p
      ensures Used(after, j)
    {
      assert Used(cells, i) && Before(hash, cells, i, j);
      assert Used(cells, j);
    }
  }

  lemma MoveHole(hash: U64 -> U64, cells: seq<Cell>, hole: nat, probe: nat, rest: map<U64, U32>, load: int)
    requires Hollow(hash, cells, hole, rest, load)
    requires probe < |cells| && Used(cells, probe)
    requires !MustStay(hole, probe, Home(hash, |cells|, cells[probe].key))
    ensures Hollow(hash, Shifted(cells, hole, probe), probe, rest, load)
  {
    ShiftContents(cells, hole, probe);
    ShiftLoad(cells, hole, probe);
    ShiftContiguous(hash, cells, hole, probe);
  }

  /** The inner loop of a deletion: the first cell after the hole that is free or whose key may move. */
  method NextMovable(index: array<Cell>, hash: U64 -> U64, hole: nat, ghost e: nat) returns (probe: nat)
    requires hole < index.Length && e < index.Length && hole != e && index[e].key == EMPTY_KEY
    ensures probe < index.Length && 0 < Dist(index.Length, hole, probe) <= Dist(index.Length, hole, e)
    ensures index[probe].key == EMPTY_KEY || !MustStay(hole, probe, Home(hash, index.Length, index[probe].key))
    ensures forall i :: 0 <= i < index.Length && 0 < Dist(index.Length, hole, i) < Dist(index.Length, hole, probe) ==>
                          index[i].key != EMPTY_KEY && MustStay(hole, i, Home(hash, index.Length, index[i].key))
  {
    var n := index.Length;
    probe := Next(n, hole);
    while index[probe].key != EMPTY_KEY && MustStay(hole, probe, Home(hash, n, index[probe].key))
      invariant probe < n && 0 < Dist(n, hole, probe) <= Dist(n, hole, e)
      invariant forall i :: 0 <= i < n && 0 < Dist(n, hole, i) < Dist(n, hole, probe) ==>
                              index[i].key != EMPTY_KEY && MustStay(hole, i, Home(hash, n, index[i].key))
      decreases Dist(n, probe, e)
    {
      probe := Next(n, probe);
    }
  }

  method Erase(index: array<Cell>, hash: U64 -> U64, position: nat)
    requires Valid(hash, index[..]) && position < index.Length && index[position].key != EMPTY_KEY
    modifies index
    ensures Valid(hash, index[..])
    ensures Contents(index[..]) == old(Contents(index[..])) - {old(index[position].key)}
    ensures Load(index[..]) == old(Load(index[..])) - 1
  {
    hide Contents, Load, Distinct, ContiguousBut, Contiguous, Home;
    ghost var cells := index[..];
    ghost var e := FreeCell(cells);
    ghost var rest, load := Contents(cells) - {cells[position].key}, Load(cells) - 1;
    var hole := position;
    OpenHole(hash, cells, hole);
    index[hole] := index[hole].(key := EMPTY_KEY);
    assert index[..] == cells[hole := cells[hole].(key := EMPTY_KEY)];
    while true
      invariant Hollow(hash, index[..], hole, rest, load)
      invariant hole != e && !Used(index[..], e)
      decreases Dist(index.Length, hole, e)
    {
      ghost var now, was := index[..], hole;
      var probe := NextMovable(index, hash, hole, e);
      if index[probe].key == EMPTY_KEY {
        HoleClosed(hash, now, hole, probe);
        return;
      }
      MoveHole(hash, now, hole, probe, rest, load);
      index[hole] := index[probe];
      hole := probe;
      index[hole] := index[hole].(key := EMPTY_KEY);
      assert index[..] == Shifted(now, was, hole);
    }
  }
}
