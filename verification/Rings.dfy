/** Arithmetic of slot numbers: a ring of `n` slots keeps number `k` in slot `k % n`. */
module Rings {
  import opened Market

  function Slot(k: nat, n: nat): (i: nat)
    requires n > 0
    ensures i < n
  {
    k % n
  }

  lemma SmallSlot(i: nat, n: nat)
    requires i < n
    ensures Slot(i, n) == i
  {
  }

  lemma MulMonotone(n: nat, x: int, y: int)
    requires x <= y
    ensures n * x <= n * y
  {
    assert n * (y - x) >= 0;
  }

  /** The slot of `k` is fixed by any decomposition of `k`. */
  lemma SlotIs(n: nat, k: nat, q: int, r: nat)
    requires n > 0 && k == n * q + r && r < n
    ensures k % n == r
  {
    var q', r' := k / n, k % n;
    assert k == n * q' + r';
    if q' < q {
      MulMonotone(n, q' + 1, q);
    } else if q < q' {
      MulMonotone(n, q + 1, q');
    }
  }

  /** Two numbers less than a ring apart use different slots. */
  lemma DistinctSlots(a: nat, b: nat, n: nat)
    requires n > 0 && a < b < a + n
    ensures Slot(a, n) != Slot(b, n)
  {
    var q, r := a / n, a % n;
    assert a == n * q + r;
    if r + (b - a) < n {
      SlotIs(n, b, q, r + (b - a));
    } else {
      assert n * (q + 1) == n * q + n;
      SlotIs(n, b, q + 1, r + (b - a) - n);
    }
  }

  /** A number one ring further on uses the same slot. */
  lemma SameSlot(k: nat, n: nat)
    requires n > 0
    ensures Slot(k + n, n) == Slot(k, n)
  {
    assert n * (k / n + 1) == n * (k / n) + n;
    SlotIs(n, k + n, k / n + 1, k % n);
  }

  // ---- Slot numbers taken from wrapping 64-bit counters ----

  lemma {:induction false} Pow2Divides(n: nat, m: nat) returns (q: nat)
    requires IsPow2(n) && IsPow2(m) && n <= m
    ensures m == n * q
  {
    if n == 1 {
      q := m;
    } else {
      q := Pow2Divides(n / 2, m / 2);
      assert n == 2 * (n / 2) && m == 2 * (m / 2);
      assert n * q == 2 * ((n / 2) * q);
    }
  }

  lemma Doubled(c: nat, b: nat)
    ensures (2 * c) * b == 2 * (c * b)
  {
  }

  lemma Halved(x: nat, y: nat)
    requires x == 2 * y
    ensures x % 2 == 0 && x / 2 == y
  {
  }

  lemma {:induction false} Pow2Times(a: nat, b: nat)
    requires IsPow2(a) && IsPow2(b)
    ensures IsPow2(a * b)
  {
    if a != 1 {
      var c := a / 2;
      Pow2Times(c, b);
      Doubled(c, b);
      Halved(a * b, c * b);
    }
  }

  lemma WordIsPow2()
    ensures IsPow2(WORD)
  {
    assert IsPow2(2) && IsPow2(4);
    Pow2Times(4, 4);
    Pow2Times(16, 16);
    Pow2Times(0x100, 0x100);
    Pow2Times(0x1_0000, 0x1_0000);
    Pow2Times(0x1_0000_0000, 0x1_0000_0000);
  }

  lemma Regroup(n: nat, q: nat, a: nat, c: nat)
    ensures n * q * a + n * c == n * (q * a + c)
  {
  }

  lemma NestedSlot(k: nat, n: nat, m: nat, q: nat)
    requires n > 0 && m > 0 && m == n * q
    ensures (k % m) % n == k % n
  {
    var b := k % m;
    assert k == m * (k / m) + b;
    assert b == n * (b / n) + b % n;
    Regroup(n, q, k / m, b / n);
    SlotIs(n, k, q * (k / m) + b / n, b % n);
  }

  /** A power-of-two ring finds the same slot from the wrapped counter as from the true one. */
  lemma WrappedSlot(k: nat, n: nat)
    requires IsPow2(n) && n <= WORD
    ensures Slot(k % WORD, n) == Slot(k, n)
  {
    WordIsPow2();
    var q := Pow2Divides(n, WORD);
    NestedSlot(k, n, WORD, q);
  }

  /** Wrapped counters subtract to the true distance when it is below a word. */
  lemma WrappedDistance(a: nat, b: nat)
    requires b <= a < b + WORD
    ensures (a % WORD - b % WORD) % WORD == a - b
  {
    var q, q' := a / WORD - b / WORD, a % WORD - b % WORD;
    assert a - b == WORD * q + q';
    assert q == 0 || q == 1;
  }

  /** Wrapped counters are equal exactly when the true ones are. */
  lemma WrappedEqual(a: nat, b: nat)
    requires b <= a < b + WORD
    ensures a % WORD == b % WORD <==> a == b
  {
    WrappedDistance(a, b);
  }
}
