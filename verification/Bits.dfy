/** Bitwise masks over powers of two, as the ring buffers use them. */
module Bits {

  function Pow2(k: nat): (r: nat)
    ensures r >= 1
  {
    if k == 0 then 1 else 2 * Pow2(k - 1)
  }

  /** Bitwise conjunction. */
  function And(x: nat, y: nat): nat {
    if x == 0 || y == 0 then 0
    else 2 * And(x / 2, y / 2) + if x % 2 == 1 && y % 2 == 1 then 1 else 0
  }

  ghost predicate IsPowerOfTwo(n: nat) {
    exists k: nat :: n == Pow2(k)
  }

  lemma HalfMod(x: nat, m: nat)
    requires m > 0
    ensures x % (2 * m) == 2 * ((x / 2) % m) + x % 2
  {
    var q, r := (x / 2) / m, (x / 2) % m;
    assert x / 2 == q * m + r;
    assert x == 2 * (q * m + r) + x % 2;
    assert 2 * (q * m) == q * (2 * m);
    ModUnique(x, 2 * m, q, 2 * r + x % 2);
  }

  lemma ModUnique(x: nat, m: nat, q: int, r: nat)
    requires m > 0 && x == q * m + r && r < m
    ensures x % m == r && x / m == q
  {
    var d := x / m - q;
    assert x == (x / m) * m + x % m;
    assert d * m == r - x % m by {
      assert (x / m - q) * m == (x / m) * m - q * m;
    }
    assert d >= 1 ==> d * m >= m;
    assert d <= -1 ==> d * m + m <= 0;
  }

  /** Masking with capacity - 1 is the remainder by the capacity. */
  lemma {:induction false} AndMask(x: nat, k: nat)
    ensures And(x, Pow2(k) - 1) == x % Pow2(k)
  {
    if k > 0 {
      AndMask(x / 2, k - 1);
      HalfMod(x, Pow2(k - 1));
      assert (Pow2(k) - 1) / 2 == Pow2(k - 1) - 1;
      if x == 0 || Pow2(k) - 1 == 0 {
      } else {
        assert (Pow2(k) - 1) % 2 == 1;
      }
    }
  }

  lemma MaskIsRemainder(x: nat, n: nat)
    requires IsPowerOfTwo(n)
    ensures And(x, n - 1) == x % n
  {
    var k: nat :| n == Pow2(k);
    AndMask(x, k);
  }

  /** The constructors' test accepts exactly the powers of two. */
  lemma {:induction false} PowerOfTwoTest(n: nat)
    requires n > 0
    ensures And(n, n - 1) == 0 <==> IsPowerOfTwo(n)
    decreases n
  {
    if n == 1 {
      assert Pow2(0) == 1;
    } else if n % 2 == 0 {
      PowerOfTwoTest(n / 2);
      assert (n - 1) / 2 == n / 2 - 1;
      if k: nat :| n / 2 == Pow2(k) {
        assert n == Pow2(k + 1);
      }
      if k: nat :| n == Pow2(k) {
        assert n / 2 == Pow2(k - 1);
      }
    } else {
      AndSelf(n / 2);
      assert (n - 1) / 2 == n / 2;
      forall k: nat ensures n != Pow2(k) {
        assert k == 0 || Pow2(k) == 2 * Pow2(k - 1);
      }
    }
  }

  lemma {:induction false} AndSelf(x: nat)
    ensures And(x, x) == x
  {
    if x > 0 {
      AndSelf(x / 2);
    }
  }

  /** Bitwise exclusive or. */
  function Xor(x: nat, y: nat): nat {
    if x == 0 then y else if y == 0 then x
    else 2 * Xor(x / 2, y / 2) + if x % 2 == y % 2 then 0 else 1
  }

  lemma {:induction false} XorBound(x: nat, y: nat, k: nat)
    requires x < Pow2(k) && y < Pow2(k)
    ensures Xor(x, y) < Pow2(k)
  {
    if k > 0 {
      XorBound(x / 2, y / 2, k - 1);
    }
  }

  /** Masking twice with the same mask restores the value. */
  lemma {:induction false} XorTwice(x: nat, y: nat)
    ensures Xor(Xor(x, y), y) == x
  {
    if x == 0 {
      XorSelf(y);
    } else if y != 0 {
      XorTwice(x / 2, y / 2);
      var z := Xor(x / 2, y / 2);
      var r := 2 * z + if x % 2 == y % 2 then 0 else 1;
      assert r / 2 == z && r % 2 == if x % 2 == y % 2 then 0 else 1;
      assert Xor(r, y) == (if r == 0 then y else 2 * Xor(z, y / 2) + if r % 2 == y % 2 then 0 else 1);
      if r == 0 {
        assert Xor(0, y / 2) == y / 2;
      }
    }
  }

  lemma {:induction false} XorSelf(x: nat)
    ensures Xor(x, x) == 0
  {
    if x > 0 {
      XorSelf(x / 2);
    }
  }

  // ---- Windows of consecutive tickets ----

  /** Tickets less than a lap apart use different slots. */
  lemma SlotsDiffer(a: nat, b: nat, n: nat)
    requires n > 0 && a < b < a + n
    ensures a % n != b % n
  {
    var d := b / n - a / n;
    assert a == (a / n) * n + a % n && b == (b / n) * n + b % n;
    assert d * n == (b / n) * n - (a / n) * n;
    assert d <= 0 ==> d * n <= 0;
    assert d >= 1 ==> d * n >= n;
  }

  /** The ticket of the window [lo, lo + n) that shares a slot with `pos`. */
  lemma SlotMate(pos: nat, lo: nat, n: nat) returns (t: nat)
    requires n > 0
    ensures lo <= t < lo + n && t % n == pos % n
    ensures pos < t ==> pos + n <= t
    ensures t < pos ==> t + n <= pos
  {
    var d := (pos - lo) % n;
    t := lo + d;
    var q := (pos - lo) / n;
    assert pos - lo == q * n + d;
    assert pos == t + q * n;
    if q >= 0 {
      ShiftMod(t, q, n);
      if q >= 1 { assert q * n >= n; }
    } else {
      assert t == pos + (-q) * n by { assert (-q) * n == -(q * n); }
      ShiftMod(pos, -q, n);
      assert (-q) * n >= n;
    }
  }

  lemma ShiftMod(t: nat, q: nat, n: nat)
    requires n > 0
    ensures (t + q * n) % n == t % n
  {
    assert t == (t / n) * n + t % n;
    assert t + q * n == (t / n + q) * n + t % n by {
      assert (t / n + q) * n == (t / n) * n + q * n;
    }
    ModUnique(t + q * n, n, t / n + q, t % n);
  }
}
