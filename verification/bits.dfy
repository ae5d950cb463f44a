/** The bit arithmetic the rings rely on: sizes are powers of two, masking is remainder, and
    32-bit counters wrap. */
module Bits {

  function Pow2(k: nat): (r: nat)
    ensures r > 0
  {
    if k == 0 then 1 else 2 * Pow2(k - 1)
  }

  /** The C operator & on unsigned values. */
  function BitAnd(x: nat, y: nat): nat {
    if x == 0 || y == 0 then 0 else 2 * BitAnd(x / 2, y / 2) + (if x % 2 == 1 && y % 2 == 1 then 1 else 0)
  }

  const WORD: nat := 0x1_0000_0000

  /** a - b on 32-bit unsigned values. */
  function Sub32(a: nat, b: nat): nat
    requires a < WORD && b < WORD
  {
    if a >= b then a - b else a + WORD - b
  }

  lemma SameQuotient(m: nat, q: int, r: nat, p: int, s: nat)
    requires r < m && s < m && m * q + r == m * p + s
    ensures q == p && r == s
  {
    assert m * (p - q) == m * p - m * q;
    assert m * (q - p) == m * q - m * p;
    if q < p {
      MulGrows(m, p - q);
    } else if p < q {
      MulGrows(m, q - p);
    }
  }

  lemma MulGrows(m: nat, d: int)
    requires d >= 1
    ensures m * d >= m
  {
  }

  lemma DivMod(x: nat, m: nat)
    requires m > 0
    ensures x == m * (x / m) + x % m && x % m < m
  {
  }

  lemma ModIs(x: nat, m: nat, q: nat, r: nat)
    requires m > 0 && x == m * q + r && r < m
    ensures x % m == r
  {
    DivMod(x, m);
    SameQuotient(m, q, r, x / m, x % m);
  }

  lemma HalfMod(x: nat, m: nat)
    requires m > 0
    ensures x % (2 * m) == 2 * ((x / 2) % m) + x % 2
  {
    var q, r := (x / 2) / m, (x / 2) % m;
    DivMod(x / 2, m);
    assert 2 * (m * q) == (2 * m) * q;
    ModIs(x, 2 * m, q, 2 * r + x % 2);
  }

  lemma AndOdd(x: nat, m: nat)
    requires m > 0
    ensures BitAnd(x, 2 * m - 1) == 2 * BitAnd(x / 2, m - 1) + x % 2
  {
    assert (2 * m - 1) / 2 == m - 1 && (2 * m - 1) % 2 == 1;
  }

  /** Masking with size - 1 is the remainder by size, when size is a power of two. */
  lemma {:induction false} MaskIsMod(x: nat, k: nat)
    ensures BitAnd(x, Pow2(k) - 1) == x % Pow2(k)
    decreases k
  {
    if k > 0 {
      MaskIsMod(x / 2, k - 1);
      HalfMod(x, Pow2(k - 1));
      AndOdd(x, Pow2(k - 1));
    }
  }

  ghost predicate IsPow2(s: nat) {
    exists k: nat :: s == Pow2(k)
  }

  lemma {:induction false} AndSelf(x: nat)
    ensures BitAnd(x, x) == x
  {
    if x > 0 {
      AndSelf(x / 2);
    }
  }

  /** The test ( size & (size - 1) ) != 0 of the ring constructors rejects exactly the sizes
      that are not powers of two. */
  lemma {:induction false} PowerTest(s: nat)
    requires s > 0
    ensures BitAnd(s, s - 1) == 0 <==> IsPow2(s)
  {
    if s == 1 {
      assert s == Pow2(0);
    } else if s % 2 == 1 {
      assert (s - 1) / 2 == s / 2;
      AndSelf(s / 2);
      assert forall k: nat :: k > 0 ==> Pow2(k) == 2 * Pow2(k - 1);
    } else {
      PowerTest(s / 2);
      HalfPower(s);
      assert (s - 1) / 2 == s / 2 - 1;
    }
  }

  lemma HalfPower(s: nat)
    requires s > 0 && s % 2 == 0
    ensures IsPow2(s) <==> IsPow2(s / 2)
  {
    if IsPow2(s) {
      var k: nat :| s == Pow2(k);
      assert s / 2 == Pow2(k - 1);
    }
    if IsPow2(s / 2) {
      var k: nat :| s / 2 == Pow2(k);
      assert s == Pow2(k + 1);
    }
  }

  lemma {:induction false} Pow2Product(a: nat, b: nat)
    ensures Pow2(a) * Pow2(b) == Pow2(a + b)
  {
    if a > 0 {
      Pow2Product(a - 1, b);
    }
  }

  lemma ModOfMod(x: nat, s: nat, c: nat)
    requires s > 0 && c > 0
    ensures s * c > 0 && (x % (s * c)) % s == x % s
  {
    MulGrows(s, c);
    var q, r := x / (s * c), x % (s * c);
    DivMod(x, s * c);
    DivMod(r, s);
    Regroup(s, c, q, r / s);
    ModIs(x, s, c * q + r / s, r % s);
  }

  lemma Regroup(s: nat, c: nat, q: nat, d: nat)
    ensures (s * c) * q + s * d == s * (c * q + d)
  {
    assert (s * c) * q == s * (c * q);
  }

  /** A counter that wraps at 2^32 still points to the right slot: the size divides 2^32. */
  lemma WrapKeepsSlot(x: nat, k: nat)
    requires k <= 32
    ensures (x % WORD) % Pow2(k) == x % Pow2(k)
  {
    Pow2Product(k, 32 - k);
    Pow2_32();
    ModOfMod(x, Pow2(k), Pow2(32 - k));
  }

  lemma Pow2_32()
    ensures Pow2(32) == WORD
  {
    assert Pow2(8) == 256;
    assert Pow2(16) == 65536;
    assert Pow2(24) == 16777216;
  }
}
