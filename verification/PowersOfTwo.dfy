/** Powers of two and the unsigned 64-bit words they measure. */
module PowersOfTwo {

  function Pow2(n: nat): (r: nat)
    ensures r > 0
  {
    if n == 0 then 1 else 2 * Pow2(n - 1)
  }

  const W64: nat := 0x1_0000_0000_0000_0000

  lemma {:induction false} Pow2Of64()
    ensures Pow2(64) == W64
  {
    assert Pow2(8) == 256;
    Pow2Sum(8, 8);
    Pow2Sum(16, 16);
    Pow2Sum(32, 32);
  }

  lemma {:induction false} Pow2Sum(m: nat, n: nat)
    ensures Pow2(m + n) == Pow2(m) * Pow2(n)
  {
    if m > 0 {
      Pow2Sum(m - 1, n);
      assert Pow2(m + n) == 2 * Pow2(m - 1 + n);
    }
  }

  lemma {:induction false} Pow2Monotone(m: nat, n: nat)
    requires m <= n
    ensures Pow2(m) <= Pow2(n)
    ensures m < n ==> 2 * Pow2(m) <= Pow2(n)
  {
    if m < n {
      Pow2Monotone(m, n - 1);
    }
  }

  lemma {:induction false} Pow2Values()
    ensures Pow2(7) == 0x80 && Pow2(8) == 0x100 && Pow2(14) == 0x4000
    ensures Pow2(15) == 0x8000 && Pow2(16) == 0x1_0000
    ensures Pow2(22) == 0x40_0000 && Pow2(23) == 0x80_0000
    ensures Pow2(32) == 0x1_0000_0000
  {
    assert Pow2(7) == 0x80;
    Pow2Sum(7, 7);
    Pow2Sum(8, 8);
    Pow2Sum(15, 7);
    Pow2Sum(16, 16);
  }

  lemma Pow2Next(n: nat)
    ensures Pow2(n + 1) == 2 * Pow2(n)
  {
  }

  /** The two halves of a 64-bit word. */
  lemma WordHalves(e: nat)
    requires 0 < e <= 64
    ensures Pow2(e) == 2 * Pow2(e - 1) && Pow2(65 - e) == 2 * Pow2(64 - e)
    ensures Pow2(e - 1) * Pow2(64 - e) == W64 / 2
  {
    hide Pow2;
    Pow2Of64();
    Pow2Next(63);
    Pow2Next(e - 1);
    Pow2Next(64 - e);
    Pow2Sum(e - 1, 64 - e);
  }

  lemma MulMonotone(a: int, b: int, d: nat)
    requires a <= b
    ensures a * d <= b * d
  {
  }

  lemma {:induction false} DivUnique(s: nat, d: nat, q: nat)
    requires d > 0 && q * d <= s < q * d + d
    ensures s / d == q
  {
    var e := s / d;
    assert s == e * d + s % d;
    if e < q {
      MulMonotone(e + 1, q, d);
    } else if q < e {
      MulMonotone(q + 1, e, d);
    }
  }

  lemma DivBounds(s: nat, d: nat)
    requires d > 0
    ensures (s / d) * d <= s < (s / d) * d + d
    ensures s >= d ==> s / d > 0
  {
    assert s == (s / d) * d + s % d;
  }

  lemma {:induction false} RemUnique(s: nat, d: nat, q: nat, r: nat)
    requires r < d && s == q * d + r
    ensures s % d == r && s / d == q
  {
    DivUnique(s, d, q);
    assert s == (s / d) * d + s % d;
  }

  lemma {:induction false} Multiple(s: nat, d: nat, q: nat)
    requires d > 0 && s == q * d
    ensures s % d == 0 && s / d == q
  {
    DivUnique(s, d, q);
    assert s == (s / d) * d + s % d;
  }
}
