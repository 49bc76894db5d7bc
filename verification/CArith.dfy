/** 64-bit arithmetic of cdata (src/lj_carith.c): division that never traps, and powers. */
module CArith {
  import opened PowersOfTwo

  const HIGH_BIT: int := 0x8000_0000_0000_0000

  type Word = n: nat | n < W64

  type Int64 = n: int | -HIGH_BIT <= n < HIGH_BIT

  const INT64_MIN: Int64 := -HIGH_BIT

  /** A conversion to uint64_t */
  function Wrap(n: int): Word {
    n % W64
  }

  /** A conversion to int64_t */
  function Signed(w: Word): Int64 {
    if w < HIGH_BIT then w else w - W64
  }

  function Abs(n: int): nat {
    if n < 0 then -n else n
  }

  /** `a / b` in C: towards zero */
  function Quot(a: int, b: int): int
    requires b != 0
  {
    if (a < 0) == (b < 0) then Abs(a) / Abs(b) else -(Abs(a) / Abs(b))
  }

  /** `a % b` in C: with the sign of `a` */
  function Rem(a: int, b: int): int
    requires b != 0
  {
    if a < 0 then -(Abs(a) % Abs(b)) else Abs(a) % Abs(b)
  }

  // ------------------------------------------------------------------
  // Division

  function DivU64(a: Word, b: Word): Word {
    if b == 0 then HIGH_BIT else Quotient(a, b)
  }

  function Quotient(a: Word, b: Word): Word
    requires b != 0
  {
    DivBounds(a, b);
    MulMonotone(1, b, a / b);
    a / b
  }

  function ModU64(a: Word, b: Word): Word {
    if b == 0 then HIGH_BIT else a % b
  }

  function DivI64(a: Int64, b: Int64): Int64 {
    if b == 0 || (a == INT64_MIN && b == -1) then INT64_MIN
    else
      QuotInRange(a, b);
      Quot(a, b)
  }

  function ModI64(a: Int64, b: Int64): Int64 {
    if b == 0 then INT64_MIN
    else if a == INT64_MIN && b == -1 then 0
    else
      RemBounds(a, b);
      Rem(a, b)
  }

  lemma DivParts(x: nat, y: nat)
    requires y > 0
    ensures x == (x / y) * y + x % y && 0 <= x % y < y && 0 <= x / y <= x && x % y <= x
    ensures y == 1 ==> x / y == x
    ensures y >= 2 ==> 2 * (x / y) <= x
  {
    var q := x / y;
    DivBounds(x, y);
    if y >= 2 {
      MulMonotone(2, y, q);
    }
  }

  /** Only the smallest number over -1 overflows. */
  lemma QuotInRange(a: Int64, b: Int64)
    requires b != 0
    ensures -HIGH_BIT <= Quot(a, b) < HIGH_BIT <==> !(a == INT64_MIN && b == -1)
  {
    DivParts(Abs(a), Abs(b));
    var q := Abs(a) / Abs(b);
    assert Quot(a, b) == if (a < 0) == (b < 0) then q else -q;
  }

  lemma SignedProduct(q: int, b: int)
    ensures (-q) * b == -(q * b) && (-q) * (-b) == q * b && q * (-b) == -(q * b)
  {
  }

  lemma RemBounds(a: int, b: int)
    requires b != 0
    ensures Abs(Rem(a, b)) < Abs(b) && (Rem(a, b) != 0 ==> (Rem(a, b) < 0 <==> a < 0)) && Abs(Rem(a, b)) <= Abs(a)
    ensures Quot(a, b) * b + Rem(a, b) == a
  {
    var x, y := Abs(a), Abs(b);
    var q: int, r: int := x / y, x % y;
    DivParts(x, y);
    SignedProduct(q, y);
    assert Quot(a, b) == (if (a < 0) == (b < 0) then q else -q) && Rem(a, b) == if a < 0 then -r else r;
    assert Quot(a, b) * b == if a < 0 then -(q * y) else q * y;
  }

  /** Quotient and remainder give the dividend back, for every divisor but zero. */
  lemma SignedDivMod(a: Int64, b: Int64)
    requires b != 0
    ensures Wrap(DivI64(a, b) * b + ModI64(a, b)) == Wrap(a)
    ensures DivI64(a, b) * b + ModI64(a, b) == a <==> !(a == INT64_MIN && b == -1)
    ensures Abs(ModI64(a, b)) < Abs(b) && (ModI64(a, b) != 0 ==> (ModI64(a, b) < 0 <==> a < 0))
  {
    hide Quot, Rem;
    RemBounds(a, b);
  }

  lemma UnsignedDivMod(a: Word, b: Word)
    requires b != 0
    ensures DivU64(a, b) * b + ModU64(a, b) == a && ModU64(a, b) < b
  {
    assert a == (a / b) * b + a % b;
  }

  // ------------------------------------------------------------------
  // Powers

  function Power(x: int, k: nat): int
    decreases k
  {
    if k == 0 then 1 else x * Power(x, k - 1)
  }

  /** Two numbers with the same word */
  ghost predicate Cong(a: int, b: int) {
    exists q :: Differ(a, b, q)
  }

  ghost predicate Differ(a: int, b: int, q: int) {
    a == b + q * W64
  }

  lemma CongMul(a: int, b: int, c: int, d: int)
    requires Cong(a, b) && Cong(c, d)
    ensures Cong(a * c, b * d)
  {
    var q :| Differ(a, b, q);
    var r :| Differ(c, d, r);
    var s := b * r + q * d + q * r * W64;
    assert (b + q * W64) * (d + r * W64) == b * d + s * W64;
    assert Differ(a * c, b * d, s);
  }

  lemma CongTrans(a: int, b: int, c: int)
    requires Cong(a, b) && Cong(b, c)
    ensures Cong(a, c)
  {
    var q :| Differ(a, b, q);
    var r :| Differ(b, c, r);
    assert Differ(a, c, q + r);
  }

  lemma CongSelf(a: int)
    ensures Cong(a, a)
  {
    assert Differ(a, a, 0);
  }

  lemma WrapCong(a: int)
    ensures Cong(Wrap(a), a) && Cong(a, Wrap(a))
  {
    assert Differ(Wrap(a), a, -(a / W64));
    assert Differ(a, Wrap(a), a / W64);
  }

  lemma CongWrap(a: int, b: int)
    requires Cong(a, b)
    ensures Wrap(a) == Wrap(b)
  {
    var q :| Differ(a, b, q);
    SameRem(b, q);
  }

  lemma SameRem(b: int, q: int)
    ensures (b + q * W64) % W64 == b % W64
  {
    var n, r := b / W64, b % W64;
    assert b + q * W64 == (n + q) * W64 + r;
  }

  lemma {:induction false} PowerCong(x: int, y: int, k: nat)
    requires Cong(x, y)
    ensures Cong(Power(x, k), Power(y, k))
  {
    if k == 0 {
      CongSelf(1);
    } else {
      PowerCong(x, y, k - 1);
      CongMul(x, y, Power(x, k - 1), Power(y, k - 1));
    }
  }

  /** Squaring halves the exponent. */
  lemma {:induction false} PowerOfSquare(x: int, k: nat)
    ensures Power(x, 2 * k) == Power(x * x, k)
  {
    if k > 0 {
      PowerOfSquare(x, k - 1);
      assert Power(x, 2 * k) == x * Power(x, 2 * k - 1) == x * (x * Power(x, 2 * (k - 1)));
      Regroup(x, Power(x, 2 * (k - 1)));
    }
  }

  lemma Regroup(x: int, p: int)
    ensures x * (x * p) == (x * x) * p
  {
  }

  /** The product of two words */
  function Times(x: Word, y: Word): Word {
    Wrap(x * y)
  }

  /** One squaring step on words */
  lemma SquareStep(x: Word, k: nat)
    ensures Cong(Power(x, 2 * k), Power(Times(x, x), k))
  {
    PowerOfSquare(x, k);
    WrapCong(x * x);
    PowerCong(x * x, Wrap(x * x), k);
  }

  /** What is left of a power: a factor, and the square of a power */
  ghost predicate Left(p: int, x: Word, y: Word, k: nat) {
    Cong(p, y * Power(x, 2 * k))
  }

  /** `y` times the square of the remaining power stays the same when a bit of the exponent is taken. */
  lemma PowStep(p: int, x: Word, y: Word, k: nat)
    requires k > 0 && Left(p, x, y, k)
    ensures var x' := Times(x, x);
            && (k % 2 == 0 ==> Left(p, x', y, k / 2))
            && (k % 2 == 1 ==> Left(p, x', Times(y, x'), k / 2))
            && (k == 1 ==> Cong(p, Times(y, x')))
  {
    var x', m := Times(x, x), 2 * (k / 2);
    SquareStep(x, k);
    CongSelf(y);
    CongMul(y, y, Power(x, 2 * k), Power(x', k));
    CongTrans(p, y * Power(x, 2 * k), y * Power(x', k));
    if k % 2 == 1 {
      assert Power(x', k) == x' * Power(x', m);
      Regroup3(y, x', Power(x', m));
      WrapCong(y * x');
      CongSelf(Power(x', m));
      CongMul(y * x', Times(y, x'), Power(x', m), Power(x', m));
      CongTrans(p, y * Power(x', k), Times(y, x') * Power(x', m));
    }
  }

  lemma Regroup3(a: int, b: int, c: int)
    ensures a * (b * c) == (a * b) * c
  {
  }

  /** lj_carith_powu64: square and multiply, on words. */
  method PowU64(x0: Word, k0: Word) returns (y: Word)
    ensures y == Wrap(Power(x0, k0))
  {
    hide Cong, Power, Wrap, Times, Left;
    var x, k := x0, k0;
    if k == 0 {
      PowerZero(x);
      return 1;
    }
    ghost var p := Power(x0, k0);
    CongSelf(p);
    while k % 2 == 0
      invariant k > 0 && Cong(p, Power(x, k))
      decreases k
    {
      SquareStep(x, k / 2);
      CongTrans(p, Power(x, k), Power(Times(x, x), k / 2));
      x := Times(x, x);
      k := k / 2;
    }
    y := x;
    OddPower(p, x, k);
    k := k / 2;
    if k != 0 {
      while true
        invariant k > 0 && Left(p, x, y, k)
        decreases k
      {
        PowStep(p, x, y, k);
        x := Times(x, x);
        if k == 1 {
          break;
        }
        if k % 2 == 1 {
          y := Times(y, x);
        }
        k := k / 2;
      }
      y := Times(y, x);
    }
    WordOf(p, y);
  }

  lemma WordOf(p: int, y: Word)
    requires Cong(p, y)
    ensures y == Wrap(p)
  {
    CongWrap(p, y);
  }

  lemma PowerZero(x: int)
    ensures Power(x, 0) == 1 == Wrap(Power(x, 0))
  {
  }

  lemma OddPower(p: int, x: Word, k: nat)
    requires k % 2 == 1
    requires Cong(p, Power(x, k))
    ensures Left(p, x, x, k / 2) && (k / 2 == 0 ==> Cong(p, x))
  {
  }

  /** lj_carith_powi64 */
  method PowI64(x: Int64, k: Int64) returns (r: Int64)
    ensures k >= 0 ==> Wrap(r) == Wrap(Power(x, k))
    ensures k < 0 && x != 0 ==> Power(x, -(k as int)) != 0 && r == Quot(1, Power(x, -(k as int)))
    ensures k < 0 && x == 0 ==> r == HIGH_BIT - 1
  {
    hide Power, Wrap, Quot, Signed;
    if k == 0 {
      PowerZero(x);
      return 1;
    }
    if k < 0 {
      if x != 0 {
        Inverse(x, -(k as int));
      }
      if x == 0 {
        return HIGH_BIT - 1;
      } else if x == 1 {
        return 1;
      } else if x == -1 {
        return if k % 2 != 0 then -1 else 1;
      } else {
        return 0;
      }
    }
    var w := PowU64(Wrap(x), k);
    r := Signed(w);
    SignedWord(w);
    PowerOfWord(x, k);
  }

  lemma SignedWord(w: Word)
    ensures Wrap(Signed(w)) == w
  {
  }

  /** Powers of two numbers with the same word have the same word. */
  lemma PowerOfWord(x: int, k: nat)
    ensures Wrap(Power(Wrap(x), k)) == Wrap(Power(x, k))
  {
    hide Power, Wrap;
    WrapCong(x);
    PowerCong(Wrap(x), x, k);
    CongWrap(Power(Wrap(x), k), Power(x, k));
  }

  /** A negative power is the inverse, which C cuts off to an integer. */
  lemma {:induction false} Inverse(x: int, k: nat)
    requires x != 0 && k > 0
    ensures Power(x, k) != 0
    ensures Quot(1, Power(x, k)) == if x == 1 then 1 else if x == -1 then (if k % 2 == 1 then -1 else 1) else 0
  {
    PowerSize(x, k);
    var p := Power(x, k);
    if Abs(x) >= 2 {
      DivUnique(1, Abs(p), 0);
    }
  }

  lemma {:induction false} PowerSize(x: int, k: nat)
    requires x != 0
    ensures x == 1 ==> Power(x, k) == 1
    ensures x == -1 ==> Power(x, k) == if k % 2 == 1 then -1 else 1
    ensures Abs(x) >= 2 && k > 0 ==> Abs(Power(x, k)) >= 2
    ensures Power(x, k) != 0
  {
    if k > 0 {
      PowerSize(x, k - 1);
      AbsMul(x, Power(x, k - 1));
    }
  }

  lemma AbsMul(a: int, b: int)
    requires b != 0
    ensures Abs(a * b) >= Abs(a)
  {
    MulMonotone(1, Abs(b), Abs(a));
    assert Abs(a * b) == Abs(a) * Abs(b);
  }
}
