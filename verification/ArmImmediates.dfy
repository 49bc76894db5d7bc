/**
 The immediates of ARM64 logical instructions (dasm_imm13 of dynasm/dasm_arm64.h), against the
 pseudocode DecodeBitMasks of the Arm Architecture Reference Manual (DDI 0487, chapter J1).
 A 64-bit word is the sequence of its bits, the lowest one first.
 */
module ArmImmediates {
  import opened PowersOfTwo

  type Bits = b: seq<bool> | |b| == 64 witness seq(64, i => false)

  // ------------------------------------------------------------------
  // Operations on words

  function Value(b: seq<bool>): nat {
    if b == [] then 0 else (if b[0] then 1 else 0) + 2 * Value(b[1..])
  }

  function Size(n: nat): (r: nat)
    ensures r > 0
  {
    if n == 0 then 1 else 2 * Size(n - 1)
  }

  /** Adds a carry, from the lowest bit on */
  function AddCarry(b: seq<bool>, carry: bool): (r: seq<bool>)
    ensures |r| == |b|
  {
    if b == [] then [] else [b[0] != carry] + AddCarry(b[1..], b[0] && carry)
  }

  /** The sum, without a carry out of the highest bit */
  lemma {:induction false} AddCarryValue(b: seq<bool>, carry: bool)
    ensures var v := Value(b) + if carry then 1 else 0;
            v <= Size(|b|) && Value(b) < Size(|b|) && Value(AddCarry(b, carry)) == if v == Size(|b|) then 0 else v
  {
    if b != [] {
      AddCarryValue(b[1..], b[0] && carry);
      assert AddCarry(b, carry)[1..] == AddCarry(b[1..], b[0] && carry);
    }
  }

  /** x + 1 */
  function Inc(b: Bits): Bits {
    AddCarry(b, true)
  }

  function BitNot(a: seq<bool>): (r: seq<bool>)
    ensures |r| == |a|
  {
    if a == [] then [] else [!a[0]] + BitNot(a[1..])
  }

  function BitAnd(a: seq<bool>, b: seq<bool>): (r: seq<bool>)
    requires |a| == |b|
    ensures |r| == |a|
  {
    if a == [] then [] else [a[0] && b[0]] + BitAnd(a[1..], b[1..])
  }

  function BitOr(a: seq<bool>, b: seq<bool>): (r: seq<bool>)
    requires |a| == |b|
    ensures |r| == |a|
  {
    if a == [] then [] else [a[0] || b[0]] + BitOr(a[1..], b[1..])
  }

  /** x << n */
  function ShiftedLeft(a: seq<bool>, n: nat): (r: seq<bool>)
    requires n <= |a|
    ensures |r| == |a|
  {
    seq(n, _ => false) + a[..|a| - n]
  }

  lemma {:induction false} BitNotAt(a: seq<bool>, i: nat)
    requires i < |a|
    ensures BitNot(a)[i] == !a[i]
  {
    if i > 0 {
      BitNotAt(a[1..], i - 1);
    }
  }

  lemma {:induction false} BitAndAt(a: seq<bool>, b: seq<bool>, i: nat)
    requires |a| == |b| && i < |a|
    ensures BitAnd(a, b)[i] == (a[i] && b[i])
  {
    if i > 0 {
      BitAndAt(a[1..], b[1..], i - 1);
    }
  }

  lemma {:induction false} BitOrAt(a: seq<bool>, b: seq<bool>, i: nat)
    requires |a| == |b| && i < |a|
    ensures BitOr(a, b)[i] == (a[i] || b[i])
  {
    if i > 0 {
      BitOrAt(a[1..], b[1..], i - 1);
    }
  }

  /** All bits of the complement */
  lemma Complement(a: seq<bool>)
    ensures forall i :: 0 <= i < |a| ==> BitNot(a)[i] == !a[i]
  {
    forall i | 0 <= i < |a| ensures BitNot(a)[i] == !a[i] {
      BitNotAt(a, i);
    }
  }

  /** x >> n */
  function Shr(a: Bits, n: nat): (r: Bits)
    ensures forall i :: 0 <= i < 64 ==> r[i] == (i + n < 64 && a[i + n])
  {
    seq(64, i requires 0 <= i < 64 => i + n < 64 && a[i + n])
  }

  /** A word whose bits are all the same */
  function Fill(bit: bool): (r: Bits)
    ensures forall i :: 0 <= i < 64 ==> r[i] == bit
  {
    seq(64, i => bit)
  }

  /** dasm_ror */
  function Ror(a: Bits, n: nat): Bits
    requires n < 64
  {
    BitOr(ShiftedLeft(a, (64 - n) % 64), Shr(a, n))
  }

  lemma RorAt(a: Bits, n: nat, i: nat)
    requires n < 64 && i < 64
    ensures Ror(a, n)[i] == if i + n < 64 then a[i + n] else a[i + n - 64]
  {
    hide BitOr, ShiftedLeft;
    BitOrAt(ShiftedLeft(a, (64 - n) % 64), Shr(a, n), i);
    ShiftAt(a, (64 - n) % 64, i);
  }

  lemma ShiftAt(a: seq<bool>, n: nat, i: nat)
    requires n <= |a| && i < |a|
    ensures ShiftedLeft(a, n)[i] == (n <= i && a[i - n])
  {
  }

  /** The bit `r` is the lowest one that is set. */
  ghost predicate IsCtz(a: Bits, r: nat) {
    r < 64 && a[r] && forall i :: 0 <= i < r ==> !a[i]
  }

  /** There are `r` bits above the highest one that is set. */
  ghost predicate IsClz(a: Bits, r: nat) {
    r < 64 && a[63 - r] && forall i :: 63 - r < i < 64 ==> !a[i]
  }

  /** dasm_ctz */
  method Ctz(x0: Bits) returns (n: nat)
    requires x0 != Fill(false)
    ensures IsCtz(x0, n)
  {
    n := 0;
    var x: Bits := BitNot(x0);
    Complement(x0);
    ghost var k :| 0 <= k < 64 && x0[k];
    while x[0]
      invariant n <= k && (forall i :: 0 <= i < n ==> !x0[i])
      invariant ShiftedDown(x, x0, n)
      decreases 64 - n
    {
      ShiftDownMore(x, x0, n);
      x := Shr(x, 1);
      n := n + 1;
    }
    ShiftDownMore(x, x0, n);
  }

  ghost predicate ShiftedDown(x: Bits, x0: Bits, n: nat) {
    forall i {:trigger x[i]} :: 0 <= i < 64 ==> x[i] == (i + n < 64 && !x0[i + n])
  }

  lemma ShiftDownMore(x: Bits, x0: Bits, n: nat)
    requires ShiftedDown(x, x0, n) && n < 64
    ensures x[0] == !x0[n] && ShiftedDown(Shr(x, 1), x0, n + 1)
  {
  }

  /** dasm_clz */
  method Clz(x0: Bits) returns (n: nat)
    requires x0 != Fill(false)
    ensures IsClz(x0, n)
  {
    n := 0;
    var x: Bits := BitNot(x0);
    Complement(x0);
    ghost var k :| 0 <= k < 64 && x0[k];
    while x[63]
      invariant n <= 63 - k && (forall i :: 63 - n < i < 64 ==> !x0[i])
      invariant Shifted(x, x0, n)
      decreases 64 - n
    {
      ShiftMore(x, x0, n);
      x := ShiftedLeft(x, 1);
      n := n + 1;
    }
    ShiftMore(x, x0, n);
  }

  ghost predicate Shifted(x: Bits, x0: Bits, n: nat) {
    forall i {:trigger x[i]} :: 0 <= i < 64 ==> x[i] == (n <= i && !x0[i - n])
  }

  lemma ShiftMore(x: Bits, x0: Bits, n: nat)
    requires Shifted(x, x0, n) && n < 64
    ensures x[63] == !x0[63 - n] && Shifted(ShiftedLeft(x, 1), x0, n + 1)
  {
  }

  // ------------------------------------------------------------------
  // n & (n + 1) removes the ones at the low end

  /** The number of ones at the low end */
  function LowOnes(b: seq<bool>): (k: nat)
    ensures k <= |b| && (forall i :: 0 <= i < k ==> b[i]) && (k < |b| ==> !b[k])
  {
    if b == [] || !b[0] then 0 else 1 + LowOnes(b[1..])
  }

  lemma {:induction false} AddCarryBits(b: seq<bool>, i: nat)
    requires i < |b|
    ensures AddCarry(b, true)[i] == if i < LowOnes(b) then false else if i == LowOnes(b) then true else b[i]
  {
    var rest := b[1..];
    assert AddCarry(b, true) == [!b[0]] + AddCarry(rest, b[0]);
    if b[0] {
      if i > 0 {
        AddCarryBits(rest, i - 1);
        assert AddCarry(b, true)[i] == AddCarry(rest, true)[i - 1];
      }
    } else {
      NoCarry(rest);
    }
  }

  lemma {:induction false} NoCarry(b: seq<bool>)
    ensures AddCarry(b, false) == b
  {
    if b != [] {
      NoCarry(b[1..]);
    }
  }

  lemma LowOnesRemoved(n: Bits)
    ensures forall i :: 0 <= i < 64 ==> BitAnd(n, Inc(n))[i] == (i > LowOnes(n) && n[i])
  {
    forall i | 0 <= i < 64 ensures BitAnd(n, Inc(n))[i] == (i > LowOnes(n) && n[i]) {
      BitAndAt(n, Inc(n), i);
      AddCarryBits(n, i);
    }
  }

  // ------------------------------------------------------------------
  // Bitmask immediates

  predicate IsSize(e: nat) {
    e in {2, 4, 8, 16, 32, 64}
  }

  /** x mod e */
  function Rem(x: nat, e: nat): (r: nat)
    requires e > 0
    ensures r < e
  {
    x % e
  }

  /** A run of `ones` ones in elements of `e` bits, turned by `c` bits */
  ghost predicate IsPattern(n: Bits, e: nat, ones: nat, c: nat) {
    && IsSize(e) && 0 < ones < e && c < e
    && forall i {:trigger n[i]} :: 0 <= i < 64 ==> n[i] == (Rem(i + c, e) < ones)
  }

  datatype Decoded = Undefined | Immediate(b: Bits)

  /** HighestSetBit */
  function Highest(x: nat): nat
    requires x > 0
  {
    if x == 1 then 0 else 1 + Highest(x / 2)
  }

  function Power(n: nat): (r: nat)
    ensures r > 0
  {
    if n == 0 then 1 else 2 * Power(n - 1)
  }

  /** DecodeBitMasks, for the thirteen bits N:immr:imms */
  function Decode(v: nat): Decoded
    requires v < 0x2000
  {
    DecodeBitMasks(v / 0x1000, v / 64 % 64, v % 64)
  }

  function DecodeBitMasks(n: nat, immr: nat, imms: nat): Decoded
    requires n < 2 && immr < 64 && imms < 64
  {
    var x := 64 * n + (63 - imms);
    if x < 2 then Undefined
    else
      var e := Power(Highest(x));
      var s, r := Rem(imms, e), Rem(immr, e);
      if s == e - 1 then Undefined else Immediate(Replicated(e, s + 1, r))
  }

  /** Elements of `e` bits, each with a run of ones, rotated to the right by `r` */
  function Replicated(e: nat, ones: nat, r: nat): (b: Bits)
    requires e > 0
    ensures forall i :: 0 <= i < 64 ==> b[i] == (Rem(Rem(i, e) + r, e) < ones)
  {
    seq(64, i requires 0 <= i < 64 => Rem(Rem(i, e) + r, e) < ones)
  }

  lemma HighestBounds(x: nat)
    requires 2 <= x < 128
    ensures IsSize(Power(Highest(x))) && Power(Highest(x)) <= x < 2 * Power(Highest(x))
  {
    var h := if x < 4 then 1 else if x < 8 then 2 else if x < 16 then 3 else if x < 32 then 4 else if x < 64 then 5 else 6;
    HighestIs(x, h);
    assert Power(0) == 1 && Power(1) == 2 && Power(2) == 4 && Power(3) == 8;
    assert Power(4) == 16 && Power(5) == 32 && Power(6) == 64;
  }

  lemma {:induction false} HighestIs(x: nat, h: nat)
    requires Power(h) <= x < 2 * Power(h)
    ensures x > 0 && Highest(x) == h
  {
    if h > 0 {
      HighestIs(x / 2, h - 1);
    }
  }

  // ------------------------------------------------------------------
  // Turning a word to the start of a run

  /** A run of ones starts at the lowest bit, and none goes around. */
  predicate AtStart(b: Bits) {
    b[0] && !b[63]
  }

  /** How far the word is turned */
  ghost predicate IsRot(n: Bits, rot: nat) {
    var m := BitAnd(n, Inc(n));
    if m != Fill(false) then IsCtz(m, rot) else rot == 64
  }

  lemma RotStarts(n: Bits, rot: nat)
    requires n != Fill(false) && n != Fill(true) && IsRot(n, rot)
    ensures rot <= 64 && AtStart(Ror(n, rot % 64))
  {
    LowOnesRemoved(n);
    var k := LowOnes(n);
    assert k == 64 ==> n == Fill(true);
    var m := BitAnd(n, Inc(n));
    if m == Fill(false) {
      assert forall i {:trigger n[i]} :: k < i < 64 ==> !m[i] && !n[i];
      assert k == 0 ==> n == Fill(false);
    } else {
      assert m[rot];
      assert rot - 1 > k ==> !m[rot - 1];
      assert !n[rot - 1];
    }
    RorAt(n, rot % 64, 0);
    RorAt(n, rot % 64, 63);
  }

  lemma PatternNotTrivial(n: Bits, e: nat, ones: nat, c: nat)
    requires IsPattern(n, e, ones, c)
    ensures n != Fill(false) && n != Fill(true)
  {
    var i := if c == 0 then 0 else e - c;
    var j := if ones >= c then ones - c else ones + e - c;
    hide Rem;
    ModAdd(e, 0, 1);
    ModAdd(e, ones, 1);
    RemSmall(0, e);
    RemSmall(ones, e);
    assert n[i] && !n[j];
  }

  /** Turning a pattern turns its elements. */
  lemma PatternTurned(n: Bits, e: nat, ones: nat, c: nat, r: nat)
    requires IsPattern(n, e, ones, c) && r < 64
    ensures IsPattern(Ror(n, r), e, ones, Rem(c + r, e))
  {
    hide Ror, Rem;
    var b := Ror(n, r);
    forall i | 0 <= i < 64 ensures b[i] == (Rem(i + Rem(c + r, e), e) < ones) {
      RorAt(n, r, i);
      var j := if i + r < 64 then i + r else i + r - 64;
      assert n[j] == (Rem(j + c, e) < ones);
      ModSum(e, i, r, c, j);
    }
  }

  lemma ModAdd(e: nat, x: nat, k: nat)
    requires e > 0
    ensures Rem(x + e * k, e) == Rem(x, e)
  {
    assert x == (x / e) * e + x % e;
    Distribute(x / e, k, e);
    RemUnique(x + e * k, e, x / e + k, x % e);
  }

  /** x is the remainder and a multiple. */
  lemma RemParts(x: nat, e: nat) returns (k: nat)
    requires e > 0
    ensures x == Rem(x, e) + e * k
  {
    k := x / e;
  }

  lemma RemSmall(x: nat, e: nat)
    requires x < e
    ensures Rem(x, e) == x
  {
  }

  lemma Distribute(a: nat, b: nat, e: nat)
    ensures (a + b) * e == a * e + e * b
  {
  }

  lemma ModSum(e: nat, i: nat, r: nat, c: nat, j: nat)
    requires IsSize(e) && (i + r == j || i + r == j + 64)
    ensures Rem(j + c, e) == Rem(i + Rem(c + r, e), e)
  {
    hide Rem;
    var k := RemParts(c + r, e);
    ModAdd(e, i + Rem(c + r, e), k);
    assert i + Rem(c + r, e) + e * k == i + r + c;
    if i + r != j {
      var m := SizeTimes(e);
      assert e * (m + 1) == 64;
      ModAdd(e, j + c, m + 1);
    }
  }

  /** At the start of a run, the elements are not turned. */
  lemma PatternAtStart(b: Bits, e: nat, ones: nat, c: nat)
    requires IsPattern(b, e, ones, c) && AtStart(b)
    ensures c == 0
  {
    hide Rem;
    var k := SizeTimes(e);
    assert b[0] == (Rem(0 + c, e) < ones) && b[63] == (Rem(63 + c, e) < ones);
    RemSmall(c, e);
    if c > 0 {
      assert 63 + c == c - 1 + e * (k + 1);
      ModAdd(e, c - 1, k + 1);
      RemSmall(c - 1, e);
    }
  }

  // ------------------------------------------------------------------
  // What the rotation test tells

  /** A word at the start of a run begins with a run of ones, and ends with zeros. */
  ghost predicate HasEnds(b: Bits, ones: nat, zeros: nat) {
    && 0 < ones && 0 < zeros && ones + zeros <= 64
    && (forall i {:trigger b[i]} :: 0 <= i < ones ==> b[i]) && !b[ones]
    && b[63 - zeros] && forall i {:trigger b[i]} :: 63 - zeros < i < 64 ==> !b[i]
  }

  lemma EndsOf(b: Bits, ones: nat, zeros: nat)
    requires AtStart(b) && IsCtz(BitNot(b), ones) && IsClz(b, zeros)
    ensures HasEnds(b, ones, zeros)
  {
    var nb := BitNot(b);
    Complement(b);
    assert nb[0] == !b[0] && nb[ones] == !b[ones];
    assert forall i {:trigger b[i]} :: 0 <= i < ones ==> nb[i] == !b[i];
    assert b[ones - 1] && !b[63];
  }

  /** Rotating the word changes nothing. */
  ghost predicate Steady(b: Bits, size: nat)
    requires size < 64
  {
    Ror(b, size) == b
  }

  lemma StepUp(b: Bits, size: nat, i: nat)
    requires size < 64 && Steady(b, size) && i + size < 64
    ensures b[i + size] == b[i]
  {
    hide Ror;
    RorAt(b, size, i);
  }

  lemma StepAround(b: Bits, size: nat, i: nat)
    requires size < 64 && Steady(b, size) && i < size
    ensures b[64 - size + i] == b[i]
  {
    hide Ror;
    RorAt(b, size, 64 - size + i);
  }

  lemma SteadyIf(b: Bits, size: nat)
    requires 0 < size < 64
    requires forall i {:trigger b[i]} :: 0 <= i < size ==> b[64 - size + i] == b[i]
    requires forall i {:trigger b[i + size]} :: 0 <= i < 64 - size ==> b[i + size] == b[i]
    ensures Steady(b, size)
  {
    hide Ror;
    var r := Ror(b, size);
    forall i | 0 <= i < 64 ensures r[i] == b[i] {
      RorAt(b, size, i);
      if i + size >= 64 {
        assert b[64 - size + (i + size - 64)] == b[i + size - 64];
      }
    }
  }

  lemma NotTurned(b: Bits)
    ensures Steady(b, 0)
  {
    hide Ror;
    forall i | 0 <= i < 64 ensures Ror(b, 0)[i] == b[i] {
      RorAt(b, 0, i);
    }
  }

  lemma MulStep(k: nat, size: nat)
    requires k > 0
    ensures k * size == (k - 1) * size + size >= size
  {
  }

  /** Adding a multiple of the distance of the rotation changes nothing, as long as the word does not end. */
  lemma {:induction false} Repeats(b: Bits, size: nat, i: nat, k: nat, p: nat)
    requires 0 < size < 64 && Steady(b, size) && p == i + k * size < 64
    ensures b[p] == b[i]
    decreases k
  {
    hide Steady;
    if k > 0 {
      var q: nat := p - size;
      MulStep(k, size);
      Repeats(b, size, i, k - 1, q);
      StepUp(b, size, q);
    }
  }

  /** The first element is made of the ones and zeros at the ends of the word. */
  lemma FirstElement(b: Bits, ones: nat, zeros: nat, i: nat)
    requires HasEnds(b, ones, zeros) && ones + zeros < 64 && Steady(b, ones + zeros) && i < ones + zeros
    ensures b[i] <==> i < ones
  {
    hide Steady;
    if i >= ones {
      StepAround(b, ones + zeros, i);
    }
  }

  /** A word that the rotation leaves alone is made of whole elements: their size is a power of two. */
  lemma SizeDivides(b: Bits, ones: nat, zeros: nat)
    requires HasEnds(b, ones, zeros) && ones + zeros < 64 && Steady(b, ones + zeros)
    ensures 64 % (ones + zeros) == 0
  {
    hide Steady, HasEnds;
    var size := ones + zeros;
    EndBits(b, ones, zeros);
    var k, r := 64 / size, 64 % size;
    assert 64 == k * size + r;
    if r > 0 {
      Repeats(b, size, r - 1, k, 63);
      FirstElement(b, ones, zeros, r - 1);
      Repeats(b, size, ones - 1, k, k * size + ones - 1);
      FirstElement(b, ones, zeros, ones - 1);
      TopBits(b, ones, zeros, k * size + ones - 1);
    }
  }

  lemma EndBits(b: Bits, ones: nat, zeros: nat)
    requires HasEnds(b, ones, zeros)
    ensures 0 < ones && 0 < zeros && !b[63] && ones + zeros <= 64 && b[63 - zeros] && (forall i {:trigger b[i]} :: 0 <= i < ones ==> b[i])
  {
  }

  lemma TopBits(b: Bits, ones: nat, zeros: nat, i: nat)
    requires HasEnds(b, ones, zeros) && i < 64 && b[i]
    ensures i <= 63 - zeros
  {
  }

  lemma IsSizeOf(size: nat)
    requires 2 <= size <= 64 && 64 % size == 0
    ensures IsSize(size)
  {
    var k := 64 / size;
    assert 64 == k * size;
    if size > 32 {
      assert k < 2;
    } else if size > 16 {
      assert k < 4;
    } else if size > 8 {
      assert k < 8;
    }
  }

  /** The test of dasm_imm13 finds the elements of the word. */
  lemma TestFinds(b: Bits, ones: nat, zeros: nat)
    requires HasEnds(b, ones, zeros) && Steady(b, (ones + zeros) % 64)
    ensures IsPattern(b, ones + zeros, ones, 0)
  {
    hide Steady, HasEnds;
    var size := ones + zeros;
    EndBits(b, ones, zeros);
    if size == 64 {
      WholeWord(b, ones, zeros);
    } else {
      SizeDivides(b, ones, zeros);
      IsSizeOf(size);
      forall i | 0 <= i < 64 ensures b[i] == (Rem(i + 0, size) < ones) {
        var k, r := i / size, i % size;
        assert i == k * size + r;
        Repeats(b, size, r, k, i);
        FirstElement(b, ones, zeros, r);
      }
    }
  }

  lemma WholeWord(b: Bits, ones: nat, zeros: nat)
    requires HasEnds(b, ones, zeros) && ones + zeros == 64
    ensures IsPattern(b, 64, ones, 0)
  {
    forall i | 0 <= i < 64 ensures b[i] == (Rem(i + 0, 64) < ones) {
    }
  }

  lemma SizeTimes(e: nat) returns (k: nat)
    requires IsSize(e)
    ensures e * k == 64 - e
  {
    k := if e == 2 then 31 else if e == 4 then 15 else if e == 8 then 7 else if e == 16 then 3 else if e == 32 then 1 else 0;
  }

  /** What a pattern has at a position */
  lemma PatternBit(b: Bits, e: nat, ones: nat, i: nat, j: nat)
    requires IsPattern(b, e, ones, 0) && i < 64 && j < e && (i == j || (i >= 64 - e && i == 64 - e + j))
    ensures b[i] <==> j < ones
  {
    hide Rem;
    var k := SizeTimes(e);
    assert b[i] == (Rem(i + 0, e) < ones);
    RemSmall(j, e);
    if i != j {
      ModAdd(e, j, k);
    }
  }

  /** The run at the low end of a pattern, and the gap at its high end, are those of an element. */
  lemma PatternEnds(b: Bits, e: nat, ones: nat, o: nat, zeros: nat)
    requires IsPattern(b, e, ones, 0) && HasEnds(b, o, zeros)
    ensures o == ones && o + zeros == e
  {
    PatternBit(b, e, ones, ones, ones);
    if o < ones {
      PatternBit(b, e, ones, o, o);
    }
    PatternBit(b, e, ones, 64 - e + ones - 1, ones - 1);
    if 63 - zeros > 64 - e + ones - 1 {
      PatternBit(b, e, ones, 63 - zeros, e - 1 - zeros);
    }
  }

  /** A pattern is left alone by the rotation. */
  lemma PatternSteady(b: Bits, e: nat, ones: nat)
    requires IsPattern(b, e, ones, 0)
    ensures Steady(b, e % 64)
  {
    hide Ror, Steady, Rem;
    if e < 64 {
      forall i | 0 <= i < e ensures b[64 - e + i] == b[i] {
        PatternBit(b, e, ones, i, i);
        PatternBit(b, e, ones, 64 - e + i, i);
      }
      forall i | 0 <= i < 64 - e ensures b[i + e] == b[i] {
        ModAdd(e, i, 1);
        assert b[i + e] == (Rem(i + e + 0, e) < ones) && b[i] == (Rem(i + 0, e) < ones);
      }
      SteadyIf(b, e);
    } else {
      NotTurned(b);
    }
  }

  // ------------------------------------------------------------------
  // dasm_imm13

  /** Can be an immediate of a logical instruction */
  ghost predicate Encodable(n: Bits) {
    exists v: nat :: v < 0x2000 && Decode(v) == Immediate(n)
  }

  // The arithmetic of dasm_imm13, on the bits of an int

  /** The low `len` bits of a number */
  function Word(n: nat, len: nat): (r: seq<bool>)
    ensures |r| == len
  {
    if len == 0 then [] else [n % 2 == 1] + Word(n / 2, len - 1)
  }

  /** Two's complement */
  function Negated(a: seq<bool>): (r: seq<bool>)
    ensures |r| == |a|
  {
    AddCarry(BitNot(a), true)
  }

  function Int(n: nat): (r: seq<bool>)
    ensures |r| == 32
  {
    Word(n, 32)
  }

  /** N:immr:imms for elements of `size` bits with `ones` ones that are turned to the left by `rot` bits */
  function Encode(size: nat, ones: nat, rot: nat): nat
    requires 0 < ones < size
  {
    // -rot & (size - 1)
    var immr := BitAnd(Negated(Int(rot)), Int(size - 1));
    // (-(size << 1) | (ones - 1)) & 63
    var imms := BitAnd(BitOr(Negated(ShiftedLeft(Int(size), 1)), Int(ones - 1)), Int(63));
    // ((immr | (size & 64)) << 6) | imms
    Value(BitOr(ShiftedLeft(BitOr(immr, BitAnd(Int(size), Int(64))), 6), imms))
  }

  lemma {:induction false} SizeSum(m: nat, n: nat)
    ensures Size(m + n) == Size(m) * Size(n) && Size(m) > 0
  {
    if m > 0 {
      SizeSum(m - 1, n);
      assert Size(m + n) == 2 * Size(m - 1 + n);
    }
  }

  lemma {:induction false} WordValue(n: nat, len: nat)
    requires n < Size(len)
    ensures Value(Word(n, len)) == n
  {
    if len > 0 {
      WordValue(n / 2, len - 1);
      assert Word(n, len)[1..] == Word(n / 2, len - 1);
    }
  }

  lemma {:induction false} NotValue(a: seq<bool>)
    ensures Value(BitNot(a)) + Value(a) + 1 == Size(|a|)
  {
    if a != [] {
      NotValue(a[1..]);
      assert BitNot(a)[1..] == BitNot(a[1..]);
    }
  }

  lemma NegatedValue(a: seq<bool>)
    ensures Value(Negated(a)) == if Value(a) == 0 then 0 else Size(|a|) - Value(a)
  {
    NotValue(a);
    AddCarryValue(BitNot(a), true);
  }

  /** A mask of `k` ones leaves a remainder. */
  lemma {:induction false} MaskValue(a: seq<bool>, k: nat)
    requires k <= |a|
    ensures Value(BitAnd(a, Word(Size(k) - 1, |a|))) == Rem(Value(a), Size(k))
  {
    hide Rem;
    if k == 0 {
      NothingLeft(a);
      RemOne(Value(a));
    } else {
      var m := Word(Size(k) - 1, |a|);
      assert (Size(k) - 1) / 2 == Size(k - 1) - 1 && (Size(k) - 1) % 2 == 1;
      assert m[1..] == Word(Size(k - 1) - 1, |a| - 1);
      assert BitAnd(a, m)[1..] == BitAnd(a[1..], m[1..]);
      MaskValue(a[1..], k - 1);
      RemDouble(Value(a[1..]), Size(k - 1), if a[0] then 1 else 0);
    }
  }

  lemma RemOne(x: nat)
    ensures Rem(x, 1) == 0
  {
  }

  lemma RemDouble(x: nat, e: nat, bit: nat)
    requires e > 0 && bit < 2
    ensures Rem(bit + 2 * x, 2 * e) == bit + 2 * Rem(x, e)
  {
    var q := x / e;
    assert x == q * e + x % e;
    RemUnique(bit + 2 * x, 2 * e, q, bit + 2 * (x % e));
  }

  lemma {:induction false} NothingLeft(a: seq<bool>)
    ensures Value(BitAnd(a, Word(0, |a|))) == 0
  {
    if a != [] {
      NothingLeft(a[1..]);
      assert Word(0, |a|)[1..] == Word(0, |a| - 1);
      assert BitAnd(a, Word(0, |a|))[1..] == BitAnd(a[1..], Word(0, |a| - 1));
    }
  }

  /** Where no bits are in both, the or is the sum. */
  lemma {:induction false} OrValue(a: seq<bool>, b: seq<bool>, k: nat)
    requires |a| == |b| && k <= |a| && Rem(Value(a), Size(k)) == 0 && Value(b) < Size(k)
    ensures Value(BitOr(a, b)) == Value(a) + Value(b)
  {
    if a != [] {
      assert BitOr(a, b)[1..] == BitOr(a[1..], b[1..]);
      if k == 0 {
        assert Size(0) == 1;
        RemUnique(Value(a[1..]), 1, Value(a[1..]), 0);
        OrValue(a[1..], b[1..], 0);
      } else {
        RemDouble(Value(a[1..]), Size(k - 1), if a[0] then 1 else 0);
        OrValue(a[1..], b[1..], k - 1);
      }
    }
  }

  lemma Doubled(a: nat, b: nat)
    ensures (2 * a) * b == 2 * (a * b)
  {
  }

  lemma {:induction false} ZerosValue(n: nat, b: seq<bool>)
    ensures Value(seq(n, _ => false) + b) == Size(n) * Value(b)
  {
    var zeros := seq(n, _ => false);
    if n == 0 {
      assert zeros + b == b;
    } else {
      ZerosValue(n - 1, b);
      assert (zeros + b)[1..] == seq(n - 1, _ => false) + b;
      Doubled(Size(n - 1), Value(b));
    }
  }

  lemma {:induction false} TakeValue(a: seq<bool>, k: nat)
    requires k <= |a| && Value(a) < Size(k)
    ensures Value(a[..k]) == Value(a)
  {
    if k > 0 {
      assert a[..k][1..] == a[1..][..k - 1];
      TakeValue(a[1..], k - 1);
    }
  }

  lemma ShiftValue(a: seq<bool>, n: nat)
    requires n <= |a| && Value(a) < Size(|a| - n)
    ensures Value(ShiftedLeft(a, n)) == Size(n) * Value(a)
  {
    TakeValue(a, |a| - n);
    ZerosValue(n, a[..|a| - n]);
  }

  /** The and of two powers of two */
  lemma {:induction false} AndPowers(j: nat, k: nat, len: nat)
    requires j < len && k < len
    ensures Value(BitAnd(Word(Size(j), len), Word(Size(k), len))) == if j == k then Size(k) else 0
  {
    var a, b := Word(Size(j), len), Word(Size(k), len);
    assert BitAnd(a, b)[1..] == BitAnd(a[1..], b[1..]);
    assert a[1..] == Word(Size(j) / 2, len - 1) && b[1..] == Word(Size(k) / 2, len - 1);
    if j == 0 || k == 0 {
      assert Size(0) == 1;
      if k == 0 {
        NothingLeft(a[1..]);
      } else {
        NothingLeft(b[1..]);
        AndTurned(a[1..], b[1..]);
      }
      if j == k {
        assert a[0] && b[0];
      }
    } else {
      AndPowers(j - 1, k - 1, len - 1);
    }
  }

  lemma {:induction false} AndTurned(a: seq<bool>, b: seq<bool>)
    requires |a| == |b|
    ensures BitAnd(a, b) == BitAnd(b, a)
  {
    if a != [] {
      AndTurned(a[1..], b[1..]);
    }
  }

  lemma Sizes()
    ensures Size(0) == 1 && Size(1) == 2 && Size(2) == 4 && Size(3) == 8 && Size(4) == 16 && Size(5) == 32 && Size(6) == 64
    ensures Size(26) == 0x400_0000 && Size(31) == 0x8000_0000 && Size(32) == 0x1_0000_0000
  {
    assert Size(4) == 16;
    SizeSum(4, 4);
    SizeSum(8, 8);
    SizeSum(16, 8);
    SizeSum(24, 2);
    SizeSum(16, 16);
    SizeSum(24, 7);
    assert Size(7) == 128;
  }

  /** A size is a power of two. */
  lemma ExponentOf(size: nat) returns (k: nat)
    requires IsSize(size)
    ensures 1 <= k <= 6 && Size(k) == size
  {
    Sizes();
    k := if size == 2 then 1 else if size == 4 then 2 else if size == 8 then 3 else if size == 16 then 4 else if size == 32 then 5 else 6;
  }

  lemma ImmrIs(size: nat, rot: nat)
    requires IsSize(size) && rot <= 64
    ensures Value(BitAnd(Negated(Int(rot)), Int(size - 1))) == Rem(64 - rot, size)
  {
    hide Rem, BitAnd, Negated, Word, Value, Size;
    var k := ExponentOf(size);
    var m := SizeTimes(size);
    Sizes();
    WordValue(rot, 32);
    NegatedValue(Int(rot));
    MaskValue(Negated(Int(rot)), k);
    if rot == 0 {
      ModAdd(size, 0, m + 1);
    } else {
      ModAdd(size, 64 - rot, (m + 1) * 0x3ff_ffff);
      assert size * ((m + 1) * 0x3ff_ffff) == (size * (m + 1)) * 0x3ff_ffff;
    }
  }

  lemma ImmsIs(size: nat, ones: nat)
    requires IsSize(size) && 0 < ones < size
    ensures Value(BitAnd(BitOr(Negated(ShiftedLeft(Int(size), 1)), Int(ones - 1)), Int(63))) == (128 - 2 * size) % 64 + (ones - 1)
  {
    hide Rem, BitAnd, BitOr, Negated, ShiftedLeft, Word, Value, Size;
    var k := ExponentOf(size);
    var m := SizeTimes(size);
    Sizes();
    WordValue(size, 32);
    WordValue(ones - 1, 32);
    ShiftValue(Int(size), 1);
    var neg := Negated(ShiftedLeft(Int(size), 1));
    NegatedValue(ShiftedLeft(Int(size), 1));
    assert Value(neg) == 0x1_0000_0000 - 2 * size;
    ModAdd(size, 0, (m + 1) * 0x400_0000 - 2);
    assert size * ((m + 1) * 0x400_0000 - 2) == (size * (m + 1)) * 0x400_0000 - 2 * size;
    RemSmall(0, size);
    OrValue(neg, Int(ones - 1), k);
    MaskValue(BitOr(neg, Int(ones - 1)), 6);
    ModAdd(64, 128 - 2 * size + (ones - 1), 0x3ff_fffe);
    RemOf128(size, ones);
  }

  lemma RemOf128(size: nat, ones: nat)
    requires IsSize(size) && 0 < ones < size
    ensures Rem(128 - 2 * size + (ones - 1), 64) == (128 - 2 * size) % 64 + (ones - 1)
  {
  }

  /** What the words of dasm_imm13 stand for */
  lemma EncodeIs(size: nat, ones: nat, rot: nat)
    requires IsSize(size) && 0 < ones < size && rot <= 64
    ensures Encode(size, ones, rot) ==
            (Rem(64 - rot, size) + if size == 64 then 64 else 0) * 64 + ((128 - 2 * size) % 64 + (ones - 1))
  {
    hide Rem, BitAnd, BitOr, Negated, ShiftedLeft, Word, Value, Size;
    var k := ExponentOf(size);
    Sizes();
    ImmrIs(size, rot);
    ImmsIs(size, ones);
    AndPowers(k, 6, 32);
    var immr := BitAnd(Negated(Int(rot)), Int(size - 1));
    var n := BitAnd(Int(size), Int(64));
    var imms := BitAnd(BitOr(Negated(ShiftedLeft(Int(size), 1)), Int(ones - 1)), Int(63));
    OrTurned(immr, n);
    OrEither(n, immr);
    var high := BitOr(immr, n);
    ShiftValue(high, 6);
    ModAdd(64, 0, Value(high));
    RemSmall(0, 64);
    OrValue(ShiftedLeft(high, 6), imms, 6);
  }

  /** The bit for 64 is above all others. */
  lemma OrEither(n: seq<bool>, immr: seq<bool>)
    requires |n| == |immr| == 32 && (Value(n) == 0 || Value(n) == 64) && Value(immr) < 64
    ensures Value(BitOr(n, immr)) == Value(n) + Value(immr)
  {
    hide BitOr, Value, Size;
    Sizes();
    RemUnique(Value(n), 64, Value(n) / 64, 0);
    OrValue(n, immr, 6);
  }

  lemma {:induction false} OrTurned(a: seq<bool>, b: seq<bool>)
    requires |a| == |b|
    ensures BitOr(a, b) == BitOr(b, a)
  {
    if a != [] {
      OrTurned(a[1..], b[1..]);
    }
  }

  /** The thirteen bits decode to the elements that they were made for. */
  lemma EncodeDecodes(size: nat, ones: nat, rot: nat)
    requires IsSize(size) && 0 < ones < size && rot <= 64
    ensures Encode(size, ones, rot) < 0x2000
    ensures Decode(Encode(size, ones, rot)) == Immediate(Replicated(size, ones, Rem(64 - rot, size)))
  {
    hide Replicated, Rem, DecodeBitMasks, Encode;
    var immr, imms := Rem(64 - rot, size), (128 - 2 * size) % 64 + (ones - 1);
    var n := if size == 64 then 1 else 0;
    EncodeIs(size, ones, rot);
    ImmsSmall(size, ones);
    EncodeParts(Encode(size, ones, rot), n, immr, imms);
    MasksAre(n, immr, imms, size, ones);
  }

  lemma ImmsSmall(size: nat, ones: nat)
    requires IsSize(size) && 0 < ones < size
    ensures var imms := (128 - 2 * size) % 64 + (ones - 1);
            imms < 64 && 64 * (if size == 64 then 1 else 0) + (63 - imms) == 2 * size - ones
  {
  }

  lemma MasksAre(n: nat, immr: nat, imms: nat, size: nat, ones: nat)
    requires IsSize(size) && 0 < ones < size && n < 2 && immr < size && imms < 64
    requires 64 * n + (63 - imms) == 2 * size - ones && imms == (128 - 2 * size) % 64 + (ones - 1)
    ensures immr < 64 && DecodeBitMasks(n, immr, imms) == Immediate(Replicated(size, ones, immr))
  {
    hide Replicated, Rem, Highest, Power;
    HighestOf(size, ones);
    SImms(size, ones);
    RemSmall(immr, size);
  }

  lemma EncodeParts(v: nat, n: nat, immr: nat, imms: nat)
    requires n < 2 && immr < 64 && imms < 64 && v == (immr + 64 * n) * 64 + imms
    ensures v < 0x2000 && v / 0x1000 == n && v / 64 % 64 == immr && v % 64 == imms
  {
    RemUnique(v, 64, immr + 64 * n, imms);
    RemUnique(immr + 64 * n, 64, n, immr);
    RemUnique(v, 0x1000, n, immr * 64 + imms);
  }

  lemma HighestOf(size: nat, ones: nat)
    requires IsSize(size) && 0 < ones < size
    ensures 2 * size - ones > 0 && Power(Highest(2 * size - ones)) == size
  {
    HighestBounds(2 * size - ones);
  }

  lemma SImms(size: nat, ones: nat)
    requires IsSize(size) && 0 < ones < size
    ensures Rem((128 - 2 * size) % 64 + (ones - 1), size) == ones - 1
  {
  }

  lemma DecodeParts(v: nat, n: Bits) returns (e: nat, ones: nat, c: nat)
    requires v < 0x2000 && Decode(v) == Immediate(n)
    ensures IsSize(e) && 0 < ones < e && c < e && n == Replicated(e, ones, c)
  {
    hide DecodeBitMasks;
    e, ones, c := MasksParts(v / 0x1000, v / 64 % 64, v % 64, n);
  }

  lemma MasksParts(n: nat, immr: nat, imms: nat, b: Bits) returns (e: nat, ones: nat, c: nat)
    requires n < 2 && immr < 64 && imms < 64 && DecodeBitMasks(n, immr, imms) == Immediate(b)
    ensures IsSize(e) && 0 < ones < e && c < e && b == Replicated(e, ones, c)
  {
    hide Replicated, Rem, Highest, Power;
    HighestBounds(64 * n + (63 - imms));
    e := Power(Highest(64 * n + (63 - imms)));
    ones, c := Rem(imms, e) + 1, Rem(immr, e);
  }

  lemma ModPart(e: nat, i: nat, c: nat)
    requires e > 0
    ensures Rem(Rem(i, e) + c, e) == Rem(i + c, e)
  {
    hide Rem;
    var k := RemParts(i, e);
    ModAdd(e, Rem(i, e) + c, k);
    assert i + c == Rem(i, e) + c + e * k;
  }

  /** All that can be decoded are patterns. */
  lemma DecodedIsPattern(v: nat, n: Bits) returns (e: nat, ones: nat, c: nat)
    requires v < 0x2000 && Decode(v) == Immediate(n)
    ensures IsPattern(n, e, ones, c)
  {
    hide Decode, Replicated, Rem;
    e, ones, c := DecodeParts(v, n);
    forall i | 0 <= i < 64 ensures n[i] == (Rem(i + c, e) < ones) {
      ModPart(e, i, c);
    }
  }

  /** A pattern is what its elements give. */
  lemma PatternIs(n: Bits, e: nat, ones: nat, c: nat)
    requires IsPattern(n, e, ones, c)
    ensures n == Replicated(e, ones, c)
  {
    hide Rem;
    var b := Replicated(e, ones, c);
    forall i | 0 <= i < 64 ensures n[i] == b[i] {
      ModPart(e, i, c);
    }
  }

  lemma TurnedBack(n: Bits, rot: nat, size: nat, ones: nat)
    requires rot <= 64 && IsPattern(Ror(n, rot % 64), size, ones, 0)
    ensures IsPattern(n, size, ones, Rem(64 - rot, size))
  {
    hide Ror, Rem;
    var b := Ror(n, rot % 64);
    var back := (64 - rot) % 64;
    PatternTurned(b, size, ones, 0, back);
    forall i | 0 <= i < 64 ensures Ror(b, back)[i] == n[i] {
      RorAt(b, back, i);
      RorAt(n, rot % 64, if i + back < 64 then i + back else i + back - 64);
    }
    assert Ror(b, back) == n;
    var k := SizeTimes(size);
    assert size * (k + 1) == 64;
    ModAdd(size, 0, k + 1);
  }

  lemma TrivialValues(n: Bits)
    ensures Value(Inc(n)) <= 1 <==> n == Fill(false) || n == Fill(true)
  {
    AddCarryValue(n, true);
    SmallValue(n);
    LargeValue(n);
    Pow2Is(64);
    assert n == Fill(false) <==> forall i :: 0 <= i < 64 ==> !n[i];
    assert n == Fill(true) <==> forall i :: 0 <= i < 64 ==> n[i];
  }

  lemma {:induction false} Pow2Is(n: nat)
    ensures Size(n) > n
  {
    if n > 0 {
      Pow2Is(n - 1);
    }
  }

  lemma {:induction false} SmallValue(b: seq<bool>)
    ensures Value(b) == 0 <==> forall i :: 0 <= i < |b| ==> !b[i]
  {
    if b != [] {
      SmallValue(b[1..]);
      assert forall i :: 1 <= i < |b| ==> b[i] == b[1..][i - 1];
    }
  }

  lemma {:induction false} LargeValue(b: seq<bool>)
    ensures Value(b) + 1 == Size(|b|) <==> forall i :: 0 <= i < |b| ==> b[i]
  {
    if b != [] {
      LargeValue(b[1..]);
      AddCarryValue(b[1..], false);
      assert forall i :: 1 <= i < |b| ==> b[i] == b[1..][i - 1];
    }
  }

  /** The word is encoded if and only if that is possible, and what was encoded decodes to it. */
  method Imm13(lo: seq<bool>, hi: seq<bool>) returns (r: int)
    requires |lo| == |hi| == 32
    ensures r == -1 <==> !Encodable(lo + hi)
    ensures r != -1 ==> 0 <= r < 0x2000 && Decode(r) == Immediate(lo + hi)
  {
    hide Ror, Steady, Decode, IsPattern, HasEnds, BitAnd, Inc, Encode, Rem;
    var n: Bits := lo + hi;
    TrivialValues(n);
    if Value(Inc(n)) <= 1 {
      NotEncodable(n);
      return -1;
    }
    var m := BitAnd(n, Inc(n));
    var rot := 64;
    if m != Fill(false) {
      rot := Ctz(m);
    }
    RotStarts(n, rot);
    var b := Ror(n, rot % 64);
    StartNotTrivial(b);
    var ones := Ctz(BitNot(b));
    var zeros := Clz(b);
    EndsOf(b, ones, zeros);
    EndBits(b, ones, zeros);
    var size := zeros + ones;
    if Ror(b, size % 64) != b {
      if Encodable(n) {
        EncodableSteady(n, rot, b, ones, zeros);
        IsSteady(b, size % 64);
      }
      return -1;
    }
    IsSteady(b, size % 64);
    TestFinds(b, ones, zeros);
    TurnedBack(n, rot, size, ones);
    PatternParts(n, size, ones, Rem(64 - rot, size));
    PatternIs(n, size, ones, Rem(64 - rot, size));
    EncodeDecodes(size, ones, rot);
    r := Encode(size, ones, rot);
  }

  lemma IsSteady(b: Bits, size: nat)
    requires size < 64
    ensures Steady(b, size) <==> Ror(b, size) == b
  {
  }

  lemma PatternParts(n: Bits, e: nat, ones: nat, c: nat)
    requires IsPattern(n, e, ones, c)
    ensures IsSize(e) && 0 < ones < e
  {
  }

  lemma StartNotTrivial(b: Bits)
    requires AtStart(b)
    ensures BitNot(b) != Fill(false) && b != Fill(false)
  {
    BitNotAt(b, 63);
  }

  lemma NotEncodable(n: Bits)
    requires n == Fill(false) || n == Fill(true)
    ensures !Encodable(n)
  {
    if Encodable(n) {
      var v: nat :| v < 0x2000 && Decode(v) == Immediate(n);
      var e, ones, c := DecodedIsPattern(v, n);
      PatternNotTrivial(n, e, ones, c);
      assert false;
    }
  }

  /** What can be encoded passes the test. */
  lemma EncodableSteady(n: Bits, rot: nat, b: Bits, ones: nat, zeros: nat)
    requires Encodable(n) && rot <= 64 && b == Ror(n, rot % 64) && AtStart(b) && HasEnds(b, ones, zeros)
    ensures Steady(b, (ones + zeros) % 64)
  {
    hide Ror, Steady, Decode, IsPattern, HasEnds, Rem;
    var v: nat :| v < 0x2000 && Decode(v) == Immediate(n);
    var e, o, c := DecodedIsPattern(v, n);
    PatternParts(n, e, o, c);
    PatternTurned(n, e, o, c, rot % 64);
    PatternAtStart(b, e, o, Rem(c + rot % 64, e));
    PatternEnds(b, e, o, ones, zeros);
    PatternSteady(b, e, o);
  }

  // ------------------------------------------------------------------
  // dasm_imm12

  /** The operand of an add: twelve bits, shifted by twelve more if the thirteenth is set */
  function AddOperand(v: nat): nat
    requires v < 0x2000
  {
    if v < 0x1000 then v else (v - 0x1000) * 0x1000
  }

  /** An operand of an add is encoded if and only if that is possible. */
  method Imm12(n: nat) returns (r: int)
    requires n < 0x1_0000_0000
    ensures if exists v: nat :: v < 0x2000 && AddOperand(v) == n then 0 <= r < 0x2000 && AddOperand(r) == n else r == -1
  {
    // n >> 12 == 0
    if n < 0x1000 {
      assert AddOperand(n) == n;
      return n;
    }
    // (n & 0xff000fff) == 0
    if n < 0x100_0000 && n % 0x1000 == 0 {
      assert AddOperand(n / 0x1000 + 0x1000) == n;
      return n / 0x1000 + 0x1000;
    }
    forall v: nat | v < 0x2000 ensures AddOperand(v) != n {
      if v >= 0x1000 {
        Multiple((v - 0x1000) * 0x1000, 0x1000, v - 0x1000);
      }
    }
    return -1;
  }
}
