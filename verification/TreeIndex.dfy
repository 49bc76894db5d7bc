/** compute_tree_index of src/lj_alloc.c, and when it selects the bin the tries need. */
module TreeIndex {
  import opened PowersOfTwo
  import opened Trie

  /** lj_fls: position of the highest set bit. */
  function Fls(x: nat): (k: nat)
    requires x > 0
    ensures Pow2(k) <= x < 2 * Pow2(k)
  {
    if x == 1 then 0 else 1 + Fls(x / 2)
  }

  /** compute_tree_index.  The shifted size is truncated to an `unsigned int`. */
  function Index(s: nat): (i: nat)
    ensures i < NTREEBINS
  {
    var x := (s / 256) % 0x1_0000_0000;
    if x == 0 then 0
    else if x > 0xFFFF then NTREEBINS - 1
    else
      var k := Fls(x);
      FlsOfHalfWord(x);
      2 * k + (s / Pow2(k + 7)) % 2
  }

  lemma {:induction false} FlsOfHalfWord(x: nat)
    requires 0 < x <= 0xFFFF
    ensures Fls(x) <= 15
  {
    Pow2Values();
    if Fls(x) >= 16 {
      Pow2Monotone(16, Fls(x));
    }
  }

  /** The truncation of the shifted size does not change the bin. */
  predicate Indexable(s: nat) {
    s < 0x100_0000_0000 || (s / 256) % 0x1_0000_0000 >= 0xC000
  }

  lemma {:induction false} DivByPow2(s: nat, k: nat, bit: nat)
    requires (2 + bit) * Pow2(k) <= s < (3 + bit) * Pow2(k) && bit <= 1
    ensures (s / Pow2(k)) % 2 == bit
  {
    DivUnique(s, Pow2(k), 2 + bit);
  }

  /** A size with `2^k <= s/256 < 2^(k+1)` lies in bin `2k` or `2k+1`, by its next bit. */
  lemma {:induction false} HalfOctave(s: nat, k: nat)
    requires Pow2(k + 8) <= s < 2 * Pow2(k + 8)
    ensures (s / Pow2(k + 7)) % 2 == (if s < 3 * Pow2(k + 7) then 0 else 1)
    ensures MinSize(2 * k) == Pow2(k + 8) && MinSize(2 * k + 1) == 3 * Pow2(k + 7)
    ensures MinSize(2 * k + 2) == 2 * Pow2(k + 8)
  {
    assert Pow2(k + 8) == 2 * Pow2(k + 7);
    DivByPow2(s, k + 7, if s < 3 * Pow2(k + 7) then 0 else 1);
    assert (2 * k) / 2 == k && (2 * k + 1) / 2 == k && (2 * k + 2) / 2 == k + 1;
    assert (2 * k) % 2 == 0 && (2 * k + 1) % 2 == 1 && (2 * k + 2) % 2 == 0;
    assert Pow2(k + 9) == 2 * Pow2(k + 8);
  }

  lemma {:induction false} ScaledBy256(x: nat, s: nat, k: nat)
    requires x == s / 256 && Pow2(k) <= x < 2 * Pow2(k)
    ensures Pow2(k + 8) <= s < 2 * Pow2(k + 8)
  {
    assert Pow2(8) == 256;
    Pow2Sum(k, 8);
  }

  lemma IndexOfOctave(s: nat, k: nat, b: nat)
    requires 0 < s / 256 <= 0xFFFF && Fls(s / 256) == k && (s / Pow2(k + 7)) % 2 == b
    ensures Index(s) == 2 * k + b
  {
    assert (s / 256) % 0x1_0000_0000 == s / 256;
  }

  /** Up to 24 size bits, the selected bin is the right one. */
  lemma {:induction false} IndexSmallOctaves(s: nat, k: nat)
    requires 0 < s / 256 <= 0xFFFF && Fls(s / 256) == k && k <= 15
    requires Pow2(k + 8) <= s < 2 * Pow2(k + 8)
    ensures InBin(Index(s), s)
  {
    hide Index, Pow2, MinSize, Fls;
    var b := if s < 3 * Pow2(k + 7) then 0 else 1;
    assert s < 0x100_0000;
    HalfOctave(s, k);
    IndexOfOctave(s, k, b);
    Pow2Next(k + 7);
  }

  /** Below 2^40 the selected bin is always the right one. */
  lemma {:induction false} IndexBelowLimit(s: nat)
    requires 256 <= s < 0x100_0000_0000
    ensures InBin(Index(s), s)
  {
    var x := s / 256;
    if x <= 0xFFFF {
      var k := Fls(x);
      FlsOfHalfWord(x);
      ScaledBy256(x, s, k);
      IndexSmallOctaves(s, k);
    } else {
      LastBins();
    }
  }

  lemma {:induction false} LastBins()
    ensures MinSize(31) == 0xC0_0000
    ensures MinSize(30) == 0x80_0000
  {
    Pow2Values();
  }

  /** The selected bin is the right one exactly for the indexable sizes. */
  lemma {:induction false} IndexCorrect(s: nat)
    requires 256 <= s < W64
    ensures InBin(Index(s), s) <==> Indexable(s)
  {
    if s < 0x100_0000_0000 {
      IndexBelowLimit(s);
    } else {
      LastBins();
      var x := (s / 256) % 0x1_0000_0000;
      forall i: nat | InBin(i, s) ensures i == 31 {
        if i < 31 {
          MinSizeMonotone(i + 1, 31);
        }
      }
      if 0 < x <= 0xFFFF {
        IndexTruncated(s, x);
      }
    }
  }

  lemma Bit22(s: nat)
    ensures (s / 0x40_0000) % 2 == ((s / 256) % 0x1_0000_0000 / 0x4000) % 2
  {
    var a := s / 256;
    var b, q := a % 0x1_0000_0000, a / 0x1_0000_0000;
    var c := b / 0x4000;
    DivUnique(a, 0x4000, q * 0x4_0000 + c);
    DivUnique(s, 0x40_0000, q * 0x4_0000 + c);
    EvenSum(q * 0x2_0000, c);
  }

  lemma EvenSum(q: nat, c: nat)
    ensures (2 * q + c) % 2 == c % 2
  {
  }

  /** In the last octave the index depends on bit 14 of the truncated word. */
  lemma {:induction false} IndexTruncated(s: nat, x: nat)
    requires x == (s / 256) % 0x1_0000_0000 && 0 < x <= 0xFFFF
    ensures Index(s) == 31 <==> x >= 0xC000
  {
    hide Index, Fls, Pow2;
    var k := Fls(x);
    FlsOfHalfWord(x);
    IndexOfWord(s, x, k);
    Pow2OfHalfWord();
    if k == 15 {
      Bit22(s);
      TopBits(x);
    } else {
      Pow2Next(k);
      Pow2Monotone(k + 1, 15);
    }
  }

  lemma Pow2OfHalfWord()
    ensures Pow2(15) == 0x8000 && Pow2(22) == 0x40_0000
  {
    Pow2Values();
  }

  lemma IndexOfWord(s: nat, x: nat, k: nat)
    requires x == (s / 256) % 0x1_0000_0000 && 0 < x <= 0xFFFF && Fls(x) == k
    ensures Index(s) == 2 * k + (s / Pow2(k + 7)) % 2
  {
  }

  lemma TopBits(x: nat)
    requires 0x8000 <= x <= 0xFFFF
    ensures (x / 0x4000) % 2 == 1 <==> x >= 0xC000
  {
    assert x / 0x4000 == 2 || x / 0x4000 == 3;
  }

  /** A chunk of one tebibyte is filed in the bin of the smallest large chunks. */
  lemma {:induction false} TruncationMisfiles()
    ensures Index(0x100_0000_0000) == 0 && !InBin(0, 0x100_0000_0000)
  {
    Pow2Values();
  }
}
