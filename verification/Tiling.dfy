/**
 The boundary-tag heap of src/lj_alloc.c as a value: the chunks that tile the
 segments, what their head and foot words hold, and what the allocator's groups
 of word writes do to that tiling.
 */
module Tiling {
  import opened Chunk
  import PowersOfTwo

  const MIN_CHUNK_SIZE: nat := 32

  /** Addresses have 47 bits (LJ_ALLOC_MBITS). */
  const ADDRESS_LIMIT: nat := 0x8000_0000_0000

  /**
   `starts` are the addresses of all chunks, `ends` the addresses right behind the
   last chunk of each segment: a fencepost, or the trailer behind `top`.
   */
  datatype Heap = Heap(head: Heads, foot: map<nat, nat>, starts: set<nat>, ends: set<nat>, top: nat)

  function Size(h: Heap, a: nat): nat
    requires a in h.head
  {
    h.head[a].size
  }

  function Next(h: Heap, a: nat): nat
    requires a in h.head
  {
    a + h.head[a].size
  }

  /** Chunk `a` is well formed, and agrees with its neighbours. */
  ghost predicate ChunkOk(h: Heap, a: nat) {
    && a in h.head && a % 8 == 0 && a > 0 && h.head[a].size % 8 == 0 && h.head[a].size > 0
    && (a != h.top ==> h.head[a].size >= MIN_CHUNK_SIZE)
    && (Next(h, a) in h.starts || Next(h, a) in h.ends) && Next(h, a) < ADDRESS_LIMIT
    && Next(h, a) in h.head && h.head[Next(h, a)].pinuse == h.head[a].cinuse
    && (!h.head[a].cinuse ==> h.head[a].pinuse)
    && (!h.head[a].cinuse && a != h.top ==> FootOk(h, a))
    && (a == h.top ==> !h.head[a].cinuse && Next(h, a) in h.ends)
    && (!h.head[a].pinuse ==> PrevOk(h, a))
  }

  /** A free chunk is followed by a chunk in use, and its foot holds its size. */
  ghost predicate FootOk(h: Heap, a: nat)
    requires a in h.head && Next(h, a) in h.head
  {
    var n := Next(h, a);
    n in h.starts && h.head[n].cinuse && n in h.foot && h.foot[n] == h.head[a].size
  }

  /** What the foot before chunk `a` says leads to the free chunk before it. */
  ghost predicate PrevOk(h: Heap, a: nat) {
    && a in h.foot && h.foot[a] <= a && h.foot[a] % 8 == 0
    && (a - h.foot[a]) in h.starts && (a - h.foot[a]) in h.head
    && h.head[a - h.foot[a]].size == h.foot[a] && !h.head[a - h.foot[a]].cinuse
  }

  /** Chunk `a` ends before chunk `b` starts. */
  ghost predicate Before(h: Heap, a: nat, b: nat) {
    a < b && a in h.head ==> Next(h, a) <= b
  }

  /** The end of a segment is in no chunk. */
  ghost predicate Outside(h: Heap, a: nat, e: nat) {
    a != e && (a < e && a in h.head ==> Next(h, a) <= e)
  }

  ghost predicate HeapOk(h: Heap) {
    && h.top in h.starts
    && (forall a {:trigger ChunkOk(h, a)} :: a in h.starts ==> ChunkOk(h, a))
    && (forall a, b {:trigger Before(h, a, b)} :: a in h.starts && b in h.starts ==> Before(h, a, b))
    && (forall a, e {:trigger Outside(h, a, e)} :: a in h.starts && e in h.ends ==> Outside(h, a, e))
  }

  // ------------------------------------------------------------------
  // Replacing a run of chunks

  /** The chunks `lo <= a < hi` of `h` are replaced by the chunks `fill`; nothing else changes but the pinuse bit of `hi`. */
  ghost predicate Retiled(h: Heap, h': Heap, lo: nat, hi: nat, fill: set<nat>) {
    && lo in h.starts && lo < hi && (hi in h.starts || hi in h.ends)
    && h'.ends == h.ends
    && (forall a :: a in h'.starts <==> (a in h.starts && !(lo <= a < hi)) || a in fill)
    && (forall a :: a in fill ==> lo <= a < hi)
    && (forall b {:trigger Kept(h, h', b)} :: (b in h.starts || b in h.ends) && !(lo <= b <= hi) ==> Kept(h, h', b))
    && (forall n :: n in h.foot && !(lo < n <= hi) ==> n in h'.foot && h'.foot[n] == h.foot[n])
    && lo in fill && lo in h'.head && lo in h.head && h'.head[lo].pinuse == h.head[lo].pinuse
    && (h.head[lo].pinuse || h'.head[lo].cinuse)
    && (if lo <= h.top < hi then h'.top in fill else h'.top == h.top)
    && hi in h.head && hi in h'.head && h'.head[hi].size == h.head[hi].size && h'.head[hi].cinuse == h.head[hi].cinuse
    && (forall e :: e in h.ends ==> !(lo <= e < hi))
  }

  ghost predicate Kept(h: Heap, h': Heap, b: nat) {
    b in h.head ==> b in h'.head && h'.head[b] == h.head[b]
  }

  /** The new chunks are well formed and fill the run without overlap. */
  ghost predicate FillOk(h': Heap, lo: nat, hi: nat, fill: set<nat>) {
    && (forall c {:trigger ChunkOk(h', c)} :: c in fill ==> ChunkOk(h', c) && Next(h', c) <= hi)
    && (forall c, d {:trigger Before(h', c, d)} :: c in fill && d in fill ==> Before(h', c, d))
    && (hi in h'.starts ==> ChunkOk(h', hi))
  }

  /** A chunk outside the run ends before it or starts behind it. */
  lemma OutsideRun(h: Heap, h': Heap, lo: nat, hi: nat, fill: set<nat>, b: nat)
    requires HeapOk(h) && Retiled(h, h', lo, hi, fill) && b in h.starts
    ensures b in h.head && (b < lo ==> Next(h, b) <= lo) && (b < hi ==> Next(h, b) <= hi)
  {
    assert ChunkOk(h, b) && Before(h, b, lo);
    if hi in h.starts {
      assert Before(h, b, hi);
    } else {
      assert Outside(h, b, hi);
    }
  }

  lemma KeptChunk(h: Heap, h': Heap, lo: nat, hi: nat, fill: set<nat>, b: nat)
    requires HeapOk(h) && Retiled(h, h', lo, hi, fill) && FillOk(h', lo, hi, fill)
    requires b in h.starts && !(lo <= b <= hi)
    ensures ChunkOk(h', b)
  {
    hide HeapOk, FillOk;
    OutsideRun(h, h', lo, hi, fill, b);
    KeptIsOk(h, b);
    assert Kept(h, h', b);
    var n := Next(h, b);
    NextOutside(h, h', lo, hi, fill, b);
    assert n != lo ==> Kept(h, h', n);
    if !h.head[b].pinuse {
      var p := b - h.foot[b];
      OutsideRun(h, h', lo, hi, fill, p);
      assert p != hi ==> Kept(h, h', p);
      assert p in h'.starts;
      assert PrevOk(h', b);
    }
  }

  lemma KeptIsOk(h: Heap, b: nat)
    requires HeapOk(h) && b in h.starts
    ensures ChunkOk(h, b)
  {
  }

  lemma NextOutside(h: Heap, h': Heap, lo: nat, hi: nat, fill: set<nat>, b: nat)
    requires HeapOk(h) && Retiled(h, h', lo, hi, fill) && b in h.starts && !(lo <= b <= hi) && b in h.head
    ensures Next(h, b) <= lo || Next(h, b) > hi
  {
    hide HeapOk;
    OutsideRun(h, h', lo, hi, fill, b);
    KeptIsOk(h, b);
  }

  lemma RetileKeepsHeap(h: Heap, h': Heap, lo: nat, hi: nat, fill: set<nat>)
    requires HeapOk(h) && Retiled(h, h', lo, hi, fill) && FillOk(h', lo, hi, fill)
    ensures HeapOk(h')
  {
    hide ChunkOk;
    forall b | b in h'.starts ensures ChunkOk(h', b) {
      if !(lo <= b <= hi) {
        KeptChunk(h, h', lo, hi, fill, b);
      }
    }
    forall b, c | b in h'.starts && c in h'.starts ensures Before(h', b, c) {
      KeptBefore(h, h', lo, hi, fill, b, c);
    }
    forall b, e | b in h'.starts && e in h'.ends ensures Outside(h', b, e) {
      KeptOutside(h, h', lo, hi, fill, b, e);
    }
  }

  lemma KeptBefore(h: Heap, h': Heap, lo: nat, hi: nat, fill: set<nat>, b: nat, c: nat)
    requires HeapOk(h) && Retiled(h, h', lo, hi, fill) && FillOk(h', lo, hi, fill)
    requires b in h'.starts && c in h'.starts
    ensures Before(h', b, c)
  {
    hide HeapOk;
    if b in fill {
      assert ChunkOk(h', b);
    } else {
      OutsideRun(h, h', lo, hi, fill, b);
      assert b != hi ==> Kept(h, h', b);
      if c !in fill {
        StartsBefore(h, b, c);
      }
    }
  }

  lemma StartsBefore(h: Heap, b: nat, c: nat)
    requires HeapOk(h) && b in h.starts && c in h.starts
    ensures Before(h, b, c)
  {
  }

  lemma KeptOutside(h: Heap, h': Heap, lo: nat, hi: nat, fill: set<nat>, b: nat, e: nat)
    requires HeapOk(h) && Retiled(h, h', lo, hi, fill) && FillOk(h', lo, hi, fill)
    requires b in h'.starts && e in h'.ends
    ensures Outside(h', b, e)
  {
    hide ChunkOk;
    if b in fill {
      assert ChunkOk(h', b);
    } else {
      assert Outside(h, b, e);
      OutsideRun(h, h', lo, hi, fill, b);
      assert b != hi ==> Kept(h, h', b);
    }
  }

  // ------------------------------------------------------------------
  // The allocator's changes of the tiling

  /** set_inuse_and_pinuse on the whole free chunk `a` */
  function UseWhole(h: Heap, a: nat): Heap
    requires a in h.head && Next(h, a) in h.head
  {
    var n := Next(h, a);
    var h1 := h.head[a := Head(h.head[a].size, true, true)];
    h.(head := h1[n := h1[n].(pinuse := true)])
  }

  lemma UseWholeOk(h: Heap, a: nat)
    requires HeapOk(h) && a in h.starts && a != h.top && a in h.head && !h.head[a].cinuse
    ensures Next(h, a) in h.head && HeapOk(UseWhole(h, a))
    ensures Retiled(h, UseWhole(h, a), a, Next(h, a), {a}) && FillOk(UseWhole(h, a), a, Next(h, a), {a})
  {
    hide HeapOk;
    KeptIsOk(h, a);
    TopIsStart(h);
    var n, h' := Next(h, a), UseWhole(h, a);
    KeptIsOk(h, n);
    EndsOutside(h, a);
    StartsOutside(h, a);
    assert Retiled(h, h', a, n, {a});
    assert ChunkOk(h', a) && ChunkOk(h', n);
    RetileKeepsHeap(h, h', a, n, {a});
  }

  lemma Mod8(a: nat, b: nat)
    requires a % 8 == 0 && b % 8 == 0
    ensures (a + b) % 8 == 0
    ensures a >= b ==> (a - b) % 8 == 0
    ensures a % 2 == 0
  {
    PowersOfTwo.Multiple(a + b, 8, a / 8 + b / 8);
    PowersOfTwo.Multiple(a, 2, 4 * (a / 8));
    if a >= b {
      PowersOfTwo.Multiple(a - b, 8, a / 8 - b / 8);
    }
  }

  /** No end of a segment is in a chunk. */
  lemma EndsOutside(h: Heap, a: nat)
    requires HeapOk(h) && a in h.starts && a in h.head
    ensures forall e :: e in h.ends ==> !(a <= e < Next(h, a))
  {
    forall e | e in h.ends ensures !(a <= e < Next(h, a)) {
      assert Outside(h, a, e);
    }
  }

  /** No other chunk starts in a chunk. */
  lemma StartsOutside(h: Heap, a: nat)
    requires HeapOk(h) && a in h.starts && a in h.head
    ensures forall b :: b in h.starts && a <= b < Next(h, a) ==> b == a
  {
    forall b | b in h.starts && a <= b < Next(h, a) ensures b == a {
      assert Before(h, a, b);
    }
  }

  /** A free chunk is cut into a chunk in use of `nb` bytes and a free rest. */
  function Split(h: Heap, a: nat, nb: nat): Heap
    requires a in h.head && nb <= h.head[a].size
  {
    var r, rsize := a + nb, h.head[a].size - nb;
    h.(head := h.head[a := Head(nb, true, true)][r := Head(rsize, true, false)],
       foot := h.foot[r + rsize := rsize], starts := h.starts + {r})
  }

  lemma SplitOk(h: Heap, a: nat, nb: nat)
    requires HeapOk(h) && a in h.starts && a != h.top && a in h.head && !h.head[a].cinuse
    requires nb % 8 == 0 && MIN_CHUNK_SIZE <= nb && nb + MIN_CHUNK_SIZE <= h.head[a].size
    ensures HeapOk(Split(h, a, nb))
    ensures Retiled(h, Split(h, a, nb), a, Next(h, a), {a, a + nb})
    ensures FillOk(Split(h, a, nb), a, Next(h, a), {a, a + nb})
  {
    hide HeapOk;
    KeptIsOk(h, a);
    TopIsStart(h);
    Mod8(a, nb);
    Mod8(h.head[a].size, nb);
    var n, h' := Next(h, a), Split(h, a, nb);
    KeptIsOk(h, n);
    EndsOutside(h, a);
    StartsOutside(h, a);
    assert Retiled(h, h', a, n, {a, a + nb});
    assert ChunkOk(h', a) && ChunkOk(h', a + nb) && (n in h.starts ==> ChunkOk(h', n));
    RetileKeepsHeap(h, h', a, n, {a, a + nb});
  }

  /** `top` is cut into a chunk in use of `nb` bytes and the new `top`. */
  function SplitTop(h: Heap, nb: nat): Heap
    requires h.top in h.head && nb <= h.head[h.top].size
  {
    var r, rsize := h.top + nb, h.head[h.top].size - nb;
    h.(head := h.head[h.top := Head(nb, true, true)][r := Head(rsize, true, false)],
       starts := h.starts + {r}, top := r)
  }

  lemma SplitTopOk(h: Heap, nb: nat)
    requires HeapOk(h) && h.top in h.head
    requires nb % 8 == 0 && MIN_CHUNK_SIZE <= nb < h.head[h.top].size
    ensures HeapOk(SplitTop(h, nb))
    ensures Retiled(h, SplitTop(h, nb), h.top, Next(h, h.top), {h.top, h.top + nb})
    ensures FillOk(SplitTop(h, nb), h.top, Next(h, h.top), {h.top, h.top + nb})
  {
    hide HeapOk;
    TopIsStart(h);
    KeptIsOk(h, h.top);
    Mod8(h.top, nb);
    Mod8(h.head[h.top].size, nb);
    var n, h' := Next(h, h.top), SplitTop(h, nb);
    EndsOutside(h, h.top);
    StartsOutside(h, h.top);
    EndsNoStart(h, n);
    assert Retiled(h, h', h.top, n, {h.top, h.top + nb});
    assert ChunkOk(h', h.top) && ChunkOk(h', h.top + nb);
    RetileKeepsHeap(h, h', h.top, n, {h.top, h.top + nb});
  }

  lemma TopIsStart(h: Heap)
    requires HeapOk(h)
    ensures h.top in h.starts
  {
  }

  lemma EndsNoStart(h: Heap, e: nat)
    requires HeapOk(h) && e in h.ends
    ensures e !in h.starts
  {
    assert e in h.starts ==> Outside(h, e, e);
  }

  /** All chunks from `lo` up to `hi` become one free chunk. */
  function FreeRun(h: Heap, lo: nat, hi: nat): Heap
    requires hi in h.head && lo < hi
  {
    h.(head := h.head[lo := Head(hi - lo, true, false)][hi := h.head[hi].(pinuse := false)],
       foot := h.foot[hi := hi - lo],
       starts := (set a | a in h.starts && !(lo < a < hi)))
  }

  /** No chunk and no end of a segment is left half in a run of whole chunks. */
  ghost predicate Run(h: Heap, lo: nat, hi: nat) {
    && lo in h.starts && lo in h.head && lo < hi
    && (hi in h.starts || hi in h.ends) && hi in h.head
    && (forall e :: e in h.ends ==> !(lo <= e < hi))
  }

  lemma FreeRunOk(h: Heap, lo: nat, hi: nat)
    requires HeapOk(h) && Run(h, lo, hi) && hi in h.starts && h.head[hi].cinuse && h.head[lo].pinuse
    requires !(lo <= h.top < hi) && MIN_CHUNK_SIZE <= hi - lo
    ensures HeapOk(FreeRun(h, lo, hi))
    ensures Retiled(h, FreeRun(h, lo, hi), lo, hi, {lo}) && FillOk(FreeRun(h, lo, hi), lo, hi, {lo})
  {
    hide HeapOk;
    KeptIsOk(h, lo);
    KeptIsOk(h, hi);
    Mod8(hi, lo);
    var h' := FreeRun(h, lo, hi);
    assert Retiled(h, h', lo, hi, {lo});
    assert ChunkOk(h', lo) && ChunkOk(h', hi);
    RetileKeepsHeap(h, h', lo, hi, {lo});
  }

  /** All chunks from `lo` on, up to and with `top`, become the new `top`. */
  function FreeToTop(h: Heap, lo: nat): Heap
    requires h.top in h.head && lo <= h.top
  {
    var hi := Next(h, h.top);
    h.(head := h.head[lo := Head(hi - lo, true, false)],
       starts := (set a | a in h.starts && !(lo < a < hi)), top := lo)
  }

  lemma FreeToTopOk(h: Heap, lo: nat)
    requires HeapOk(h) && h.top in h.head && lo <= h.top && Run(h, lo, Next(h, h.top)) && h.head[lo].pinuse
    ensures HeapOk(FreeToTop(h, lo))
    ensures Retiled(h, FreeToTop(h, lo), lo, Next(h, h.top), {lo}) && FillOk(FreeToTop(h, lo), lo, Next(h, h.top), {lo})
  {
    hide HeapOk;
    TopIsStart(h);
    KeptIsOk(h, lo);
    KeptIsOk(h, h.top);
    var h', hi := FreeToTop(h, lo), Next(h, h.top);
    Mod8(h.top, h.head[h.top].size);
    Mod8(hi, lo);
    EndsNoStart(h, hi);
    assert Retiled(h, h', lo, hi, {lo});
    assert ChunkOk(h', lo);
    RetileKeepsHeap(h, h', lo, hi, {lo});
  }

  /** A chunk in use is cut into two chunks in use. */
  function SplitUsed(h: Heap, a: nat, nb: nat): Heap
    requires a in h.head && nb <= h.head[a].size
  {
    var r, rsize := a + nb, h.head[a].size - nb;
    h.(head := h.head[a := h.head[a].(size := nb)][r := Head(rsize, true, true)], starts := h.starts + {r})
  }

  /** The two chunks, and what follows them. */
  lemma SplitUsedChunks(h: Heap, a: nat, nb: nat)
    requires HeapOk(h) && a in h.starts && a in h.head && h.head[a].cinuse
    requires nb % 8 == 0 && MIN_CHUNK_SIZE <= nb && nb + MIN_CHUNK_SIZE <= h.head[a].size
    ensures var h', n := SplitUsed(h, a, nb), Next(h, a);
            ChunkOk(h', a) && ChunkOk(h', a + nb) && (n in h.starts ==> ChunkOk(h', n))
  {
    hide HeapOk;
    KeptIsOk(h, a);
    TopIsStart(h);
    Mod8(a, nb);
    Mod8(h.head[a].size, nb);
    StartsOutside(h, a);
    if Next(h, a) in h.starts {
      KeptIsOk(h, Next(h, a));
    }
  }

  lemma SplitUsedOk(h: Heap, a: nat, nb: nat)
    requires HeapOk(h) && a in h.starts && a in h.head && h.head[a].cinuse
    requires nb % 8 == 0 && MIN_CHUNK_SIZE <= nb && nb + MIN_CHUNK_SIZE <= h.head[a].size
    ensures HeapOk(SplitUsed(h, a, nb))
    ensures Retiled(h, SplitUsed(h, a, nb), a, Next(h, a), {a, a + nb})
    ensures FillOk(SplitUsed(h, a, nb), a, Next(h, a), {a, a + nb})
  {
    hide HeapOk;
    KeptIsOk(h, a);
    TopIsStart(h);
    Mod8(a, nb);
    var n, h' := Next(h, a), SplitUsed(h, a, nb);
    EndsOutside(h, a);
    StartsOutside(h, a);
    assert Retiled(h, h', a, n, {a, a + nb});
    SplitUsedChunks(h, a, nb);
    RetileKeepsHeap(h, h', a, n, {a, a + nb});
  }

  /** The chunk in use before `top` grows into `top`. */
  function GrowIntoTop(h: Heap, a: nat, nb: nat): Heap
    requires a in h.head && h.top in h.head && a + nb <= Next(h, h.top)
  {
    var r := a + nb;
    h.(head := h.head[a := h.head[a].(size := nb)][r := Head(Next(h, h.top) - r, true, false)],
       starts := h.starts - {h.top} + {r}, top := r)
  }

  lemma GrowIntoTopOk(h: Heap, a: nat, nb: nat)
    requires HeapOk(h) && a in h.starts && a in h.head && h.head[a].cinuse && Next(h, a) == h.top && h.top in h.head
    requires nb % 8 == 0 && h.head[a].size < nb < h.head[a].size + h.head[h.top].size
    ensures HeapOk(GrowIntoTop(h, a, nb))
    ensures Retiled(h, GrowIntoTop(h, a, nb), a, Next(h, h.top), {a, a + nb})
    ensures FillOk(GrowIntoTop(h, a, nb), a, Next(h, h.top), {a, a + nb})
  {
    hide HeapOk;
    TopIsStart(h);
    KeptIsOk(h, a);
    KeptIsOk(h, h.top);
    var n, h' := Next(h, h.top), GrowIntoTop(h, a, nb);
    Mod8(h.top, h.head[h.top].size);
    Mod8(a, nb);
    Mod8(n, a + nb);
    EndsNoStart(h, n);
    EndsOutside(h, a);
    StartsOutside(h, a);
    EndsOutside(h, h.top);
    StartsOutside(h, h.top);
    assert Retiled(h, h', a, n, {a, a + nb});
    assert ChunkOk(h', a) && ChunkOk(h', a + nb) && (n in h.starts ==> ChunkOk(h', n));
    RetileKeepsHeap(h, h', a, n, {a, a + nb});
  }
}
