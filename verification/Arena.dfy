/**
 Tiling, segments and files of the bundled allocator (src/lj_alloc.c) taken
 together: what each change of the heap keeps, and which blocks it hands out or
 takes back.
 */
module Arena {
  import opened Chunk
  import opened Tiling
  import opened Segments
  import opened Filing

  /** All that the allocator relies on, while the chunks in `loose` are out of their files. */
  ghost predicate ArenaOk(h: Heap, segs: seq<Segment>, f: Files, loose: set<nat>) {
    HeapOk(h) && SegmentsOk(h, segs) && Filed(h, f, loose) && h.top in h.head
  }

  /** The chunks with segment records are in use. */
  lemma RecordsUsed(h: Heap, segs: seq<Segment>, i: nat)
    requires SegmentsOk(h, segs) && 0 < i < |segs|
    ensures segs[i].rec in Used(h) && Used(h)[segs[i].rec] == RECORD_SIZE
  {
    assert SegmentOk(h, segs, i);
  }

  /** No record lies in a run without chunks in use. */
  lemma RecordsOutside(h: Heap, segs: seq<Segment>, lo: nat, hi: nat, p: nat)
    requires SegmentsOk(h, segs)
    requires forall a :: a in Used(h) && lo <= a < hi ==> a == p
    requires p in Used(h) ==> forall i :: 0 < i < |segs| ==> segs[i].rec != p
    ensures forall i :: 0 < i < |segs| ==> !(lo <= segs[i].rec < hi)
  {
    forall i | 0 < i < |segs| ensures !(lo <= segs[i].rec < hi) {
      RecordsUsed(h, segs, i);
    }
  }

  lemma UseWholeArena(h: Heap, segs: seq<Segment>, f: Files, a: nat)
    requires ArenaOk(h, segs, f, {a}) && FreeChunk(h, a)
    ensures Next(h, a) in h.head
    ensures ArenaOk(UseWhole(h, a), segs, f, {})
    ensures Used(UseWhole(h, a)) == Used(h)[a := h.head[a].size] && a !in Used(h)
  {
    hide HeapOk, SegmentsOk, Filed, Retiled, FillOk;
    UseWholeOk(h, a);
    UseWholeFiled(h, f, a);
    StartsOutside(h, a);
    RecordsOutside(h, segs, a, Next(h, a), a);
    RetileKeepsSegments(h, UseWhole(h, a), a, Next(h, a), {a}, segs);
  }

  lemma SplitArena(h: Heap, segs: seq<Segment>, f: Files, a: nat, nb: nat)
    requires ArenaOk(h, segs, f, {a}) && FreeChunk(h, a)
    requires nb % 8 == 0 && MIN_CHUNK_SIZE <= nb && nb + MIN_CHUNK_SIZE <= h.head[a].size
    ensures ArenaOk(Split(h, a, nb), segs, f, {a + nb}) && FreeChunk(Split(h, a, nb), a + nb)
    ensures Used(Split(h, a, nb)) == Used(h)[a := nb] && a !in Used(h)
  {
    hide HeapOk, SegmentsOk, Filed, Retiled, FillOk;
    SplitOk(h, a, nb);
    SplitFiled(h, f, a, nb);
    StartsOutside(h, a);
    RecordsOutside(h, segs, a, Next(h, a), a);
    TopIsStart(h);
    KeptIsOk(h, a);
    RetileKeepsSegments(h, Split(h, a, nb), a, Next(h, a), {a, a + nb}, segs);
  }

  lemma SplitTopArena(h: Heap, segs: seq<Segment>, f: Files, nb: nat)
    requires ArenaOk(h, segs, f, {}) && h.top in h.head
    requires nb % 8 == 0 && MIN_CHUNK_SIZE <= nb < h.head[h.top].size
    ensures ArenaOk(SplitTop(h, nb), segs, f, {})
    ensures Used(SplitTop(h, nb)) == Used(h)[h.top := nb] && h.top !in Used(h)
  {
    hide HeapOk, SegmentsOk, Filed, Retiled, FillOk;
    TopIsStart(h);
    SplitTopOk(h, nb);
    SplitTopFiled(h, f, nb);
    StartsOutside(h, h.top);
    RecordsOutside(h, segs, h.top, Next(h, h.top), h.top);
    RetileKeepsSegments(h, SplitTop(h, nb), h.top, Next(h, h.top), {h.top, h.top + nb}, segs);
  }

  lemma FreeRunArena(h: Heap, segs: seq<Segment>, f: Files, loose: set<nat>, lo: nat, hi: nat, p: nat)
    requires ArenaOk(h, segs, f, loose) && Run(h, lo, hi) && hi in h.starts && h.head[hi].cinuse && h.head[lo].pinuse
    requires p in h.starts && p in h.head && h.head[p].cinuse && lo <= p < hi && !(lo <= h.top < hi)
    requires forall a :: a in h.starts && lo <= a < hi && a != p ==> a in h.head && !h.head[a].cinuse && a in loose
    requires forall a :: a in loose ==> a in h.starts && lo <= a < hi
    requires forall i :: 0 < i < |segs| ==> segs[i].rec != p
    requires MIN_CHUNK_SIZE <= hi - lo
    ensures ArenaOk(FreeRun(h, lo, hi), segs, f, {lo}) && FreeChunk(FreeRun(h, lo, hi), lo)
    ensures Used(FreeRun(h, lo, hi)) == Used(h) - {p}
  {
    hide HeapOk, SegmentsOk, Filed, Retiled, FillOk;
    FreeRunOk(h, lo, hi);
    FreeRunFiled(h, f, loose, lo, hi, p);
    RecordsOutside(h, segs, lo, hi, p);
    TopIsStart(h);
    RetileKeepsSegments(h, FreeRun(h, lo, hi), lo, hi, {lo}, segs);
  }

  lemma FreeToTopArena(h: Heap, segs: seq<Segment>, f: Files, loose: set<nat>, lo: nat, p: nat)
    requires ArenaOk(h, segs, f, loose) && h.top in h.head && lo <= h.top && Run(h, lo, Next(h, h.top)) && h.head[lo].pinuse
    requires p in h.starts && p in h.head && h.head[p].cinuse && lo <= p < h.top
    requires forall a :: a in h.starts && lo <= a < Next(h, h.top) && a != p && a != h.top ==>
               a in h.head && !h.head[a].cinuse && a in loose
    requires forall a :: a in loose ==> a in h.starts && lo <= a < h.top
    requires forall i :: 0 < i < |segs| ==> segs[i].rec != p
    ensures ArenaOk(FreeToTop(h, lo), segs, f, {})
    ensures Used(FreeToTop(h, lo)) == Used(h) - {p}
  {
    hide HeapOk, SegmentsOk, Filed, Retiled, FillOk;
    FreeToTopOk(h, lo);
    FreeToTopFiled(h, f, loose, lo, p);
    TopIsStart(h);
    KeptIsOk(h, h.top);
    RecordsOutside(h, segs, lo, Next(h, h.top), p);
    RetileKeepsSegments(h, FreeToTop(h, lo), lo, Next(h, h.top), {lo}, segs);
  }

  lemma SplitUsedArena(h: Heap, segs: seq<Segment>, f: Files, loose: set<nat>, a: nat, nb: nat)
    requires ArenaOk(h, segs, f, loose) && a in Used(h) && forall i :: 0 < i < |segs| ==> segs[i].rec != a
    requires nb % 8 == 0 && MIN_CHUNK_SIZE <= nb && nb + MIN_CHUNK_SIZE <= h.head[a].size
    ensures ArenaOk(SplitUsed(h, a, nb), segs, f, loose)
    ensures Used(SplitUsed(h, a, nb)) == Used(h)[a := nb][a + nb := h.head[a].size - nb] && a + nb !in Used(h)
  {
    hide HeapOk, SegmentsOk, Filed, Retiled, FillOk;
    SplitUsedOk(h, a, nb);
    SplitUsedFiled(h, f, loose, a, nb);
    StartsOutside(h, a);
    RecordsOutside(h, segs, a, Next(h, a), a);
    TopIsStart(h);
    KeptIsOk(h, h.top);
    KeptIsOk(h, a);
    RetileKeepsSegments(h, SplitUsed(h, a, nb), a, Next(h, a), {a, a + nb}, segs);
  }

  lemma GrowIntoTopArena(h: Heap, segs: seq<Segment>, f: Files, a: nat, nb: nat)
    requires ArenaOk(h, segs, f, {}) && a in Used(h) && forall i :: 0 < i < |segs| ==> segs[i].rec != a
    requires Next(h, a) == h.top && h.top in h.head
    requires nb % 8 == 0 && h.head[a].size < nb < h.head[a].size + h.head[h.top].size
    ensures ArenaOk(GrowIntoTop(h, a, nb), segs, f, {})
    ensures Used(GrowIntoTop(h, a, nb)) == Used(h)[a := nb]
  {
    hide HeapOk, SegmentsOk, Filed, Retiled, FillOk;
    GrowIntoTopOk(h, a, nb);
    GrowIntoTopFiled(h, f, a, nb);
    TopIsStart(h);
    KeptIsOk(h, h.top);
    StartsOutside(h, a);
    StartsOutside(h, h.top);
    RecordsOutside(h, segs, a, Next(h, h.top), a);
    RetileKeepsSegments(h, GrowIntoTop(h, a, nb), a, Next(h, h.top), {a, a + nb}, segs);
  }

  // ------------------------------------------------------------------
  // Changes of the segments

  lemma AppendTopArena(h: Heap, segs: seq<Segment>, f: Files, tsize: nat)
    requires ArenaOk(h, segs, f, {}) && tsize > 0 && tsize % DEFAULT_GRANULARITY == 0 && |segs| > 0
    requires FreshRegion(segs, segs[0].base + segs[0].size, tsize)
    ensures ArenaOk(AppendTop(h, tsize), AppendSegs(segs, tsize), f, {})
    ensures Used(AppendTop(h, tsize)) == Used(h)
  {
    hide HeapOk, SegmentsOk, Filed;
    AppendTopOk(h, segs, tsize);
    AppendTopSegments(h, segs, tsize);
    TopIsStart(h);
    KeptIsOk(h, h.top);
    FreshHoldsNothing(h, segs, segs[0].base + segs[0].size, tsize);
    BehindTop(h, segs, tsize);
    Refile(h, AppendTop(h, tsize), f, {}, {});
  }

  lemma ExtendArena(h: Heap, segs: seq<Segment>, f: Files, loose: set<nat>, k: nat, tbase: nat, tsize: nat)
    requires ArenaOk(h, segs, f, loose) && k < |segs|
    requires FreshRegion(segs, tbase, tsize) && tbase + tsize == segs[k].base
    requires tsize % DEFAULT_GRANULARITY == 0 && tsize > 0
    ensures ArenaOk(Extend(h, tbase, tsize), ExtendSegs(segs, k, tbase, tsize), f, loose)
    ensures Used(Extend(h, tbase, tsize)) == Used(h)[tbase := tsize] && tbase !in Used(h) && tbase !in h.starts
  {
    hide HeapOk, SegmentsOk, Filed;
    ExtendOk(h, segs, k, tbase, tsize);
    ExtendSegments(h, segs, k, tbase, tsize);
    TopIsStart(h);
    FreshHoldsNothing(h, segs, tbase, tsize);
    LooseUnfiled(h, f, loose);
    Refile(h, Extend(h, tbase, tsize), f, loose, loose);
  }

  /** The chunk for the record is new in use; the old top, if any of it is left, is loose. */
  lemma NewSegmentArena(h: Heap, segs: seq<Segment>, f: Files, tbase: nat, tsize: nat)
    requires ArenaOk(h, segs, f, {}) && FreshRegion(segs, tbase, tsize)
    requires tsize > TOP_FOOT_SIZE && tsize % DEFAULT_GRANULARITY == 0 && |segs| > 0
    ensures var h' := NewSegment(h, segs[0].base + segs[0].size, tbase, tsize);
            var loose := if RecordAt(h) == h.top then {} else {h.top};
            && ArenaOk(h', NewSegs(h, segs, tbase, tsize), f, loose)
            && Used(h') == Used(h)[RecordAt(h) := RECORD_SIZE] && RecordAt(h) !in Used(h)
            && (RecordAt(h) != h.top ==> FreeChunk(h', h.top) && h'.head[h.top].size == h.head[h.top].size)
            && h'.top == tbase && h'.head[tbase].size == tsize - TOP_FOOT_SIZE && tbase !in Used(h')
  {
    hide HeapOk, SegmentsOk, NewSegment;
    var h' := NewSegment(h, segs[0].base + segs[0].size, tbase, tsize);
    var loose := if RecordAt(h) == h.top then {} else {h.top};
    NewSegmentOk(h, segs, tbase, tsize);
    NewSegmentSegments(h, segs, tbase, tsize);
    NewSegmentHeads(h, segs, tbase, tsize);
    NewSegmentShape(h, segs, tbase, tsize);
    TopIsStart(h);
    KeptIsOk(h, h.top);
    FreshHoldsNothing(h, segs, tbase, tsize);
    EndsNoStart(h, Next(h, h.top));
    NotFree(h, f, {}, h.top);
    Refile(h, h', f, {}, loose);
  }

  lemma DropArena(h: Heap, segs: seq<Segment>, f: Files, k: nat)
    requires Unused(h, segs, k) && ArenaOk(h, segs, f, {segs[k].base}) && FreeChunk(h, segs[k].base)
    ensures ArenaOk(Drop(h, segs, k), DropSegs(segs, k), f, {})
    ensures segs[k].rec in Used(h) && Used(Drop(h, segs, k)) == Used(h) - {segs[k].rec}
  {
    hide HeapOk, SegmentsOk, Filed;
    DropOk(h, segs, k);
    DropSegments(h, segs, k);
    DropApart(h, segs, k);
    RecordsUsed(h, segs, k);
    Refile(h, Drop(h, segs, k), f, {segs[k].base}, {});
  }

  lemma TrimTopArena(h: Heap, segs: seq<Segment>, f: Files, released: nat)
    requires ArenaOk(h, segs, f, {}) && |segs| > 0
    requires released % DEFAULT_GRANULARITY == 0 && released < h.head[h.top].size
    ensures released <= segs[0].size
    ensures ArenaOk(TrimTop(h, released), TrimSegs(segs, released), f, {})
    ensures Used(TrimTop(h, released)) == Used(h)
  {
    hide HeapOk, SegmentsOk, Filed;
    TrimTopOk(h, segs, released);
    TrimTopSegments(h, segs, released);
    TopIsStart(h);
    KeptIsOk(h, h.top);
    BehindTopHere(h, segs);
    StartsOutside(h, h.top);
    EndsNoStart(h, Next(h, h.top));
    Refile(h, TrimTop(h, released), f, {}, {});
  }

  // ------------------------------------------------------------------
  // prepend_alloc

  /** A new region in front of segment `k`, cut into two chunks in use. */
  function Prepend(h: Heap, tbase: nat, tsize: nat, nb: nat): Heap
    requires nb <= tsize
  {
    SplitUsed(Extend(h, tbase, tsize), tbase, nb)
  }

  ghost predicate CanPrepend(h: Heap, segs: seq<Segment>, k: nat, tbase: nat, tsize: nat, nb: nat) {
    && k < |segs| && FreshRegion(segs, tbase, tsize) && tbase + tsize == segs[k].base && tsize % DEFAULT_GRANULARITY == 0
    && nb % 8 == 0 && MIN_CHUNK_SIZE <= nb && nb + MIN_CHUNK_SIZE <= tsize
  }

  lemma PrependArena(h: Heap, segs: seq<Segment>, f: Files, loose: set<nat>, k: nat, tbase: nat, tsize: nat, nb: nat)
    requires ArenaOk(h, segs, f, loose) && CanPrepend(h, segs, k, tbase, tsize, nb)
    ensures var h2, segs' := Prepend(h, tbase, tsize, nb), ExtendSegs(segs, k, tbase, tsize);
            && ArenaOk(h2, segs', f, loose)
            && Used(h2) == Used(h)[tbase := nb][tbase + nb := tsize - nb]
            && (forall i :: 0 < i < |segs'| ==> segs'[i].rec != tbase + nb && segs'[i].rec != tbase)
    ensures tbase !in Used(h) && tbase + nb !in Used(h)
  {
    hide HeapOk, SegmentsOk, Filed, FreshRegion;
    ExtendArena(h, segs, f, loose, k, tbase, tsize);
    forall i | 0 < i < |segs| ensures segs[i].rec in Used(h) {
      RecordsUsed(h, segs, i);
    }
    SplitUsedArena(Extend(h, tbase, tsize), ExtendSegs(segs, k, tbase, tsize), f, loose, tbase, nb);
  }

  /** The second new chunk is followed by the first chunk of the old region. */
  lemma PrependRun(h: Heap, segs: seq<Segment>, f: Files, loose: set<nat>, k: nat, tbase: nat, tsize: nat, nb: nat)
    requires ArenaOk(h, segs, f, loose) && CanPrepend(h, segs, k, tbase, tsize, nb)
    ensures var h2, q, first := Prepend(h, tbase, tsize, nb), tbase + nb, segs[k].base;
            && first in h.starts && first in h2.starts && first in h.head && first in h2.head && h2.head[first] == h.head[first] && h2.top == h.top
            && Run(h2, q, first) && q in Used(h2) && h2.head[q].pinuse && Next(h, first) in h2.head && Run(h2, q, Next(h, first))
            && (forall a :: a in h2.starts && q <= a < first ==> a == q)
            && (forall a :: a in h2.starts && q <= a < Next(h, first) ==> a == q || a == first)
            && !(q <= h2.top < first) && q < first < Next(h, first) && (h.top != first ==> !(q <= h2.top < Next(h, first)))
            && (!h.head[first].cinuse && first != h.top ==>
                  Next(h, first) in h2.starts && h2.head[Next(h, first)].cinuse)
            && h.top in h2.head && h2.head[h.top] == h.head[h.top]
  {
    hide HeapOk, SegmentsOk, Filed, FreshRegion, PrevOk;
    var first, q, h1, h2 := segs[k].base, tbase + nb, Extend(h, tbase, tsize), Prepend(h, tbase, tsize, nb);
    ExtendArena(h, segs, f, loose, k, tbase, tsize);
    PrependArena(h, segs, f, loose, k, tbase, tsize, nb);
    SegOk(h, segs, k);
    KeptIsOk(h, first);
    TopIsStart(h);
    StartsOutside(h1, tbase);
    EndsOutside(h1, tbase);
    StartsOutside(h1, first);
    EndsOutside(h1, first);
    if !h.head[first].cinuse && first != h.top {
      KeptIsOk(h, Next(h, first));
    }
  }

  /** The rest of the region becomes part of `top`. */
  lemma PrependTopArena(h: Heap, segs: seq<Segment>, f: Files, k: nat, tbase: nat, tsize: nat, nb: nat)
    requires ArenaOk(h, segs, f, {}) && CanPrepend(h, segs, k, tbase, tsize, nb) && segs[k].base == h.top
    ensures var h2, q := Prepend(h, tbase, tsize, nb), tbase + nb;
            && h2.top in h2.head && q <= h2.top && h2.head[h2.top] == h.head[h.top] && h2.top == h.top
            && ArenaOk(FreeToTop(h2, q), ExtendSegs(segs, k, tbase, tsize), f, {})
            && Used(FreeToTop(h2, q)) == Used(h)[tbase := nb] && tbase !in Used(h)
  {
    hide HeapOk, SegmentsOk, Filed, FreshRegion, Run, Prepend;
    PrependArena(h, segs, f, {}, k, tbase, tsize, nb);
    PrependRun(h, segs, f, {}, k, tbase, tsize, nb);
    FreeToTopArena(Prepend(h, tbase, tsize, nb), ExtendSegs(segs, k, tbase, tsize), f, {}, tbase + nb, tbase + nb);
    assert tbase + nb !in Used(h)[tbase := nb];
  }

  lemma TopFree(h: Heap)
    requires HeapOk(h)
    ensures h.top in h.head && !h.head[h.top].cinuse
  {
    assert ChunkOk(h, h.top);
  }

  /** The rest of the region and the free first chunk behind it become one free chunk. */
  lemma PrependFreeArena(h: Heap, segs: seq<Segment>, f: Files, k: nat, tbase: nat, tsize: nat, nb: nat)
    requires CanPrepend(h, segs, k, tbase, tsize, nb) && FreeChunk(h, segs[k].base) && ArenaOk(h, segs, f, {segs[k].base})
    ensures var h2, q, hi := Prepend(h, tbase, tsize, nb), tbase + nb, Next(h, segs[k].base);
            && hi in h.head && hi in h2.head && q < hi && h.top in FreeRun(h2, q, hi).head
            && FreeRun(h2, q, hi).head[h.top] == h.head[h.top] && FreeRun(h2, q, hi).top == h.top
            && ArenaOk(FreeRun(h2, q, hi), ExtendSegs(segs, k, tbase, tsize), f, {q}) && FreeChunk(FreeRun(h2, q, hi), q)
            && Used(FreeRun(h2, q, hi)) == Used(h)[tbase := nb] && tbase !in Used(h)
  {
    hide HeapOk, SegmentsOk, Filed, FreshRegion, Run, Prepend;
    PrependArena(h, segs, f, {segs[k].base}, k, tbase, tsize, nb);
    PrependRun(h, segs, f, {segs[k].base}, k, tbase, tsize, nb);
    KeptIsOk(h, segs[k].base);
    TopIsStart(h);
    TopFree(h);
    FreeRunArena(Prepend(h, tbase, tsize, nb), ExtendSegs(segs, k, tbase, tsize), f, {segs[k].base}, tbase + nb,
                 Next(h, segs[k].base), tbase + nb);
    assert tbase + nb !in Used(h)[tbase := nb];
  }

  /** The rest of the region becomes a free chunk before a chunk in use. */
  lemma PrependUsedArena(h: Heap, segs: seq<Segment>, f: Files, k: nat, tbase: nat, tsize: nat, nb: nat)
    requires CanPrepend(h, segs, k, tbase, tsize, nb) && segs[k].base in Used(h) && ArenaOk(h, segs, f, {})
    ensures var h2, q, hi := Prepend(h, tbase, tsize, nb), tbase + nb, segs[k].base;
            && hi in h.head && hi in h2.head && q < hi && h.top in FreeRun(h2, q, hi).head
            && FreeRun(h2, q, hi).head[h.top] == h.head[h.top] && FreeRun(h2, q, hi).top == h.top
            && ArenaOk(FreeRun(h2, q, hi), ExtendSegs(segs, k, tbase, tsize), f, {q}) && FreeChunk(FreeRun(h2, q, hi), q)
            && Used(FreeRun(h2, q, hi)) == Used(h)[tbase := nb] && tbase !in Used(h)
  {
    hide HeapOk, SegmentsOk, Filed, FreshRegion, Run, Prepend;
    PrependArena(h, segs, f, {}, k, tbase, tsize, nb);
    PrependRun(h, segs, f, {}, k, tbase, tsize, nb);
    TopIsStart(h);
    TopFree(h);
    FreeRunArena(Prepend(h, tbase, tsize, nb), ExtendSegs(segs, k, tbase, tsize), f, {}, tbase + nb, segs[k].base, tbase + nb);
    assert tbase + nb !in Used(h)[tbase := nb];
  }

  // The words that prepend_alloc writes

  lemma PrependTopWords(h: Heap, tbase: nat, tsize: nat, nb: nat)
    requires MIN_CHUNK_SIZE <= nb < tsize && h.top == tbase + tsize && h.top in h.head
    ensures var h2, q, h1 := Prepend(h, tbase, tsize, nb), tbase + nb, h.head[tbase := Head(nb, true, true)];
            && h2.top in h2.head && q <= h2.top
            && FreeToTop(h2, q) == h.(head := h1[q := Head(h.head[h.top].size + (tsize - nb), true, false)],
                                      starts := FreeToTop(h2, q).starts, top := q)
  {
  }

  lemma PrependWords(h: Heap, tbase: nat, tsize: nat, nb: nat, hi: nat)
    requires MIN_CHUNK_SIZE <= nb < tsize && hi >= tbase + tsize && hi in h.head
    ensures var h2, q, h1 := Prepend(h, tbase, tsize, nb), tbase + nb, h.head[tbase := Head(nb, true, true)];
            && hi in h2.head && hi in h1
            && FreeRun(h2, q, hi) == h.(head := h1[q := Head(hi - q, true, false)][hi := h1[hi].(pinuse := false)],
                                        foot := h.foot[hi := hi - q], starts := FreeRun(h2, q, hi).starts)
  {
  }
}
