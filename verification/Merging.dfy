/** How a freed chunk of the bundled allocator (src/lj_alloc.c) is merged with its free neighbours. */
module Merging {
  import opened Chunk
  import opened Tiling
  import opened Segments
  import opened Filing
  import opened Arena

  /** The merged chunk starts with the chunk before `p` if that is free, */
  function MergeLo(h: Heap, p: nat): nat
    requires p in h.head
  {
    if h.head[p].pinuse || p !in h.foot || h.foot[p] > p then p else p - h.foot[p]
  }

  /** and ends behind the chunk after `p` if that is free. */
  function MergeHi(h: Heap, p: nat): nat
    requires p in h.head && Next(h, p) in h.head
  {
    if h.head[Next(h, p)].cinuse then Next(h, p) else Next(h, Next(h, p))
  }

  function MergeLoose(h: Heap, p: nat): set<nat>
    requires p in h.head && Next(h, p) in h.head
  {
    (if MergeLo(h, p) == p then {} else {MergeLo(h, p)}) + (if h.head[Next(h, p)].cinuse then {} else {Next(h, p)})
  }

  /** Chunk `p` is in use, and holds no record. */
  ghost predicate UserChunk(h: Heap, segs: seq<Segment>, p: nat) {
    p in Used(h) && forall i :: 0 < i < |segs| ==> segs[i].rec != p
  }

  lemma UserNext(h: Heap, segs: seq<Segment>, p: nat)
    requires HeapOk(h) && SegmentsOk(h, segs) && UserChunk(h, segs, p)
    ensures p in h.starts && p in h.head && h.head[p].cinuse && h.head[p].size >= MIN_CHUNK_SIZE && p > 0
    ensures Next(h, p) in h.starts && Next(h, p) in h.head && h.head[Next(h, p)].pinuse
  {
    hide HeapOk, SegmentsOk;
    KeptIsOk(h, p);
    TopIsStart(h);
    KeptIsOk(h, h.top);
    if Next(h, p) in h.ends {
      var i := FindEnd(h, segs, Next(h, p));
      var last := if i == 0 then h.top else segs[i].rec;
      KeptIsOk(h, last);
      StartsBefore(h, p, last);
      StartsBefore(h, last, p);
    }
  }

  /** The neighbour before the chunk, if it is free, is found through the foot. */
  lemma PrevChunk(h: Heap, p: nat)
    requires HeapOk(h) && p in Used(h) && !h.head[p].pinuse
    ensures p in h.foot && h.foot[p] <= p && h.foot[p] % 2 == 0
    ensures MergeLo(h, p) == p - h.foot[p] && FreeChunk(h, MergeLo(h, p)) && h.head[MergeLo(h, p)].size == h.foot[p] > 0
    ensures h.head[MergeLo(h, p)].pinuse && Next(h, MergeLo(h, p)) == p
  {
    hide HeapOk;
    KeptIsOk(h, p);
    Mod8(h.foot[p], 0);
    KeptIsOk(h, MergeLo(h, p));
    if MergeLo(h, p) == h.top {
      EndsNoStart(h, p);
    }
  }

  lemma NextChunk(h: Heap, segs: seq<Segment>, p: nat)
    requires HeapOk(h) && SegmentsOk(h, segs) && UserChunk(h, segs, p)
    ensures Next(h, p) in h.head && Next(h, p) in h.starts
    ensures var n := Next(h, p);
            && (!h.head[n].cinuse && n != h.top ==>
                  FreeChunk(h, n) && Next(h, n) in h.starts && Next(h, n) in h.head
                  && h.head[Next(h, n)].cinuse && !h.head[Next(h, n)].pinuse)
            && Next(h, n) > n
  {
    hide HeapOk, SegmentsOk;
    UserNext(h, segs, p);
    KeptIsOk(h, Next(h, p));
  }

  lemma MergeLoFacts(h: Heap, p: nat)
    requires HeapOk(h) && p in Used(h)
    ensures var lo := MergeLo(h, p);
            && lo in h.starts && lo in h.head && lo <= p && h.head[lo].pinuse && lo != h.top && lo > 0
            && (lo != p ==> FreeChunk(h, lo) && Next(h, lo) == p) && (lo == p <==> h.head[p].pinuse)
            && (forall a :: a in h.starts && lo <= a < p ==> a == lo)
            && (forall e :: e in h.ends ==> !(lo <= e < p))
  {
    hide HeapOk;
    KeptIsOk(h, p);
    TopIsStart(h);
    KeptIsOk(h, h.top);
    if !h.head[p].pinuse {
      PrevChunk(h, p);
      KeptIsOk(h, MergeLo(h, p));
      StartsOutside(h, MergeLo(h, p));
      EndsOutside(h, MergeLo(h, p));
    }
  }

  /** The run that FreeRunArena asks for. */
  lemma MergeRun(h: Heap, segs: seq<Segment>, p: nat)
    requires HeapOk(h) && SegmentsOk(h, segs) && UserChunk(h, segs, p)
    requires Next(h, p) != h.top
    ensures Next(h, p) in h.head
    ensures var lo, hi, loose := MergeLo(h, p), MergeHi(h, p), MergeLoose(h, p);
            && Run(h, lo, hi) && hi in h.starts && h.head[hi].cinuse && h.head[lo].pinuse
            && lo <= p < hi && !(lo <= h.top < hi) && MIN_CHUNK_SIZE <= hi - lo
            && (forall a :: a in h.starts && lo <= a < hi && a != p ==> a in h.head && !h.head[a].cinuse && a in loose)
            && (forall a :: a in loose ==> a in h.starts && lo <= a < hi)
  {
    hide HeapOk, SegmentsOk;
    var lo, n := MergeLo(h, p), Next(h, p);
    MergeLoFacts(h, p);
    UserNext(h, segs, p);
    NextChunk(h, segs, p);
    StartsOutside(h, p);
    EndsOutside(h, p);
    StartsOutside(h, n);
    EndsOutside(h, n);
    TopIsStart(h);
    TopFree(h);
  }

  /** The run that FreeToTopArena asks for. */
  lemma MergeTopRun(h: Heap, segs: seq<Segment>, p: nat)
    requires HeapOk(h) && SegmentsOk(h, segs) && UserChunk(h, segs, p) && Next(h, p) == h.top
    ensures h.top in h.head
    ensures var lo := MergeLo(h, p); var loose: set<nat> := if lo == p then {} else {lo};
            && lo <= p < h.top && Run(h, lo, Next(h, h.top)) && h.head[lo].pinuse
            && (forall a :: a in h.starts && lo <= a < Next(h, h.top) && a != p && a != h.top ==>
                  a in h.head && !h.head[a].cinuse && a in loose)
            && (forall a :: a in loose ==> a in h.starts && lo <= a < h.top)
  {
    hide HeapOk, SegmentsOk;
    MergeLoFacts(h, p);
    UserNext(h, segs, p);
    KeptIsOk(h, h.top);
    StartsOutside(h, p);
    EndsOutside(h, p);
    StartsOutside(h, h.top);
    EndsOutside(h, h.top);
  }

  /** Freeing `p` once its free neighbours are out of their files. */
  lemma MergeArena(h: Heap, segs: seq<Segment>, f: Files, p: nat)
    requires UserChunk(h, segs, p) && Next(h, p) != h.top && Next(h, p) in h.head && ArenaOk(h, segs, f, MergeLoose(h, p))
    ensures var lo, hi := MergeLo(h, p), MergeHi(h, p);
            && lo < hi && hi in h.head && (lo <= p < hi)
            && ArenaOk(FreeRun(h, lo, hi), segs, f, {lo}) && FreeChunk(FreeRun(h, lo, hi), lo)
            && Used(FreeRun(h, lo, hi)) == Used(h) - {p}
            && FreeRun(h, lo, hi).top == h.top && h.top in FreeRun(h, lo, hi).head
            && FreeRun(h, lo, hi).head[h.top] == h.head[h.top]
  {
    hide HeapOk, SegmentsOk, Filed;
    MergeRun(h, segs, p);
    FreeRunArena(h, segs, f, MergeLoose(h, p), MergeLo(h, p), MergeHi(h, p), p);
    TopFree(h);
  }

  lemma MergeTopArena(h: Heap, segs: seq<Segment>, f: Files, p: nat)
    requires UserChunk(h, segs, p) && Next(h, p) == h.top
    requires ArenaOk(h, segs, f, if MergeLo(h, p) == p then {} else {MergeLo(h, p)})
    ensures var lo := MergeLo(h, p);
            && lo <= p < h.top && ArenaOk(FreeToTop(h, lo), segs, f, {}) && Used(FreeToTop(h, lo)) == Used(h) - {p}
  {
    hide HeapOk, SegmentsOk, Filed, Run;
    MergeTopRun(h, segs, p);
    FreeToTopArena(h, segs, f, if MergeLo(h, p) == p then {} else {MergeLo(h, p)}, MergeLo(h, p), p);
  }
}
