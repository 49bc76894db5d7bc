/** The segments of the bundled allocator (src/lj_alloc.c), and how they come and go. */
module Segments {
  import opened Chunk
  import PowersOfTwo
  import opened Tiling

  /** TOP_FOOT_SIZE: the room that is left behind `top` */
  const TOP_FOOT_SIZE: nat := 64

  /** The chunk that holds a segment record. */
  const RECORD_SIZE: nat := 32

  /** Segments are mapped and trimmed in units of this size. */
  const DEFAULT_GRANULARITY: nat := 0x2_0000

  /** One mapped region.  The record of all but the first segment lies in the chunk `rec` of the segment itself. */
  datatype Segment = Segment(base: nat, size: nat, rec: nat)

  /** Where the chunks of segment `i` end. */
  function End(h: Heap, segs: seq<Segment>, i: nat): nat
    requires i < |segs| && h.top in h.head
  {
    if i == 0 then Next(h, h.top) else segs[i].rec + RECORD_SIZE
  }

  /** One contiguous segment has less than a tebibyte; see TreeIndex.TruncationMisfiles for why. */
  const SEGMENT_LIMIT: nat := 0x100_0000_0000

  ghost predicate SegmentOk(h: Heap, segs: seq<Segment>, i: nat)
    requires i < |segs| && h.top in h.head
  {
    var s := segs[i];
    && s.base > 0 && s.base % 8 == 0 && s.size > 0 && s.size % DEFAULT_GRANULARITY == 0
    && s.base in h.starts && s.base in h.head && h.head[s.base].pinuse
    && s.base < End(h, segs, i) && End(h, segs, i) in h.ends
    && End(h, segs, i) + 16 <= s.base + s.size < ADDRESS_LIMIT && s.size < SEGMENT_LIMIT
    && (i == 0 ==> s.base <= h.top && End(h, segs, 0) + TOP_FOOT_SIZE == s.base + s.size)
    && (i > 0 ==> s.base <= s.rec && s.base + s.size <= s.rec + 96 && s.rec in h.starts && s.rec in h.head
                  && h.head[s.rec].cinuse && h.head[s.rec].size == RECORD_SIZE)
  }

  ghost predicate Separate(segs: seq<Segment>, i: nat, j: nat)
    requires i < |segs| && j < |segs|
  {
    i != j ==> segs[i].base + segs[i].size <= segs[j].base || segs[j].base + segs[j].size <= segs[i].base
  }

  /** Chunk `a` lies in segment `i`. */
  ghost predicate LiesIn(h: Heap, segs: seq<Segment>, a: nat, i: nat)
    requires h.top in h.head
  {
    i < |segs| && a in h.head && segs[i].base <= a && Next(h, a) <= End(h, segs, i)
  }

  ghost predicate InSegment(h: Heap, segs: seq<Segment>, a: nat)
    requires h.top in h.head
  {
    exists i :: LiesIn(h, segs, a, i)
  }

  ghost predicate IsEnd(h: Heap, segs: seq<Segment>, e: nat)
    requires h.top in h.head
  {
    exists i :: 0 <= i < |segs| && e == End(h, segs, i)
  }

  /** The chunks tile the segments, which do not overlap. */
  ghost predicate SegmentsOk(h: Heap, segs: seq<Segment>) {
    && h.top in h.head && |segs| > 0
    && (forall i {:trigger SegmentOk(h, segs, i)} :: 0 <= i < |segs| ==> SegmentOk(h, segs, i))
    && (forall i, j {:trigger Separate(segs, i, j)} :: 0 <= i < |segs| && 0 <= j < |segs| ==> Separate(segs, i, j))
    && (forall a {:trigger InSegment(h, segs, a)} :: a in h.starts ==> InSegment(h, segs, a))
    && (forall e {:trigger IsEnd(h, segs, e)} :: e in h.ends ==> IsEnd(h, segs, e))
  }

  /** No segment gets as large as a tebibyte if it grows by `size`. */
  predicate Modest(segs: seq<Segment>, size: nat) {
    size < SEGMENT_LIMIT && forall i :: 0 <= i < |segs| ==> segs[i].size + size < SEGMENT_LIMIT
  }

  /** A region without chunks, as the operating system hands it out. */
  ghost predicate FreshRegion(segs: seq<Segment>, base: nat, size: nat) {
    && base > 0 && base % 8 == 0 && base + size < ADDRESS_LIMIT && Modest(segs, size)
    && forall i :: 0 <= i < |segs| ==> base + size <= segs[i].base || segs[i].base + segs[i].size <= base
  }

  lemma ModUnit(a: nat, b: nat)
    requires a % DEFAULT_GRANULARITY == 0 && b % DEFAULT_GRANULARITY == 0
    ensures (a + b) % DEFAULT_GRANULARITY == 0 && (a >= b ==> (a - b) % DEFAULT_GRANULARITY == 0)
    ensures a % 8 == 0 && (a > 0 ==> a >= DEFAULT_GRANULARITY)
  {
    PowersOfTwo.Multiple(a + b, DEFAULT_GRANULARITY, a / DEFAULT_GRANULARITY + b / DEFAULT_GRANULARITY);
    PowersOfTwo.Multiple(a, 8, 0x4000 * (a / DEFAULT_GRANULARITY));
    if a >= b {
      PowersOfTwo.Multiple(a - b, DEFAULT_GRANULARITY, a / DEFAULT_GRANULARITY - b / DEFAULT_GRANULARITY);
    }
  }

  lemma SegOk(h: Heap, segs: seq<Segment>, i: nat)
    requires SegmentsOk(h, segs) && i < |segs|
    ensures SegmentOk(h, segs, i)
  {
  }

  lemma FindSegment(h: Heap, segs: seq<Segment>, a: nat) returns (i: nat)
    requires SegmentsOk(h, segs) && a in h.starts
    ensures LiesIn(h, segs, a, i) && SegmentOk(h, segs, i)
  {
    assert InSegment(h, segs, a);
    i :| LiesIn(h, segs, a, i);
    assert SegmentOk(h, segs, i);
  }

  /** A chunk is not larger than its segment. */
  lemma ChunkBelowLimit(h: Heap, segs: seq<Segment>, a: nat)
    requires SegmentsOk(h, segs) && a in h.starts
    ensures a in h.head && h.head[a].size < SEGMENT_LIMIT
  {
    hide SegmentsOk;
    var i := FindSegment(h, segs, a);
  }

  lemma FindEnd(h: Heap, segs: seq<Segment>, e: nat) returns (i: nat)
    requires SegmentsOk(h, segs) && e in h.ends
    ensures i < |segs| && e == End(h, segs, i) && SegmentOk(h, segs, i)
  {
    assert IsEnd(h, segs, e);
    i :| 0 <= i < |segs| && e == End(h, segs, i);
    assert SegmentOk(h, segs, i);
  }

  /** A fresh region holds no chunk, no end, and nothing reaches into it. */
  lemma FreshHoldsNothing(h: Heap, segs: seq<Segment>, base: nat, size: nat)
    requires SegmentsOk(h, segs) && FreshRegion(segs, base, size)
    ensures forall a :: a in h.starts ==> a in h.head && (Next(h, a) + 8 <= base || base + size <= a)
    ensures forall e :: e in h.ends ==> e + 8 <= base || base + size <= e
  {
    hide SegmentsOk;
    forall a | a in h.starts ensures a in h.head && (Next(h, a) + 8 <= base || base + size <= a) {
      var i := FindSegment(h, segs, a);
    }
    forall e | e in h.ends ensures e + 8 <= base || base + size <= e {
      var i := FindEnd(h, segs, e);
    }
  }

  // ------------------------------------------------------------------
  // append: `top` grows into a region that directly follows its segment

  function AppendTop(h: Heap, tsize: nat): Heap
    requires h.top in h.head
  {
    var e := Next(h, h.top) + tsize;
    h.(head := h.head[h.top := Head(h.head[h.top].size + tsize, true, false)][e := Head(TOP_FOOT_SIZE, false, false)],
       ends := h.ends - {Next(h, h.top)} + {e})
  }

  function AppendSegs(segs: seq<Segment>, tsize: nat): seq<Segment>
    requires |segs| > 0
  {
    segs[0 := segs[0].(size := segs[0].size + tsize)]
  }

  /** The end of the segment with `top` has nothing behind it up to the end of the region. */
  lemma BehindTop(h: Heap, segs: seq<Segment>, tsize: nat)
    requires HeapOk(h) && SegmentsOk(h, segs) && |segs| > 0 && h.top in h.head
    requires tsize > 0 && FreshRegion(segs, segs[0].base + segs[0].size, tsize)
    ensures forall a :: a in h.starts && a != h.top ==> a in h.head && (Next(h, a) <= h.top || Next(h, h.top) + tsize < a)
    ensures forall e :: e in h.ends && e != Next(h, h.top) ==> e < h.top || Next(h, h.top) + tsize < e
  {
    hide SegmentsOk, HeapOk;
    var base, e0 := segs[0].base + segs[0].size, Next(h, h.top);
    SegOk(h, segs, 0);
    FreshHoldsNothing(h, segs, base, tsize);
    TopIsStart(h);
    forall a | a in h.starts && a != h.top ensures a in h.head && (Next(h, a) <= h.top || e0 + tsize < a) {
      var i := FindSegment(h, segs, a);
      KeptIsOk(h, a);
      StartsBefore(h, a, h.top);
      StartsBefore(h, h.top, a);
      SegSeparate(h, segs, i, 0);
    }
    forall e | e in h.ends && e != e0 ensures e < h.top || e0 + tsize < e {
      var i := FindEnd(h, segs, e);
      SegSeparate(h, segs, i, 0);
    }
  }

  lemma SegSeparate(h: Heap, segs: seq<Segment>, i: nat, j: nat)
    requires SegmentsOk(h, segs) && i < |segs| && j < |segs|
    ensures Separate(segs, i, j)
  {
  }

  lemma AppendTopOk(h: Heap, segs: seq<Segment>, tsize: nat)
    requires HeapOk(h) && SegmentsOk(h, segs) && tsize > 0 && tsize % DEFAULT_GRANULARITY == 0 && |segs| > 0 && h.top in h.head
    requires FreshRegion(segs, segs[0].base + segs[0].size, tsize)
    ensures HeapOk(AppendTop(h, tsize))
  {
    hide SegmentsOk, HeapOk;
    var h', e0 := AppendTop(h, tsize), Next(h, h.top);
    BehindTop(h, segs, tsize);
    TopIsStart(h);
    KeptIsOk(h, h.top);
    EndsNoStart(h, e0);
    SegOk(h, segs, 0);
    ModUnit(tsize, 0);
    Mod8(h.head[h.top].size, tsize);
    assert ChunkOk(h', h.top);
    forall a | a in h'.starts ensures ChunkOk(h', a) {
      if a != h.top {
        KeptIsOk(h, a);
        KeptNextNotTopEnd(h, a);
      }
    }
    forall a, b | a in h'.starts && b in h'.starts ensures Before(h', a, b) {
      StartsBefore(h, a, b);
    }
    forall a, e | a in h'.starts && e in h'.ends ensures Outside(h', a, e) {
      if e in h.ends {
        OutsideEnd(h, a, e);
      }
    }
    HeapFrom(h');
  }

  lemma OutsideEnd(h: Heap, a: nat, e: nat)
    requires HeapOk(h) && a in h.starts && e in h.ends
    ensures Outside(h, a, e)
  {
  }

  lemma HeapFrom(h: Heap)
    requires h.top in h.starts
    requires forall a :: a in h.starts ==> ChunkOk(h, a)
    requires forall a, b :: a in h.starts && b in h.starts ==> Before(h, a, b)
    requires forall a, e :: a in h.starts && e in h.ends ==> Outside(h, a, e)
    ensures HeapOk(h)
  {
  }

  lemma KeptNextNotTopEnd(h: Heap, a: nat)
    requires HeapOk(h) && a in h.starts && a != h.top && a in h.head && h.top in h.head
    ensures Next(h, a) != Next(h, h.top)
  {
    hide ChunkOk;
    TopIsStart(h);
    StartsBefore(h, a, h.top);
    StartsBefore(h, h.top, a);
    KeptIsOk(h, a);
    KeptIsOk(h, h.top);
    SizePositive(h, a);
    SizePositive(h, h.top);
  }

  lemma SizePositive(h: Heap, a: nat)
    requires ChunkOk(h, a)
    ensures a in h.head && h.head[a].size > 0
  {
  }

  lemma AppendTopSegment(h: Heap, segs: seq<Segment>, tsize: nat, i: nat)
    requires HeapOk(h) && SegmentsOk(h, segs) && tsize > 0 && tsize % DEFAULT_GRANULARITY == 0 && h.top in h.head && i < |segs|
    requires FreshRegion(segs, segs[0].base + segs[0].size, tsize)
    ensures SegmentOk(AppendTop(h, tsize), AppendSegs(segs, tsize), i)
  {
    hide SegmentsOk, HeapOk, ChunkOk;
    SegOk(h, segs, 0);
    ModUnit(segs[0].size, tsize);
    BehindTop(h, segs, tsize);
    TopIsStart(h);
    SegOk(h, segs, i);
    SegSeparate(h, segs, i, 0);
  }

  lemma AppendTopLies(h: Heap, segs: seq<Segment>, tsize: nat, a: nat)
    requires HeapOk(h) && SegmentsOk(h, segs) && tsize > 0 && |segs| > 0 && h.top in h.head && a in h.starts
    requires FreshRegion(segs, segs[0].base + segs[0].size, tsize)
    ensures InSegment(AppendTop(h, tsize), AppendSegs(segs, tsize), a)
  {
    hide SegmentsOk, HeapOk, ChunkOk;
    SegOk(h, segs, 0);
    BehindTop(h, segs, tsize);
    TopIsStart(h);
    FreshHoldsNothing(h, segs, segs[0].base + segs[0].size, tsize);
    var i := FindSegment(h, segs, a);
    SegSeparate(h, segs, i, 0);
    assert LiesIn(AppendTop(h, tsize), AppendSegs(segs, tsize), a, i);
  }

  /** The first segment after it grew. */
  lemma AppendTopSegments(h: Heap, segs: seq<Segment>, tsize: nat)
    requires HeapOk(h) && SegmentsOk(h, segs) && tsize > 0 && tsize % DEFAULT_GRANULARITY == 0 && |segs| > 0 && h.top in h.head
    requires FreshRegion(segs, segs[0].base + segs[0].size, tsize)
    ensures SegmentsOk(AppendTop(h, tsize), AppendSegs(segs, tsize))
  {
    hide SegmentsOk, HeapOk, ChunkOk, SegmentOk, InSegment;
    var h', segs' := AppendTop(h, tsize), AppendSegs(segs, tsize);
    forall i | 0 <= i < |segs'| ensures SegmentOk(h', segs', i) {
      AppendTopSegment(h, segs, tsize, i);
    }
    forall i, j | 0 <= i < |segs'| && 0 <= j < |segs'| ensures Separate(segs', i, j) {
      AppendSeparate(h, segs, tsize, i, j);
    }
    forall a | a in h'.starts ensures InSegment(h', segs', a) {
      AppendTopLies(h, segs, tsize, a);
    }
    forall e | e in h'.ends ensures IsEnd(h', segs', e) {
      if e in h.ends && e != Next(h, h.top) {
        var i := FindEnd(h, segs, e);
        assert e == End(h', segs', i);
      } else {
        assert e == End(h', segs', 0);
      }
    }
    SegmentsFrom(h', segs');
  }

  lemma AppendSeparate(h: Heap, segs: seq<Segment>, tsize: nat, i: nat, j: nat)
    requires SegmentsOk(h, segs) && |segs| > 0 && i < |segs| && j < |segs|
    requires FreshRegion(segs, segs[0].base + segs[0].size, tsize)
    ensures Separate(AppendSegs(segs, tsize), i, j)
  {
    hide SegmentsOk;
    SegSeparate(h, segs, i, j);
    if i != j {
      SegPositive(h, segs, i);
      SegPositive(h, segs, j);
    }
  }

  lemma SegPositive(h: Heap, segs: seq<Segment>, i: nat)
    requires SegmentsOk(h, segs) && i < |segs|
    ensures segs[i].size > 0
  {
    assert SegmentOk(h, segs, i);
  }

  lemma SegmentsFrom(h: Heap, segs: seq<Segment>)
    requires h.top in h.head && |segs| > 0
    requires forall i :: 0 <= i < |segs| ==> SegmentOk(h, segs, i)
    requires forall i, j :: 0 <= i < |segs| && 0 <= j < |segs| ==> Separate(segs, i, j)
    requires forall a :: a in h.starts ==> InSegment(h, segs, a)
    requires forall e :: e in h.ends ==> IsEnd(h, segs, e)
    ensures SegmentsOk(h, segs)
  {
  }

  // ------------------------------------------------------------------
  // Changes within one segment

  /** The segment of a run ends behind the run, and no segment starts in the run behind its first chunk. */
  lemma RunInSegment(h: Heap, segs: seq<Segment>, lo: nat, hi: nat) returns (j: nat)
    requires HeapOk(h) && SegmentsOk(h, segs) && Run(h, lo, hi) && h.top in h.head
    ensures LiesIn(h, segs, lo, j) && hi <= End(h, segs, j)
    ensures forall i :: 0 <= i < |segs| ==> !(lo < segs[i].base <= hi)
    ensures forall i :: 0 <= i < |segs| && i != j ==> End(h, segs, i) <= lo || hi < segs[i].base
  {
    hide SegmentsOk, HeapOk;
    j := FindSegment(h, segs, lo);
    KeptIsOk(h, lo);
    forall i | 0 <= i < |segs| ensures !(lo < segs[i].base <= hi) && (i != j ==> End(h, segs, i) <= lo || hi < segs[i].base) {
      SegOk(h, segs, i);
      SegSeparate(h, segs, i, j);
    }
  }

  lemma RetileKeepsSegments(h: Heap, h': Heap, lo: nat, hi: nat, fill: set<nat>, segs: seq<Segment>)
    requires HeapOk(h) && SegmentsOk(h, segs) && Retiled(h, h', lo, hi, fill) && FillOk(h', lo, hi, fill)
    requires h.top in h.head && h'.top in h'.head && Next(h', h'.top) == Next(h, h.top)
    requires forall i :: 0 < i < |segs| ==> !(lo <= segs[i].rec < hi)
    ensures SegmentsOk(h', segs)
  {
    hide SegmentsOk, HeapOk, ChunkOk;
    var j := RunInSegment(h, segs, lo, hi);
    assert |segs| > 0;
    forall i | 0 <= i < |segs| ensures SegmentOk(h', segs, i) {
      SegOk(h, segs, i);
      assert !(lo <= segs[i].base <= hi) ==> Kept(h, h', segs[i].base);
      assert i > 0 && !(lo <= segs[i].rec <= hi) ==> Kept(h, h', segs[i].rec);
    }
    forall i, k | 0 <= i < |segs| && 0 <= k < |segs| ensures Separate(segs, i, k) {
      SegSeparate(h, segs, i, k);
    }
    forall a | a in h'.starts ensures InSegment(h', segs, a) {
      if a in fill {
        FillInSegment(h, h', lo, hi, fill, a);
        assert LiesIn(h', segs, a, j);
      } else {
        var i := FindSegment(h, segs, a);
        assert a != hi ==> Kept(h, h', a);
        assert LiesIn(h', segs, a, i);
      }
    }
    forall e | e in h'.ends ensures IsEnd(h', segs, e) {
      var i := FindEnd(h, segs, e);
      assert e == End(h', segs, i);
    }
    SegmentsFrom(h', segs);
  }

  lemma FillInSegment(h: Heap, h': Heap, lo: nat, hi: nat, fill: set<nat>, a: nat)
    requires Retiled(h, h', lo, hi, fill) && FillOk(h', lo, hi, fill) && a in fill
    ensures a in h'.head && lo <= a && Next(h', a) <= hi
  {
    assert ChunkOk(h', a);
  }

  // ------------------------------------------------------------------
  // prepend: a segment grows downwards

  /** A region in front of segment `k`, as one chunk in use. */
  function Extend(h: Heap, tbase: nat, tsize: nat): Heap {
    h.(head := h.head[tbase := Head(tsize, true, true)], starts := h.starts + {tbase})
  }

  function ExtendSegs(segs: seq<Segment>, k: nat, tbase: nat, tsize: nat): seq<Segment>
    requires k < |segs|
  {
    segs[k := segs[k].(base := tbase, size := segs[k].size + tsize)]
  }

  lemma ExtendOk(h: Heap, segs: seq<Segment>, k: nat, tbase: nat, tsize: nat)
    requires HeapOk(h) && SegmentsOk(h, segs) && k < |segs|
    requires FreshRegion(segs, tbase, tsize) && tbase + tsize == segs[k].base
    requires tsize % DEFAULT_GRANULARITY == 0 && tsize > 0
    ensures HeapOk(Extend(h, tbase, tsize))
  {
    hide SegmentsOk, HeapOk;
    var h' := Extend(h, tbase, tsize);
    FreshHoldsNothing(h, segs, tbase, tsize);
    SegOk(h, segs, k);
    KeptIsOk(h, segs[k].base);
    TopIsStart(h);
    ModUnit(tsize, 0);
    assert ChunkOk(h', tbase);
    forall a | a in h'.starts ensures ChunkOk(h', a) {
      if a != tbase {
        KeptIsOk(h, a);
      }
    }
    forall a, b | a in h'.starts && b in h'.starts ensures Before(h', a, b) {
      if a != tbase && b != tbase {
        StartsBefore(h, a, b);
      }
    }
    forall a, e | a in h'.starts && e in h'.ends ensures Outside(h', a, e) {
      if a != tbase {
        OutsideEnd(h, a, e);
      }
    }
    HeapFrom(h');
  }

  lemma ExtendSegment(h: Heap, segs: seq<Segment>, k: nat, tbase: nat, tsize: nat, i: nat)
    requires HeapOk(h) && SegmentsOk(h, segs) && k < |segs| && i < |segs|
    requires FreshRegion(segs, tbase, tsize) && tbase + tsize == segs[k].base
    requires tsize % DEFAULT_GRANULARITY == 0 && tsize > 0
    ensures h.top in Extend(h, tbase, tsize).head
    ensures SegmentOk(Extend(h, tbase, tsize), ExtendSegs(segs, k, tbase, tsize), i)
  {
    hide SegmentsOk, HeapOk, ChunkOk;
    TopIsStart(h);
    FreshHoldsNothing(h, segs, tbase, tsize);
    SegOk(h, segs, k);
    ModUnit(segs[k].size, tsize);
    SegOk(h, segs, i);
  }

  lemma ExtendSegments(h: Heap, segs: seq<Segment>, k: nat, tbase: nat, tsize: nat)
    requires HeapOk(h) && SegmentsOk(h, segs) && k < |segs|
    requires FreshRegion(segs, tbase, tsize) && tbase + tsize == segs[k].base
    requires tsize % DEFAULT_GRANULARITY == 0 && tsize > 0
    ensures SegmentsOk(Extend(h, tbase, tsize), ExtendSegs(segs, k, tbase, tsize))
  {
    hide SegmentsOk, HeapOk, ChunkOk;
    var h', segs' := Extend(h, tbase, tsize), ExtendSegs(segs, k, tbase, tsize);
    TopIsStart(h);
    FreshHoldsNothing(h, segs, tbase, tsize);
    SegOk(h, segs, 0);
    SegOk(h, segs, k);
    forall i | 0 <= i < |segs'| ensures SegmentOk(h', segs', i) {
      ExtendSegment(h, segs, k, tbase, tsize, i);
    }
    forall i, j | 0 <= i < |segs'| && 0 <= j < |segs'| ensures Separate(segs', i, j) {
      ExtendSeparate(h, segs, k, tbase, tsize, i, j);
    }
    forall a | a in h'.starts ensures InSegment(h', segs', a) {
      if a == tbase {
        assert LiesIn(h', segs', a, k);
      } else {
        var i := FindSegment(h, segs, a);
        assert LiesIn(h', segs', a, i);
      }
    }
    forall e | e in h'.ends ensures IsEnd(h', segs', e) {
      var i := FindEnd(h, segs, e);
      assert e == End(h', segs', i);
    }
    SegmentsFrom(h', segs');
  }

  lemma ExtendSeparate(h: Heap, segs: seq<Segment>, k: nat, tbase: nat, tsize: nat, i: nat, j: nat)
    requires SegmentsOk(h, segs) && k < |segs| && i < |segs| && j < |segs|
    requires FreshRegion(segs, tbase, tsize) && tbase + tsize == segs[k].base
    ensures Separate(ExtendSegs(segs, k, tbase, tsize), i, j)
  {
    hide SegmentsOk;
    SegSeparate(h, segs, i, j);
    SegPositive(h, segs, i);
    SegPositive(h, segs, j);
  }

  // ------------------------------------------------------------------
  // add_segment

  /** The fencepost loop of add_segment */
  function Fences(head: Heads, p: nat, end: nat): Heads
    decreases end - p
  {
    var head1 := head[p := Head(8, true, true)];
    if p + 16 < end then Fences(head1, p + 8, end) else head1
  }

  lemma {:induction false} FencesOnly(head: Heads, p: nat, end: nat)
    requires p + 8 <= end
    decreases end - p
    ensures forall x :: x in head && (x < p || end <= x) ==> x in Fences(head, p, end) && Fences(head, p, end)[x] == head[x]
    ensures p in Fences(head, p, end) && Fences(head, p, end)[p] == Head(8, true, true)
  {
    if p + 16 < end {
      FencesOnly(head[p := Head(8, true, true)], p + 8, end);
    }
  }

  /** Where the record of the old segment goes. */
  function RecordAt(h: Heap): nat
    requires h.top in h.head
  {
    if h.head[h.top].size < MIN_CHUNK_SIZE then h.top else Next(h, h.top)
  }

  /** The heads that add_segment writes: `top` in the new region, the record, and the fenceposts behind it. */
  function NewHeads(head: Heads, t: nat, e: nat, csp: nat, oldend: nat, tbase: nat, n: nat): Heads {
    var h1 := head[tbase := Head(n, true, false)][tbase + n := Head(TOP_FOOT_SIZE, false, false)];
    var h2 := Fences(h1[csp := Head(RECORD_SIZE, true, true)], csp + RECORD_SIZE, oldend);
    if csp != t then h2[csp := Head(RECORD_SIZE, false, true)][t := Head(if e >= t then e - t else 0, true, false)] else h2
  }

  function NewSegment(h: Heap, oldend: nat, tbase: nat, tsize: nat): Heap
    requires h.top in h.head && tsize >= TOP_FOOT_SIZE
  {
    var t, e, csp := h.top, Next(h, h.top), RecordAt(h);
    var n := tsize - TOP_FOOT_SIZE;
    Heap(NewHeads(h.head, t, e, csp, oldend, tbase, n),
         if csp != t then h.foot[e := e - t] else h.foot,
         h.starts + {csp, tbase},
         h.ends - {e} + {csp + RECORD_SIZE, tbase + n},
         tbase)
  }

  /** The heads outside the old `top` and the new region stay. */
  lemma NewHeadsAre(head: Heads, t: nat, e: nat, csp: nat, oldend: nat, tbase: nat, n: nat)
    requires t <= csp && csp + RECORD_SIZE + 8 <= oldend && (tbase + n < t || oldend <= tbase) && n > 0 && t <= e
    ensures var head' := NewHeads(head, t, e, csp, oldend, tbase, n);
            && (forall x :: x in head && (x < t || oldend <= x) && x != tbase && x != tbase + n ==> x in head' && head'[x] == head[x])
            && tbase in head' && tbase + n in head' && csp in head' && csp + RECORD_SIZE in head' && (t in head ==> t in head')
            && head'[tbase] == Head(n, true, false) && head'[tbase + n] == Head(TOP_FOOT_SIZE, false, false)
            && head'[csp] == Head(RECORD_SIZE, csp == t, true) && head'[csp + RECORD_SIZE] == Head(8, true, true)
            && (csp != t ==> t in head' && head'[t] == Head(e - t, true, false))
  {
    hide Fences;
    var h1 := head[tbase := Head(n, true, false)][tbase + n := Head(TOP_FOOT_SIZE, false, false)];
    FencesOnly(h1[csp := Head(RECORD_SIZE, true, true)], csp + RECORD_SIZE, oldend);
  }

  function NewSegs(h: Heap, segs: seq<Segment>, tbase: nat, tsize: nat): seq<Segment>
    requires |segs| > 0 && h.top in h.head
  {
    [Segment(tbase, tsize, 0), segs[0].(rec := RecordAt(h))] + segs[1..]
  }

  /** The heads that add_segment leaves alone, and those that it writes. */
  lemma NewSegmentHeads(h: Heap, segs: seq<Segment>, tbase: nat, tsize: nat)
    requires HeapOk(h) && SegmentsOk(h, segs) && FreshRegion(segs, tbase, tsize)
    requires tsize > TOP_FOOT_SIZE && |segs| > 0 && h.top in h.head
    ensures var h', csp, n := NewSegment(h, segs[0].base + segs[0].size, tbase, tsize), RecordAt(h), tsize - TOP_FOOT_SIZE;
            && (forall a :: a in h.starts && a != h.top ==> a in h.head && a in h'.head && h'.head[a] == h.head[a])
            && (forall e :: e in h.ends && e in h.head && e != Next(h, h.top) ==> e in h'.head && h'.head[e] == h.head[e])
            && h.top in h'.head && tbase in h'.head && tbase + n in h'.head && csp in h'.head && csp + RECORD_SIZE in h'.head
            && h'.head[tbase] == Head(n, true, false) && h'.head[tbase + n] == Head(TOP_FOOT_SIZE, false, false)
            && h'.head[csp] == Head(RECORD_SIZE, csp == h.top, true)
            && h'.head[csp + RECORD_SIZE] == Head(8, true, true)
            && (csp != h.top ==> h'.head[h.top] == h.head[h.top])
  {
    hide HeapOk, SegmentsOk, Fences, NewHeads;
    SegOk(h, segs, 0);
    TopIsStart(h);
    KeptIsOk(h, h.top);
    FreshHoldsNothing(h, segs, tbase, tsize);
    BehindTopHere(h, segs);
    NewHeadsAre(h.head, h.top, Next(h, h.top), RecordAt(h), segs[0].base + segs[0].size, tbase, tsize - TOP_FOOT_SIZE);
  }

  /** Nothing lies between `top` and the end of its segment. */
  lemma BehindTopHere(h: Heap, segs: seq<Segment>)
    requires HeapOk(h) && SegmentsOk(h, segs) && |segs| > 0 && h.top in h.head
    ensures forall a :: a in h.starts && a != h.top ==>
              a in h.head && (Next(h, a) <= h.top || segs[0].base + segs[0].size <= a)
    ensures forall e :: e in h.ends && e != Next(h, h.top) ==> e < h.top || segs[0].base + segs[0].size <= e
  {
    hide SegmentsOk, HeapOk;
    SegOk(h, segs, 0);
    TopIsStart(h);
    forall a | a in h.starts && a != h.top ensures a in h.head && (Next(h, a) <= h.top || segs[0].base + segs[0].size <= a) {
      var i := FindSegment(h, segs, a);
      KeptIsOk(h, a);
      StartsBefore(h, a, h.top);
      StartsBefore(h, h.top, a);
      SegSeparate(h, segs, i, 0);
    }
    forall e | e in h.ends && e != Next(h, h.top) ensures e < h.top || segs[0].base + segs[0].size <= e {
      var i := FindEnd(h, segs, e);
      SegSeparate(h, segs, i, 0);
    }
  }

  lemma NewSegmentOldChunk(h: Heap, segs: seq<Segment>, tbase: nat, tsize: nat, a: nat)
    requires HeapOk(h) && SegmentsOk(h, segs) && FreshRegion(segs, tbase, tsize)
    requires tsize > TOP_FOOT_SIZE && tsize % DEFAULT_GRANULARITY == 0 && |segs| > 0 && h.top in h.head
    requires a in h.starts && a != h.top
    ensures ChunkOk(NewSegment(h, segs[0].base + segs[0].size, tbase, tsize), a)
  {
    hide HeapOk, SegmentsOk, NewSegment, Fences;
    NewSegmentHeads(h, segs, tbase, tsize);
    NewSegmentShape(h, segs, tbase, tsize);
    TopIsStart(h);
    KeptIsOk(h, h.top);
    FreshHoldsNothing(h, segs, tbase, tsize);
    KeptIsOk(h, a);
    KeptNextNotTopEnd(h, a);
    EndsNoStart(h, Next(h, h.top));
  }

  lemma NewSegmentChunk(h: Heap, segs: seq<Segment>, tbase: nat, tsize: nat, a: nat)
    requires HeapOk(h) && SegmentsOk(h, segs) && FreshRegion(segs, tbase, tsize)
    requires tsize > TOP_FOOT_SIZE && tsize % DEFAULT_GRANULARITY == 0 && |segs| > 0 && h.top in h.head
    requires a in NewSegment(h, segs[0].base + segs[0].size, tbase, tsize).starts
    ensures ChunkOk(NewSegment(h, segs[0].base + segs[0].size, tbase, tsize), a)
  {
    hide HeapOk, SegmentsOk, NewSegment, Fences;
    NewSegmentShape(h, segs, tbase, tsize);
    if a in h.starts && a != h.top {
      NewSegmentOldChunk(h, segs, tbase, tsize, a);
    } else {
      NewSegmentHeads(h, segs, tbase, tsize);
      SegOk(h, segs, 0);
      TopIsStart(h);
      KeptIsOk(h, h.top);
      Mod8(h.top, h.head[h.top].size);
      ModUnit(tsize, 0);
      Mod8(tsize, TOP_FOOT_SIZE);
    }
  }

  /** Everything but the heads. */
  lemma NewSegmentShape(h: Heap, segs: seq<Segment>, tbase: nat, tsize: nat)
    requires tsize >= TOP_FOOT_SIZE && |segs| > 0 && h.top in h.head
    ensures var h', csp, e := NewSegment(h, segs[0].base + segs[0].size, tbase, tsize), RecordAt(h), Next(h, h.top);
            && h'.starts == h.starts + {csp, tbase} && h'.top == tbase
            && h'.ends == h.ends - {e} + {csp + RECORD_SIZE, tbase + (tsize - TOP_FOOT_SIZE)}
            && h'.foot == (if csp != h.top then h.foot[e := e - h.top] else h.foot)
  {
  }

  lemma NewSegmentBefore(h: Heap, segs: seq<Segment>, tbase: nat, tsize: nat, a: nat, b: nat)
    requires HeapOk(h) && SegmentsOk(h, segs) && FreshRegion(segs, tbase, tsize)
    requires tsize > TOP_FOOT_SIZE && tsize % DEFAULT_GRANULARITY == 0 && |segs| > 0 && h.top in h.head
    requires var h' := NewSegment(h, segs[0].base + segs[0].size, tbase, tsize); a in h'.starts && b in h'.starts
    ensures Before(NewSegment(h, segs[0].base + segs[0].size, tbase, tsize), a, b)
  {
    hide HeapOk, SegmentsOk, NewSegment, ChunkOk;
    NewSegmentHeads(h, segs, tbase, tsize);
    NewSegmentShape(h, segs, tbase, tsize);
    SegOk(h, segs, 0);
    TopIsStart(h);
    FreshHoldsNothing(h, segs, tbase, tsize);
    BehindTopHere(h, segs);
    if a in h.starts && b in h.starts {
      StartsBefore(h, a, b);
    }
  }

  lemma NewSegmentOk(h: Heap, segs: seq<Segment>, tbase: nat, tsize: nat)
    requires HeapOk(h) && SegmentsOk(h, segs) && FreshRegion(segs, tbase, tsize)
    requires tsize > TOP_FOOT_SIZE && tsize % DEFAULT_GRANULARITY == 0 && |segs| > 0 && h.top in h.head
    ensures HeapOk(NewSegment(h, segs[0].base + segs[0].size, tbase, tsize))
  {
    hide HeapOk, SegmentsOk, NewSegment, ChunkOk;
    var h' := NewSegment(h, segs[0].base + segs[0].size, tbase, tsize);
    NewSegmentHeads(h, segs, tbase, tsize);
    NewSegmentShape(h, segs, tbase, tsize);
    SegOk(h, segs, 0);
    TopIsStart(h);
    FreshHoldsNothing(h, segs, tbase, tsize);
    BehindTopHere(h, segs);
    forall a | a in h'.starts ensures ChunkOk(h', a) {
      NewSegmentChunk(h, segs, tbase, tsize, a);
    }
    forall a, b | a in h'.starts && b in h'.starts ensures Before(h', a, b) {
      NewSegmentBefore(h, segs, tbase, tsize, a, b);
    }
    forall a, e | a in h'.starts && e in h'.ends ensures Outside(h', a, e) {
      if a in h.starts && e in h.ends {
        OutsideEnd(h, a, e);
      }
    }
    HeapFrom(h');
  }

  lemma NewSegmentSeg(h: Heap, segs: seq<Segment>, tbase: nat, tsize: nat, i: nat)
    requires HeapOk(h) && SegmentsOk(h, segs) && FreshRegion(segs, tbase, tsize)
    requires tsize > TOP_FOOT_SIZE && tsize % DEFAULT_GRANULARITY == 0 && |segs| > 0 && h.top in h.head
    requires i < |segs| + 1
    ensures tbase in NewSegment(h, segs[0].base + segs[0].size, tbase, tsize).head
    ensures SegmentOk(NewSegment(h, segs[0].base + segs[0].size, tbase, tsize), NewSegs(h, segs, tbase, tsize), i)
  {
    hide HeapOk, SegmentsOk, NewSegment, ChunkOk;
    NewSegmentHeads(h, segs, tbase, tsize);
    NewSegmentShape(h, segs, tbase, tsize);
    SegOk(h, segs, 0);
    TopIsStart(h);
    if i > 1 {
      SegOk(h, segs, i - 1);
      SegSeparate(h, segs, i - 1, 0);
    }
  }

  lemma NewSegmentEnd(h: Heap, segs: seq<Segment>, tbase: nat, tsize: nat, e: nat)
    requires HeapOk(h) && SegmentsOk(h, segs) && FreshRegion(segs, tbase, tsize)
    requires tsize > TOP_FOOT_SIZE && tsize % DEFAULT_GRANULARITY == 0 && |segs| > 0 && h.top in h.head
    requires e in NewSegment(h, segs[0].base + segs[0].size, tbase, tsize).ends
    ensures tbase in NewSegment(h, segs[0].base + segs[0].size, tbase, tsize).head
    ensures IsEnd(NewSegment(h, segs[0].base + segs[0].size, tbase, tsize), NewSegs(h, segs, tbase, tsize), e)
  {
    hide HeapOk, SegmentsOk, NewSegment, ChunkOk;
    var h', segs' := NewSegment(h, segs[0].base + segs[0].size, tbase, tsize), NewSegs(h, segs, tbase, tsize);
    NewSegmentHeads(h, segs, tbase, tsize);
    NewSegmentShape(h, segs, tbase, tsize);
    if e == tbase + (tsize - TOP_FOOT_SIZE) {
      assert e == End(h', segs', 0);
    } else if e == RecordAt(h) + RECORD_SIZE {
      assert e == End(h', segs', 1);
    } else {
      var i := FindEnd(h, segs, e);
      assert e == End(h', segs', i + 1);
    }
  }

  lemma NewSegmentSegments(h: Heap, segs: seq<Segment>, tbase: nat, tsize: nat)
    requires HeapOk(h) && SegmentsOk(h, segs) && FreshRegion(segs, tbase, tsize)
    requires tsize > TOP_FOOT_SIZE && tsize % DEFAULT_GRANULARITY == 0 && |segs| > 0 && h.top in h.head
    ensures SegmentsOk(NewSegment(h, segs[0].base + segs[0].size, tbase, tsize), NewSegs(h, segs, tbase, tsize))
  {
    hide HeapOk, SegmentsOk, NewSegment, ChunkOk, SegmentOk, InSegment, IsEnd;
    var h', segs' := NewSegment(h, segs[0].base + segs[0].size, tbase, tsize), NewSegs(h, segs, tbase, tsize);
    NewSegmentHeads(h, segs, tbase, tsize);
    NewSegmentShape(h, segs, tbase, tsize);
    forall i | 0 <= i < |segs'| ensures SegmentOk(h', segs', i) {
      NewSegmentSeg(h, segs, tbase, tsize, i);
    }
    forall i, j | 0 <= i < |segs'| && 0 <= j < |segs'| ensures Separate(segs', i, j) {
      if i > 0 && j > 0 {
        SegSeparate(h, segs, i - 1, j - 1);
      }
    }
    forall a | a in h'.starts ensures InSegment(h', segs', a) {
      NewSegmentLies(h, segs, tbase, tsize, a);
    }
    forall e | e in h'.ends ensures IsEnd(h', segs', e) {
      NewSegmentEnd(h, segs, tbase, tsize, e);
    }
    SegmentsFrom(h', segs');
  }

  lemma NewSegmentLies(h: Heap, segs: seq<Segment>, tbase: nat, tsize: nat, a: nat)
    requires HeapOk(h) && SegmentsOk(h, segs) && FreshRegion(segs, tbase, tsize)
    requires tsize > TOP_FOOT_SIZE && tsize % DEFAULT_GRANULARITY == 0 && |segs| > 0 && h.top in h.head
    requires a in NewSegment(h, segs[0].base + segs[0].size, tbase, tsize).starts
    ensures tbase in NewSegment(h, segs[0].base + segs[0].size, tbase, tsize).head
    ensures InSegment(NewSegment(h, segs[0].base + segs[0].size, tbase, tsize), NewSegs(h, segs, tbase, tsize), a)
  {
    hide HeapOk, SegmentsOk, NewSegment, ChunkOk;
    var h', segs' := NewSegment(h, segs[0].base + segs[0].size, tbase, tsize), NewSegs(h, segs, tbase, tsize);
    NewSegmentHeads(h, segs, tbase, tsize);
    NewSegmentShape(h, segs, tbase, tsize);
    SegOk(h, segs, 0);
    TopIsStart(h);
    if a == tbase {
      assert LiesIn(h', segs', a, 0);
    } else if a == RecordAt(h) || a == h.top {
      assert LiesIn(h', segs', a, 1);
    } else {
      var i := FindSegment(h, segs, a);
      BehindTopHere(h, segs);
      assert LiesIn(h', segs', a, i + 1);
    }
  }

  // ------------------------------------------------------------------
  // release_unused_segments, alloc_trim

  /** Segment `k` is given back: its one free chunk and its record go. */
  function Drop(h: Heap, segs: seq<Segment>, k: nat): Heap
    requires k < |segs|
  {
    h.(starts := h.starts - {segs[k].base, segs[k].rec}, ends := h.ends - {segs[k].rec + RECORD_SIZE})
  }

  function DropSegs(segs: seq<Segment>, k: nat): seq<Segment>
    requires k < |segs|
  {
    segs[..k] + segs[k + 1..]
  }

  /** The bytes of all segments, counted */
  function Footprint(segs: seq<Segment>): nat {
    if segs == [] then 0 else Footprint(segs[..|segs| - 1]) + segs[|segs| - 1].size
  }

  lemma {:induction false} FootprintDrop(segs: seq<Segment>, k: nat)
    requires k < |segs|
    ensures Footprint(segs) == Footprint(DropSegs(segs, k)) + segs[k].size
  {
    var n := |segs| - 1;
    if k == n {
      assert DropSegs(segs, k) == segs[..n];
    } else {
      FootprintDrop(segs[..n], k);
      assert DropSegs(segs, k)[..n - 1] == DropSegs(segs[..n], k);
    }
  }

  lemma {:induction false} FootprintFirst(segs: seq<Segment>, s: Segment)
    requires |segs| > 0
    ensures Footprint(segs[0 := s]) + segs[0].size == Footprint(segs) + s.size
  {
    var n := |segs| - 1;
    assert segs[..0] == [];
    if n > 0 {
      FootprintFirst(segs[..n], s);
      assert segs[0 := s][..n] == segs[..n][0 := s];
    }
  }

  /** The first chunk of the segment is free and reaches up to the record. */
  ghost predicate Unused(h: Heap, segs: seq<Segment>, k: nat) {
    && 0 < k < |segs| && segs[k].base in h.head
    && !h.head[segs[k].base].cinuse && Next(h, segs[k].base) == segs[k].rec
  }

  /** All other chunks and ends lie outside the segment. */
  lemma DropApart(h: Heap, segs: seq<Segment>, k: nat)
    requires HeapOk(h) && SegmentsOk(h, segs) && Unused(h, segs, k)
    ensures h.top !in {segs[k].base, segs[k].rec}
    ensures forall a :: a in h.starts && a != segs[k].base && a != segs[k].rec ==>
              a in h.head && (Next(h, a) < segs[k].base || segs[k].base + segs[k].size <= a)
    ensures forall e :: e in h.ends && e != segs[k].rec + RECORD_SIZE ==>
              e + 8 <= segs[k].base || segs[k].base + segs[k].size <= e
  {
    hide HeapOk, SegmentsOk;
    SegOk(h, segs, k);
    SegOk(h, segs, 0);
    SegSeparate(h, segs, 0, k);
    var base, rec := segs[k].base, segs[k].rec;
    forall a | a in h.starts && a != base && a != rec
      ensures a in h.head && (Next(h, a) < base || base + segs[k].size <= a)
    {
      var i := FindSegment(h, segs, a);
      SegSeparate(h, segs, i, k);
      KeptIsOk(h, a);
      StartsBefore(h, base, a);
      StartsBefore(h, rec, a);
    }
    forall e | e in h.ends && e != rec + RECORD_SIZE ensures e + 8 <= base || base + segs[k].size <= e {
      var i := FindEnd(h, segs, e);
      SegSeparate(h, segs, i, k);
    }
    TopIsStart(h);
    KeptIsOk(h, h.top);
  }

  lemma DropOk(h: Heap, segs: seq<Segment>, k: nat)
    requires HeapOk(h) && SegmentsOk(h, segs) && Unused(h, segs, k)
    ensures HeapOk(Drop(h, segs, k))
  {
    hide HeapOk, SegmentsOk;
    var h' := Drop(h, segs, k);
    DropApart(h, segs, k);
    SegOk(h, segs, k);
    TopIsStart(h);
    forall a | a in h'.starts ensures ChunkOk(h', a) {
      KeptIsOk(h, a);
    }
    forall a, b | a in h'.starts && b in h'.starts ensures Before(h', a, b) {
      StartsBefore(h, a, b);
    }
    forall a, e | a in h'.starts && e in h'.ends ensures Outside(h', a, e) {
      OutsideEnd(h, a, e);
    }
    HeapFrom(h');
  }

  /** The old index of segment `i` once segment `k` is gone. */
  function OldIndex(k: nat, i: nat): nat {
    if i < k then i else i + 1
  }

  lemma DropSegment(h: Heap, segs: seq<Segment>, k: nat, i: nat)
    requires HeapOk(h) && SegmentsOk(h, segs) && Unused(h, segs, k) && h.top in h.head && i < |segs| - 1
    ensures DropSegs(segs, k)[i] == segs[OldIndex(k, i)] && SegmentOk(Drop(h, segs, k), DropSegs(segs, k), i)
  {
    hide HeapOk, SegmentsOk, ChunkOk;
    SegOk(h, segs, k);
    SegOk(h, segs, OldIndex(k, i));
    SegSeparate(h, segs, OldIndex(k, i), k);
  }

  lemma DropLies(h: Heap, segs: seq<Segment>, k: nat, a: nat)
    requires HeapOk(h) && SegmentsOk(h, segs) && Unused(h, segs, k) && h.top in h.head && a in Drop(h, segs, k).starts
    ensures InSegment(Drop(h, segs, k), DropSegs(segs, k), a)
  {
    hide HeapOk, SegmentsOk, ChunkOk;
    DropApart(h, segs, k);
    var i := FindSegment(h, segs, a);
    SizePositiveOf(h, a);
    SegOk(h, segs, k);
    assert i != k;
    assert LiesIn(Drop(h, segs, k), DropSegs(segs, k), a, if i < k then i else i - 1);
  }

  lemma DropSegments(h: Heap, segs: seq<Segment>, k: nat)
    requires HeapOk(h) && SegmentsOk(h, segs) && Unused(h, segs, k) && h.top in h.head
    ensures SegmentsOk(Drop(h, segs, k), DropSegs(segs, k))
  {
    hide HeapOk, SegmentsOk, ChunkOk, SegmentOk, InSegment;
    var h', segs' := Drop(h, segs, k), DropSegs(segs, k);
    forall i | 0 <= i < |segs'| ensures segs'[i] == segs[OldIndex(k, i)] && SegmentOk(h', segs', i) {
      DropSegment(h, segs, k, i);
    }
    forall i, j | 0 <= i < |segs'| && 0 <= j < |segs'| ensures Separate(segs', i, j) {
      SegSeparate(h, segs, OldIndex(k, i), OldIndex(k, j));
    }
    forall a | a in h'.starts ensures InSegment(h', segs', a) {
      DropLies(h, segs, k, a);
    }
    forall e | e in h'.ends ensures IsEnd(h', segs', e) {
      var i := FindEnd(h, segs, e);
      assert i != k;
      assert e == End(h', segs', if i < k then i else i - 1);
    }
    SegmentsFrom(h', segs');
  }

  lemma SizePositiveOf(h: Heap, a: nat)
    requires HeapOk(h) && a in h.starts
    ensures a in h.head && h.head[a].size > 0
  {
    assert ChunkOk(h, a);
  }

  /** The end of `top` is given back. */
  function TrimTop(h: Heap, released: nat): Heap
    requires h.top in h.head && released < h.head[h.top].size
  {
    var e := Next(h, h.top) - released;
    h.(head := h.head[h.top := Head(h.head[h.top].size - released, true, false)][e := Head(TOP_FOOT_SIZE, false, false)],
       ends := h.ends - {Next(h, h.top)} + {e})
  }

  function TrimSegs(segs: seq<Segment>, released: nat): seq<Segment>
    requires |segs| > 0 && released <= segs[0].size
  {
    segs[0 := segs[0].(size := segs[0].size - released)]
  }

  lemma TrimTopOk(h: Heap, segs: seq<Segment>, released: nat)
    requires HeapOk(h) && SegmentsOk(h, segs) && |segs| > 0 && h.top in h.head
    requires released % DEFAULT_GRANULARITY == 0 && released < h.head[h.top].size
    ensures HeapOk(TrimTop(h, released))
  {
    hide SegmentsOk, HeapOk;
    var h' := TrimTop(h, released);
    SegOk(h, segs, 0);
    TopIsStart(h);
    KeptIsOk(h, h.top);
    BehindTopHere(h, segs);
    ModUnit(released, 0);
    Mod8(h.head[h.top].size, released);
    assert ChunkOk(h', h.top);
    forall a | a in h'.starts ensures ChunkOk(h', a) {
      if a != h.top {
        KeptIsOk(h, a);
        KeptNextNotTopEnd(h, a);
      }
    }
    forall a, b | a in h'.starts && b in h'.starts ensures Before(h', a, b) {
      StartsBefore(h, a, b);
    }
    forall a, e | a in h'.starts && e in h'.ends ensures Outside(h', a, e) {
      if e in h.ends {
        OutsideEnd(h, a, e);
      }
    }
    HeapFrom(h');
  }

  lemma TrimTopSegment(h: Heap, segs: seq<Segment>, released: nat, i: nat)
    requires HeapOk(h) && SegmentsOk(h, segs) && |segs| > 0 && h.top in h.head && i < |segs|
    requires released % DEFAULT_GRANULARITY == 0 && released < h.head[h.top].size
    ensures released <= segs[0].size && SegmentOk(TrimTop(h, released), TrimSegs(segs, released), i)
  {
    hide SegmentsOk, HeapOk, ChunkOk;
    SegOk(h, segs, 0);
    TopIsStart(h);
    BehindTopHere(h, segs);
    ModUnit(segs[0].size, released);
    SegOk(h, segs, i);
    SegSeparate(h, segs, i, 0);
  }

  lemma TrimTopLies(h: Heap, segs: seq<Segment>, released: nat, a: nat)
    requires HeapOk(h) && SegmentsOk(h, segs) && |segs| > 0 && h.top in h.head && a in h.starts
    requires released % DEFAULT_GRANULARITY == 0 && released < h.head[h.top].size
    ensures released <= segs[0].size && InSegment(TrimTop(h, released), TrimSegs(segs, released), a)
  {
    hide SegmentsOk, HeapOk, ChunkOk;
    SegOk(h, segs, 0);
    TopIsStart(h);
    BehindTopHere(h, segs);
    var i := FindSegment(h, segs, a);
    if i == 0 && a != h.top {
      assert Next(h, a) <= h.top;
    }
    assert LiesIn(TrimTop(h, released), TrimSegs(segs, released), a, i);
  }

  lemma TrimTopSegments(h: Heap, segs: seq<Segment>, released: nat)
    requires HeapOk(h) && SegmentsOk(h, segs) && |segs| > 0 && h.top in h.head
    requires released % DEFAULT_GRANULARITY == 0 && released < h.head[h.top].size
    ensures released <= segs[0].size
    ensures SegmentsOk(TrimTop(h, released), TrimSegs(segs, released))
  {
    hide SegmentsOk, HeapOk, ChunkOk, SegmentOk, InSegment;
    TrimTopSegment(h, segs, released, 0);
    var h', segs' := TrimTop(h, released), TrimSegs(segs, released);
    forall i | 0 <= i < |segs'| ensures SegmentOk(h', segs', i) {
      TrimTopSegment(h, segs, released, i);
    }
    forall i, j | 0 <= i < |segs'| && 0 <= j < |segs'| ensures Separate(segs', i, j) {
      SegSeparate(h, segs, i, j);
    }
    forall a | a in h'.starts ensures InSegment(h', segs', a) {
      TrimTopLies(h, segs, released, a);
    }
    forall e | e in h'.ends ensures IsEnd(h', segs', e) {
      if e in h.ends && e != Next(h, h.top) {
        var i := FindEnd(h, segs, e);
        assert e == End(h', segs', i);
      } else {
        assert e == End(h', segs', 0);
      }
    }
    SegmentsFrom(h', segs');
  }

  /** The first chunk of an unused segment is an ordinary free chunk, and large. */
  lemma UnusedFirst(h: Heap, segs: seq<Segment>, k: nat)
    requires HeapOk(h) && SegmentsOk(h, segs) && Unused(h, segs, k)
    ensures var p := segs[k].base; p in h.starts && p in h.head && p != h.top && h.head[p].size >= 256
  {
    hide HeapOk, SegmentsOk;
    SegOk(h, segs, k);
    DropApart(h, segs, k);
    assert segs[k].size >= DEFAULT_GRANULARITY;
  }

  lemma RecordsDistinct(h: Heap, segs: seq<Segment>, i: nat, k: nat)
    requires SegmentsOk(h, segs) && 0 < i < |segs| && 0 < k < |segs| && i != k
    ensures segs[i].rec != segs[k].rec
  {
    hide SegmentsOk;
    SegOk(h, segs, i);
    SegOk(h, segs, k);
    SegSeparate(h, segs, i, k);
  }

  // ------------------------------------------------------------------
  // The chunks cover their segment

  ghost predicate Covered(h: Heap, x: nat) {
    exists a :: a in h.starts && a in h.head && a <= x < Next(h, a)
  }

  /** From chunk `a` on, every byte up to the end of the segment is in a chunk. */
  lemma {:induction false} CoveredFrom(h: Heap, segs: seq<Segment>, i: nat, a: nat, x: nat)
    requires HeapOk(h) && SegmentsOk(h, segs) && a in h.starts && LiesIn(h, segs, a, i) && a <= x < End(h, segs, i)
    ensures Covered(h, x)
    decreases x - a
  {
    hide HeapOk, SegmentsOk;
    KeptIsOk(h, a);
    var n := Next(h, a);
    if n <= x {
      SegOk(h, segs, i);
      if n in h.ends {
        var j := FindEnd(h, segs, n);
        SegSeparate(h, segs, i, j);
      } else {
        var j := FindSegment(h, segs, n);
        KeptIsOk(h, n);
        SegSeparate(h, segs, i, j);
        CoveredFrom(h, segs, i, n, x);
      }
    }
  }

  /** Every byte of a segment, up to its end, is in exactly one chunk. */
  lemma ChunksTile(h: Heap, segs: seq<Segment>, i: nat, x: nat)
    requires HeapOk(h) && SegmentsOk(h, segs) && i < |segs| && segs[i].base <= x < End(h, segs, i)
    ensures Covered(h, x)
    ensures forall a, b :: a in h.starts && b in h.starts && a in h.head && b in h.head && a <= x < Next(h, a) && b <= x < Next(h, b) ==> a == b
  {
    hide HeapOk, SegmentsOk;
    SegOk(h, segs, i);
    var base := segs[i].base;
    var j := FindSegment(h, segs, base);
    SegSeparate(h, segs, i, j);
    CoveredFrom(h, segs, i, base, x);
    forall a, b | a in h.starts && b in h.starts && a in h.head && b in h.head && a <= x < Next(h, a) && b <= x < Next(h, b)
      ensures a == b
    {
      StartsBefore(h, a, b);
      StartsBefore(h, b, a);
    }
  }
}
