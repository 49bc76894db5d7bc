/**
 The bundled allocator itself (src/lj_alloc.c): `struct malloc_state`, and the
 functions that work on it.  Answers of the operating system are parameters;
 the address zero stands for a failed mapping.
 */
module MallocState {
  import opened PowersOfTwo
  import opened Chunk
  import opened Tiling
  import opened Segments
  import opened Filing
  import opened Arena
  import opened Mapping
  import opened Live
  import opened Merging
  import Trie
  import TreeIndex
  import SmallBins
  import TreeBins

  const DEFAULT_MMAP_THRESHOLD: nat := 0x2_0000
  const DEFAULT_TRIM_THRESHOLD: nat := 0x20_0000
  const MAX_RELEASE_CHECK_RATE: nat := 255
  const MAX_SIZE_T: nat := W64 - 1
  const MAX_SMALL_REQUEST: nat := 240
  const MIN_REQUEST: nat := 23
  const MAX_REQUEST: nat := W64 - 128

  /** Size of the chunk that holds the allocator state, and where the bins lie in it. */
  const STATE_SIZE: nat := 880
  const SMALLBINS_OFS: nat := 72
  const TREEBINS_OFS: nat := 600
  const SEG_OFS: nat := 856

  /** pad_request */
  function PadRequest(req: nat): nat {
    (req + 15) / 8 * 8
  }

  /** request2size */
  function RequestSize(req: nat): nat {
    if req < MIN_REQUEST then MIN_CHUNK_SIZE else PadRequest(req)
  }

  /** The chunk size for a request; one that is too large stands for the largest word. */
  function Need(req: nat): nat {
    if req < MAX_REQUEST then RequestSize(req) else MAX_SIZE_T
  }

  /** alloc_sys can ask for a segment with a chunk of this size. */
  predicate Askable(nb: nat) {
    nb + TOP_FOOT_SIZE + 1 + DEFAULT_GRANULARITY <= W64
  }

  /** The padded size is a chunk size that has room for the request and one word of overhead. */
  lemma RequestFits(req: nat)
    ensures RequestSize(req) % 8 == 0 && RequestSize(req) >= MIN_CHUNK_SIZE && RequestSize(req) >= req + 8
    ensures req <= MAX_SMALL_REQUEST ==> RequestSize(req) / 8 < SmallBins.NSMALLBINS
    ensures req > MAX_SMALL_REQUEST ==> RequestSize(req) >= 256
    ensures req < MAX_REQUEST ==> RequestSize(req) < W64
  {
  }

  /** granularity_align and page_align, with the wrap-around of size_t */
  function AlignUp(s: nat, unit: nat): nat
    requires unit > 0
  {
    var x := (s + (unit - 1)) % W64;
    x - x % unit
  }

  lemma Wrapped(y: nat)
    requires y < 2 * W64
    ensures y % W64 == if y < W64 then y else y - W64
  {
  }

  /** Rounding up to pages: what happens to a small sum, and to one that wraps around. */
  lemma AlignUpPage(s: nat)
    requires s < W64 + LJ_PAGESIZE
    ensures var r := AlignUp(s, LJ_PAGESIZE);
            && r % LJ_PAGESIZE == 0
            && (s + LJ_PAGESIZE <= W64 ==> s <= r < s + LJ_PAGESIZE)
            && (s + LJ_PAGESIZE > W64 ==> r <= s + LJ_PAGESIZE - 1 - W64)
  {
    var x := (s + (LJ_PAGESIZE - 1)) % W64;
    Wrapped(s + (LJ_PAGESIZE - 1));
    assert x - x % LJ_PAGESIZE == LJ_PAGESIZE * (x / LJ_PAGESIZE);
  }

  /** Rounding up to units of the granularity. */
  lemma AlignUpUnit(s: nat)
    requires s < W64
    ensures var r := AlignUp(s, DEFAULT_GRANULARITY);
            && r % DEFAULT_GRANULARITY == 0
            && (s + DEFAULT_GRANULARITY <= W64 ==> s <= r < s + DEFAULT_GRANULARITY)
            && (s + DEFAULT_GRANULARITY > W64 ==> r <= s + DEFAULT_GRANULARITY - 1 - W64)
  {
    var x := (s + (DEFAULT_GRANULARITY - 1)) % W64;
    Wrapped(s + (DEFAULT_GRANULARITY - 1));
    assert x - x % DEFAULT_GRANULARITY == DEFAULT_GRANULARITY * (x / DEFAULT_GRANULARITY);
  }

  function Min(a: nat, b: nat): nat {
    if a < b then a else b
  }

  /** What memory holds at address `x`, as far as callers have written it. */
  function ByteAt(bytes: map<nat, nat>, x: nat): nat {
    if x in bytes then bytes[x] else 0
  }

  /** `n` bytes at `a` are, later, at `a'`. */
  ghost predicate Moved(bytes: map<nat, nat>, bytes': map<nat, nat>, a: nat, a': nat, n: nat) {
    forall x: nat :: a' <= x < a' + n ==> ByteAt(bytes', x) == ByteAt(bytes, a + (x - a'))
  }

  lemma MovedInside(bytes: map<nat, nat>, bytes': map<nat, nat>, a: nat, a': nat, n: nat, k: nat, m: nat)
    requires Moved(bytes, bytes', a, a', n) && k + m <= n
    ensures Moved(bytes, bytes', a + k, a' + k, m)
  {
  }

  /** No byte but the `n` bytes at `a` has changed. */
  ghost predicate KeptBut(bytes: map<nat, nat>, bytes': map<nat, nat>, a: nat, n: nat) {
    forall x: nat :: x < a || a + n <= x ==> ByteAt(bytes', x) == ByteAt(bytes, x)
  }

  /** No byte of another block than `p` has changed. */
  ghost predicate OthersKept(live: map<nat, nat>, bytes: map<nat, nat>, bytes': map<nat, nat>, p: nat) {
    forall q, x :: q in live && q != p && x in Payload(live, q) ==> ByteAt(bytes', x) == ByteAt(bytes, x)
  }

  lemma OthersKeptBy(live: map<nat, nat>, bytes: map<nat, nat>, bytes': map<nat, nat>, p: nat, m: set<nat>, a: nat, n: nat)
    requires forall q, x :: q in live && q != p && x in Payload(live, q) ==> x in m
    requires Range(a, n) !! m && KeptBut(bytes, bytes', a, n)
    ensures OthersKept(live, bytes, bytes', p)
  {
    hide Payload;
    forall q, x | q in live && q != p && x in Payload(live, q) ensures ByteAt(bytes', x) == ByteAt(bytes, x) {
      assert x in m;
      assert x !in Range(a, n);
    }
  }

  /** Unsigned subtraction */
  function WrapSub(a: nat, b: nat): nat {
    (a - b) % W64
  }

  lemma WrapSubOf(a: nat, b: nat)
    requires a < W64 && b < W64
    ensures WrapSub(a, b) == if a >= b then a - b else W64 + a - b
  {
  }

  /** The size of a chunk that is in a small bin or in a tree bin */
  function SizeIn(bin: map<nat, nat>, size: map<nat, nat>, p: nat): nat {
    if p in bin then 8 * bin[p] else if p in size then size[p] else 0
  }

  /** A binned chunk has `nb` bytes. */
  ghost predicate SomeFit(bin: map<nat, nat>, size: map<nat, nat>, nb: nat) {
    exists p :: (p in bin || p in size) && nb <= SizeIn(bin, size, p)
  }

  /** Chunk `v` is a least one of the binned chunks that have `nb` bytes. */
  ghost predicate LeastFit(bin: map<nat, nat>, size: map<nat, nat>, nb: nat, v: nat) {
    && (v in bin || v in size) && nb <= SizeIn(bin, size, v)
    && forall p :: (p in bin || p in size) && nb <= SizeIn(bin, size, p) ==> SizeIn(bin, size, v) <= SizeIn(bin, size, p)
  }

  lemma LeastIsSome(bin: map<nat, nat>, size: map<nat, nat>, nb: nat, v: nat)
    requires LeastFit(bin, size, nb, v)
    ensures SomeFit(bin, size, nb)
  {
  }

  /** A block of at least `nb` bytes at `mem` was added to the blocks in use; what is more is too small for a chunk. */
  ghost predicate HandedOut(u: map<nat, nat>, u': map<nat, nat>, mem: nat, nb: nat) {
    && mem >= 16 && (mem - 16) !in u && (mem - 16) in u'
    && u' == u[mem - 16 := u'[mem - 16]] && nb <= u'[mem - 16] < nb + MIN_CHUNK_SIZE
  }

  lemma HeaderRange(hdr: nat, p: nat)
    ensures SmallBins.IsHeader(hdr, p) ==> hdr <= p < hdr + 512
  {
  }

  /** The heap after lj_alloc_create. */
  function InitialHeap(tbase: nat): Heap {
    var mn, psize := tbase + STATE_SIZE, DEFAULT_GRANULARITY - STATE_SIZE - TOP_FOOT_SIZE;
    Heap(map[tbase := Head(STATE_SIZE, true, true), mn := Head(psize, true, false),
             mn + psize := Head(TOP_FOOT_SIZE, false, false)],
         map[], {tbase, mn}, {mn + psize}, mn)
  }

  lemma InitialArena(tbase: nat)
    requires tbase > 0 && tbase % 8 == 0 && tbase + DEFAULT_GRANULARITY < ADDRESS_LIMIT
    ensures ArenaOk(InitialHeap(tbase), [Segment(tbase, DEFAULT_GRANULARITY, 0)], Files(0, 0, map[], map[]), {})
    ensures Used(InitialHeap(tbase)) == map[tbase := STATE_SIZE]
  {
    hide HeapOk, SegmentsOk;
    var h, segs := InitialHeap(tbase), [Segment(tbase, DEFAULT_GRANULARITY, 0)];
    assert ChunkOk(h, tbase) && ChunkOk(h, h.top);
    HeapFrom(h);
    assert SegmentOk(h, segs, 0) && LiesIn(h, segs, tbase, 0) && LiesIn(h, segs, h.top, 0);
    assert Next(h, h.top) == End(h, segs, 0);
    SegmentsFrom(h, segs);
  }

  lemma SegBytesOfOne(tbase: nat, tsize: nat)
    ensures SegBytes([Segment(tbase, tsize, 0)]) == Range(tbase, tsize)
    ensures MapOk(Range(tbase, tsize), [Segment(tbase, tsize, 0)], map[])
  {
    var segs := [Segment(tbase, tsize, 0)];
    forall x ensures x in SegBytes(segs) <==> x in Range(tbase, tsize) {
      if x in Range(tbase, tsize) {
        SegByte(segs, 0, x);
      }
    }
    forall x ensures x in Range(tbase, tsize) <==> Mapped(segs, map[], x) {
    }
  }

  class MallocState {
    var dv: nat
    var dvsize: nat
    var top: nat
    var topsize: nat
    var trim_check: nat
    var release_checks: nat
    const msp: nat
    const small: SmallBins.SmallBins
    const tree: TreeBins.TreeBins
    var segs: seq<Segment>
    var head: Heads
    var foot: map<nat, nat>
    var direct: map<nat, Direct>
    var mapped: set<nat>
    var lost: set<nat>
    var bytes: map<nat, nat>
    ghost var starts: set<nat>
    ghost var ends: set<nat>

    ghost function H(): Heap
      reads this
    {
      Heap(head, foot, starts, ends, top)
    }

    ghost function F(): Files
      reads this, small, tree
    {
      Files(dv, dvsize, small.bin, tree.size)
    }

    /** The chunks in use in the segments. */
    ghost function Blocks(): map<nat, nat>
      reads this
    {
      Used(H())
    }

    /** The chunk with the allocator state is in use, and holds the headers of the bins. */
    ghost predicate HeaderOk()
      reads this
    {
      && msp in Blocks() && Blocks()[msp] == STATE_SIZE
      && small.hdr == msp + SMALLBINS_OFS && tree.hdr == msp + TREEBINS_OFS
      && forall i :: 0 < i < |segs| ==> segs[i].rec != msp
    }

    /** Everything holds but that the free chunks in `loose` are not filed. */
    ghost predicate Ready(loose: set<nat>)
      reads this, small, tree
    {
      && small.Valid() && tree.Valid()
      && ArenaOk(H(), segs, F(), loose) && head[top].size == topsize
      && HeaderOk()
    }

    /** What holds between calls. */
    ghost predicate Valid()
      reads this, small, tree
    {
      Ready({}) && MapOk(mapped, segs, direct)
    }

    /** The blocks that callers own, with their room. */
    ghost function Live(): map<nat, nat>
      reads this
    {
      LiveBlocks(Blocks(), segs, msp, direct)
    }

    /** The chunk of a live block is not so large that a chunk could be split from it; directly mapped ones have whole pages. */
    ghost predicate Tight(mem: nat, nb: nat)
      reads this
    {
      mem >= 16 && (mem - 16 in direct || (mem - 16 in Live() && Live()[mem - 16] + 8 < nb + MIN_CHUNK_SIZE))
    }

    /** lj_alloc_create, after the first region was mapped at `tbase`; init_bins and init_top. */
    constructor (tbase: nat)
      requires tbase > 0 && tbase % 8 == 0 && tbase + DEFAULT_GRANULARITY < ADDRESS_LIMIT
      ensures Valid() && Live() == map[] && mapped == Range(tbase, DEFAULT_GRANULARITY)
      ensures topsize == DEFAULT_GRANULARITY - STATE_SIZE - TOP_FOOT_SIZE
      ensures fresh(small) && fresh(tree)
    {
      msp := tbase;
      small := new SmallBins.SmallBins(tbase + SMALLBINS_OFS);
      tree := new TreeBins.TreeBins(tbase + TREEBINS_OFS);
      dv, dvsize := 0, 0;
      segs := [Segment(tbase, DEFAULT_GRANULARITY, 0)];
      release_checks := MAX_RELEASE_CHECK_RATE;
      var mn := tbase + STATE_SIZE;
      var psize := DEFAULT_GRANULARITY - STATE_SIZE - TOP_FOOT_SIZE;
      top := mn;
      topsize := psize;
      head := map[tbase := Head(STATE_SIZE, true, true), mn := Head(psize, true, false),
                  mn + psize := Head(TOP_FOOT_SIZE, false, false)];
      trim_check := DEFAULT_TRIM_THRESHOLD;
      foot := map[];
      direct := map[];
      bytes := map[];
      lost := {};
      mapped := Range(tbase, DEFAULT_GRANULARITY);
      starts := {tbase, mn};
      ends := {mn + psize};
      new;
      InitialArena(tbase);
      SegBytesOfOne(tbase, DEFAULT_GRANULARITY);
    }

    // ----------------------------------------------------------------
    // Bins

    lemma NoHeader(loose: set<nat>, p: nat)
      requires Ready(loose) && p in starts
      ensures !SmallBins.IsHeader(small.hdr, p)
    {
      StartsBefore(H(), msp, p);
      HeaderRange(small.hdr, p);
    }

    lemma LargeInBin(loose: set<nat>, p: nat)
      requires Ready(loose) && p in starts && p in head && head[p].size >= 256
      ensures Trie.InBin(TreeIndex.Index(head[p].size), head[p].size)
    {
      hide Trie.InBin, TreeIndex.Index;
      ChunkBelowLimit(H(), segs, p);
      TreeIndex.IndexBelowLimit(head[p].size);
    }

    lemma TreeAgrees(loose: set<nat>)
      requires Ready(loose)
      ensures tree.Agree(head)
    {
      forall x | x in tree.size ensures x in head && head[x].size == tree.size[x] {
        assert FiledRight(H(), F(), x);
      }
    }

    /** insert_large_chunk */
    method InsertLarge(p: nat, s: nat, ghost loose: set<nat>)
      requires Ready(loose) && p in loose && FreeChunk(H(), p) && head[p].size == s >= 256
      modifies tree
      ensures Ready(loose - {p})
    {
      hide HeapOk, SegmentsOk, Trie.InBin, TreeIndex.Index;
      LooseNotFiled(H(), F(), loose, p);
      FileLarge(H(), F(), loose, p);
      KeptPositive(loose, p);
      LargeInBin(loose, p);
      TreeAgrees(loose);
      ghost var at := tree.InsertLargeChunk(p, s, head);
    }

    /** insert_chunk */
    method InsertChunk(p: nat, s: nat, ghost loose: set<nat>)
      requires Ready(loose) && p in loose && FreeChunk(H(), p) && head[p].size == s
      modifies small, tree
      ensures Ready(loose - {p})
    {
      hide HeapOk, SegmentsOk;
      if s / 8 < SmallBins.NSMALLBINS {
        NoHeader(loose, p);
        LooseNotFiled(H(), F(), loose, p);
        FileSmall(H(), F(), loose, p);
        small.InsertSmallChunk(p, s);
      } else {
        InsertLarge(p, s, loose);
      }
    }

    lemma KeptPositive(loose: set<nat>, p: nat)
      requires Ready(loose) && p in starts
      ensures p > 0
    {
      KeptIsOk(H(), p);
    }

    /** unlink_chunk, of a chunk that is where its size says */
    method TakeOut(p: nat, s: nat)
      requires small.Valid() && tree.Valid() && (s < 256 ==> p in small.bin && small.bin[p] == s / 8) && (s >= 256 ==> p in tree.size)
      modifies small, tree
      ensures small.Valid() && tree.Valid() && F() == Unfiled(old(F()), p, s)
    {
      if s / 8 < SmallBins.NSMALLBINS {
        ghost var k := small.UnlinkSmallChunk(p, s);
      } else {
        tree.UnlinkLargeChunk(p);
      }
    }

    /** unlink_chunk */
    method UnlinkChunk(p: nat, s: nat, ghost loose: set<nat>)
      requires Ready(loose) && p !in loose && p != dv && FreeChunk(H(), p) && head[p].size == s
      modifies small, tree
      ensures Ready(loose + {p})
    {
      hide HeapOk, SegmentsOk;
      UnfiledOk(H(), F(), loose, p);
      TakeOut(p, s);
    }

    /** A free chunk that is in no bin becomes the designated victim, of which there was none. */
    method SetDv(p: nat, s: nat)
      requires Ready({p}) && FreeChunk(H(), p) && head[p].size == s && dv == 0
      modifies this`dv, this`dvsize
      ensures Ready({}) && dv == p && dvsize == s
    {
      hide HeapOk, SegmentsOk;
      FileDv(H(), F(), {p}, p);
      NoneLoose(p);
      dvsize := s;
      dv := p;
    }

    lemma NoneLoose(p: nat)
      ensures {p} - {p} == {} && {} + {p} == {p}
    {
    }

    /** replace_dv: `p` becomes the designated victim, and the old one, which is small, is binned. */
    method ReplaceDv(p: nat, s: nat)
      requires Ready({p}) && FreeChunk(H(), p) && head[p].size == s && dvsize < 256
      modifies this`dv, this`dvsize, small, tree
      ensures Ready({}) && dv == p && dvsize == s
    {
      hide HeapOk, SegmentsOk;
      ghost var h, f := H(), F();
      LooseNotFiled(h, f, {p}, p);
      if dvsize != 0 {
        TakeDv(h, f, {p});
        NoHeader({p}, dv);
        FileSmall(h, f.(dv := 0, dvsize := 0), {p, dv}, dv);
        assert {p} + {dv} == {p, dv} && {p, dv} - {dv} == {p};
        small.InsertSmallChunk(dv, dvsize);
      }
      FileDv(h, F().(dv := 0, dvsize := 0), {p}, p);
      dvsize := s;
      dv := p;
      assert {p} - {p} == {};
    }

    // ----------------------------------------------------------------
    // Allocation from free chunks

    /** set_inuse_and_pinuse */
    method SetInuseAndPinuse(p: nat, s: nat)
      requires Ready({p}) && FreeChunk(H(), p) && head[p].size == s
      modifies this`head
      ensures Ready({})
      ensures p !in old(Blocks()) && Blocks() == old(Blocks())[p := s]
    {
      hide HeapOk, SegmentsOk, Filed;
      ghost var h := H();
      UseWholeArena(h, segs, F(), p);
      head := head[p := Head(s, true, true)];
      head := head[p + s := head[p + s].(pinuse := true)];
      assert H() == UseWhole(h, p);
      StateStays(h, p, s);
    }

    /** set_size_and_pinuse_of_inuse_chunk on `p`, set_size_and_pinuse_of_free_chunk on the rest. */
    method CutChunk(p: nat, nb: nat, rsize: nat) returns (r: nat)
      requires Ready({p}) && FreeChunk(H(), p) && head[p].size == nb + rsize
      requires nb % 8 == 0 && MIN_CHUNK_SIZE <= nb && MIN_CHUNK_SIZE <= rsize
      modifies this`head, this`foot, this`starts
      ensures Ready({r}) && r == p + nb && FreeChunk(H(), r) && head[r].size == rsize
      ensures p !in old(Blocks()) && Blocks() == old(Blocks())[p := nb]
    {
      hide HeapOk, SegmentsOk, Filed;
      ghost var h := H();
      SplitArena(h, segs, F(), p, nb);
      r := p + nb;
      head := head[p := Head(nb, true, true)];
      head := head[r := Head(rsize, true, false)];
      foot := foot[r + rsize := rsize];
      starts := starts + {r};
      assert H() == Split(h, p, nb);
      StateStays(h, p, nb);
    }

    /** A new block in use is not the chunk of the allocator state. */
    lemma StateStays(h: Heap, p: nat, s: nat)
      requires p !in Used(h) && Used(H()) == Used(h)[p := s] && msp in Used(h)
      ensures msp in Blocks() && Blocks()[msp] == Used(h)[msp]
    {
    }

    /** Neither the designated victim nor a binned chunk has `nb` bytes. */
    ghost predicate NoneBinned(nb: nat)
      reads this, small, tree
    {
      && dvsize < nb
      && (forall p :: p in small.bin ==> 8 * small.bin[p] < nb)
      && (forall p :: p in tree.size ==> tree.size[p] < nb)
    }

    /** Chunk `v` is the least that has `nb` bytes, of all chunks in tree bins and the designated victim. */
    ghost predicate BestFit(nb: nat, v: nat)
      reads this, small, tree
    {
      && v in tree.size && nb <= tree.size[v] && !(nb <= dvsize <= tree.size[v])
      && (forall x :: x in tree.size && nb <= tree.size[x] ==> tree.size[v] <= tree.size[x])
    }

    /** tmalloc_large: from the least tree chunk that fits, unless the designated victim fits better. */
    method TmallocLarge(nb: nat) returns (mem: nat)
      requires Ready({}) && nb % 8 == 0 && 256 <= nb < W64
      modifies this`head, this`foot, this`starts, small, tree
      ensures Ready({})
      ensures mem == 0 ==> Blocks() == old(Blocks()) && H() == old(H()) && F() == old(F())
      ensures mem == 0 ==> forall x :: x in tree.size && nb <= tree.size[x] ==> nb <= dvsize <= tree.size[x]
      ensures mem != 0 ==> HandedOut(old(Blocks()), Blocks(), mem, nb) && old(BestFit(nb, mem - 16))
    {
      hide HeapOk, SegmentsOk, Filed, Trie.InBin, TreeIndex.Index;
      SizesBelowLimit();
      TreeAgrees({});
      SearchBound(nb);
      var v, rsize := tree.FindBestFit(nb, head);
      if v != 0 {
        TreeChunk(v);
        WrapSubOf(dvsize, nb);
      }
      if v != 0 && rsize < WrapSub(dvsize, nb) {
        UnlinkLarge(v);
        if rsize < MIN_CHUNK_SIZE {
          SetInuseAndPinuse(v, rsize + nb);
        } else {
          var r := CutChunk(v, nb, rsize);
          InsertChunk(r, rsize, {r});
          assert {r} - {r} == {};
        }
        mem := v + 16;
      } else {
        mem := 0;
      }
    }

    /** Either the index of `nb` is right, or `nb` is beyond all chunks. */
    lemma SearchBound(nb: nat)
      requires Ready({}) && 256 <= nb < W64
      ensures Trie.InBin(TreeIndex.Index(nb), nb) || forall x :: x in tree.size ==> tree.size[x] < nb
    {
      hide Trie.InBin, TreeIndex.Index;
      if nb < SEGMENT_LIMIT {
        TreeIndex.IndexBelowLimit(nb);
      } else {
        forall x | x in tree.size ensures tree.size[x] < nb {
          assert FiledRight(H(), F(), x);
          ChunkBelowLimit(H(), segs, x);
        }
      }
    }

    lemma TreeChunk(v: nat)
      requires Ready({}) && v in tree.size
      ensures FreeChunk(H(), v) && head[v].size == tree.size[v] < ADDRESS_LIMIT && v != dv && v > 0
    {
      assert FiledRight(H(), F(), v);
      KeptIsOk(H(), v);
    }

    /** unlink_large_chunk on a filed chunk */
    method UnlinkLarge(v: nat)
      requires Ready({}) && v in tree.size
      modifies tree
      ensures Ready({v})
    {
      hide HeapOk, SegmentsOk;
      TakeLarge(H(), F(), {}, v);
      assert {} + {v} == {v};
      tree.UnlinkLargeChunk(v);
    }

    /** tmalloc_small: from the least tree chunk; the rest becomes the designated victim. */
    method TmallocSmall(nb: nat) returns (mem: nat)
      requires Ready({}) && nb % 8 == 0 && MIN_CHUNK_SIZE <= nb < 256 && tree.treemap != {} && dvsize < nb
      modifies this`head, this`foot, this`starts, this`dv, this`dvsize, small, tree
      ensures Ready({})
      ensures HandedOut(old(Blocks()), Blocks(), mem, nb) && old(BestFit(nb, mem - 16))
      ensures var rest := old(tree.size)[mem - 16] - nb;
              if rest < MIN_CHUNK_SIZE then dv == old(dv) && dvsize == old(dvsize) else dv == mem - 16 + nb && dvsize == rest
    {
      hide HeapOk, SegmentsOk, Filed;
      TreeAgrees({});
      var v, rsize := tree.FindLeast(nb, head);
      TreeChunk(v);
      UnlinkLarge(v);
      if rsize < MIN_CHUNK_SIZE {
        SetInuseAndPinuse(v, rsize + nb);
      } else {
        var r := CutChunk(v, nb, rsize);
        ReplaceDv(r, rsize);
      }
      mem := v + 16;
    }

    // ----------------------------------------------------------------
    // System allocation

    /** init_top; regions and sizes are aligned, so that no offset is needed. */
    method InitTop(p: nat, psize: nat)
      modifies this`top, this`topsize, this`head, this`trim_check
      ensures top == p && topsize == psize && trim_check == DEFAULT_TRIM_THRESHOLD
      ensures head == old(head)[p := Head(psize, true, false)][p + psize := Head(TOP_FOOT_SIZE, false, false)]
    {
      top := p;
      topsize := psize;
      head := head[p := Head(psize, true, false)];
      head := head[p + psize := Head(TOP_FOOT_SIZE, false, false)];
      trim_check := DEFAULT_TRIM_THRESHOLD;
    }

    /** The part of malloc and alloc_sys that cuts a block from `top`. */
    method TakeFromTop(nb: nat) returns (mem: nat)
      requires Ready({}) && nb % 8 == 0 && MIN_CHUNK_SIZE <= nb < topsize
      modifies this`head, this`starts, this`top, this`topsize
      ensures Ready({})
      ensures HandedOut(old(Blocks()), Blocks(), mem, nb) && mem - 16 == old(top)
    {
      hide HeapOk, SegmentsOk, Filed;
      ghost var h := H();
      SplitTopArena(h, segs, F(), nb);
      topsize := topsize - nb;
      var p := top;
      top := p + nb;
      head := head[top := Head(topsize, true, false)];
      head := head[p := Head(nb, true, true)];
      starts := starts + {top};
      assert H() == SplitTop(h, nb);
      StateStays(h, p, nb);
      mem := p + 16;
    }

    /** segment_holding */
    method SegmentHolding(addr: nat) returns (i: nat)
      ensures i <= |segs|
      ensures i < |segs| ==> segs[i].base <= addr < segs[i].base + segs[i].size
      ensures forall j :: 0 <= j < i ==> !(segs[j].base <= addr < segs[j].base + segs[j].size)
    {
      i := 0;
      while i < |segs| && !(segs[i].base <= addr < segs[i].base + segs[i].size)
        invariant 0 <= i <= |segs|
        invariant forall j :: 0 <= j < i ==> !(segs[j].base <= addr < segs[j].base + segs[j].size)
      {
        i := i + 1;
      }
    }

    /** align_offset */
    function AlignOffset(a: nat): nat {
      if a % 8 == 0 then 0 else 8 - a % 8
    }

    /** Where add_segment puts the record of the old segment. */
    lemma RecordPlace(h: Heap, sg: seq<Segment>)
      requires HeapOk(h) && SegmentsOk(h, sg) && |sg| > 0 && h.top in h.head
      ensures var oldend := sg[0].base + sg[0].size;
              && sg[0].base <= h.top < oldend && oldend >= 71
              && oldend - 71 + AlignOffset(oldend - 71 + 16) == Next(h, h.top)
              && RecordAt(h) + RECORD_SIZE + 8 <= oldend
    {
      hide HeapOk;
      SegOk(h, sg, 0);
      TopIsStart(h);
      KeptIsOk(h, h.top);
      AlignEnd(sg[0].base, sg[0].size);
    }

    lemma AlignEnd(base: nat, size: nat)
      requires base % 8 == 0 && size % DEFAULT_GRANULARITY == 0 && base + size >= 71
      ensures base + size - 71 + AlignOffset(base + size - 55) == base + size - 64
    {
    }

    /** The fencepost loop of add_segment */
    method WriteFences(p0: nat, end: nat)
      modifies this`head
      ensures head == Fences(old(head), p0, end)
    {
      var p := p0;
      while true
        invariant Fences(head, p, end) == Fences(old(head), p0, end)
        decreases end - p
      {
        head := head[p := Head(8, true, true)];
        if p + 16 < end {
          p := p + 8;
        } else {
          break;
        }
      }
    }

    /** The head of add_segment: the end of the old segment, and where its record goes. */
    method RecordPosition() returns (old_end: nat, csp: nat)
      requires Ready({}) && |segs| > 0
      ensures old_end == segs[0].base + segs[0].size && csp == RecordAt(H()) && csp + RECORD_SIZE + 8 <= old_end
    {
      hide HeapOk, SegmentsOk, Filed;
      RecordPlace(H(), segs);
      var old_top := top;
      var oldsp := SegmentHolding(old_top);
      old_end := segs[oldsp].base + segs[oldsp].size;
      var rawsp := old_end - (RECORD_SIZE + 32 + 7);
      var asp := rawsp + AlignOffset(rawsp + 16);
      csp := if asp < old_top + MIN_CHUNK_SIZE then old_top else asp;
    }

    /** The word writes of add_segment. */
    method OpenSegment(tbase: nat, tsize: nat, old_end: nat, csp: nat)
      requires top in head && tsize > TOP_FOOT_SIZE && |segs| > 0
      requires csp == RecordAt(H()) && csp + RECORD_SIZE + 8 <= old_end
      modifies this`head, this`foot, this`starts, this`ends, this`top, this`topsize, this`trim_check, this`segs
      ensures H() == NewSegment(old(H()), old_end, tbase, tsize) && segs == NewSegs(old(H()), old(segs), tbase, tsize)
      ensures topsize == tsize - TOP_FOOT_SIZE
    {
      hide NewSegment, Fences, RecordAt;
      ghost var h := H();
      RecordOfTop(h);
      var old_top := top;
      InitTop(tbase, tsize - TOP_FOOT_SIZE);
      head := head[csp := Head(RECORD_SIZE, true, true)];
      segs := [Segment(tbase, tsize, 0), segs[0].(rec := csp)] + segs[1..];
      ghost var head1 := head;
      FencesKeep(head1, csp, old_end);
      WriteFences(csp + RECORD_SIZE, old_end);
      if csp != old_top {
        var psize := csp - old_top;
        head := head[csp := head[csp].(pinuse := false)];
        head := head[old_top := Head(psize, true, false)];
        foot := foot[old_top + psize := psize];
      }
      starts := starts + {csp, tbase};
      ends := ends - {Next(h, h.top)} + {csp + RECORD_SIZE, tbase + (tsize - TOP_FOOT_SIZE)};
      NewSegmentValue(h, old_end, tbase, tsize, head1, H());
    }

    /** add_segment */
    method AddSegment(tbase: nat, tsize: nat)
      requires Ready({}) && FreshRegion(segs, tbase, tsize) && tsize > TOP_FOOT_SIZE && tsize % DEFAULT_GRANULARITY == 0 && |segs| > 0
      modifies this`head, this`foot, this`starts, this`ends, this`top, this`topsize, this`trim_check, this`segs, small, tree
      ensures Ready({}) && topsize == tsize - TOP_FOOT_SIZE
      ensures |segs| == |old(segs)| + 1 && segs[1].rec !in old(Blocks()) && Blocks() == old(Blocks())[segs[1].rec := RECORD_SIZE]
      ensures segs == [Segment(tbase, tsize, 0), old(segs)[0].(rec := segs[1].rec)] + old(segs)[1..]
    {
      hide HeapOk, SegmentsOk, Filed, NewSegment, FreshRegion, RecordAt;
      ghost var h := H();
      NewSegmentArena(h, segs, F(), tbase, tsize);
      RecordOfTop(h);
      var old_top := top;
      var old_end, csp := RecordPosition();
      OpenSegment(tbase, tsize, old_end, csp);
      StateStays(h, csp, RECORD_SIZE);
      if csp != old_top {
        InsertChunk(old_top, csp - old_top, {old_top});
        assert {old_top} - {old_top} == {};
      }
    }

    lemma FencesKeep(head1: Heads, csp: nat, end: nat)
      requires csp in head1 && csp + RECORD_SIZE + 8 <= end
      ensures csp in Fences(head1, csp + RECORD_SIZE, end)
      ensures Fences(head1, csp + RECORD_SIZE, end)[csp] == head1[csp]
    {
      FencesOnly(head1, csp + RECORD_SIZE, end);
    }

    lemma RecordOfTop(h: Heap)
      requires h.top in h.head
      ensures RecordAt(h) == h.top || (RecordAt(h) == Next(h, h.top) && RecordAt(h) >= h.top + MIN_CHUNK_SIZE)
    {
    }

    lemma SegmentsExist(h: Heap, sg: seq<Segment>)
      requires SegmentsOk(h, sg)
      ensures |sg| > 0
    {
    }

    lemma NewSegmentValue(h: Heap, oldend: nat, tbase: nat, tsize: nat, head1: Heads, h': Heap)
      requires h.top in h.head && tsize >= TOP_FOOT_SIZE
      requires head1 == h.head[tbase := Head(tsize - TOP_FOOT_SIZE, true, false)]
                              [tbase + (tsize - TOP_FOOT_SIZE) := Head(TOP_FOOT_SIZE, false, false)]
                              [RecordAt(h) := Head(RECORD_SIZE, true, true)]
      requires RecordAt(h) + RECORD_SIZE + 8 <= oldend && RecordAt(h) in Fences(head1, RecordAt(h) + RECORD_SIZE, oldend)
      requires var h2 := Fences(head1, RecordAt(h) + RECORD_SIZE, oldend);
               h'.head == if RecordAt(h) != h.top
                          then h2[RecordAt(h) := h2[RecordAt(h)].(pinuse := false)]
                                 [h.top := Head(Next(h, h.top) - h.top, true, false)] else h2
      requires h'.foot == if RecordAt(h) != h.top then h.foot[Next(h, h.top) := Next(h, h.top) - h.top] else h.foot
      requires h'.starts == h.starts + {RecordAt(h), tbase} && h'.top == tbase
      requires h'.ends == h.ends - {Next(h, h.top)} + {RecordAt(h) + RECORD_SIZE, tbase + (tsize - TOP_FOOT_SIZE)}
      ensures h' == NewSegment(h, oldend, tbase, tsize)
    {
      FencesKeep(head1, RecordAt(h), oldend);
    }

    // ----------------------------------------------------------------
    // The operating system

    /** CALL_MMAP: a region that was not mapped before, or zero. */
    method Mmap(size: nat) returns (base: nat)
      modifies this`mapped
      ensures base == 0 ==> mapped == old(mapped)
      ensures base != 0 ==> Available(old(mapped) + lost, base, size) && mapped == old(mapped) + Range(base, size)
    {
      base :| 0 <= base < ADDRESS_LIMIT && (base == 0 || Available(mapped + lost, base, size));
      if base != 0 {
        mapped := mapped + Range(base, size);
      }
    }

    /** CALL_MMAP for a segment: no segment may get as large as a tebibyte. */
    method MmapSegment(size: nat) returns (base: nat)
      modifies this`mapped
      ensures base == 0 ==> mapped == old(mapped)
      ensures base != 0 ==> Available(old(mapped) + lost, base, size) && mapped == old(mapped) + Range(base, size) && Modest(segs, size)
    {
      base := 0;
      if Modest(segs, size) {
        base := Mmap(size);
      }
    }

    /** CALL_MUNMAP of a mapped region; it may fail. */
    method Munmap(base: nat, size: nat) returns (ok: bool)
      requires Range(base, size) <= mapped
      modifies this`mapped
      ensures mapped == if ok then old(mapped) - Range(base, size) else old(mapped)
    {
      ok := *;
      if ok {
        mapped := mapped - Range(base, size);
      }
    }

    /** A region was just mapped, and belongs to nobody yet. */
    ghost predicate Pending(tbase: nat, tsize: nat)
      reads this, small, tree
    {
      && Ready({}) && tsize > 0 && tsize % DEFAULT_GRANULARITY == 0
      && Range(tbase, tsize) <= mapped && Available(mapped - Range(tbase, tsize), tbase, tsize) && Modest(segs, tsize)
      && MapOk(mapped - Range(tbase, tsize), segs, direct)
    }

    // ----------------------------------------------------------------
    // prepend_alloc

    /** Segment `k` was `sg[k]`, and now starts with the region of `tsize` bytes at `tbase`. */
    ghost predicate Extending(sg: seq<Segment>, k: nat, tbase: nat, tsize: nat, nb: nat, loose: set<nat>)
      reads this, small, tree
    {
      && small.Valid() && tree.Valid() && ArenaOk(H(), sg, F(), loose) && CanPrepend(H(), sg, k, tbase, tsize, nb)
      && segs == ExtendSegs(sg, k, tbase, tsize) && head[top].size == topsize && HeaderOk()
    }

    /** prepend_alloc where the old region starts with `top` */
    method PrependTop(p: nat, q: nat, qsize: nat, ghost sg: seq<Segment>, ghost k: nat, ghost tsize: nat, nb: nat)
      requires Extending(sg, k, p, tsize, nb, {}) && q == p + nb && qsize == tsize - nb && sg[k].base == top
      modifies this`head, this`starts, this`top, this`topsize
      ensures Ready({}) && p !in old(Blocks()) && Blocks() == old(Blocks())[p := nb]
    {
      hide HeapOk, SegmentsOk, Filed, FreshRegion, FreeToTop, Prepend, Used;
      ghost var h := H();
      PrependTopArena(h, sg, F(), k, p, tsize, nb);
      PrependTopWords(h, p, tsize, nb);
      ghost var h' := FreeToTop(Prepend(h, p, tsize, nb), q);
      head := head[p := Head(nb, true, true)];
      topsize := topsize + qsize;
      top := q;
      head := head[q := Head(topsize, true, false)];
      starts := h'.starts;
      assert H() == h';
      StateStays(h, p, nb);
    }

    /** prepend_alloc where the old region starts with a free chunk of `nsize` bytes that is out of its bin */
    method PrependFree(p: nat, q: nat, qsize: nat, oldfirst: nat, nsize: nat,
                       ghost sg: seq<Segment>, ghost k: nat, ghost tsize: nat, nb: nat)
      requires Extending(sg, k, p, tsize, nb, {oldfirst}) && q == p + nb && qsize == tsize - nb && sg[k].base == oldfirst
      requires FreeChunk(H(), oldfirst) && head[oldfirst].size == nsize
      modifies this`head, this`foot, this`starts
      ensures Ready({q}) && p !in old(Blocks()) && Blocks() == old(Blocks())[p := nb]
      ensures FreeChunk(H(), q) && head[q].size == qsize + nsize
    {
      hide HeapOk, SegmentsOk, Filed, FreshRegion, FreeRun, Prepend, Used;
      ghost var h := H();
      PrependFreeArena(h, sg, F(), k, p, tsize, nb);
      PrependWords(h, p, tsize, nb, Next(h, oldfirst));
      ghost var h' := FreeRun(Prepend(h, p, tsize, nb), q, Next(h, oldfirst));
      head := head[p := Head(nb, true, true)];
      SetFreeWithPinuse(q, qsize + nsize, oldfirst + nsize);
      starts := h'.starts;
      assert H() == h';
      StateStays(h, p, nb);
    }

    /** prepend_alloc where the old region starts with a chunk in use */
    method PrependUsed(p: nat, q: nat, qsize: nat, oldfirst: nat,
                       ghost sg: seq<Segment>, ghost k: nat, ghost tsize: nat, nb: nat)
      requires Extending(sg, k, p, tsize, nb, {}) && q == p + nb && qsize == tsize - nb && sg[k].base == oldfirst
      requires oldfirst in Blocks()
      modifies this`head, this`foot, this`starts
      ensures Ready({q}) && p !in old(Blocks()) && Blocks() == old(Blocks())[p := nb]
      ensures FreeChunk(H(), q) && head[q].size == qsize
    {
      hide HeapOk, SegmentsOk, Filed, FreshRegion, FreeRun, Prepend, Used;
      ghost var h := H();
      PrependUsedArena(h, sg, F(), k, p, tsize, nb);
      PrependWords(h, p, tsize, nb, oldfirst);
      ghost var h' := FreeRun(Prepend(h, p, tsize, nb), q, oldfirst);
      head := head[p := Head(nb, true, true)];
      SetFreeWithPinuse(q, qsize, oldfirst);
      starts := h'.starts;
      assert H() == h';
      StateStays(h, p, nb);
    }

    /** set_free_with_pinuse */
    method SetFreeWithPinuse(p: nat, s: nat, n: nat)
      requires n in head && n == p + s && s > 0
      modifies this`head, this`foot
      ensures n in old(head) && head == old(head)[p := Head(s, true, false)][n := old(head)[n].(pinuse := false)]
      ensures foot == old(foot)[n := s]
    {
      head := head[n := head[n].(pinuse := false)];
      head := head[p := Head(s, true, false)];
      foot := foot[p + s := s];
    }

    /** prepend_alloc: a block at the start of a region that a segment now starts with */
    method PrependAlloc(newbase: nat, oldbase: nat, nb: nat, ghost sg: seq<Segment>, ghost k: nat) returns (mem: nat)
      requires oldbase >= newbase && Extending(sg, k, newbase, oldbase - newbase, nb, {}) && oldbase == sg[k].base
      modifies this`head, this`foot, this`starts, this`top, this`topsize, this`dv, this`dvsize, small, tree
      ensures Ready({}) && newbase !in old(Blocks()) && Blocks() == old(Blocks())[newbase := nb] && mem == newbase + 16
    {
      hide HeapOk, SegmentsOk, Filed, Used, CanPrepend, SmallBins.BinsOk, TreeBins.BinsOk;
      FirstChunk(sg, k, newbase, oldbase - newbase, nb);
      var p := newbase + AlignOffset(newbase + 16);
      var oldfirst := oldbase + AlignOffset(oldbase + 16);
      var psize := oldfirst - p;
      var q := p + nb;
      var qsize := psize - nb;
      if oldfirst == top {
        PrependTop(p, q, qsize, sg, k, psize, nb);
      } else if oldfirst == dv {
        DvOut(sg, k, p, psize, nb);
        var dsize := dvsize;
        dv, dvsize := 0, 0;
        PrependFree(p, q, qsize, oldfirst, dsize, sg, k, psize, nb);
        SetDv(q, dsize + qsize);
      } else {
        if !head[oldfirst].cinuse {
          var nsize := head[oldfirst].size;
          FirstUnfiled(sg, k, p, psize, nb);
          TakeOut(oldfirst, nsize);
          PrependFree(p, q, qsize, oldfirst, nsize, sg, k, psize, nb);
          InsertChunk(q, qsize + nsize, {q});
        } else {
          PrependUsed(p, q, qsize, oldfirst, sg, k, psize, nb);
          InsertChunk(q, qsize, {q});
        }
        assert {q} - {q} == {};
      }
      mem := p + 16;
    }

    lemma FirstChunk(sg: seq<Segment>, k: nat, tbase: nat, tsize: nat, nb: nat)
      requires Extending(sg, k, tbase, tsize, nb, {})
      ensures tbase % 8 == 0 && k < |sg| && sg[k].base % 8 == 0 && sg[k].base > 0 && sg[k].base == tbase + tsize && nb <= tsize
      ensures AlignOffset(tbase + 16) == 0 && AlignOffset(sg[k].base + 16) == 0
      ensures sg[k].base in head && sg[k].base in starts && (head[sg[k].base].cinuse ==> sg[k].base in Blocks())
    {
      SegOk(H(), sg, k);
    }

    /** When the designated victim is the first chunk of the old region, it can be taken out. */
    lemma DvOut(sg: seq<Segment>, k: nat, tbase: nat, tsize: nat, nb: nat)
      requires Extending(sg, k, tbase, tsize, nb, {}) && k < |sg| && dv == sg[k].base && sg[k].base > 0
      ensures FreeChunk(H(), dv) && head[dv].size == dvsize
      ensures ArenaOk(H(), sg, F().(dv := 0, dvsize := 0), {dv})
    {
      hide HeapOk, SegmentsOk, Filed;
      TakeDv(H(), F(), {});
      assert {} + {dv} == {dv};
    }

    lemma FirstUnfiled(sg: seq<Segment>, k: nat, tbase: nat, tsize: nat, nb: nat)
      requires Extending(sg, k, tbase, tsize, nb, {}) && k < |sg| && dv != sg[k].base && top != sg[k].base
      requires sg[k].base in starts && sg[k].base in head && !head[sg[k].base].cinuse
      ensures var p := sg[k].base; var s := head[p].size;
              && FreeChunk(H(), p) && (s < 256 ==> p in small.bin && small.bin[p] == s / 8) && (s >= 256 ==> p in tree.size)
              && ArenaOk(H(), sg, Unfiled(F(), p, s), {p})
    {
      hide HeapOk, SegmentsOk, Filed;
      UnfiledOk(H(), F(), {}, sg[k].base);
      assert {} + {sg[k].base} == {sg[k].base};
    }

    // ----------------------------------------------------------------
    // alloc_sys

    /** The chunks that the allocator keeps for itself are in use. */
    ghost predicate Reserved(u: map<nat, nat>)
      reads this
    {
      msp in u && forall i :: 0 < i < |segs| ==> segs[i].rec in u
    }

    lemma ReservedNow(loose: set<nat>)
      requires Ready(loose)
      ensures Reserved(Blocks())
    {
      hide HeapOk, Filed;
      forall i | 0 < i < |segs| ensures segs[i].rec in Blocks() {
        RecordsUsed(H(), segs, i);
      }
    }

    /** A block that was handed out is a live block. */
    lemma BlockIsLive(u: map<nat, nat>, mem: nat, nb: nat)
      requires Valid() && Reserved(u) && HandedOut(u, Blocks(), mem, nb) && nb >= 8
      ensures Allocated(LiveBlocks(u, segs, msp, direct), Live(), mem, nb - 8) && Tight(mem, nb)
    {
      hide HeapOk, SegmentsOk, Filed, MapOk;
      var p := mem - 16;
      NotDirect(mapped, H(), segs, direct, p);
      KeptIsOk(H(), p);
      LiveAdded(u, segs, msp, direct, p, Blocks()[p]);
    }

    method SegmentEnding(addr: nat) returns (i: nat)
      ensures i <= |segs| && (i < |segs| ==> segs[i].base + segs[i].size == addr)
      ensures forall j :: 0 <= j < i ==> segs[j].base + segs[j].size != addr
    {
      i := 0;
      while i < |segs| && addr != segs[i].base + segs[i].size
        invariant 0 <= i <= |segs|
        invariant forall j :: 0 <= j < i ==> segs[j].base + segs[j].size != addr
      {
        i := i + 1;
      }
    }

    method SegmentStarting(addr: nat) returns (i: nat)
      ensures i <= |segs| && (i < |segs| ==> segs[i].base == addr)
      ensures forall j :: 0 <= j < i ==> segs[j].base != addr
    {
      i := 0;
      while i < |segs| && segs[i].base != addr
        invariant 0 <= i <= |segs|
        invariant forall j :: 0 <= j < i ==> segs[j].base != addr
      {
        i := i + 1;
      }
    }

    lemma PendingFresh(tbase: nat, tsize: nat)
      requires Pending(tbase, tsize)
      ensures FreshRegion(segs, tbase, tsize) && mapped == mapped - Range(tbase, tsize) + Range(tbase, tsize) && |segs| > 0
    {
      hide HeapOk, SegmentsOk, Filed, MapOk;
      AvailableIsFresh(mapped - Range(tbase, tsize), H(), segs, direct, tbase, tsize);
      SegmentsExist(H(), segs);
    }

    /** The segment that holds `top` is the first. */
    lemma TopInFirst(i: nat)
      requires Ready({}) && i < |segs| && segs[i].base <= top < segs[i].base + segs[i].size
      ensures i == 0
    {
      hide HeapOk, Filed;
      SegOk(H(), segs, 0);
      SegSeparate(H(), segs, i, 0);
    }

    /** The append case of alloc_sys */
    method AppendRegion(i: nat, tbase: nat, tsize: nat)
      requires Pending(tbase, tsize) && i < |segs| && segs[i].base + segs[i].size == tbase
      requires segs[i].base <= top < segs[i].base + segs[i].size
      modifies this`segs, this`head, this`ends, this`top, this`topsize, this`trim_check
      ensures Valid() && Live() == old(Live()) && topsize == old(topsize) + tsize
    {
      hide HeapOk, SegmentsOk, Filed, MapOk, Used, FreshRegion;
      ghost var h, sg, m0 := H(), segs, mapped - Range(tbase, tsize);
      PendingFresh(tbase, tsize);
      TopInFirst(i);
      AppendTopArena(h, segs, F(), tsize);
      AppendBytes(segs, tsize);
      segs := segs[i := segs[i].(size := segs[i].size + tsize)];
      InitTop(top, topsize + tsize);
      ends := AppendTop(h, tsize).ends;
      assert H() == AppendTop(h, tsize) && segs == AppendSegs(sg, tsize);
      GrowMap(m0, sg, segs, direct, tbase, tsize);
      LiveSameRecords(Blocks(), sg, segs, msp, direct);
    }

    /** The prepend case of alloc_sys */
    method PrependRegion(k: nat, tbase: nat, tsize: nat, nb: nat) returns (mem: nat)
      requires Pending(tbase, tsize) && k < |segs| && segs[k].base == tbase + tsize
      requires nb % 8 == 0 && MIN_CHUNK_SIZE <= nb && nb + MIN_CHUNK_SIZE <= tsize
      modifies this`segs, this`head, this`foot, this`starts, this`top, this`topsize, this`dv, this`dvsize, small, tree
      ensures Valid() && Allocated(old(Live()), Live(), mem, nb - 8) && Tight(mem, nb)
    {
      hide HeapOk, SegmentsOk, Filed, MapOk, Used, FreshRegion, SmallBins.BinsOk, TreeBins.BinsOk;
      ghost var sg, u, m0 := segs, Blocks(), mapped - Range(tbase, tsize);
      PendingFresh(tbase, tsize);
      ReservedNow({});
      ExtendBytes(segs, k, tbase, tsize);
      var oldbase := segs[k].base;
      segs := segs[k := segs[k].(base := tbase, size := segs[k].size + tsize)];
      GrowMap(m0, sg, segs, direct, tbase, tsize);
      LiveSameRecords(u, sg, segs, msp, direct);
      mem := PrependAlloc(tbase, oldbase, nb, sg, k);
      BlockIsLive(u, mem, nb);
    }

    /** The last case of alloc_sys */
    method AddRegion(tbase: nat, tsize: nat)
      requires Pending(tbase, tsize)
      modifies this`head, this`foot, this`starts, this`ends, this`top, this`topsize, this`trim_check, this`segs, small, tree
      ensures Valid() && Live() == old(Live()) && topsize == tsize - TOP_FOOT_SIZE
    {
      hide HeapOk, SegmentsOk, Filed, MapOk, Used, FreshRegion, SmallBins.BinsOk, TreeBins.BinsOk;
      ghost var sg, u, m0 := segs, Blocks(), mapped - Range(tbase, tsize);
      PendingFresh(tbase, tsize);
      AtLeastUnit(tsize);
      AddSegment(tbase, tsize);
      NewBytes(sg, segs[1].rec, tbase, tsize);
      GrowMap(m0, sg, segs, direct, tbase, tsize);
      UsedAreStarts(segs[1].rec);
      NotDirect(mapped, H(), segs, direct, segs[1].rec);
      LiveRecordAdded(u, sg, msp, direct, tbase, tsize, segs[1].rec);
    }

    lemma AtLeastUnit(tsize: nat)
      requires tsize > 0 && tsize % DEFAULT_GRANULARITY == 0
      ensures tsize >= DEFAULT_GRANULARITY
    {
    }

    lemma UsedAreStarts(p: nat)
      requires p in Blocks()
      ensures p in starts && p in head && head[p].cinuse && Blocks()[p] == head[p].size
    {
    }

    /** The size that alloc_sys asks for is enough for a new segment, unless it wrapped around. */
    lemma RegionSize(nb: nat)
      requires nb < W64
      ensures var rsize := AlignUp((nb + TOP_FOOT_SIZE + 1) % W64, DEFAULT_GRANULARITY);
              && rsize % DEFAULT_GRANULARITY == 0
              && (rsize > nb <==> nb + TOP_FOOT_SIZE + 1 + DEFAULT_GRANULARITY <= W64)
              && (rsize > nb ==> rsize >= nb + TOP_FOOT_SIZE + 1)
    {
      hide AlignUp;
      Wrapped(nb + TOP_FOOT_SIZE + 1);
      AlignUpUnit((nb + TOP_FOOT_SIZE + 1) % W64);
    }

    lemma DirectSize(nb: nat)
      requires DEFAULT_MMAP_THRESHOLD <= nb < W64
      ensures var mmsize := AlignUp(nb + 55, LJ_PAGESIZE);
              && mmsize % LJ_PAGESIZE == 0
              && (mmsize > nb <==> nb + 55 + LJ_PAGESIZE <= W64)
              && (mmsize > nb ==> mmsize >= nb + 55)
    {
      hide AlignUp;
      AlignUpPage(nb + 55);
    }

    /** The words that direct_alloc writes make a well-formed direct chunk of the region. */
    lemma DirectWords(mm: nat, mmsize: nat)
      requires mm > 0 && mm % LJ_PAGESIZE == 0 && mmsize % LJ_PAGESIZE == 0 && mmsize >= 55 && mm + mmsize < ADDRESS_LIMIT
      ensures AlignOffset(mm + 16) == 0 && mm % 8 == 0
      ensures var d := Direct(1, Head(mmsize - DIRECT_FOOT_PAD, false, true));
              DirectOk(mm, d) && DirectBytes(mm, d) == Range(mm, mmsize)
    {
      hide DirectOk, Range, DirectBytes;
      PageAligned(mm);
      Mod8(mm, 16);
      ResizedWords(mm, mmsize, Direct(1, Head(mmsize - DIRECT_FOOT_PAD, false, true)));
    }

    lemma PageAligned(x: nat)
      requires x % LJ_PAGESIZE == 0
      ensures x % 8 == 0
    {
      Multiple(x, 8, 512 * (x / LJ_PAGESIZE));
    }

    /** direct_alloc */
    method DirectAlloc(nb: nat) returns (mem: nat, ghost refused: bool)
      requires Valid() && DEFAULT_MMAP_THRESHOLD <= nb < W64
      modifies this`mapped, this`direct
      ensures Valid()
      ensures mem == 0 ==> Live() == old(Live()) && (refused || !Askable(nb))
      ensures mem != 0 ==> nb < MAX_REQUEST && Allocated(old(Live()), Live(), mem, nb - 8) && mem - 16 in direct
    {
      hide HeapOk, SegmentsOk, Filed, MapOk, DirectOk, DirectBytes, SmallBins.BinsOk, TreeBins.BinsOk, Range;
      mem, refused := 0, false;
      DirectSize(nb);
      var mmsize := AlignUp(nb + 55, LJ_PAGESIZE);
      if mmsize > nb {
        var mm := Mmap(mmsize);
        refused := mm == 0;
        if mm != 0 {
          DirectWords(mm, mmsize);
          var offset := AlignOffset(mm + 16);
          var psize := mmsize - offset - DIRECT_FOOT_PAD;
          var p := mm + offset;
          var d := Direct(offset + 1, Head(psize, false, true));
          AddDirect(old(mapped), segs, direct, p, d);
          assert p in Blocks() ==> p in direct[p := d] by {
          }
          NotUsed(old(mapped), direct[p := d], p);
          LiveDirectAdded(Blocks(), segs, msp, direct, p, d);
          direct := direct[p := d];
          mem := p + 16;
        }
      }
    }

    /** A directly mapped chunk is no chunk of a segment. */
    lemma NotUsed(m: set<nat>, dir: map<nat, Direct>, p: nat)
      requires Ready({}) && MapOk(m + (if p in dir then DirectBytes(p, dir[p]) else {}), segs, dir) && p in dir
      ensures p !in Blocks()
    {
      hide HeapOk, SegmentsOk, Filed, MapOk;
      if p in Blocks() {
        NotDirect(m + DirectBytes(p, dir[p]), H(), segs, dir, p);
      }
    }

    /** The part of alloc_sys behind the mapping: the region joins a segment, or becomes one. */
    method AllocFromRegion(tbase: nat, tsize: nat, nb: nat) returns (mem: nat)
      requires Pending(tbase, tsize) && nb % 8 == 0 && MIN_CHUNK_SIZE <= nb && nb + TOP_FOOT_SIZE < tsize
      modifies this, small, tree
      ensures Valid() && bytes == old(bytes)
      ensures Allocated(old(Live()), Live(), mem, nb - 8) && Tight(mem, nb)
    {
      hide HeapOk, SegmentsOk, Filed, MapOk, Used, LiveBlocks, SmallBins.BinsOk, TreeBins.BinsOk, Range, Available;
      mem := 0;
      var i := SegmentEnding(tbase);
      if i < |segs| && segs[i].base <= top < segs[i].base + segs[i].size {
        AppendRegion(i, tbase, tsize);
      } else {
        var k := SegmentStarting(tbase + tsize);
        if k < |segs| {
          mem := PrependRegion(k, tbase, tsize, nb);
          return;
        } else {
          AddRegion(tbase, tsize);
        }
      }
      if nb < topsize {
        ReservedNow({});
        ghost var u := Blocks();
        mem := TakeFromTop(nb);
        BlockIsLive(u, mem, nb);
      }
    }

    /** alloc_sys; it fails only if the operating system refuses a mapping, or none can be asked for. */
    method AllocSys(nb: nat) returns (mem: nat, ghost refused: bool)
      requires Valid() && MIN_CHUNK_SIZE <= nb < W64 && (nb % 8 == 0 || nb == MAX_SIZE_T)
      modifies this, small, tree
      ensures Valid() && bytes == old(bytes)
      ensures mem == 0 ==> Live() == old(Live()) && (refused || !Askable(nb))
      ensures mem != 0 ==> nb < MAX_REQUEST && Allocated(old(Live()), Live(), mem, nb - 8) && Tight(mem, nb)
      ensures mem != 0 && nb >= DEFAULT_MMAP_THRESHOLD ==> refused || mem - 16 in direct
    {
      hide HeapOk, SegmentsOk, Filed, MapOk, Used, LiveBlocks, SmallBins.BinsOk, TreeBins.BinsOk, AlignUp, Range, Pending;
      refused := false;
      if nb >= DEFAULT_MMAP_THRESHOLD {
        mem, refused := DirectAlloc(nb);
        if mem != 0 {
          return;
        }
      }
      ghost var live := Live();
      var tbase, tsize := 0, 0;
      RegionSize(nb);
      var req := (nb + TOP_FOOT_SIZE + 1) % W64;
      var rsize := AlignUp(req, DEFAULT_GRANULARITY);
      if rsize > nb {
        ghost var m := mapped;
        var mp := MmapSegment(rsize);
        refused := refused || mp == 0;
        if mp != 0 {
          tbase := mp;
          tsize := rsize;
          JustMapped(m, mp, rsize);
        }
      }
      if tbase != 0 {
        mem := AllocFromRegion(tbase, tsize, nb);
        return;
      }
      mem := 0;
    }

    lemma JustMapped(m: set<nat>, tbase: nat, tsize: nat)
      requires Ready({}) && MapOk(m, segs, direct) && Available(m, tbase, tsize) && mapped == m + Range(tbase, tsize) && Modest(segs, tsize)
      requires tsize > 0 && tsize % DEFAULT_GRANULARITY == 0
      ensures Pending(tbase, tsize)
    {
      hide HeapOk, SegmentsOk, Filed, MapOk;
      assert mapped - Range(tbase, tsize) == m;
    }

    // ----------------------------------------------------------------
    // lj_alloc_malloc

    /** The designated victim serves the request, wholly or in part. */
    method TakeFromDv(nb: nat) returns (mem: nat)
      requires Ready({}) && nb % 8 == 0 && MIN_CHUNK_SIZE <= nb <= dvsize
      modifies this`head, this`foot, this`starts, this`dv, this`dvsize
      ensures Ready({})
      ensures HandedOut(old(Blocks()), Blocks(), mem, nb) && mem - 16 == old(dv)
    {
      hide HeapOk, SegmentsOk, Filed;
      var rsize := dvsize - nb;
      var p := dv;
      var dvs := dvsize;
      DvIsFree();
      NoneLoose(dv);
      dvsize := 0;
      dv := 0;
      if rsize >= MIN_CHUNK_SIZE {
        var r := CutChunk(p, nb, rsize);
        SetDv(r, rsize);
      } else {
        SetInuseAndPinuse(p, dvs);
      }
      mem := p + 16;
    }

    lemma DvIsFree()
      requires Ready({}) && dvsize > 0
      ensures dv > 0 && FreeChunk(H(), dv) && head[dv].size == dvsize && dvsize % 8 == 0
      ensures Filed(H(), F().(dv := 0, dvsize := 0), {dv})
    {
      hide HeapOk, SegmentsOk;
      TakeDv(H(), F(), {});
      NoneLoose(dv);
      KeptIsOk(H(), dv);
    }

    /** The chunks of bin `i` are the least that fit, if it is the first bin whose chunks fit. */
    lemma SmallIsLeast(nb: nat, i: nat)
      requires Ready({}) && i in small.smallmap && i < SmallBins.NSMALLBINS && nb <= 8 * i && nb % 8 == 0
      requires forall j :: j in small.smallmap && nb / 8 <= j ==> i <= j
      ensures forall p :: p in small.bin && small.bin[p] == i ==> LeastFit(small.bin, tree.size, nb, p)
    {
      hide HeapOk, SegmentsOk;
      forall q | (q in small.bin || q in tree.size) && nb <= SizeIn(small.bin, tree.size, q)
        ensures 8 * i <= SizeIn(small.bin, tree.size, q)
      {
        assert FiledRight(H(), F(), q);
        if q in small.bin {
          small.Marked(q);
        }
      }
    }

    /** A least tree chunk is the least that fits, if no small chunk fits. */
    lemma TreeIsLeast(nb: nat, v: nat)
      requires Ready({}) && BestFit(nb, v) && nb % 8 == 0 && forall j :: j in small.smallmap ==> j < nb / 8
      ensures LeastFit(small.bin, tree.size, nb, v)
    {
      hide HeapOk, SegmentsOk;
      forall q | (q in small.bin || q in tree.size) && nb <= SizeIn(small.bin, tree.size, q)
        ensures q in tree.size && q !in small.bin
      {
        if q in small.bin {
          small.Marked(q);
        }
      }
      assert FiledRight(H(), F(), v);
    }

    /** The same for a large request, which no small chunk fits. */
    lemma LargeIsLeast(nb: nat)
      requires Ready({}) && nb % 8 == 0 && nb >= 256
      ensures forall v :: BestFit(nb, v) ==> LeastFit(small.bin, tree.size, nb, v)
      ensures SomeFit(small.bin, tree.size, nb) ==> exists x :: x in tree.size && nb <= tree.size[x]
    {
      hide HeapOk, SegmentsOk;
      forall j | j in small.smallmap ensures j < nb / 8 {
        small.MarkInside(j);
      }
      forall v | BestFit(nb, v) ensures LeastFit(small.bin, tree.size, nb, v) {
        TreeIsLeast(nb, v);
      }
      forall q | q in small.bin ensures SizeIn(small.bin, tree.size, q) < nb {
        small.Marked(q);
      }
    }

    /** unlink_first_small_chunk, whose chunk has the size of its bin */
    method TakeFirstSmall(i: nat) returns (p: nat)
      requires Ready({}) && i in small.smallmap
      modifies small
      ensures Ready({p}) && FreeChunk(H(), p) && head[p].size == 8 * i && F().(bin := old(small.bin)) == old(F())
      ensures p in old(small.bin) && old(small.bin)[p] == i
    {
      hide HeapOk, SegmentsOk;
      p := small.UnlinkFirstSmallChunk(i);
      TakeSmall(H(), old(F()), {}, p);
      NoneLoose(p);
      KeptIsOk(H(), p);
    }

    lemma NoSmallLeft(nb: nat, leftbits: set<nat>)
      requires Ready({}) && nb % 8 == 0 && nb / 8 !in small.smallmap
      requires leftbits == {} && leftbits == set i | i in small.smallmap && i > nb / 8
      ensures forall v :: BestFit(nb, v) ==> LeastFit(small.bin, tree.size, nb, v)
    {
      hide HeapOk, SegmentsOk, Filed;
      forall j | j in small.smallmap ensures j < nb / 8 {
        assert j !in leftbits;
      }
      forall v | BestFit(nb, v) ensures LeastFit(small.bin, tree.size, nb, v) {
        TreeIsLeast(nb, v);
      }
    }

    lemma NothingBinned(nb: nat, leftbits: set<nat>)
      requires Ready({}) && dvsize < nb && nb % 8 == 0 && nb / 8 !in small.smallmap && tree.treemap == {}
      requires leftbits == {} && leftbits == set i | i in small.smallmap && i > nb / 8
      ensures NoneBinned(nb)
    {
      hide HeapOk, SegmentsOk, Filed;
      tree.NoneMarked();
      forall p | p in small.bin ensures 8 * small.bin[p] < nb {
        small.Marked(p);
        assert small.bin[p] !in leftbits;
      }
    }

    /** The requests that the small bins or the tree bins serve when the designated victim cannot. */
    method SmallMalloc(nb: nat) returns (mem: nat)
      requires Ready({}) && nb % 8 == 0 && MIN_CHUNK_SIZE <= nb < 256
      modifies this`head, this`foot, this`starts, this`dv, this`dvsize, small, tree
      ensures Ready({})
      ensures mem == 0 ==> Blocks() == old(Blocks()) && H() == old(H()) && F() == old(F())
      ensures mem == 0 ==> nb <= dvsize || NoneBinned(nb)
      ensures mem != 0 ==> HandedOut(old(Blocks()), Blocks(), mem, nb) && LeastFit(old(small.bin), old(tree.size), nb, mem - 16)
    {
      hide HeapOk, SegmentsOk, Filed, SmallBins.BinsOk, TreeBins.BinsOk, LeastFit;
      mem := 0;
      var idx := nb / 8;
      if idx in small.smallmap || idx + 1 in small.smallmap {
        idx := if idx in small.smallmap then idx else idx + 1;
        small.MarkInside(idx);
        SmallIsLeast(nb, idx);
        var p := TakeFirstSmall(idx);
        SetInuseAndPinuse(p, idx * 8);
        mem := p + 16;
      } else if nb > dvsize {
        var leftbits := set i | i in small.smallmap && i > idx;
        if leftbits != {} {
          var i := TreeBins.FirstBit(leftbits);
          small.MarkInside(i);
          assert forall j :: j in small.smallmap && nb / 8 <= j ==> j in leftbits;
          SmallIsLeast(nb, i);
          var p := TakeFirstSmall(i);
          var rsize := i * 8 - nb;
          if rsize < MIN_CHUNK_SIZE {
            SetInuseAndPinuse(p, i * 8);
          } else {
            var r := CutChunk(p, nb, rsize);
            ReplaceDv(r, rsize);
          }
          mem := p + 16;
        } else if tree.treemap != {} {
          NoSmallLeft(nb, leftbits);
          mem := TmallocSmall(nb);
        } else {
          NothingBinned(nb, leftbits);
        }
      }
    }

    /** The sizes of the designated victim and of `top` are far from the largest word. */
    lemma SizesBelowLimit()
      requires Ready({})
      ensures dvsize < ADDRESS_LIMIT && topsize < ADDRESS_LIMIT
    {
      hide HeapOk, SegmentsOk, Filed;
      TopIsStart(H());
      KeptIsOk(H(), top);
      if dvsize > 0 {
        DvIsFree();
        KeptIsOk(H(), dv);
      }
    }

    /** No free chunk has `nb` bytes; `top` must have more, since some of it must be left. */
    ghost predicate NothingFits(nb: nat)
      reads this, small, tree
    {
      topsize <= nb && forall p :: FreeChunk(H(), p) ==> head[p].size < nb
    }

    lemma NothingFitsFrom(nb: nat)
      requires Ready({}) && topsize <= nb && NoneBinned(nb)
      ensures NothingFits(nb)
    {
      hide HeapOk, SegmentsOk;
      forall p | FreeChunk(H(), p) ensures head[p].size < nb {
        KeptIsOk(H(), p);
        assert FiledRight(H(), F(), p);
        assert IsFiled(F(), p);
      }
    }

    /** What is not binned, and neither the designated victim nor `top`, does not fit. */
    lemma UnbinnedFits(nsize: nat, nb: nat)
      requires Ready({}) && (nsize > MAX_SMALL_REQUEST ==> 256 <= nb)
      requires nsize <= MAX_SMALL_REQUEST ==> nb <= dvsize || NoneBinned(nb)
      requires nsize > MAX_SMALL_REQUEST && nb < ADDRESS_LIMIT && tree.treemap != {} ==>
                 forall x :: x in tree.size && nb <= tree.size[x] ==> nb <= dvsize
      ensures dvsize < nb && topsize <= nb ==> NothingFits(nb)
    {
      hide HeapOk, SegmentsOk, Filed, SmallBins.BinsOk, TreeBins.BinsOk, NothingFits;
      if dvsize < nb && topsize <= nb {
        if nsize > MAX_SMALL_REQUEST {
          if tree.treemap == {} {
            tree.NoneMarked();
          }
          NoneBinnedLarge(nb);
        }
        NothingFitsFrom(nb);
      }
    }

    /** Without a tree chunk or a small chunk of `nb` bytes, none is binned. */
    lemma NoneBinnedFits(nb: nat)
      requires Ready({})
      ensures NoneBinned(nb) ==> !SomeFit(small.bin, tree.size, nb)
      ensures tree.treemap == {} ==> tree.size == map[]
    {
      hide HeapOk, SegmentsOk, Filed;
      if tree.treemap == {} {
        tree.NoneMarked();
      }
    }

    /** A large request is beyond all small bins; the largest word is beyond all chunks. */
    lemma NoneBinnedLarge(nb: nat)
      requires Ready({}) && 256 <= nb && dvsize < nb
      requires nb >= ADDRESS_LIMIT || forall x :: x in tree.size ==> tree.size[x] < nb
      ensures NoneBinned(nb)
    {
      hide HeapOk, SegmentsOk;
      forall p | p in small.bin ensures 8 * small.bin[p] < nb {
        assert FiledRight(H(), F(), p);
      }
      forall x | x in tree.size ensures tree.size[x] < nb {
        TreeChunk(x);
        KeptIsOk(H(), x);
      }
    }

    /** The end of lj_alloc_malloc, where no bin has served the request. */
    method MallocUnbinned(nb: nat) returns (mem: nat, ghost refused: bool)
      requires Valid() && MIN_CHUNK_SIZE <= nb < W64 && (nb % 8 == 0 || nb == MAX_SIZE_T)
      requires dvsize < nb && topsize <= nb ==> NothingFits(nb)
      modifies this, small, tree
      ensures Valid() && bytes == old(bytes)
      ensures mem == 0 ==> Live() == old(Live()) && old(NothingFits(nb)) && (refused || !Askable(nb))
      ensures mem != 0 ==> nb < MAX_REQUEST && Allocated(old(Live()), Live(), mem, nb - 8) && Tight(mem, nb)
      ensures nb <= old(dvsize) ==> mem != 0 && mem - 16 == old(dv)
      ensures old(dvsize) < nb < old(topsize) ==> mem != 0 && mem - 16 == old(top)
    {
      hide HeapOk, SegmentsOk, Filed, MapOk, Used, LiveBlocks, SmallBins.BinsOk, TreeBins.BinsOk, NothingFits;
      ghost var u := Blocks();
      refused := false;
      ReservedNow({});
      SizesBelowLimit();
      if nb <= dvsize {
        mem := TakeFromDv(nb);
        BlockIsLive(u, mem, nb);
      } else if nb < topsize {
        mem := TakeFromTop(nb);
        BlockIsLive(u, mem, nb);
      } else {
        mem, refused := AllocSys(nb);
      }
    }

    /** lj_alloc_malloc; it fails only if nothing free fits, and the operating system refuses more or cannot be asked. */
    method Malloc(nsize: nat) returns (mem: nat, ghost refused: bool)
      requires Valid() && nsize < W64
      modifies this, small, tree
      ensures Valid() && bytes == old(bytes)
      ensures mem == 0 ==> Live() == old(Live())
      ensures mem == 0 ==> old(NothingFits(Need(nsize))) && (refused || !Askable(Need(nsize)))
      ensures mem != 0 ==> nsize < MAX_REQUEST && Allocated(old(Live()), Live(), mem, nsize) && Tight(mem, RequestSize(nsize))
      ensures nsize < MAX_REQUEST && SomeFit(old(small.bin), old(tree.size), RequestSize(nsize)) ==>
                mem != 0 && (LeastFit(old(small.bin), old(tree.size), RequestSize(nsize), mem - 16)
                             || (RequestSize(nsize) <= old(dvsize) && mem - 16 == old(dv)))
      ensures nsize < MAX_REQUEST && !SomeFit(old(small.bin), old(tree.size), RequestSize(nsize)) ==>
                && (RequestSize(nsize) <= old(dvsize) ==> mem != 0 && mem - 16 == old(dv))
                && (old(dvsize) < RequestSize(nsize) < old(topsize) ==> mem != 0 && mem - 16 == old(top))
    {
      hide HeapOk, SegmentsOk, Filed, MapOk, Used, LiveBlocks, SmallBins.BinsOk, TreeBins.BinsOk, LeastFit, SomeFit;
      ghost var u, bin, size := Blocks(), small.bin, tree.size;
      refused := false;
      ReservedNow({});
      RequestFits(nsize);
      var nb: nat;
      if nsize <= MAX_SMALL_REQUEST {
        nb := if nsize < MIN_REQUEST then MIN_CHUNK_SIZE else PadRequest(nsize);
        mem := SmallMalloc(nb);
        if mem != 0 {
          LeastIsSome(bin, size, nb, mem - 16);
          BlockIsLive(u, mem, nb);
          return;
        }
      } else if nsize >= MAX_REQUEST {
        nb := MAX_SIZE_T;
      } else {
        nb := PadRequest(nsize);
        LargeIsLeast(nb);
        if tree.treemap != {} {
          mem := TmallocLarge(nb);
          if mem != 0 {
            LeastIsSome(bin, size, nb, mem - 16);
            BlockIsLive(u, mem, nb);
            return;
          }
        }
      }
      UnbinnedFits(nsize, nb);
      NoneBinnedFits(nb);
      mem, refused := MallocUnbinned(nb);
    }

    // ----------------------------------------------------------------
    // System deallocation

    /** The only free chunk of an unused segment, which is the designated victim or a large chunk, is taken out. */
    method TakeOutFirst(k: nat, p: nat)
      requires Ready({}) && Unused(H(), segs, k) && p == segs[k].base
      modifies this`dv, this`dvsize, tree
      ensures Ready({p}) && FreeChunk(H(), p) && head[p].size >= 256
    {
      hide HeapOk, SegmentsOk, SmallBins.BinsOk, TreeBins.BinsOk;
      UnusedFirst(H(), segs, k);
      KeptPositive({}, p);
      NoneLoose(p);
      if p == dv {
        TakeDv(H(), F(), {});
        dv := 0;
        dvsize := 0;
      } else {
        WhereFiled(H(), F(), {}, p);
        UnlinkLarge(p);
      }
    }

    /** The record of segment `k` is unlinked, after its memory was unmapped. */
    method DropSegment(k: nat)
      requires Unused(H(), segs, k) && Ready({segs[k].base}) && FreeChunk(H(), segs[k].base)
      requires MapOk(mapped + Range(segs[k].base, segs[k].size), segs, direct) && Range(segs[k].base, segs[k].size) !! mapped
      modifies this`segs, this`starts, this`ends
      ensures Valid() && Live() == old(Live()) && segs == DropSegs(old(segs), k)
    {
      hide HeapOk, SegmentsOk, Filed, MapOk, SmallBins.BinsOk, TreeBins.BinsOk, LiveBlocks;
      ghost var h, sg, m := H(), segs, mapped + Range(segs[k].base, segs[k].size);
      DropArena(h, segs, F(), k);
      DropBytes(h, segs, k);
      ShrinkMap(m, segs, DropSegs(segs, k), direct, segs[k].base, segs[k].size);
      assert m - Range(segs[k].base, segs[k].size) == mapped;
      forall i | 0 < i < |segs| && i != k ensures segs[i].rec != segs[k].rec {
        RecordsDistinct(h, segs, i, k);
      }
      UsedAreStarts(segs[k].rec);
      NotDirect(m, h, segs, direct, segs[k].rec);
      LiveRecordDropped(Blocks(), segs, msp, direct, k);
      HeaderStays2(h, segs[k].rec, k);
      starts := Drop(h, segs, k).starts;
      ends := Drop(h, segs, k).ends;
      segs := segs[..k] + segs[k + 1..];
      assert H() == Drop(h, sg, k);
    }

    lemma HeaderStays2(h: Heap, q: nat, k: nat)
      requires HeaderOk() && h == H() && 0 < k < |segs| && q == segs[k].rec
      ensures msp in Used(h) - {q} && (Used(h) - {q})[msp] == Used(h)[msp]
    {
    }

    /** release_unused_segments; if the operating system refuses nothing, no unused segment is left. */
    method ReleaseUnusedSegments() returns (released: nat, ghost refused: nat)
      requires Valid()
      modifies this, small, tree
      ensures Valid() && bytes == old(bytes) && Live() == old(Live())
      ensures mapped <= old(mapped) && lost == old(lost) && release_checks > 0
      ensures Footprint(old(segs)) == Footprint(segs) + released
      ensures refused == 0 ==> forall k :: 0 < k < |segs| ==> !Unused(H(), segs, k)
      ensures direct == old(direct)
    {
      hide HeapOk, SegmentsOk, Filed, MapOk, SmallBins.BinsOk, TreeBins.BinsOk, LiveBlocks, Used, Footprint;
      released, refused := 0, 0;
      var nsegs := 0;
      var i := 1;
      while i < |segs|
        invariant Valid() && i >= 1 && bytes == old(bytes) && Live() == old(Live())
        invariant mapped <= old(mapped) && lost == old(lost)
        invariant Footprint(old(segs)) == Footprint(segs) + released && direct == old(direct)
        invariant refused == 0 ==> forall k :: 0 < k < i && k < |segs| ==> !Unused(H(), segs, k)
        decreases |segs| - i
      {
        nsegs := nsegs + 1;
        FootprintDrop(segs, i);
        ghost var h, sg := H(), segs;
        var r, no := ReleaseSegment(i);
        assert forall k :: 0 < k < i && Unused(H(), segs, k) ==> Unused(h, sg, k);
        refused := refused + if no then 1 else 0;
        if r > 0 {
          released := released + r;
        } else {
          i := i + 1;
        }
      }
      release_checks := if nsegs > MAX_RELEASE_CHECK_RATE then nsegs else MAX_RELEASE_CHECK_RATE;
    }

    lemma FirstOfSegment(i: nat)
      requires Ready({}) && 0 < i < |segs|
      ensures AlignOffset(segs[i].base + 16) == 0 && segs[i].base in head && segs[i].size > 0
    {
      hide HeapOk, Filed;
      SegOk(H(), segs, i);
    }

    lemma RegionMapped(i: nat)
      requires Valid() && i < |segs|
      ensures Range(segs[i].base, segs[i].size) <= mapped
      ensures mapped == mapped - Range(segs[i].base, segs[i].size) + Range(segs[i].base, segs[i].size)
    {
      hide HeapOk, SegmentsOk, Filed, MapOk;
      DropBytes(H(), segs, i);
      ShrinkMap(mapped, segs, DropSegs(segs, i), direct, segs[i].base, segs[i].size);
    }

    /** The body of the loop: the number of bytes that were released with segment `i`. */
    method ReleaseSegment(i: nat) returns (released: nat, ghost refused: bool)
      requires Valid() && 0 < i < |segs|
      modifies this, small, tree
      ensures Valid() && bytes == old(bytes) && Live() == old(Live()) && head == old(head)
      ensures if released > 0 then segs == DropSegs(old(segs), i) && released == old(segs)[i].size else segs == old(segs)
      ensures released == 0 && !refused ==> !Unused(H(), segs, i)
      ensures mapped <= old(mapped) && lost == old(lost)
      ensures direct == old(direct)
    {
      hide HeapOk, SegmentsOk, Filed, MapOk, SmallBins.BinsOk, TreeBins.BinsOk, LiveBlocks, Used, TreeIndex.Index, Trie.InBin;
      FirstOfSegment(i);
      RegionMapped(i);
      released, refused := 0, false;
      var base, size := segs[i].base, segs[i].size;
      var p := base + AlignOffset(base + 16);
      var psize := head[p].size;
      if !head[p].cinuse && p + psize == segs[i].rec {
        TakeOutFirst(i, p);
        var ok := Munmap(base, size);
        if ok {
          released := size;
          DropSegment(i);
        } else {
          refused := true;
          InsertLarge(p, psize, {p});
          NoneLoose(p);
        }
      }
    }

    /** Whether the record of a segment lies in segment `i`; the first record is part of the allocator state. */
    method HasSegmentLink(i: nat) returns (found: bool)
      requires i < |segs|
      ensures found <==> exists j :: 0 <= j < |segs| && segs[i].base <= RecordAddress(j) < segs[i].base + segs[i].size
    {
      var j := 0;
      while j < |segs|
        invariant 0 <= j <= |segs|
        invariant forall k :: 0 <= k < j ==> !(segs[i].base <= RecordAddress(k) < segs[i].base + segs[i].size)
      {
        if segs[i].base <= RecordAddress(j) < segs[i].base + segs[i].size {
          return true;
        }
        j := j + 1;
      }
      return false;
    }

    function RecordAddress(j: nat): nat
      requires j < |segs|
      reads this
    {
      if j == 0 then msp + SEG_OFS else segs[j].rec + 16
    }

    /** CALL_MREMAP without moving, which may fail. */
    method MremapInPlace(base: nat, oldsize: nat, newsize: nat) returns (ok: bool)
      requires newsize <= oldsize && Range(base + newsize, oldsize - newsize) <= mapped
      modifies this`mapped
      ensures mapped == if ok then old(mapped) - Range(base + newsize, oldsize - newsize) else old(mapped)
    {
      ok := *;
      if ok {
        mapped := mapped - Range(base + newsize, oldsize - newsize);
      }
    }

    /** What alloc_trim gives back leaves some of `top`, and whole units. */
    lemma ExtraIsLess(size: nat, pad: nat)
      requires size > pad
      ensures var extra := ((size - pad + (DEFAULT_GRANULARITY - 1)) / DEFAULT_GRANULARITY - 1) * DEFAULT_GRANULARITY;
              0 <= extra < size - pad && extra % DEFAULT_GRANULARITY == 0
    {
    }

    /** The end of `top` is given back. */
    method ShrinkTop(extra: nat)
      requires Ready({}) && |segs| > 0 && extra % DEFAULT_GRANULARITY == 0 && extra < topsize && extra <= segs[0].size
      requires var e := segs[0].base + segs[0].size - extra;
               Range(e, extra) !! mapped && MapOk(mapped + Range(e, extra), segs, direct)
      modifies this`segs, this`head, this`ends, this`top, this`topsize, this`trim_check
      ensures Valid() && Live() == old(Live()) && topsize == old(topsize) - extra
      ensures Footprint(old(segs)) == Footprint(segs) + extra
    {
      hide HeapOk, SegmentsOk, Filed, MapOk, SmallBins.BinsOk, TreeBins.BinsOk, LiveBlocks, Used;
      ghost var h, sg, e := H(), segs, segs[0].base + segs[0].size - extra;
      ghost var m := mapped + Range(e, extra);
      TrimTopArena(h, segs, F(), extra);
      TrimBytes(h, segs, extra);
      ShrinkMap(m, segs, TrimSegs(segs, extra), direct, e, extra);
      assert m - Range(e, extra) == mapped;
      FootprintFirst(segs, segs[0].(size := segs[0].size - extra));
      segs := segs[0 := segs[0].(size := segs[0].size - extra)];
      InitTop(top, topsize - extra);
      ends := TrimTop(h, extra).ends;
      assert H() == TrimTop(h, extra);
      LiveSameRecords(Blocks(), sg, segs, msp, direct);
    }

    lemma EndOfTopMapped(extra: nat)
      requires Valid() && |segs| > 0 && extra <= segs[0].size
      ensures var e := segs[0].base + segs[0].size - extra;
              Range(e, extra) <= mapped && mapped == mapped - Range(e, extra) + Range(e, extra)
    {
      hide HeapOk, SegmentsOk, Filed, MapOk;
      TrimBytes(H(), segs, extra);
      ShrinkMap(mapped, segs, TrimSegs(segs, extra), direct, segs[0].base + segs[0].size - extra, extra);
    }

    /** The segment that holds `top` is found first. */
    lemma FirstHoldsTop()
      requires Ready({})
      ensures |segs| > 0 && segs[0].base <= top < segs[0].base + segs[0].size && topsize <= segs[0].size
    {
      hide HeapOk, Filed;
      SegOk(H(), segs, 0);
    }

    /** The part of alloc_trim that shrinks `top` in units, and keeps at least one. */
    method TrimTopSegment(pad: nat) returns (released: nat)
      requires Valid() && topsize > pad
      modifies this
      ensures Valid() && bytes == old(bytes) && Live() == old(Live())
      ensures mapped <= old(mapped) && lost == old(lost) && topsize == old(topsize) - released && topsize > pad
      ensures Footprint(old(segs)) == Footprint(segs) + released
      ensures direct == old(direct)
    {
      hide HeapOk, SegmentsOk, Filed, MapOk, SmallBins.BinsOk, TreeBins.BinsOk, LiveBlocks, Used;
      FirstHoldsTop();
      ExtraIsLess(topsize, pad);
      var unit := DEFAULT_GRANULARITY;
      var extra := ((topsize - pad + (unit - 1)) / unit - 1) * unit;
      var sp := SegmentHolding(top);
      var pinned := HasSegmentLink(sp);
      released := 0;
      if segs[sp].size >= extra && !pinned {
        EndOfTopMapped(extra);
        var newsize := segs[sp].size - extra;
        var ok := MremapInPlace(segs[sp].base, segs[sp].size, newsize);
        if !ok {
          ok := Munmap(segs[sp].base + newsize, extra);
        }
        if ok {
          released := extra;
          ShrinkTop(extra);
        }
      }
    }

    /** alloc_trim: whether memory was given back */
    method AllocTrim(padding: nat) returns (any: bool)
      requires Valid()
      modifies this, small, tree
      ensures Valid() && bytes == old(bytes) && Live() == old(Live())
      ensures mapped <= old(mapped) && lost == old(lost)
      ensures Footprint(segs) <= Footprint(old(segs)) && (any <==> Footprint(segs) < Footprint(old(segs)))
      ensures direct == old(direct)
    {
      hide HeapOk, SegmentsOk, Filed, MapOk, SmallBins.BinsOk, TreeBins.BinsOk, LiveBlocks, Used;
      var released := 0;
      if padding < MAX_REQUEST && top != 0 {
        var pad := padding + TOP_FOOT_SIZE;
        if topsize > pad {
          released := TrimTopSegment(pad);
        }
        var more, _ := ReleaseUnusedSegments();
        released := released + more;
        if released == 0 && topsize > trim_check {
          trim_check := MAX_SIZE_T;
        }
      }
      any := released != 0;
    }

    // ----------------------------------------------------------------
    // lj_alloc_free

    /** A chunk of the heap that a caller may give back. */
    ghost predicate Freeable(q: nat)
      reads this
    {
      UserChunk(H(), segs, q) && q != msp
    }

    /** All but the files is in order. */
    ghost predicate Unlisted(f: Files, loose: set<nat>)
      reads this, small, tree
    {
      && small.Valid() && tree.Valid()
      && ArenaOk(H(), segs, f, loose) && head[top].size == topsize && HeaderOk()
    }

    /** Another chunk than that of the allocator state is given up. */
    lemma HeaderStays(h: Heap, q: nat)
      requires msp in Used(h) && q != msp && Used(H()) == Used(h) - {q}
      ensures msp in Blocks() && Blocks()[msp] == Used(h)[msp]
    {
    }

    /** The words that make one free chunk of a freed chunk `q` and the free chunk before it, if there is one. */
    method MergeBack(lo: nat, s: nat, next: nat, ghost q: nat, ghost f: Files)
      requires Freeable(q) && next == Next(H(), q) && next in head && head[next].cinuse
      requires Unlisted(f, MergeLoose(H(), q)) && lo == MergeLo(H(), q) && next == lo + s
      modifies this`head, this`foot, this`starts
      ensures Unlisted(f, {lo}) && FreeChunk(H(), lo) && head[lo].size == s && Blocks() == old(Blocks()) - {q}
    {
      hide HeapOk, SegmentsOk, Filed, Used, MergeLo;
      ghost var h := H();
      TopFree(h);
      MergeArena(h, segs, f, q);
      SetFreeWithPinuse(lo, s, next);
      starts := FreeRun(h, lo, next).starts;
      assert H() == FreeRun(h, lo, next);
      HeaderStays(h, q);
    }

    /** The words that also take in the free chunk behind. */
    method MergeForward(lo: nat, s: nat, ghost q: nat, ghost f: Files)
      requires Freeable(q) && Next(H(), q) in head && !head[Next(H(), q)].cinuse && Next(H(), q) != top
      requires Unlisted(f, MergeLoose(H(), q)) && lo == MergeLo(H(), q) && lo + s == Next(H(), Next(H(), q))
      modifies this`head, this`foot, this`starts
      ensures Unlisted(f, {lo}) && FreeChunk(H(), lo) && head[lo].size == s && Blocks() == old(Blocks()) - {q}
    {
      hide HeapOk, SegmentsOk, Filed, Used, MergeLo;
      ghost var h, hi := H(), lo + s;
      NextChunk(h, segs, q);
      MergeArena(h, segs, f, q);
      head := head[lo := Head(s, true, false)];
      foot := foot[lo + s := s];
      starts := FreeRun(h, lo, hi).starts;
      assert h.head[hi] == h.head[hi].(pinuse := false);
      assert H() == FreeRun(h, lo, hi);
      HeaderStays(h, q);
    }

    /** While `q` is freed: the chunk before it, if it is free, is out of its bin unless it is the designated victim. */
    ghost predicate Freeing(q: nat, lo: nat, psize: nat)
      reads this, small, tree
    {
      && Freeable(q) && lo == MergeLo(H(), q) && lo + psize == Next(H(), q)
      && Ready(if lo == q || lo == dv then {} else {lo})
    }

    /** The designated victim is free. */
    lemma DvNotUsed(loose: set<nat>, q: nat)
      requires Ready(loose) && q in Blocks()
      ensures q != dv
    {
      hide HeapOk, SegmentsOk;
      KeptIsOk(H(), q);
      assert FiledRight(H(), F(), q);
    }

    lemma DvLoose(loose: set<nat>)
      requires Ready(loose) && dv != 0
      ensures Unlisted(F().(dv := 0, dvsize := 0), loose + {dv})
      ensures FreeChunk(H(), dv) && head[dv].size == dvsize > 0
    {
      hide HeapOk, SegmentsOk;
      TakeDv(H(), F(), loose);
    }

    lemma LooseSets(q: nat)
      requires Ready({}) && Freeable(q)
      ensures Next(H(), q) in head && Next(H(), q) in starts && MergeLo(H(), q) in head && MergeLo(H(), q) > 0
      ensures var lo, n := MergeLo(H(), q), Next(H(), q);
              && MergeLoose(H(), q) == (if lo == q then {} else {lo}) + (if head[n].cinuse then {} else {n})
              && n != lo
    {
      hide HeapOk, SegmentsOk;
      NextChunk(H(), segs, q);
      MergeLoFacts(H(), q);
    }

    /** Freeing before a chunk in use, when the chunk before is the designated victim. */
    method FreeBehindDv(p: nat, psize: nat, next: nat, ghost q: nat)
      requires Ready({}) && Freeing(q, p, psize) && p == dv && next == Next(H(), q) && next in head && head[next].cinuse
      modifies this`head, this`foot, this`starts, this`dvsize
      ensures Ready({}) && Blocks() == old(Blocks()) - {q}
    {
      hide HeapOk, SegmentsOk, Filed, Used, MergeLo, SmallBins.BinsOk, TreeBins.BinsOk;
      LooseSets(q);
      DvNotUsed({}, q);
      DvLoose({});
      ghost var f := F().(dv := 0, dvsize := 0);
      UserNext(H(), segs, q);
      assert MergeLoose(H(), q) == {} + {dv};
      MergeBack(p, psize, next, q, f);
      dvsize := psize;
      FileDv(H(), f, {p}, p);
      NoneLoose(p);
    }

    /** Freeing before `top`. */
    method FreeIntoTop(p: nat, psize: nat, next: nat, ghost q: nat)
      requires Freeing(q, p, psize) && next == Next(H(), q) && next == top
      modifies this`head, this`starts, this`top, this`topsize, this`dv, this`dvsize
      ensures Ready({}) && Blocks() == old(Blocks()) - {q} && topsize == old(topsize) + psize
    {
      hide HeapOk, SegmentsOk, Filed, Used, MergeLo, SmallBins.BinsOk, TreeBins.BinsOk;
      ghost var h := H();
      MergeLoFacts(h, q);
      DvNotUsed(if p == q || p == dv then {} else {p}, q);
      if p == dv {
        DvLoose({});
        NoneLoose(p);
      }
      ghost var f := if p == dv then F().(dv := 0, dvsize := 0) else F();
      MergeTopArena(h, segs, f, q);
      topsize := topsize + psize;
      top := p;
      head := head[p := Head(topsize, true, false)];
      starts := FreeToTop(h, p).starts;
      if p == dv {
        dv := 0;
        dvsize := 0;
      }
      assert H() == FreeToTop(h, p);
      HeaderStays(h, q);
    }

    /** Freeing before the designated victim. */
    method FreeIntoDv(p: nat, psize: nat, next: nat, ghost q: nat)
      requires Freeing(q, p, psize) && next == Next(H(), q) && next == dv && p != dv && next in head && !head[next].cinuse && next != top
      modifies this`head, this`foot, this`starts, this`dv, this`dvsize
      ensures Ready({}) && Blocks() == old(Blocks()) - {q}
    {
      hide HeapOk, SegmentsOk, Filed, Used, MergeLo, SmallBins.BinsOk, TreeBins.BinsOk;
      ghost var loose: set<nat> := if p == q then {} else {p};
      MergeLoFacts(H(), q);
      NextChunk(H(), segs, q);
      DvLoose(loose);
      ghost var f := F().(dv := 0, dvsize := 0);
      UserNext(H(), segs, q);
      assert MergeLoose(H(), q) == loose + {dv};
      var dsize := dvsize + psize;
      MergeForward(p, dsize, q, f);
      dvsize := dsize;
      dv := p;
      FileDv(H(), f, {p}, p);
      NoneLoose(p);
    }

    /** Freeing before another free chunk: the merged chunk is the designated victim if it starts with it, or else loose. */
    method FreeIntoNext(p: nat, psize: nat, next: nat, ghost q: nat) returns (s: nat)
      requires Freeing(q, p, psize) && next == Next(H(), q) && next != dv && next in head && !head[next].cinuse && next != top
      modifies this`head, this`foot, this`starts, this`dvsize, small, tree
      ensures Blocks() == old(Blocks()) - {q} && dv == old(dv)
      ensures if p == dv then Ready({}) else Ready({p}) && FreeChunk(H(), p) && head[p].size == s
    {
      hide HeapOk, SegmentsOk, Filed, Used, MergeLo, SmallBins.BinsOk, TreeBins.BinsOk;
      ghost var loose: set<nat> := if p == q || p == dv then {} else {p};
      MergeLoFacts(H(), q);
      NextChunk(H(), segs, q);
      UserNext(H(), segs, q);
      DvNotUsed(loose, q);
      var nsize := head[next].size;
      s := psize + nsize;
      UnlinkChunk(next, nsize, loose);
      if p == dv {
        assert loose + {next} == {next};
        DvLoose({next});
        ghost var f := F().(dv := 0, dvsize := 0);
        assert MergeLoose(H(), q) == {next} + {dv};
        MergeForward(p, s, q, f);
        dvsize := s;
        FileDv(H(), f, {p}, p);
        NoneLoose(p);
      } else {
        assert MergeLoose(H(), q) == loose + {next};
        MergeForward(p, s, q, F());
      }
    }

    /** Freeing before a chunk in use, when the chunk before is not the designated victim. */
    method FreeAlone(p: nat, psize: nat, next: nat, ghost q: nat)
      requires Freeing(q, p, psize) && p != dv && next == Next(H(), q) && next in head && head[next].cinuse
      modifies this`head, this`foot, this`starts
      ensures Ready({p}) && FreeChunk(H(), p) && head[p].size == psize && Blocks() == old(Blocks()) - {q}
    {
      hide HeapOk, SegmentsOk, Filed, Used, MergeLo, SmallBins.BinsOk, TreeBins.BinsOk;
      MergeLoFacts(H(), q);
      UserNext(H(), segs, q);
      assert MergeLoose(H(), q) == if p == q then {} else {p};
      MergeBack(p, psize, next, q, F());
    }

    /** The last step of lj_alloc_free: the merged chunk is binned, and unused segments are released now and then. */
    method BinFreed(p: nat, psize: nat)
      requires Ready({p}) && FreeChunk(H(), p) && head[p].size == psize && MapOk(mapped, segs, direct)
      modifies this, small, tree
      ensures Valid() && bytes == old(bytes) && Live() == old(Live())
      ensures mapped <= old(mapped) && lost == old(lost)
      ensures direct == old(direct)
    {
      hide HeapOk, SegmentsOk, Filed, MapOk, SmallBins.BinsOk, TreeBins.BinsOk, LiveBlocks, Used;
      NoneLoose(p);
      if psize / 8 < SmallBins.NSMALLBINS {
        InsertChunk(p, psize, {p});
      } else {
        InsertLarge(p, psize, {p});
        release_checks := (release_checks + MAX_SIZE_T) % W64;
        if release_checks == 0 {
          var r, _ := ReleaseUnusedSegments();
        }
      }
    }

    /** The word of a chunk head, and the foot before it, wherever the chunk lies. */
    function HeadAt(p: nat): Head
      requires p in direct || p in head
      reads this
    {
      if p in direct then direct[p].head else head[p]
    }

    function FootAt(p: nat): nat
      requires p in direct || p in foot
      reads this
    {
      if p in direct then direct[p].prevFoot else foot[p]
    }

    /** The bits of a live block tell whether it is directly mapped. */
    lemma DirectBit(p: nat)
      requires Valid() && p in Live()
      ensures p in direct || p in head
      ensures !HeadAt(p).pinuse ==> p in direct || p in foot
      ensures p in direct <==> !HeadAt(p).pinuse && FootAt(p) % 2 == 1
      ensures p in direct ==> FootAt(p) % 2 == 1 && FootAt(p) <= p + 1 && p !in Blocks() && DirectOk(p, direct[p])
      ensures p !in direct ==> Freeable(p) && Live()[p] == HeadAt(p).size - 8 && HeadAt(p).size >= MIN_CHUNK_SIZE
    {
      hide HeapOk, SegmentsOk, Filed;
      if p in direct {
        assert DirectOk(p, direct[p]);
        if p in Blocks() {
          NotDirect(mapped, H(), segs, direct, p);
        }
      } else {
        assert !Internal(segs, msp, p);
        KeptIsOk(H(), p);
        if !head[p].pinuse {
          PrevChunk(H(), p);
        }
      }
    }

    /** The region of a directly mapped chunk is given back; if that fails, it is lost. */
    method FreeDirect(p: nat, prevsize: nat, size: nat)
      requires Valid() && p in direct && prevsize == Offset(direct[p]) <= p && p !in Blocks()
      requires size == direct[p].head.size + prevsize + DIRECT_FOOT_PAD
      modifies this`mapped, this`direct, this`lost
      ensures Valid() && Live() == old(Live()) - {p} && mapped == old(mapped) - Range(p - prevsize, size)
      ensures lost == old(lost) || lost == old(lost) + Range(p - prevsize, size)
      ensures direct == old(direct) - {p}
    {
      hide HeapOk, SegmentsOk, Filed, MapOk, SmallBins.BinsOk, TreeBins.BinsOk, LiveBlocks;
      RemoveDirect(mapped, segs, direct, p);
      LiveDirectRemoved(Blocks(), segs, msp, direct, p);
      assert DirectBytes(p, direct[p]) == Range(p - prevsize, size);
      var ok := Munmap(p - prevsize, size);
      if !ok {
        lost := lost + Range(p - prevsize, size);
        mapped := mapped - Range(p - prevsize, size);
      }
      direct := direct - {p};
    }

    /** Consolidation with the chunk behind. */
    method FreeForward(p0: nat, psize0: nat, next: nat, ghost q: nat)
      requires Freeing(q, p0, psize0) && MapOk(mapped, segs, direct) && next == Next(H(), q) && next in head
      requires p0 < next && (p0 == dv ==> !head[next].cinuse)
      modifies this, small, tree
      ensures Valid() && bytes == old(bytes) && Live() == LiveBlocks(old(Blocks()) - {q}, old(segs), msp, old(direct))
      ensures mapped <= old(mapped) && lost == old(lost)
      ensures direct == old(direct)
    {
      hide HeapOk, SegmentsOk, Filed, MapOk, SmallBins.BinsOk, TreeBins.BinsOk, LiveBlocks, Used, MergeLo;
      var p, psize := p0, psize0;
      if !head[next].cinuse {
        if next == top {
          FreeIntoTop(p, psize, next, q);
          if topsize > trim_check {
            var any := AllocTrim(0);
          }
          return;
        } else if next == dv {
          FreeIntoDv(p, psize, next, q);
          return;
        } else {
          psize := FreeIntoNext(p, psize, next, q);
          if p == dv {
            return;
          }
        }
      } else {
        FreeAlone(p, psize, next, q);
      }
      BinFreed(p, psize);
    }

    /** What lj_alloc_free does with a block that is not directly mapped. */
    method FreeChunkInHeap(q: nat)
      requires Valid() && Freeable(q)
      modifies this, small, tree
      ensures Valid() && bytes == old(bytes) && Live() == old(Live()) - {q}
      ensures mapped <= old(mapped) && lost == old(lost)
      ensures direct == old(direct)
    {
      hide HeapOk, SegmentsOk, Filed, MapOk, SmallBins.BinsOk, TreeBins.BinsOk, LiveBlocks, Used;
      LooseSets(q);
      DvNotUsed({}, q);
      UserNext(H(), segs, q);
      MergeLoFacts(H(), q);
      ghost var u, dir := Blocks(), direct;
      NotDirect(mapped, H(), segs, direct, q);
      LiveRemoved(u, segs, msp, direct, q);
      var p, psize := q, head[q].size;
      var next := p + psize;
      if !head[p].pinuse {
        PrevChunk(H(), q);
        var prevsize := foot[p];
        var prev := p - prevsize;
        psize := psize + prevsize;
        p := prev;
        if p != dv {
          UnlinkChunk(p, prevsize, {});
          NoneLoose(p);
        } else if head[next].cinuse && head[next].pinuse {
          FreeBehindDv(p, psize, next, q);
          return;
        }
      }
      FreeForward(p, psize, next, q);
    }

    /** lj_alloc_free */
    method Free(ptr: nat)
      requires Valid() && (ptr != 0 ==> ptr >= 16 && ptr - 16 in Live())
      modifies this, small, tree
      ensures Valid() && bytes == old(bytes)
      ensures Live() == if ptr == 0 then old(Live()) else old(Live()) - {ptr - 16}
      ensures mapped <= old(mapped)
      ensures direct == if ptr == 0 then old(direct) else old(direct) - {ptr - 16}
    {
      hide HeapOk, SegmentsOk, Filed, MapOk, SmallBins.BinsOk, TreeBins.BinsOk, LiveBlocks, Used;
      if ptr != 0 {
        var p := ptr - 16;
        DirectBit(p);
        if !HeadAt(p).pinuse && FootAt(p) % 2 == 1 {
          var prevsize := FootAt(p) - 1;
          var psize := HeadAt(p).size + prevsize + DIRECT_FOOT_PAD;
          FreeDirect(p, prevsize, psize);
        } else {
          FreeChunkInHeap(p);
        }
      }
    }

    // ----------------------------------------------------------------
    // lj_alloc_realloc

    /** memcpy, of blocks that do not overlap */
    method Memcpy(dst: nat, src: nat, n: nat)
      requires dst + n <= src || src + n <= dst
      modifies this`bytes
      ensures Moved(old(bytes), bytes, src, dst, n)
      ensures KeptBut(old(bytes), bytes, dst, n)
      ensures (old(Valid()) ==> Valid()) && Live() == old(Live())
    {
      hide HeapOk, SegmentsOk, Filed, MapOk, SmallBins.BinsOk, TreeBins.BinsOk, LiveBlocks;
      var i := 0;
      while i < n
        invariant (old(Valid()) ==> Valid()) && Live() == old(Live())
        invariant 0 <= i <= n && Moved(old(bytes), bytes, src, dst, i)
        invariant KeptBut(old(bytes), bytes, dst, i)
      {
        ghost var before := bytes;
        bytes := bytes[dst + i := ByteAt(bytes, src + i)];
        assert forall x: nat :: x != dst + i ==> ByteAt(bytes, x) == ByteAt(before, x);
        i := i + 1;
      }
    }

    /** CALL_MREMAP that may move the region, with what it holds; it fails for size zero. */
    method MremapMove(base: nat, oldsize: nat, newsize: nat) returns (cp: nat)
      requires Range(base, oldsize) <= mapped
      modifies this`mapped, this`bytes
      ensures newsize == 0 ==> cp == 0
      ensures cp == 0 ==> mapped == old(mapped) && bytes == old(bytes)
      ensures cp != 0 ==> Available(old(mapped) - Range(base, oldsize) + lost, cp, newsize)
                          && mapped == old(mapped) - Range(base, oldsize) + Range(cp, newsize)
                          && Moved(old(bytes), bytes, base, cp, Min(oldsize, newsize))
                          && KeptBut(old(bytes), bytes, cp, newsize)
    {
      cp :| 0 <= cp < ADDRESS_LIMIT && (cp == 0 || (newsize > 0 && Available(mapped - Range(base, oldsize) + lost, cp, newsize)));
      if cp != 0 {
        mapped := mapped - Range(base, oldsize) + Range(cp, newsize);
        bytes := map x | x in bytes.Keys + Range(cp, newsize) ::
                   if x in Range(cp, newsize) then ByteAt(bytes, base + (x - cp)) else ByteAt(bytes, x);
      }
    }

    /** Unlike direct_alloc, direct_resize does not check for a wrap-around; the wrapped size is zero. */
    lemma ResizeSize(nsize: nat)
      requires nsize < MAX_REQUEST && RequestSize(nsize) >= 256
      ensures var nb := RequestSize(nsize); var newmmsize := AlignUp(nb + 55, LJ_PAGESIZE);
              newmmsize % LJ_PAGESIZE == 0 && (newmmsize == 0 || newmmsize >= nb + 55)
    {
      hide AlignUp, RequestSize;
      SizeBound(nsize);
      AlignUpPage(RequestSize(nsize) + 55);
    }

    lemma SizeBound(nsize: nat)
      requires nsize < MAX_REQUEST
      ensures RequestSize(nsize) <= W64 - 114
    {
    }

    /** direct_resize: the chunk may stay, move, or, when the result is zero, not fit. */
    method DirectResize(oldp: nat, nb: nat, ghost nsize: nat) returns (newp: nat)
      requires Valid() && oldp in direct && oldp !in Blocks() && nsize < MAX_REQUEST && nb == RequestSize(nsize)
      modifies this`mapped, this`bytes, this`direct
      ensures Valid()
      ensures newp == 0 ==> unchanged(this)
      ensures old(FitsInPlace(oldp, nb)) ==> newp == oldp
      ensures newp != 0 ==> Reallocated(old(Live()), Live(), oldp + 16, newp + 16, nsize)
      ensures newp != 0 ==> Moved(old(bytes), bytes, oldp + 16, newp + 16, Min(old(Live())[oldp], nsize))
      ensures OthersKept(old(Live()), old(bytes), bytes, oldp)
      ensures newp != 0 ==> newp in direct
    {
      hide HeapOk, SegmentsOk, Filed, MapOk, SmallBins.BinsOk, TreeBins.BinsOk, AlignUp, Range, DirectOk;
      RequestFits(nsize);
      DirectFacts(oldp);
      var oldsize := direct[oldp].head.size;
      if nb / 8 < SmallBins.NSMALLBINS {
        return 0;
      }
      if oldsize >= nb + 8 && oldsize - nb <= DEFAULT_GRANULARITY / 2 {
        return oldp;
      }
      newp := DirectRemap(oldp, nb, nsize);
    }

    /** A directly mapped chunk whose region is gone, and one in a new region. */
    lemma DirectSwapped(m: set<nat>, oldp: nat, newp: nat, d: Direct)
      requires Ready({}) && oldp in direct && oldp !in Blocks() && MapOk(m, segs, direct - {oldp})
      requires DirectOk(newp, d) && DirectBytes(newp, d) !! m
      ensures var dir := (direct - {oldp})[newp := d];
              && MapOk(m + DirectBytes(newp, d), segs, dir)
              && LiveBlocks(Blocks(), segs, msp, dir) == (Live() - {oldp})[newp := Room(d.head.size, 16)]
              && newp !in Live() - {oldp}
    {
      hide HeapOk, SegmentsOk, Filed, MapOk, SmallBins.BinsOk, TreeBins.BinsOk, DirectOk, DirectBytes, LiveBlocks, Used;
      ghost var dir := direct - {oldp};
      AddDirect(m, segs, dir, newp, d);
      NotUsed(m, dir[newp := d], newp);
      LiveDirectRemoved(Blocks(), segs, msp, direct, oldp);
      LiveDirectAdded(Blocks(), segs, msp, dir, newp, d);
    }

    /** The part of direct_resize that remaps the region. */
    method DirectRemap(oldp: nat, nb: nat, ghost nsize: nat) returns (newp: nat)
      requires Valid() && oldp in direct && oldp !in Blocks() && nsize < MAX_REQUEST && nb == RequestSize(nsize) >= 256
      modifies this`mapped, this`bytes, this`direct
      ensures Valid()
      ensures newp == 0 ==> unchanged(this)
      ensures newp != 0 ==> Reallocated(old(Live()), Live(), oldp + 16, newp + 16, nsize)
      ensures newp != 0 ==> Moved(old(bytes), bytes, oldp + 16, newp + 16, Min(old(Live())[oldp], nsize))
      ensures OthersKept(old(Live()), old(bytes), bytes, oldp)
      ensures newp != 0 ==> newp in direct
    {
      hide HeapOk, SegmentsOk, Filed, MapOk, SmallBins.BinsOk, TreeBins.BinsOk, AlignUp, Range, DirectOk, DirectBytes, Payload,
           LiveBlocks, Used, Moved, KeptBut, RequestSize;
      RequestFits(nsize);
      DirectFacts(oldp);
      var oldsize := direct[oldp].head.size;
      ResizeSize(nsize);
      var offset := direct[oldp].prevFoot - 1;
      var oldmmsize := oldsize + offset + DIRECT_FOOT_PAD;
      var newmmsize := AlignUp(nb + 55, LJ_PAGESIZE);
      RemoveDirect(mapped, segs, direct, oldp);
      OthersOutside(oldp);
      ghost var m := mapped - DirectBytes(oldp, direct[oldp]);
      var cp := MremapMove(oldp - offset, oldmmsize, newmmsize);
      if cp == 0 {
        return 0;
      }
      OthersKeptBy(old(Live()), old(bytes), bytes, oldp, m, cp, newmmsize);
      MovedInside(old(bytes), bytes, oldp, cp, Min(oldmmsize, newmmsize), 16, Min(old(Live())[oldp], nsize));
      newp := cp + offset;
      var psize := newmmsize - offset - DIRECT_FOOT_PAD;
      var d := Direct(direct[oldp].prevFoot, Head(psize, false, true));
      ResizedWords(cp, newmmsize, d);
      assert newp == cp;
      DirectSwapped(m, oldp, newp, d);
      direct := (direct - {oldp})[newp := d];
    }

    lemma ResizedWords(cp: nat, newmmsize: nat, d: Direct)
      requires cp > 0 && cp % LJ_PAGESIZE == 0 && newmmsize % LJ_PAGESIZE == 0 && cp + newmmsize < ADDRESS_LIMIT
      requires d.prevFoot == 1 && newmmsize >= 55 && d.head == Head(newmmsize - DIRECT_FOOT_PAD, false, true)
      ensures DirectOk(cp, d) && DirectBytes(cp, d) == Range(cp, newmmsize) && cp % 8 == 0
    {
      hide Range;
      PageAligned(cp);
      PageAligned(newmmsize);
      Mod8(newmmsize, DIRECT_FOOT_PAD);
    }

    /** The bytes of all other blocks are mapped, and outside the region of a directly mapped chunk. */
    lemma OthersOutside(p: nat)
      requires Valid() && p in direct
      ensures forall q, x :: q in Live() && q != p && x in Payload(Live(), q) ==> x in mapped - DirectBytes(p, direct[p])
    {
      hide HeapOk, SegmentsOk, Filed, MapOk, SmallBins.BinsOk, TreeBins.BinsOk, LiveBlocks, Payload, DirectBytes, SegBytes;
      forall q, x | q in Live() && q != p && x in Payload(Live(), q) ensures x in mapped - DirectBytes(p, direct[p]) {
        PayloadOwner(mapped, H(), segs, msp, direct, q, x);
        if x in DirectBytes(p, direct[p]) {
          assert InDirect(direct, p, x);
          DirectNotInSegments(p, x);
          if q in direct {
            DirectsApart(mapped, segs, direct, p, q, x);
          }
        }
      }
    }

    lemma DirectNotInSegments(p: nat, x: nat)
      requires Valid() && InDirect(direct, p, x)
      ensures x !in SegBytes(segs)
    {
    }

    lemma DirectFacts(p: nat)
      requires Valid() && p in direct && p !in Blocks()
      ensures var d := direct[p];
              && DirectOk(p, d) && d.prevFoot % 2 == 1 && Offset(d) == d.prevFoot - 1 <= p && d.head.size >= 16 && p % 8 == 0 && p > 0
              && DirectBytes(p, d) == Range(p - Offset(d), Offset(d) + d.head.size + DIRECT_FOOT_PAD)
              && p in Live() && Live()[p] == d.head.size - 16 && d.prevFoot == 1
    {
      assert DirectOk(p, direct[p]);
    }

    // Reallocation in place

    /** The word at `n`, which may never have been written. */
    function WordAt(n: nat): Head
      reads this
    {
      if n in head then head[n] else Head(0, false, false)
    }

    /** set_inuse */
    method SetInuse(p: nat, s: nat)
      requires p in head && s > 0
      modifies this`head
      ensures head == old(head)[p := Head(s, old(head)[p].pinuse, true)][p + s := old(WordAt(p + s)).(pinuse := true)]
    {
      head := head[p := Head(s, head[p].pinuse, true)];
      head := head[p + s := WordAt(p + s).(pinuse := true)];
    }

    lemma LiveIsFreeable(p: nat)
      requires Valid() && p in Live() && p !in direct
      ensures Freeable(p) && p in head && Live()[p] == head[p].size - 8 && head[p].size >= MIN_CHUNK_SIZE && p % 8 == 0
    {
      DirectBit(p);
      UserNext(H(), segs, p);
      KeptIsOk(H(), p);
    }

    /** A block in use is cut in two. */
    method CutInUse(p: nat, nb: nat, rem: nat, rsize: nat)
      requires Valid() && p in Live() && p !in direct && nb % 8 == 0 && MIN_CHUNK_SIZE <= nb
      requires p in head && nb + rsize == head[p].size && rsize >= MIN_CHUNK_SIZE && rem == p + nb
      modifies this`head, this`starts
      ensures Valid() && Live() == old(Live())[p := nb - 8][rem := rsize - 8] && rem !in old(Live())
    {
      hide HeapOk, SegmentsOk, Filed, MapOk, SmallBins.BinsOk, TreeBins.BinsOk, LiveBlocks, Used;
      LiveIsFreeable(p);
      ReservedNow({});
      UserNext(H(), segs, p);
      ghost var h, u := H(), Blocks();
      TopIsStart(h);
      StartsOutside(h, p);
      TopFree(h);
      SplitUsedArena(h, segs, F(), {}, p, nb);
      SetInuse(p, nb);
      SetInuse(rem, rsize);
      starts := starts + {rem};
      assert head == SplitUsed(h, p, nb).head;
      assert H() == SplitUsed(h, p, nb);
      ShrunkLive(h, u, p, nb, rsize);
    }

    /** A block that is much too big gives back its end. */
    method ShrinkInPlace(p: nat, nb: nat)
      requires Valid() && p in Live() && p !in direct && nb % 8 == 0 && MIN_CHUNK_SIZE <= nb
      requires p in head && nb + MIN_CHUNK_SIZE <= head[p].size
      modifies this, small, tree
      ensures Valid() && bytes == old(bytes) && Live() == old(Live())[p := nb - 8]
    {
      hide HeapOk, SegmentsOk, Filed, MapOk, SmallBins.BinsOk, TreeBins.BinsOk, LiveBlocks, Used;
      var rsize := head[p].size - nb;
      var rem := p + nb;
      CutInUse(p, nb, rem, rsize);
      assert rem in Live();
      Free(rem + 16);
    }

    /** After the split: two blocks, of which the second is new. */
    lemma ShrunkLive(h: Heap, u: map<nat, nat>, p: nat, nb: nat, rsize: nat)
      requires ArenaOk(H(), segs, F(), {}) && MapOk(mapped, segs, direct)
      requires Blocks() == u[p := nb][p + nb := rsize] && p in u && p != msp && p !in direct && p + nb !in u && msp in u && Reserved(u)
      requires !Internal(segs, msp, p) && nb >= 8 && rsize >= 8
      ensures Live() == LiveBlocks(u, segs, msp, direct)[p := nb - 8][p + nb := rsize - 8] && p + nb !in LiveBlocks(u, segs, msp, direct)
      ensures p + nb in Live() && Blocks()[msp] == u[msp]
    {
      hide HeapOk, SegmentsOk, Filed, MapOk;
      UsedAreStarts(p + nb);
      NotDirect(mapped, H(), segs, direct, p + nb);
      LiveResized(u, segs, msp, direct, p, nb);
      LiveAdded(u[p := nb], segs, msp, direct, p + nb, rsize);
    }

    /** A block before `top` grows into it. */
    method GrowInPlace(p: nat, nb: nat, newtopsize: nat)
      requires Valid() && p in Live() && p !in direct && p in head && Next(H(), p) == top
      requires nb % 8 == 0 && head[p].size < nb && nb + newtopsize == head[p].size + topsize && newtopsize > 0
      modifies this`head, this`starts, this`top, this`topsize
      ensures Valid() && Live() == old(Live())[p := nb - 8]
    {
      hide HeapOk, SegmentsOk, Filed, MapOk, SmallBins.BinsOk, TreeBins.BinsOk, LiveBlocks, Used;
      LiveIsFreeable(p);
      UserNext(H(), segs, p);
      ghost var h, u := H(), Blocks();
      GrowIntoTopArena(h, segs, F(), p, nb);
      LiveResized(u, segs, msp, direct, p, nb);
      var newtop := p + nb;
      SetInuse(p, nb);
      head := head[newtop := Head(newtopsize, true, false)];
      starts := starts - {top} + {newtop};
      top := newtop;
      topsize := newtopsize;
      assert H() == GrowIntoTop(h, p, nb);
    }

    /** Reallocation by a new block, a copy, and the release of the old block. */
    method MallocCopyFree(ptr: nat, nsize: nat, oldsize: nat, overhead: nat) returns (newmem: nat, ghost refused: bool)
      requires Valid() && nsize < W64 && ptr >= 16 && ptr - 16 in Live() && Live()[ptr - 16] == oldsize - overhead
      modifies this, small, tree
      ensures Valid()
      ensures newmem == 0 ==> Live() == old(Live()) && bytes == old(bytes)
      ensures newmem == 0 ==> old(NothingFits(Need(nsize))) && (refused || !Askable(Need(nsize)))
      ensures newmem != 0 ==> Reallocated(old(Live()), Live(), ptr, newmem, nsize) && newmem != ptr && Tight(newmem, RequestSize(nsize))
      ensures newmem != 0 ==> Moved(old(bytes), bytes, ptr, newmem, Min(old(Live())[ptr - 16], nsize))
      ensures OthersKept(old(Live()), old(bytes), bytes, ptr - 16)
    {
      hide HeapOk, SegmentsOk, Filed, MapOk, SmallBins.BinsOk, TreeBins.BinsOk, LiveBlocks, Used;
      newmem, refused := Malloc(nsize);
      if newmem != 0 {
        var oc := oldsize - overhead;
        var n := if oc < nsize then oc else nsize;
        BlocksApart(ptr, newmem, n);
        Memcpy(newmem, ptr, n);
        NewBlockKept(old(Live()), old(bytes), newmem, n);
        Free(ptr);
      }
    }

    lemma BlocksApart(ptr: nat, mem: nat, n: nat)
      requires Valid() && ptr >= 16 && mem >= 16 && ptr != mem && ptr - 16 in Live() && mem - 16 in Live()
      requires n <= Live()[ptr - 16] && n <= Live()[mem - 16]
      ensures mem + n <= ptr || ptr + n <= mem
    {
      hide HeapOk, SegmentsOk, Filed, MapOk, SmallBins.BinsOk, TreeBins.BinsOk, LiveBlocks, Used;
      LiveDisjoint(mapped, H(), segs, msp, direct, ptr - 16, mem - 16);
      var x := if mem < ptr then ptr else mem;
      assert !(x in Payload(Live(), ptr - 16) && x in Payload(Live(), mem - 16));
    }

    lemma NewBlockKept(live: map<nat, nat>, b: map<nat, nat>, mem: nat, n: nat)
      requires Valid() && Allocated(live, Live(), mem, n) && KeptBut(b, bytes, mem, n)
      ensures forall p :: OthersKept(live, b, bytes, p)
    {
      hide HeapOk, SegmentsOk, Filed, MapOk, SmallBins.BinsOk, TreeBins.BinsOk, LiveBlocks, Used;
      forall q, x | q in live && x in Payload(live, q) ensures ByteAt(bytes, x) == ByteAt(b, x) {
        LiveDisjoint(mapped, H(), segs, msp, direct, q, mem - 16);
        assert x in Payload(Live(), q);
        assert x !in Payload(Live(), mem - 16);
      }
    }

    /**
     The block need not move for a chunk of `nb` bytes: a directly mapped one is large enough, and not too large;
     one of a segment is large enough, or can grow into `top`.
     */
    ghost predicate FitsInPlace(p: nat, nb: nat)
      reads this
    {
      if p in direct then
        var size := direct[p].head.size;
        256 <= nb && nb + 8 <= size <= nb + DEFAULT_GRANULARITY / 2
      else p in head && (nb <= head[p].size || (p + head[p].size == top && nb < head[p].size + topsize))
    }

    /**
     lj_alloc_realloc; it fails only if the request is too large, or nothing free fits, and the operating system
     refuses more or cannot be asked.
     */
    method Realloc(ptr: nat, nsize: nat) returns (mem: nat, ghost refused: bool)
      requires Valid() && nsize < W64 && ptr >= 16 && ptr - 16 in Live()
      modifies this, small, tree
      ensures Valid()
      ensures mem == 0 ==> Live() == old(Live()) && bytes == old(bytes)
      ensures mem == 0 && nsize < MAX_REQUEST ==> old(NothingFits(Need(nsize))) && (refused || !Askable(Need(nsize)))
      ensures nsize < MAX_REQUEST && old(FitsInPlace(ptr - 16, RequestSize(nsize))) ==> mem == ptr
      ensures mem == ptr && ptr - 16 !in old(direct) ==> old(FitsInPlace(ptr - 16, RequestSize(nsize)))
      ensures mem != 0 ==> nsize < MAX_REQUEST && Tight(mem, RequestSize(nsize))
      ensures mem != 0 ==> Reallocated(old(Live()), Live(), ptr, mem, nsize)
      ensures mem != 0 ==> Moved(old(bytes), bytes, ptr, mem, Min(old(Live())[ptr - 16], nsize))
      ensures OthersKept(old(Live()), old(bytes), bytes, ptr - 16)
    {
      hide HeapOk, SegmentsOk, Filed, MapOk, SmallBins.BinsOk, TreeBins.BinsOk, LiveBlocks, Used, Payload;
      refused := false;
      if nsize >= MAX_REQUEST {
        mem := 0;
        return;
      }
      var oldp := ptr - 16;
      DirectBit(oldp);
      RequestFits(nsize);
      var oldsize := HeadAt(oldp).size;
      var nb := RequestSize(nsize);
      var isDirect := !HeadAt(oldp).pinuse && FootAt(oldp) % 2 == 1;
      var newp := 0;
      if isDirect {
        DirectFacts(oldp);
        newp := DirectResize(oldp, nb, nsize);
      } else {
        newp := ResizeInPlace(oldp, oldsize, nb);
      }
      if newp != 0 {
        mem := newp + 16;
      } else {
        mem, refused := MallocCopyFree(ptr, nsize, oldsize, if isDirect then 16 else 8);
      }
    }

    /** The two ways in which a block of a segment stays where it is; the result is zero if there is none. */
    method ResizeInPlace(oldp: nat, oldsize: nat, nb: nat) returns (newp: nat)
      requires Valid() && oldp in Live() && oldp !in direct && oldp in head && oldsize == head[oldp].size
      requires nb % 8 == 0 && MIN_CHUNK_SIZE <= nb
      modifies this, small, tree
      ensures Valid() && bytes == old(bytes)
      ensures newp != 0 <==> old(FitsInPlace(oldp, nb))
      ensures newp == 0 ==> unchanged(this) && unchanged(small) && unchanged(tree)
      ensures newp != 0 ==> newp == oldp && oldp in Live() && Live() == old(Live())[oldp := Live()[oldp]]
      ensures newp != 0 ==> oldp in Live() && Live()[oldp] >= nb - 8 && Tight(oldp + 16, nb)
      ensures newp != 0 ==> newp % 8 == 0
    {
      hide HeapOk, SegmentsOk, Filed, MapOk, SmallBins.BinsOk, TreeBins.BinsOk, LiveBlocks, Used;
      LiveIsFreeable(oldp);
      UserNext(H(), segs, oldp);
      newp := 0;
      var next := oldp + oldsize;
      if oldsize >= nb {
        var rsize := oldsize - nb;
        newp := oldp;
        if rsize >= MIN_CHUNK_SIZE {
          ShrinkInPlace(newp, nb);
        }
      } else if next == top && oldsize + topsize > nb {
        var newsize := oldsize + topsize;
        GrowInPlace(oldp, nb, newsize - nb);
        newp := oldp;
      }
    }

    /** Live blocks are apart, aligned, and not empty. */
    lemma LiveApart(p: nat, q: nat)
      requires Valid() && p in Live() && q in Live() && p != q
      ensures p + 16 + Live()[p] <= q + 16 || q + 16 + Live()[q] <= p + 16
    {
      hide HeapOk, SegmentsOk, Filed, MapOk, SmallBins.BinsOk, TreeBins.BinsOk, LiveBlocks, Used;
      LivePositive(p);
      LivePositive(q);
      LiveDisjoint(mapped, H(), segs, msp, direct, p, q);
      var x := if p < q then q + 16 else p + 16;
      assert !(x in Payload(Live(), p) && x in Payload(Live(), q));
    }

    lemma LivePositive(p: nat)
      requires Valid() && p in Live()
      ensures Live()[p] > 0 && p > 0
    {
      hide HeapOk, SegmentsOk, Filed, MapOk;
      DirectBit(p);
      if p in direct {
        DirectFacts(p);
        Multiple(LJ_PAGESIZE * ((direct[p].head.size + DIRECT_FOOT_PAD) / LJ_PAGESIZE), LJ_PAGESIZE, (direct[p].head.size + DIRECT_FOOT_PAD) / LJ_PAGESIZE);
      } else {
        UserNext(H(), segs, p);
      }
    }

    /** lj_alloc_f: one entry for all three operations */
    method Alloc(ptr: nat, osize: nat, nsize: nat) returns (mem: nat, ghost refused: bool)
      requires Valid() && nsize < W64 && (ptr != 0 ==> ptr >= 16 && ptr - 16 in Live())
      modifies this, small, tree
      ensures Valid()
      ensures nsize == 0 ==> mem == 0 && Live() == if ptr == 0 then old(Live()) else old(Live()) - {ptr - 16}
      ensures nsize > 0 && mem == 0 ==> Live() == old(Live())
      ensures nsize > 0 && mem == 0 && (ptr == 0 || nsize < MAX_REQUEST) ==>
                old(NothingFits(Need(nsize))) && (refused || !Askable(Need(nsize)))
      ensures nsize > 0 && mem != 0 ==> nsize < MAX_REQUEST && Tight(mem, RequestSize(nsize))
      ensures ptr != 0 && 0 < nsize < MAX_REQUEST && old(FitsInPlace(ptr - 16, RequestSize(nsize))) ==> mem == ptr
      ensures nsize == 0 || mem == 0 || ptr == 0 ==> bytes == old(bytes)
      ensures nsize > 0 && mem != 0 && ptr == 0 ==> Allocated(old(Live()), Live(), mem, nsize)
      ensures nsize > 0 && mem != 0 && ptr != 0 ==>
                Reallocated(old(Live()), Live(), ptr, mem, nsize) && Moved(old(bytes), bytes, ptr, mem, Min(old(Live())[ptr - 16], nsize))
      ensures OthersKept(old(Live()), old(bytes), bytes, if ptr == 0 then 0 else ptr - 16)
    {
      mem, refused := 0, false;
      if nsize == 0 {
        Free(ptr);
      } else if ptr == 0 {
        mem, refused := Malloc(nsize);
      } else {
        mem, refused := Realloc(ptr, nsize);
      }
    }

    /**
     lj_alloc_destroy: all segments are given back, each once.  What is left mapped is what
     the operating system has refused to unmap, and the directly mapped chunks, which this
     function does not look at.
     */
    method Destroy() returns (ghost kept: set<nat>)
      requires Valid()
      modifies this`mapped
      ensures forall x :: x in mapped <==> x in kept || exists p :: InDirect(direct, p, x)
      ensures kept <= SegBytes(segs)
    {
      hide HeapOk, Filed, SegmentsOk, SegBytes, SmallBins.BinsOk, TreeBins.BinsOk;
      kept := {};
      var i := 0;
      NoSegBytes();
      while i < |segs|
        invariant 0 <= i <= |segs| && kept <= SegBytes(segs[..i])
        invariant forall x :: x in mapped <==> x in old(mapped) && (x in kept || x !in SegBytes(segs[..i]))
      {
        OneSegment(old(mapped), i);
        var ok := Munmap(segs[i].base, segs[i].size);
        if !ok {
          kept := kept + Range(segs[i].base, segs[i].size);
        }
        i := i + 1;
      }
      assert segs[..i] == segs;
      forall x ensures x in mapped <==> x in kept || exists p :: InDirect(direct, p, x) {
        assert x in old(mapped) <==> Mapped(segs, direct, x);
      }
    }

    lemma NoSegBytes()
      ensures SegBytes(segs[..0]) == {}
    {
    }

    /** The bytes of segment `i` are mapped, and are no bytes of the segments before it. */
    lemma OneSegment(m: set<nat>, i: nat)
      requires ArenaOk(H(), segs, F(), {}) && MapOk(m, segs, direct) && i < |segs|
      ensures Range(segs[i].base, segs[i].size) <= m && Range(segs[i].base, segs[i].size) !! SegBytes(segs[..i])
      ensures SegBytes(segs[..i + 1]) == SegBytes(segs[..i]) + Range(segs[i].base, segs[i].size)
    {
      hide HeapOk, SegmentsOk, Filed, MapOk;
      DropBytes(H(), segs, i);
      ShrinkMap(m, segs, DropSegs(segs, i), direct, segs[i].base, segs[i].size);
      forall x | x in SegBytes(segs[..i]) ensures x !in Range(segs[i].base, segs[i].size) {
        var j: nat :| j < i && x in Range(segs[..i][j].base, segs[..i][j].size);
        if x in Range(segs[i].base, segs[i].size) {
          ApartBytes(H(), segs, j, i, x);
        }
      }
      forall x ensures x in SegBytes(segs[..i + 1]) <==> x in SegBytes(segs[..i]) || x in Range(segs[i].base, segs[i].size) {
        if x in SegBytes(segs[..i + 1]) {
          var j: nat :| j < i + 1 && x in Range(segs[..i + 1][j].base, segs[..i + 1][j].size);
          if j < i {
            SegByte(segs[..i], j, x);
          }
        }
        if x in SegBytes(segs[..i]) {
          var j: nat :| j < i && x in Range(segs[..i][j].base, segs[..i][j].size);
          SegByte(segs[..i + 1], j, x);
        }
        if x in Range(segs[i].base, segs[i].size) {
          SegByte(segs[..i + 1], i, x);
        }
      }
    }
  }
}
