/**
 Where free chunks are kept (src/lj_alloc.c): each is `top`, the designated
 victim `dv`, in the small bin of its size, or in a tree bin; and the blocks in
 use, which is what callers of the allocator see.
 */
module Filing {
  import opened Chunk
  import opened Tiling
  import Trie

  /** A free chunk other than `top`. */
  ghost predicate FreeChunk(h: Heap, a: nat) {
    a in h.starts && a in h.head && !h.head[a].cinuse && a != h.top
  }

  /** What is filed: the designated victim, and the members of the small and tree bins. */
  datatype Files = Files(dv: nat, dvsize: nat, bin: map<nat, nat>, size: Trie.Sizes)

  /** Chunk `a` is filed under its size. */
  ghost predicate FiledRight(h: Heap, f: Files, a: nat) {
    && (a == f.dv && a != 0 ==> FreeChunk(h, a) && h.head[a].size == f.dvsize && a !in f.bin && a !in f.size)
    && (a in f.bin ==> FreeChunk(h, a) && h.head[a].size < 256 && f.bin[a] == h.head[a].size / 8)
    && (a in f.size ==> FreeChunk(h, a) && h.head[a].size == f.size[a] >= 256)
  }

  ghost predicate IsFiled(f: Files, a: nat) {
    (a == f.dv && a != 0) || a in f.bin || a in f.size
  }

  /** Exactly the free chunks that are not loose are filed, each in one place. */
  ghost predicate Filed(h: Heap, f: Files, loose: set<nat>) {
    && (f.dv == 0 <==> f.dvsize == 0)
    && (forall a {:trigger FiledRight(h, f, a)} :: FiledRight(h, f, a))
    && (forall a {:trigger FreeChunk(h, a)} :: FreeChunk(h, a) ==> (IsFiled(f, a) <==> a !in loose))
  }

  /** Chunk `a` is free, of the same size, in both heaps. */
  ghost predicate StaysFree(h: Heap, h': Heap, a: nat) {
    FreeChunk(h, a) && FreeChunk(h', a) && h'.head[a].size == h.head[a].size
  }

  /** After a change of the tiling, all filed chunks are still free, and every other free chunk is loose. */
  lemma Refile(h: Heap, h': Heap, f: Files, loose: set<nat>, loose': set<nat>)
    requires Filed(h, f, loose)
    requires forall a :: FreeChunk(h, a) && a !in loose ==> StaysFree(h, h', a) && a !in loose'
    requires forall a :: FreeChunk(h', a) ==> a in loose' || (FreeChunk(h, a) && a !in loose)
    requires forall a :: a in loose' && FreeChunk(h, a) ==> a in loose
    requires forall a :: a in loose' ==> !IsFiled(f, a)
    ensures Filed(h', f, loose')
  {
    forall a ensures FiledRight(h', f, a) {
      assert FiledRight(h, f, a);
      if IsFiled(f, a) {
        assert FreeChunk(h, a);
        assert StaysFree(h, h', a);
      }
    }
    forall a | FreeChunk(h', a) ensures IsFiled(f, a) <==> a !in loose' {
      assert FiledRight(h, f, a);
      if a !in loose' {
        assert FreeChunk(h, a);
      }
    }
  }

  /** The chunks in use with their sizes. */
  function Used(h: Heap): map<nat, nat> {
    map a | a in h.starts && a in h.head && h.head[a].cinuse :: h.head[a].size
  }

  lemma NotFree(h: Heap, f: Files, loose: set<nat>, a: nat)
    requires Filed(h, f, loose) && !FreeChunk(h, a)
    ensures !IsFiled(f, a)
  {
    assert FiledRight(h, f, a);
  }

  lemma LooseNotFiled(h: Heap, f: Files, loose: set<nat>, a: nat)
    requires Filed(h, f, loose) && a in loose
    ensures FreeChunk(h, a) ==> !IsFiled(f, a)
  {
  }

  lemma LooseUnfiled(h: Heap, f: Files, loose: set<nat>)
    requires Filed(h, f, loose)
    ensures forall a :: a in loose ==> !IsFiled(f, a)
  {
    forall a | a in loose ensures !IsFiled(f, a) {
      assert FiledRight(h, f, a);
    }
  }

  // ------------------------------------------------------------------
  // The changes of the tiling

  lemma UseWholeFiled(h: Heap, f: Files, a: nat)
    requires HeapOk(h) && Filed(h, f, {a}) && FreeChunk(h, a)
    ensures Next(h, a) in h.head
    ensures Filed(UseWhole(h, a), f, {})
    ensures Used(UseWhole(h, a)) == Used(h)[a := h.head[a].size] && a !in Used(h)
  {
    hide HeapOk, Filed;
    UseWholeOk(h, a);
    KeptIsOk(h, a);
    SizePositive(h, a);
    Refile(h, UseWhole(h, a), f, {a}, {});
  }

  lemma SizePositive(h: Heap, a: nat)
    requires ChunkOk(h, a)
    ensures a in h.head && h.head[a].size > 0
  {
  }

  lemma SplitFiled(h: Heap, f: Files, a: nat, nb: nat)
    requires HeapOk(h) && Filed(h, f, {a}) && FreeChunk(h, a)
    requires nb % 8 == 0 && MIN_CHUNK_SIZE <= nb && nb + MIN_CHUNK_SIZE <= h.head[a].size
    ensures Filed(Split(h, a, nb), f, {a + nb}) && FreeChunk(Split(h, a, nb), a + nb)
    ensures Used(Split(h, a, nb)) == Used(h)[a := nb] && a !in Used(h)
  {
    hide HeapOk, Filed;
    KeptIsOk(h, a);
    StartsOutside(h, a);
    TopIsStart(h);
    assert a + nb !in h.starts;
    NotFree(h, f, {a}, a + nb);
    Refile(h, Split(h, a, nb), f, {a}, {a + nb});
  }

  lemma SplitTopFiled(h: Heap, f: Files, nb: nat)
    requires HeapOk(h) && Filed(h, f, {}) && h.top in h.head
    requires nb % 8 == 0 && MIN_CHUNK_SIZE <= nb < h.head[h.top].size
    ensures Filed(SplitTop(h, nb), f, {})
    ensures Used(SplitTop(h, nb)) == Used(h)[h.top := nb] && h.top !in Used(h)
  {
    hide HeapOk, Filed;
    TopIsStart(h);
    KeptIsOk(h, h.top);
    StartsOutside(h, h.top);
    Refile(h, SplitTop(h, nb), f, {}, {});
  }

  /** A run whose chunks are all loose but for one in use becomes one loose chunk. */
  lemma FreeRunFiled(h: Heap, f: Files, loose: set<nat>, lo: nat, hi: nat, p: nat)
    requires HeapOk(h) && Filed(h, f, loose) && Run(h, lo, hi) && hi in h.starts && h.head[hi].cinuse
    requires p in h.starts && p in h.head && h.head[p].cinuse && lo <= p < hi && !(lo <= h.top < hi)
    requires forall a :: a in h.starts && lo <= a < hi && a != p ==> a in h.head && !h.head[a].cinuse && a in loose
    requires forall a :: a in loose ==> a in h.starts && lo <= a < hi
    ensures Filed(FreeRun(h, lo, hi), f, {lo}) && FreeChunk(FreeRun(h, lo, hi), lo)
    ensures Used(FreeRun(h, lo, hi)) == Used(h) - {p}
  {
    hide HeapOk, Filed;
    TopIsStart(h);
    if lo == p {
      NotFree(h, f, loose, lo);
    } else {
      LooseNotFiled(h, f, loose, lo);
    }
    Refile(h, FreeRun(h, lo, hi), f, loose, {lo});
  }

  lemma FreeToTopFiled(h: Heap, f: Files, loose: set<nat>, lo: nat, p: nat)
    requires HeapOk(h) && Filed(h, f, loose) && h.top in h.head && lo <= h.top && Run(h, lo, Next(h, h.top))
    requires p in h.starts && p in h.head && h.head[p].cinuse && lo <= p < h.top
    requires forall a :: a in h.starts && lo <= a < Next(h, h.top) && a != p && a != h.top ==>
               a in h.head && !h.head[a].cinuse && a in loose
    requires forall a :: a in loose ==> a in h.starts && lo <= a < h.top
    ensures Filed(FreeToTop(h, lo), f, {})
    ensures Used(FreeToTop(h, lo)) == Used(h) - {p}
  {
    hide HeapOk, Filed;
    TopIsStart(h);
    KeptIsOk(h, h.top);
    Refile(h, FreeToTop(h, lo), f, loose, {});
  }

  lemma SplitUsedFiled(h: Heap, f: Files, loose: set<nat>, a: nat, nb: nat)
    requires HeapOk(h) && Filed(h, f, loose) && a in h.starts && a in h.head && h.head[a].cinuse
    requires nb % 8 == 0 && MIN_CHUNK_SIZE <= nb && nb + MIN_CHUNK_SIZE <= h.head[a].size
    ensures Filed(SplitUsed(h, a, nb), f, loose)
    ensures Used(SplitUsed(h, a, nb)) == Used(h)[a := nb][a + nb := h.head[a].size - nb]
    ensures a in Used(h) && a + nb !in Used(h)
  {
    hide HeapOk, Filed;
    KeptIsOk(h, a);
    StartsOutside(h, a);
    TopIsStart(h);
    LooseUnfiled(h, f, loose);
    assert a + nb !in h.starts;
    Refile(h, SplitUsed(h, a, nb), f, loose, loose);
  }

  lemma GrowIntoTopFiled(h: Heap, f: Files, a: nat, nb: nat)
    requires HeapOk(h) && Filed(h, f, {}) && a in h.starts && a in h.head && h.head[a].cinuse
    requires Next(h, a) == h.top && h.top in h.head
    requires nb % 8 == 0 && h.head[a].size < nb < h.head[a].size + h.head[h.top].size
    ensures Filed(GrowIntoTop(h, a, nb), f, {})
    ensures Used(GrowIntoTop(h, a, nb)) == Used(h)[a := nb]
  {
    hide HeapOk, Filed;
    TopIsStart(h);
    KeptIsOk(h, a);
    KeptIsOk(h, h.top);
    StartsOutside(h, h.top);
    StartsOutside(h, a);
    Refile(h, GrowIntoTop(h, a, nb), f, {}, {});
  }

  // ------------------------------------------------------------------
  // Filing and taking out

  lemma FileSmall(h: Heap, f: Files, loose: set<nat>, a: nat)
    requires Filed(h, f, loose) && a in loose && FreeChunk(h, a) && h.head[a].size < 256
    ensures Filed(h, f.(bin := f.bin[a := h.head[a].size / 8]), loose - {a})
  {
    var f' := f.(bin := f.bin[a := h.head[a].size / 8]);
    forall b ensures FiledRight(h, f', b) {
      assert FiledRight(h, f, b);
    }
  }

  lemma FileLarge(h: Heap, f: Files, loose: set<nat>, a: nat)
    requires Filed(h, f, loose) && a in loose && FreeChunk(h, a) && h.head[a].size >= 256
    ensures Filed(h, f.(size := f.size[a := h.head[a].size]), loose - {a})
  {
    var f' := f.(size := f.size[a := h.head[a].size]);
    forall b ensures FiledRight(h, f', b) {
      assert FiledRight(h, f, b);
    }
  }

  lemma FileDv(h: Heap, f: Files, loose: set<nat>, a: nat)
    requires HeapOk(h) && Filed(h, f, loose) && a in loose && FreeChunk(h, a) && f.dv == 0
    ensures Filed(h, f.(dv := a, dvsize := h.head[a].size), loose - {a})
  {
    hide HeapOk;
    KeptIsOk(h, a);
    var f' := f.(dv := a, dvsize := h.head[a].size);
    forall b ensures FiledRight(h, f', b) {
      assert FiledRight(h, f, b);
    }
  }

  lemma TakeSmall(h: Heap, f: Files, loose: set<nat>, a: nat)
    requires Filed(h, f, loose) && a in f.bin
    ensures Filed(h, f.(bin := f.bin - {a}), loose + {a}) && FreeChunk(h, a)
    ensures h.head[a].size < 256 && f.bin[a] == h.head[a].size / 8
  {
    var f' := f.(bin := f.bin - {a});
    assert FiledRight(h, f, a);
    forall b ensures FiledRight(h, f', b) {
      assert FiledRight(h, f, b);
    }
  }

  lemma TakeLarge(h: Heap, f: Files, loose: set<nat>, a: nat)
    requires Filed(h, f, loose) && a in f.size
    ensures Filed(h, f.(size := f.size - {a}), loose + {a}) && FreeChunk(h, a)
    ensures h.head[a].size == f.size[a]
  {
    var f' := f.(size := f.size - {a});
    assert FiledRight(h, f, a);
    forall b ensures FiledRight(h, f', b) {
      assert FiledRight(h, f, b);
    }
  }

  lemma TakeDv(h: Heap, f: Files, loose: set<nat>)
    requires Filed(h, f, loose) && f.dv != 0
    ensures Filed(h, f.(dv := 0, dvsize := 0), loose + {f.dv}) && FreeChunk(h, f.dv)
    ensures h.head[f.dv].size == f.dvsize && f.dvsize != 0
  {
    var f' := f.(dv := 0, dvsize := 0);
    assert FiledRight(h, f, f.dv);
    forall b ensures FiledRight(h, f', b) {
      assert FiledRight(h, f, b);
    }
  }

  /** A free chunk that is neither loose nor `dv` is in the bin of its size. */
  lemma WhereFiled(h: Heap, f: Files, loose: set<nat>, a: nat)
    requires Filed(h, f, loose) && FreeChunk(h, a) && a !in loose && a != f.dv
    ensures h.head[a].size < 256 ==> a in f.bin && f.bin[a] == h.head[a].size / 8
    ensures h.head[a].size >= 256 ==> a in f.size && f.size[a] == h.head[a].size
  {
    assert FiledRight(h, f, a);
  }

  /** The files after unlink_chunk of chunk `p` of size `s`. */
  function Unfiled(f: Files, p: nat, s: nat): Files {
    if s < 256 then f.(bin := f.bin - {p}) else f.(size := f.size - {p})
  }

  /** unlink_chunk finds the chunk where it looks, and leaves it loose. */
  lemma UnfiledOk(h: Heap, f: Files, loose: set<nat>, p: nat)
    requires Filed(h, f, loose) && FreeChunk(h, p) && p !in loose && p != f.dv
    ensures var s := h.head[p].size;
            && (s < 256 ==> p in f.bin && f.bin[p] == s / 8) && (s >= 256 ==> p in f.size)
            && Filed(h, Unfiled(f, p, s), loose + {p})
  {
    hide Filed;
    WhereFiled(h, f, loose, p);
    if h.head[p].size < 256 {
      TakeSmall(h, f, loose, p);
    } else {
      TakeLarge(h, f, loose, p);
    }
  }
}
