/**
 The address space of the bundled allocator (src/lj_alloc.c): which bytes the
 operating system has mapped for it, and who owns them.  Every mapped byte lies
 in a segment or in the region of a directly mapped chunk, and in one only.
 */
module Mapping {
  import opened Chunk
  import opened Tiling
  import opened Segments

  const LJ_PAGESIZE: nat := 4096
  const DIRECT_FOOT_PAD: nat := 32

  predicate Covers(base: nat, size: nat, x: nat) {
    base <= x < base + size
  }

  function Range(base: nat, size: nat): set<nat> {
    set x: nat | x < base + size && Covers(base, size, x)
  }

  /** The bytes of all segments. */
  ghost function SegBytes(segs: seq<Segment>): set<nat> {
    set i: nat, x: nat | i < |segs| && x in Range(segs[i].base, segs[i].size) :: x
  }

  /** The words of a directly mapped chunk: its foot holds the offset in the region, and the direct bit. */
  datatype Direct = Direct(prevFoot: nat, head: Head)

  function Offset(d: Direct): nat {
    d.prevFoot - d.prevFoot % 2
  }

  /** Regions start at a page, so that the offset is zero, and only the direct bit is set. */
  ghost predicate DirectOk(p: nat, d: Direct) {
    && p > 0 && p % 8 == 0 && d.prevFoot == 1 && p % LJ_PAGESIZE == 0
    && d.head.cinuse && !d.head.pinuse && d.head.size % 8 == 0 && d.head.size >= 16
    && (d.head.size + DIRECT_FOOT_PAD) % LJ_PAGESIZE == 0
    && p + d.head.size + DIRECT_FOOT_PAD < ADDRESS_LIMIT
  }

  /** The region that was mapped for chunk `p`. */
  function DirectBytes(p: nat, d: Direct): set<nat> {
    Range(if Offset(d) <= p then p - Offset(d) else 0, Offset(d) + d.head.size + DIRECT_FOOT_PAD)
  }

  /** Byte `x` is in the region of directly mapped chunk `p`. */
  ghost predicate InDirect(direct: map<nat, Direct>, p: nat, x: nat) {
    p in direct && x in DirectBytes(p, direct[p])
  }

  ghost predicate Mapped(segs: seq<Segment>, direct: map<nat, Direct>, x: nat) {
    x in SegBytes(segs) || exists p :: InDirect(direct, p, x)
  }

  ghost predicate MapOk(mapped: set<nat>, segs: seq<Segment>, direct: map<nat, Direct>) {
    && (forall p :: p in direct ==> DirectOk(p, direct[p]))
    && (forall p, x :: InDirect(direct, p, x) ==> x !in SegBytes(segs))
    && (forall p, q, x :: InDirect(direct, p, x) && InDirect(direct, q, x) ==> p == q)
    && (forall x {:trigger x in mapped} {:trigger Mapped(segs, direct, x)} :: x in mapped <==> Mapped(segs, direct, x))
  }

  /** What the operating system promises of a new region. */
  predicate Available(mapped: set<nat>, base: nat, size: nat) {
    base > 0 && base % LJ_PAGESIZE == 0 && base + size < ADDRESS_LIMIT && Range(base, size) !! mapped
  }

  lemma SegByte(segs: seq<Segment>, i: nat, x: nat)
    requires i < |segs| && segs[i].base <= x < segs[i].base + segs[i].size
    ensures x in SegBytes(segs)
  {
    assert x in Range(segs[i].base, segs[i].size);
  }

  lemma SegmentIsMapped(mapped: set<nat>, segs: seq<Segment>, direct: map<nat, Direct>, i: nat, x: nat)
    requires MapOk(mapped, segs, direct) && i < |segs| && segs[i].base <= x < segs[i].base + segs[i].size
    ensures x in mapped
  {
    hide SegBytes, DirectOk, InDirect;
    SegByte(segs, i, x);
    assert Mapped(segs, direct, x);
  }

  /** A region that is not mapped touches no segment. */
  lemma AvailableIsFresh(mapped: set<nat>, h: Heap, segs: seq<Segment>, direct: map<nat, Direct>, base: nat, size: nat)
    requires MapOk(mapped, segs, direct) && SegmentsOk(h, segs) && Available(mapped, base, size) && size > 0 && Modest(segs, size)
    ensures FreshRegion(segs, base, size)
  {
    hide MapOk, SegmentsOk, Modest;
    PageAligned8(base);
    forall i | 0 <= i < |segs| ensures base + size <= segs[i].base || segs[i].base + segs[i].size <= base {
      SegPositive(h, segs, i);
      var x := if base < segs[i].base then segs[i].base else base;
      if segs[i].base <= x < segs[i].base + segs[i].size {
        SegmentIsMapped(mapped, segs, direct, i, x);
        assert x !in Range(base, size);
      }
    }
  }

  lemma PageAligned8(x: nat)
    requires x % LJ_PAGESIZE == 0
    ensures x % 8 == 0
  {
    PowersOfTwo.Multiple(x, 8, 512 * (x / LJ_PAGESIZE));
  }

  lemma GrowMap(mapped: set<nat>, segs: seq<Segment>, segs': seq<Segment>, direct: map<nat, Direct>, base: nat, size: nat)
    requires MapOk(mapped, segs, direct) && Range(base, size) !! mapped
    requires SegBytes(segs') == SegBytes(segs) + Range(base, size)
    ensures MapOk(mapped + Range(base, size), segs', direct)
  {
    hide SegBytes, DirectBytes, DirectOk, Range;
    forall p, x | InDirect(direct, p, x) ensures x !in SegBytes(segs') {
      assert Mapped(segs, direct, x);
      assert x in mapped;
    }
    forall x ensures x in mapped + Range(base, size) <==> Mapped(segs', direct, x) {
      assert x in mapped <==> Mapped(segs, direct, x);
    }
  }

  lemma ShrinkMap(mapped: set<nat>, segs: seq<Segment>, segs': seq<Segment>, direct: map<nat, Direct>, base: nat, size: nat)
    requires MapOk(mapped, segs, direct) && Range(base, size) <= SegBytes(segs)
    requires SegBytes(segs') == SegBytes(segs) - Range(base, size)
    ensures MapOk(mapped - Range(base, size), segs', direct) && Range(base, size) <= mapped
  {
    hide SegBytes, DirectBytes, DirectOk, Range;
    forall x | x in Range(base, size) ensures x in mapped {
      assert Mapped(segs, direct, x);
    }
    forall x ensures x in mapped - Range(base, size) <==> Mapped(segs', direct, x) {
      assert x in mapped <==> Mapped(segs, direct, x);
    }
  }

  // ------------------------------------------------------------------
  // The bytes of the changed segment lists

  lemma AppendBytes(segs: seq<Segment>, tsize: nat)
    requires |segs| > 0
    ensures SegBytes(AppendSegs(segs, tsize)) == SegBytes(segs) + Range(segs[0].base + segs[0].size, tsize)
  {
    var segs' := AppendSegs(segs, tsize);
    forall x ensures x in SegBytes(segs') <==> x in SegBytes(segs) || x in Range(segs[0].base + segs[0].size, tsize) {
      if x in SegBytes(segs) {
        var i: nat :| i < |segs| && x in Range(segs[i].base, segs[i].size);
        SegByte(segs', i, x);
      }
      if x in Range(segs[0].base + segs[0].size, tsize) {
        SegByte(segs', 0, x);
      }
      if x in SegBytes(segs') && x !in Range(segs[0].base + segs[0].size, tsize) {
        var i: nat :| i < |segs'| && x in Range(segs'[i].base, segs'[i].size);
        SegByte(segs, i, x);
      }
    }
  }

  lemma ExtendBytes(segs: seq<Segment>, k: nat, tbase: nat, tsize: nat)
    requires k < |segs| && tbase + tsize == segs[k].base
    ensures SegBytes(ExtendSegs(segs, k, tbase, tsize)) == SegBytes(segs) + Range(tbase, tsize)
  {
    var segs' := ExtendSegs(segs, k, tbase, tsize);
    forall x ensures x in SegBytes(segs') <==> x in SegBytes(segs) || x in Range(tbase, tsize) {
      if x in SegBytes(segs) {
        var i: nat :| i < |segs| && x in Range(segs[i].base, segs[i].size);
        SegByte(segs', i, x);
      }
      if x in Range(tbase, tsize) {
        SegByte(segs', k, x);
      }
      if x in SegBytes(segs') && x !in Range(tbase, tsize) {
        var i: nat :| i < |segs'| && x in Range(segs'[i].base, segs'[i].size);
        SegByte(segs, i, x);
      }
    }
  }

  lemma NewBytes(segs: seq<Segment>, rec: nat, tbase: nat, tsize: nat)
    requires |segs| > 0
    ensures SegBytes([Segment(tbase, tsize, 0), segs[0].(rec := rec)] + segs[1..]) == SegBytes(segs) + Range(tbase, tsize)
  {
    var segs' := [Segment(tbase, tsize, 0), segs[0].(rec := rec)] + segs[1..];
    forall x ensures x in SegBytes(segs') <==> x in SegBytes(segs) || x in Range(tbase, tsize) {
      if x in SegBytes(segs) {
        var i: nat :| i < |segs| && x in Range(segs[i].base, segs[i].size);
        SegByte(segs', i + 1, x);
      }
      if x in Range(tbase, tsize) {
        SegByte(segs', 0, x);
      }
      if x in SegBytes(segs') {
        var i: nat :| i < |segs'| && x in Range(segs'[i].base, segs'[i].size);
        if i > 0 {
          SegByte(segs, i - 1, x);
        }
      }
    }
  }

  /** Two segments that are apart share no byte. */
  lemma ApartBytes(h: Heap, segs: seq<Segment>, i: nat, j: nat, x: nat)
    requires SegmentsOk(h, segs) && i < |segs| && j < |segs|
    requires x in Range(segs[i].base, segs[i].size) && x in Range(segs[j].base, segs[j].size)
    ensures i == j
  {
    SegSeparate(h, segs, i, j);
  }

  lemma DropBytes(h: Heap, segs: seq<Segment>, k: nat)
    requires SegmentsOk(h, segs) && k < |segs|
    ensures SegBytes(DropSegs(segs, k)) == SegBytes(segs) - Range(segs[k].base, segs[k].size)
    ensures Range(segs[k].base, segs[k].size) <= SegBytes(segs)
  {
    hide SegmentsOk;
    var segs' := DropSegs(segs, k);
    forall x ensures x in SegBytes(segs') <==> x in SegBytes(segs) && x !in Range(segs[k].base, segs[k].size) {
      if x in SegBytes(segs) && x !in Range(segs[k].base, segs[k].size) {
        var i: nat :| i < |segs| && x in Range(segs[i].base, segs[i].size);
        SegByte(segs', if i < k then i else i - 1, x);
      }
      if x in SegBytes(segs') {
        var i: nat :| i < |segs'| && x in Range(segs'[i].base, segs'[i].size);
        var j := if i < k then i else i + 1;
        assert segs'[i] == segs[j];
        SegByte(segs, j, x);
        if x in Range(segs[k].base, segs[k].size) {
          ApartBytes(h, segs, j, k, x);
        }
      }
    }
  }

  lemma TrimBytes(h: Heap, segs: seq<Segment>, released: nat)
    requires SegmentsOk(h, segs) && |segs| > 0 && released <= segs[0].size
    ensures var base := segs[0].base + segs[0].size - released;
            && SegBytes(TrimSegs(segs, released)) == SegBytes(segs) - Range(base, released)
            && Range(base, released) <= SegBytes(segs)
  {
    hide SegmentsOk;
    var segs', base := TrimSegs(segs, released), segs[0].base + segs[0].size - released;
    forall x ensures x in SegBytes(segs') <==> x in SegBytes(segs) && x !in Range(base, released) {
      if x in SegBytes(segs) && x !in Range(base, released) {
        var i: nat :| i < |segs| && x in Range(segs[i].base, segs[i].size);
        SegByte(segs', i, x);
      }
      if x in SegBytes(segs') {
        var i: nat :| i < |segs'| && x in Range(segs'[i].base, segs'[i].size);
        SegByte(segs, i, x);
        if x in Range(base, released) {
          assert x in Range(segs[0].base, segs[0].size);
          ApartBytes(h, segs, i, 0, x);
        }
      }
    }
    forall x | x in Range(base, released) ensures x in SegBytes(segs) {
      SegByte(segs, 0, x);
    }
  }

  // ------------------------------------------------------------------
  // Directly mapped chunks

  /** A new directly mapped chunk, in a region that was free but for the region of chunk `gone`, which is given up. */
  lemma AddDirect(mapped: set<nat>, segs: seq<Segment>, direct: map<nat, Direct>, p: nat, d: Direct)
    requires MapOk(mapped, segs, direct) && DirectOk(p, d) && DirectBytes(p, d) !! mapped
    ensures MapOk(mapped + DirectBytes(p, d), segs, direct[p := d]) && p !in direct
  {
    hide SegBytes, DirectOk;
    var direct' := direct[p := d];
    DirectHoldsChunk(p, d);
    if p in direct {
      ChunkIsMapped(mapped, segs, direct, p);
    }
    forall q, x | InDirect(direct', q, x) ensures x !in SegBytes(segs) {
      if q != p {
        assert InDirect(direct, q, x);
      } else {
        assert x !in mapped;
        assert !Mapped(segs, direct, x);
      }
    }
    forall q, r, x | InDirect(direct', q, x) && InDirect(direct', r, x) ensures q == r {
      assert q != p ==> InDirect(direct, q, x) && Mapped(segs, direct, x) && x in mapped;
      assert r != p ==> InDirect(direct, r, x) && Mapped(segs, direct, x) && x in mapped;
    }
    forall x ensures x in mapped + DirectBytes(p, d) <==> Mapped(segs, direct', x) {
      AddedByte(segs, direct, p, d, x);
      assert x in mapped <==> Mapped(segs, direct, x);
    }
  }

  lemma AddedByte(segs: seq<Segment>, direct: map<nat, Direct>, p: nat, d: Direct, x: nat)
    requires p !in direct
    ensures Mapped(segs, direct[p := d], x) <==> Mapped(segs, direct, x) || x in DirectBytes(p, d)
  {
    hide SegBytes, DirectBytes;
    var direct' := direct[p := d];
    if q :| InDirect(direct, q, x) {
      assert InDirect(direct', q, x);
    }
    if x in DirectBytes(p, d) {
      assert InDirect(direct', p, x);
    }
    if q :| InDirect(direct', q, x) {
      assert q != p ==> InDirect(direct, q, x);
    }
  }

  lemma DirectHoldsChunk(p: nat, d: Direct)
    requires DirectOk(p, d)
    ensures p in DirectBytes(p, d)
  {
  }

  lemma ChunkIsMapped(mapped: set<nat>, segs: seq<Segment>, direct: map<nat, Direct>, p: nat)
    requires MapOk(mapped, segs, direct) && p in direct
    ensures p in mapped && p !in SegBytes(segs)
  {
    DirectHoldsChunk(p, direct[p]);
    assert InDirect(direct, p, p);
    assert Mapped(segs, direct, p);
  }

  lemma RemoveDirect(mapped: set<nat>, segs: seq<Segment>, direct: map<nat, Direct>, p: nat)
    requires MapOk(mapped, segs, direct) && p in direct
    ensures MapOk(mapped - DirectBytes(p, direct[p]), segs, direct - {p})
    ensures DirectBytes(p, direct[p]) <= mapped
  {
    hide SegBytes, DirectBytes, DirectOk;
    var direct', gone := direct - {p}, DirectBytes(p, direct[p]);
    forall q, x | InDirect(direct', q, x) ensures InDirect(direct, q, x) {
    }
    forall x | x in gone ensures x in mapped {
      assert InDirect(direct, p, x);
      assert Mapped(segs, direct, x);
    }
    forall x ensures x in mapped - gone <==> Mapped(segs, direct', x) {
      assert x in mapped <==> Mapped(segs, direct, x);
      assert x in gone ==> InDirect(direct, p, x);
      if q :| InDirect(direct', q, x) {
        assert InDirect(direct, q, x);
      }
      if q :| InDirect(direct, q, x) && q != p {
        assert InDirect(direct', q, x);
      }
      assert x in mapped && !(x in SegBytes(segs)) && x !in gone ==> exists q :: InDirect(direct, q, x) && q != p;
    }
  }
}
