/**
 What callers of the bundled allocator (src/lj_alloc.c) own: the chunks in use
 in the segments, without those that hold the allocator's own records, and the
 directly mapped chunks; each with the number of bytes that its owner may use.
 */
module Live {
  import opened Chunk
  import opened Tiling
  import opened Segments
  import opened Filing
  import opened Arena
  import opened Mapping

  /** The chunk of the allocator state, or of a segment record. */
  ghost predicate Internal(segs: seq<Segment>, msp: nat, p: nat) {
    p == msp || exists i :: 0 < i < |segs| && segs[i].rec == p
  }

  function Room(size: nat, overhead: nat): nat {
    if size >= overhead then size - overhead else 0
  }

  /** CHUNK_OVERHEAD is one word, DIRECT_CHUNK_OVERHEAD is two. */
  ghost function LiveBlocks(u: map<nat, nat>, segs: seq<Segment>, msp: nat, direct: map<nat, Direct>): map<nat, nat> {
    map p | p in u.Keys + direct.Keys && (p in direct || !Internal(segs, msp, p)) ::
      if p in direct then Room(direct[p].head.size, 16) else Room(u[p], 8)
  }

  /** The bytes of live block `p`. */
  function Payload(live: map<nat, nat>, p: nat): set<nat> {
    if p in live then Range(p + 16, live[p]) else {}
  }

  /** A block with room for `n` bytes is new at `mem`, and nothing else changed. */
  ghost predicate Allocated(live: map<nat, nat>, live': map<nat, nat>, mem: nat, n: nat) {
    && mem >= 16 && mem % 8 == 0 && (mem - 16) !in live && (mem - 16) in live'
    && live' == live[mem - 16 := live'[mem - 16]] && live'[mem - 16] >= n
  }

  /** The block at `ptr` was given up for one at `mem` with room for `n` bytes; they may be the same. */
  ghost predicate Reallocated(live: map<nat, nat>, live': map<nat, nat>, ptr: nat, mem: nat, n: nat) {
    && ptr >= 16 && mem >= 16 && mem % 8 == 0 && (mem == ptr || (mem - 16) !in live) && (mem - 16) in live'
    && live' == (live - {ptr - 16})[mem - 16 := live'[mem - 16]] && live'[mem - 16] >= n
  }

  /** A new chunk in use that holds no record is a new live block. */
  lemma LiveAdded(u: map<nat, nat>, segs: seq<Segment>, msp: nat, direct: map<nat, Direct>, p: nat, s: nat)
    requires p !in u && p !in direct && !Internal(segs, msp, p)
    ensures LiveBlocks(u[p := s], segs, msp, direct) == LiveBlocks(u, segs, msp, direct)[p := Room(s, 8)]
    ensures p !in LiveBlocks(u, segs, msp, direct)
  {
  }

  lemma LiveRemoved(u: map<nat, nat>, segs: seq<Segment>, msp: nat, direct: map<nat, Direct>, p: nat)
    requires p in u && p !in direct
    ensures LiveBlocks(u - {p}, segs, msp, direct) == LiveBlocks(u, segs, msp, direct) - {p}
  {
  }

  lemma LiveResized(u: map<nat, nat>, segs: seq<Segment>, msp: nat, direct: map<nat, Direct>, p: nat, s: nat)
    requires p in u && p !in direct && !Internal(segs, msp, p)
    ensures LiveBlocks(u[p := s], segs, msp, direct) == LiveBlocks(u, segs, msp, direct)[p := Room(s, 8)]
  {
  }

  lemma LiveDirectAdded(u: map<nat, nat>, segs: seq<Segment>, msp: nat, direct: map<nat, Direct>, p: nat, d: Direct)
    requires p !in u && p !in direct
    ensures LiveBlocks(u, segs, msp, direct[p := d]) == LiveBlocks(u, segs, msp, direct)[p := Room(d.head.size, 16)]
    ensures p !in LiveBlocks(u, segs, msp, direct)
  {
  }

  lemma LiveDirectRemoved(u: map<nat, nat>, segs: seq<Segment>, msp: nat, direct: map<nat, Direct>, p: nat)
    requires p !in u && p in direct
    ensures LiveBlocks(u, segs, msp, direct - {p}) == LiveBlocks(u, segs, msp, direct) - {p}
  {
  }

  /** The record of a new segment is in use, but not live. */
  lemma LiveRecordAdded(u: map<nat, nat>, segs: seq<Segment>, msp: nat, direct: map<nat, Direct>, tbase: nat, tsize: nat, rec: nat)
    requires |segs| > 0 && rec !in u && rec !in direct
    ensures LiveBlocks(u[rec := RECORD_SIZE], [Segment(tbase, tsize, 0), segs[0].(rec := rec)] + segs[1..], msp, direct)
            == LiveBlocks(u, segs, msp, direct)
  {
    var segs' := [Segment(tbase, tsize, 0), segs[0].(rec := rec)] + segs[1..];
    forall p | p in u ensures Internal(segs', msp, p) <==> Internal(segs, msp, p) {
      if i :| 0 < i < |segs| && segs[i].rec == p {
        assert segs'[i + 1].rec == p;
      }
      if i :| 0 < i < |segs'| && segs'[i].rec == p {
        assert i > 1 && segs[i - 1].rec == p;
      }
    }
    assert segs'[1].rec == rec;
  }

  /** The record of a dropped segment was no live block. */
  lemma LiveRecordDropped(u: map<nat, nat>, segs: seq<Segment>, msp: nat, direct: map<nat, Direct>, k: nat)
    requires 0 < k < |segs| && segs[k].rec in u && segs[k].rec !in direct
    requires forall i :: 0 < i < |segs| && i != k ==> segs[i].rec != segs[k].rec
    ensures LiveBlocks(u - {segs[k].rec}, DropSegs(segs, k), msp, direct) == LiveBlocks(u, segs, msp, direct)
  {
    var segs', rec := DropSegs(segs, k), segs[k].rec;
    forall p | p in u && p != rec ensures Internal(segs', msp, p) <==> Internal(segs, msp, p) {
      if i :| 0 < i < |segs| && segs[i].rec == p {
        assert segs'[if i < k then i else i - 1].rec == p;
      }
      if i :| 0 < i < |segs'| && segs'[i].rec == p {
        assert segs[if i < k then i else i + 1].rec == p;
      }
    }
  }

  /** Growing or shrinking a segment moves no record. */
  lemma LiveSameRecords(u: map<nat, nat>, segs: seq<Segment>, segs': seq<Segment>, msp: nat, direct: map<nat, Direct>)
    requires |segs'| == |segs| && forall i :: 0 < i < |segs| ==> segs'[i].rec == segs[i].rec
    ensures LiveBlocks(u, segs', msp, direct) == LiveBlocks(u, segs, msp, direct)
    ensures forall p :: Internal(segs', msp, p) <==> Internal(segs, msp, p)
  {
    forall p ensures Internal(segs', msp, p) <==> Internal(segs, msp, p) {
      if i :| 0 < i < |segs| && segs[i].rec == p {
        assert segs'[i].rec == p;
      }
      if i :| 0 < i < |segs'| && segs'[i].rec == p {
        assert segs[i].rec == p;
      }
    }
  }

  /** A chunk of a segment lies in the segments, up to and with the word behind it. */
  lemma ChunkInSegments(h: Heap, segs: seq<Segment>, a: nat, x: nat)
    requires HeapOk(h) && SegmentsOk(h, segs) && a in h.starts && a in h.head && a <= x < Next(h, a) + 8
    ensures x in SegBytes(segs)
  {
    hide HeapOk, SegmentsOk;
    var i := FindSegment(h, segs, a);
    SegByte(segs, i, x);
  }

  /** So does the word behind the end of a segment. */
  lemma EndInSegment(h: Heap, segs: seq<Segment>, e: nat, x: nat)
    requires HeapOk(h) && SegmentsOk(h, segs) && e in h.ends
    ensures e <= x < e + 16 ==> x in SegBytes(segs)
  {
    hide HeapOk, SegmentsOk, SegBytes;
    var i := FindEnd(h, segs, e);
    if e <= x < e + 16 {
      SegByte(segs, i, x);
    }
  }

  /** No chunk of a segment is directly mapped. */
  lemma NotDirect(mapped: set<nat>, h: Heap, segs: seq<Segment>, direct: map<nat, Direct>, a: nat)
    requires HeapOk(h) && SegmentsOk(h, segs) && MapOk(mapped, segs, direct) && a in h.starts
    ensures a !in direct
  {
    hide HeapOk, SegmentsOk, MapOk;
    KeptIsOk(h, a);
    ChunkInSegments(h, segs, a, a);
    if a in direct {
      ChunkIsMapped(mapped, segs, direct, a);
    }
  }

  lemma PayloadInChunk(h: Heap, segs: seq<Segment>, msp: nat, direct: map<nat, Direct>, p: nat, x: nat)
    requires HeapOk(h) && x in Payload(LiveBlocks(Used(h), segs, msp, direct), p) && p !in direct
    ensures p in h.starts && p in h.head && h.head[p].cinuse && p + 16 <= x < Next(h, p) + 8
  {
    KeptIsOk(h, p);
  }

  lemma PayloadInDirect(mapped: set<nat>, u: map<nat, nat>, segs: seq<Segment>, msp: nat, direct: map<nat, Direct>, p: nat, x: nat)
    requires MapOk(mapped, segs, direct) && x in Payload(LiveBlocks(u, segs, msp, direct), p) && p in direct
    ensures InDirect(direct, p, x) && x !in SegBytes(segs)
  {
  }

  /** Two live blocks share no byte. */
  lemma LiveDisjoint(mapped: set<nat>, h: Heap, segs: seq<Segment>, msp: nat, direct: map<nat, Direct>, p: nat, q: nat)
    requires HeapOk(h) && SegmentsOk(h, segs) && MapOk(mapped, segs, direct) && p != q
    ensures var live := LiveBlocks(Used(h), segs, msp, direct); Payload(live, p) !! Payload(live, q)
  {
    hide HeapOk, SegmentsOk, MapOk, SegBytes, LiveBlocks, DirectBytes, Range;
    var u, live := Used(h), LiveBlocks(Used(h), segs, msp, direct);
    forall x | x in Payload(live, p) && x in Payload(live, q) ensures false {
      PayloadOwner(mapped, h, segs, msp, direct, p, x);
      PayloadOwner(mapped, h, segs, msp, direct, q, x);
      if p in direct && q in direct {
        DirectsApart(mapped, segs, direct, p, q, x);
      } else if p !in direct && q !in direct {
        StartsBefore(h, p, q);
        StartsBefore(h, q, p);
      }
    }
  }

  lemma DirectsApart(mapped: set<nat>, segs: seq<Segment>, direct: map<nat, Direct>, p: nat, q: nat, x: nat)
    requires MapOk(mapped, segs, direct) && InDirect(direct, p, x) && InDirect(direct, q, x)
    ensures p == q
  {
  }

  /** A byte of a live block is mapped, and lies in the chunk of the block. */
  lemma PayloadOwner(mapped: set<nat>, h: Heap, segs: seq<Segment>, msp: nat, direct: map<nat, Direct>, p: nat, x: nat)
    requires HeapOk(h) && SegmentsOk(h, segs) && MapOk(mapped, segs, direct)
    requires x in Payload(LiveBlocks(Used(h), segs, msp, direct), p)
    ensures x in mapped
    ensures p in direct ==> InDirect(direct, p, x) && x !in SegBytes(segs)
    ensures p !in direct ==> p in h.starts && p in h.head && h.head[p].cinuse && p + 16 <= x < Next(h, p) + 8 && x in SegBytes(segs)
  {
    hide HeapOk, SegmentsOk, MapOk, SegBytes, LiveBlocks, DirectBytes, Range, Payload;
    if p in direct {
      PayloadInDirect(mapped, Used(h), segs, msp, direct, p, x);
    } else {
      PayloadInChunk(h, segs, msp, direct, p, x);
      ChunkInSegments(h, segs, p, x);
    }
    ByteMapped(mapped, segs, direct, x);
  }

  lemma ByteMapped(mapped: set<nat>, segs: seq<Segment>, direct: map<nat, Direct>, x: nat)
    requires MapOk(mapped, segs, direct) && Mapped(segs, direct, x)
    ensures x in mapped
  {
  }

  /** No head word, no word of a free chunk and no foot of a free chunk lies in a live block. */
  lemma MetadataOutsideLive(mapped: set<nat>, h: Heap, segs: seq<Segment>, msp: nat, direct: map<nat, Direct>, p: nat, x: nat, a: nat)
    requires HeapOk(h) && SegmentsOk(h, segs) && MapOk(mapped, segs, direct)
    requires x in Payload(LiveBlocks(Used(h), segs, msp, direct), p) && a in h.starts && a in h.head
    ensures !(a + 8 <= x < a + 16)
    ensures !h.head[a].cinuse ==> !(a + 8 <= x < Next(h, a) + 8)
    ensures Next(h, a) in h.ends ==> !(Next(h, a) + 8 <= x < Next(h, a) + 16)
  {
    hide HeapOk, SegmentsOk, MapOk, SegBytes, LiveBlocks, DirectBytes, Range, Payload;
    PayloadOwner(mapped, h, segs, msp, direct, p, x);
    KeptIsOk(h, a);
    if p in direct {
      if a <= x < Next(h, a) + 8 {
        ChunkInSegments(h, segs, a, x);
      }
      if Next(h, a) in h.ends {
        EndInSegment(h, segs, Next(h, a), x);
      }
    } else {
      KeptIsOk(h, p);
      StartsBefore(h, a, p);
      StartsBefore(h, p, a);
      if Next(h, a) in h.ends {
        OutsideEnd(h, p, Next(h, a));
      }
    }
  }
}
