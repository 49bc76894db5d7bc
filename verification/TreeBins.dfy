/** Chunk heads of src/lj_alloc.c: the size and the two in-use bits of one word. */
module Chunk {
  datatype Head = Head(size: nat, pinuse: bool, cinuse: bool)

  type Heads = map<nat, Head>
}

/**
 The tree bins of the bundled allocator.  The class owns the words of the large
 free chunks and the `treebins`/`treemap` fields of the allocator state.
 */
module TreeBins {
  import opened PowersOfTwo
  import opened Trie
  import opened TreeLinks
  import opened TreeSearch
  import opened TreeIndex
  import opened Chunk

  /** leftshift_for_tree_index */
  function LeftShift(i: nat): nat
    requires i < NTREEBINS
  {
    if i == NTREEBINS - 1 then 0 else 63 - (i / 2 + 6)
  }

  ghost predicate BinOk(i: nat, t: Trie, size: Sizes, root: nat, marked: bool, node: Nodes, hdr: nat) {
    && TrieOk(i, t, size)
    && BinLinked(i, t, node, hdr)
    && root == At(t, Root)
    && (marked <==> Root in t)
  }

  lemma {:induction false} EmptyWithoutRoot(i: nat, t: Trie, size: Sizes)
    requires TrieOk(i, t, size) && Root !in t
    ensures t == map[]
  {
    if p :| p in t {
      EmptyWithoutRootAt(i, t, size, p);
    }
  }

  lemma {:induction false} EmptyWithoutRootAt(i: nat, t: Trie, size: Sizes, p: Path)
    requires TrieOk(i, t, size) && p in t
    ensures Root in t
  {
    if p.Step? {
      assert p == Step(p.up, p.bit);
      EmptyWithoutRootAt(i, t, size, p.up);
    }
  }

  /** What happens to other chunks does not matter to a bin. */
  lemma BinFrame(i: nat, t: Trie, size: Sizes, size': Sizes, root: nat, marked: bool, node: Nodes, node': Nodes, hdr: nat)
    requires BinOk(i, t, size, root, marked, node, hdr)
    requires forall x :: Member(t, x) ==> x in size && x in size' && size'[x] == size[x]
    requires forall x :: Member(t, x) ==> x in node && x in node' && node'[x] == node[x]
    ensures BinOk(i, t, size', root, marked, node', hdr)
  {
    LinksFrame(i, t, node, node', hdr);
    forall p | p in t ensures RingOk(i, p, t[p], size') && size'[t[p][0]] == size[t[p][0]] {
      assert RingOk(i, p, t[p], size);
      forall k | 0 <= k < |t[p]| ensures Member(t, t[p][k]) {
        assert t[p][k] in t[p];
      }
    }
  }

  lemma HalfWord(r: nat, a: nat, m: nat, k: nat)
    requires a * m == W64 / 2 && r < 2 * a && k == r * m && m > 0
    ensures k < W64
    ensures k >= W64 / 2 <==> r >= a
    ensures (k * 2) % W64 == (if r >= a then r - a else r) * (2 * m)
  {
    MulMonotone(r + 1, 2 * a, m);
    assert (r + 1) * m == k + m;
    assert 2 * a * m == W64;
    if r >= a {
      MulMonotone(a, r, m);
      assert (r - a) * (2 * m) == k * 2 - W64;
    } else {
      MulMonotone(r + 1, a, m);
      assert r * (2 * m) == k * 2;
    }
  }

  /** In its bin, the shifted size shows the next turn in its top bit. */
  lemma {:induction false} TopBit(i: nat, p: Path, s: nat, k: nat)
    requires Covers(i, p, s) && 0 < Exp(i, p) <= 64
    requires k == (s - Lo(i, p)) * Pow2(64 - Exp(i, p))
    ensures k < W64
    ensures var bit := k >= W64 / 2;
            Covers(i, Step(p, bit), s) && (k * 2) % W64 == (s - Lo(i, Step(p, bit))) * Pow2(64 - Exp(i, Step(p, bit)))
  {
    hide Pow2;
    var e: nat := Exp(i, p);
    WordHalves(e);
    HalfWord(s - Lo(i, p), Pow2(e - 1), Pow2(64 - e), k);
  }

  lemma ShiftOut(q: nat, a: nat, m: nat, r: nat)
    requires a * m == W64 && r < a && m > 0
    ensures ((q * a + r) * m) % W64 == r * m
  {
    MulMonotone(r + 1, a, m);
    assert (q * a + r) * m == q * (a * m) + r * m;
    assert (r + 1) * m == r * m + m;
    ModShift(q, r * m);
  }

  lemma ModShift(q: nat, r: nat)
    requires r < W64
    ensures (q * W64 + r) % W64 == r
  {
  }

  /** The initial shift drops the bits that are common to the bin. */
  lemma {:induction false} FirstShift(i: nat, s: nat)
    requires InBin(i, s)
    ensures Covers(i, Root, s) && 0 <= Exp(i, Root) <= 64
    ensures (s * Pow2(LeftShift(i))) % W64 == (s - Lo(i, Root)) * Pow2(64 - Exp(i, Root))
  {
    hide Pow2;
    RootCovers(i, s);
    if i == NTREEBINS - 1 {
      Pow2Zero();
    } else {
      var e := i / 2 + 7;
      Pow2Next(e);
      FirstShiftOut(2 + i % 2, e, s - MinSize(i));
    }
  }

  lemma Pow2Zero()
    ensures Pow2(0) == 1
  {
  }

  lemma {:induction false} FirstShiftOut(q: nat, e: nat, r: nat)
    requires 2 <= q <= 3 && e <= 64 && r < Pow2(e)
    ensures ((q * Pow2(e) + r) * Pow2(64 - e)) % W64 == r * Pow2(64 - e)
  {
    hide Pow2;
    Pow2Of64();
    Pow2Sum(e, 64 - e);
    ShiftOut(q, Pow2(e), Pow2(64 - e), r);
  }

  /** The fields of the tree bins as one value. */
  datatype Bins = Bins(root: seq<nat>, treemap: set<nat>, node: Nodes, hdr: nat, tries: seq<Trie>, size: Sizes)

  ghost predicate BinOkAt(b: Bins, i: nat)
    requires i < |b.tries| && i < |b.root|
  {
    BinOk(i, b.tries[i], b.size, b.root[i], i in b.treemap, b.node, b.hdr + 8 * i)
  }

  ghost predicate BinsOk(b: Bins) {
    && |b.root| == NTREEBINS && |b.tries| == NTREEBINS
    && (forall i :: i in b.treemap ==> i < NTREEBINS)
    && (forall i {:trigger BinOkAt(b, i)} :: 0 <= i < NTREEBINS ==> BinOkAt(b, i))
    && (forall x {:trigger Located(b, x)} :: x in b.size ==> Located(b, x))
  }

  /** A large free chunk is filed in the bin of its size. */
  ghost predicate Located(b: Bins, x: nat)
    requires x in b.size
  {
    && x != 0 && x in b.node
    && b.node[x].index < |b.tries| && Member(b.tries[b.node[x].index], x)
    && InBin(b.node[x].index, b.size[x])
  }

  lemma MemberIndex(b: Bins, i: nat, x: nat)
    requires BinsOk(b) && i < NTREEBINS && Member(b.tries[i], x)
    ensures x in b.size && x in b.node && x != 0 && b.node[x].index == i
  {
    assert BinOkAt(b, i);
    var t := b.tries[i];
    var p :| p in t && x in t[p];
    assert RingOk(i, p, t[p], b.size) && RingLinked(i, t[p], b.node);
    var k :| 0 <= k < |t[p]| && t[p][k] == x;
    assert ChunkLinked(i, t[p], k, b.node);
  }

  /** `b'` differs from `b` only in bin `i` and, as for membership, in chunk `x`. */
  ghost predicate OneBinChanged(b: Bins, b': Bins, i: nat, x: nat)
    requires BinsOk(b) && i < NTREEBINS
  {
    && |b'.root| == NTREEBINS && |b'.tries| == NTREEBINS && b'.hdr == b.hdr
    && (forall j :: 0 <= j < NTREEBINS && j != i ==> b'.root[j] == b.root[j] && b'.tries[j] == b.tries[j])
    && (forall j :: j != i ==> (j in b'.treemap <==> j in b.treemap))
    && (forall y :: y != x ==> (y in b.size <==> y in b'.size))
    && (forall y :: y != x && y in b.size && y in b'.size ==> b.size[y] == b'.size[y])
    && (forall y :: y != x ==> (Member(b'.tries[i], y) <==> Member(b.tries[i], y)))
    && WritesWithin(b.tries[i], x, b.node, b'.node)
  }

  lemma OtherBin(b: Bins, b': Bins, i: nat, x: nat, j: nat)
    requires BinsOk(b) && i < NTREEBINS && OneBinChanged(b, b', i, x)
    requires j < NTREEBINS && j != i
    requires x in b.size ==> Member(b.tries[i], x)
    ensures BinOkAt(b', j)
  {
    hide BinOk;
    forall y | Member(b.tries[j], y)
      ensures y in b.size && y in b'.size && b'.size[y] == b.size[y]
      ensures y in b.node && y in b'.node && b'.node[y] == b.node[y]
    {
      MemberIndex(b, j, y);
      if Member(b.tries[i], y) {
        MemberIndex(b, i, y);
      }
    }
    assert BinOkAt(b, j);
    BinFrame(j, b.tries[j], b.size, b'.size, b.root[j], j in b.treemap, b.node, b'.node, b.hdr + 8 * j);
  }

  /** A change in one bin that writes only chunks of this bin keeps all bins well formed. */
  lemma ReplaceBin(b: Bins, b': Bins, i: nat, x: nat)
    requires BinsOk(b) && i < NTREEBINS && OneBinChanged(b, b', i, x)
    requires i in b'.treemap ==> i < NTREEBINS
    requires BinOkAt(b', i)
    requires x in b.size ==> Member(b.tries[i], x)
    requires x in b'.size ==> Located(b', x)
    ensures BinsOk(b')
  {
    forall j | 0 <= j < NTREEBINS ensures BinOkAt(b', j) {
      if j != i {
        OtherBin(b, b', i, x, j);
      }
    }
    forall y | y in b'.size ensures Located(b', y) {
      if y != x {
        assert Located(b, y);
      }
    }
  }

  /** What the descent of insert_large_chunk finds at the node on path `at`. */
  lemma DescendFacts(i: nat, t: Trie, size: Sizes, root: nat, node: Nodes, hdr: nat, at: Path, s: nat, k: nat)
    requires BinOk(i, t, size, root, true, node, hdr) && at in t
    requires Covers(i, at, s) && Exp(i, at) <= 64 && k == (s - Lo(i, at)) * Pow2(64 - Exp(i, at))
    ensures var x := t[at][0];
            && x in size && x in node && x != 0 && Member(t, x)
            && node[x].child0 == At(t, Step(at, false)) && node[x].child1 == At(t, Step(at, true))
    ensures forall bit :: Step(at, bit) in t ==> t[Step(at, bit)][0] != 0
    ensures forall bit, b :: Step(Step(at, bit), b) in t ==> Step(at, bit) in t
    ensures size[t[at][0]] != s ==>
            var bit := k >= W64 / 2;
            && 0 <= Exp(i, Step(at, bit)) < Exp(i, at) <= 64 && Covers(i, Step(at, bit), s)
            && k * 2 % W64 == (s - Lo(i, Step(at, bit))) * Pow2(64 - Exp(i, Step(at, bit)))
  {
    assert RingOk(i, at, t[at], size) && NodeLinked(t, at, node, hdr);
    assert RingLinked(i, t[at], node) && ChunkLinked(i, t[at], 0, node);
    assert t[at][0] in t[at];
    forall bit | Step(at, bit) in t ensures t[Step(at, bit)][0] != 0 {
      assert RingLinked(i, t[Step(at, bit)], node) && ChunkLinked(i, t[Step(at, bit)], 0, node);
    }
    if size[t[at][0]] != s {
      TopBit(i, at, s, k);
    }
  }

  /** The bin of `x` after `x` was filed. */
  lemma BinFiled(b: Bins, b': Bins, i: nat, x: nat)
    requires i < NTREEBINS && i < |b'.tries| && i < |b'.root| && i in b'.treemap
    requires TrieOk(i, b'.tries[i], b'.size) && BinLinked(i, b'.tries[i], b'.node, b'.hdr + 8 * i)
    requires b'.root[i] == At(b'.tries[i], Root) && Root in b'.tries[i]
    requires Member(b'.tries[i], x) && x in b'.size && x in b'.node && x != 0 && b'.node[x].index == i && InBin(i, b'.size[x])
    ensures BinOkAt(b', i) && Located(b', x)
  {
    hide TrieOk, BinLinked, InBin, Member;
  }

  /** The bins after `x` was filed at path `at`. */
  lemma InsertKeepsBins(b: Bins, b': Bins, i: nat, at: Path, x: nat, s: nat)
    requires BinsOk(b) && i < NTREEBINS && InBin(i, s) && x !in b.size && x != 0
    requires InsertPoint(i, b.tries[i], b.size, at, s)
    requires b' == Bins(b'.root, b.treemap + {i}, b'.node, b.hdr,
                        b.tries[i := InsertAt(b.tries[i], at, x)], b.size[x := s])
    requires |b'.root| == NTREEBINS
    requires forall j :: 0 <= j < NTREEBINS && j != i ==> b'.root[j] == b.root[j]
    requires NonEmptyRings(b'.tries[i]) && b'.root[i] == At(b'.tries[i], Root) && Root in b'.tries[i]
    requires BinLinked(i, b'.tries[i], b'.node, b.hdr + 8 * i)
    requires WritesWithin(b.tries[i], x, b.node, b'.node)
    requires x in b'.node && b'.node[x].index == i
    ensures BinsOk(b')
  {
    hide RingOk, BinLinked, InsertPoint, InsertAt, InBin, WritesWithin, Member, Located, BinOk;
    TrieOfBin(b, i);
    InsertKeepsTrie(i, b.tries[i], b.size, at, x, s);
    BinFiled(b, b', i, x);
    ReplaceBin(b, b', i, x);
  }

  lemma TrieOfBin(b: Bins, i: nat)
    requires BinsOk(b) && i < NTREEBINS
    ensures i < |b.tries| && TrieOk(i, b.tries[i], b.size)
  {
    assert BinOkAt(b, i);
  }

  /** What insert_large_chunk knows about the bin of size `s`. */
  lemma BinFacts(b: Bins, i: nat, x: nat)
    requires BinsOk(b) && i < NTREEBINS && x !in b.size
    ensures BinOk(i, b.tries[i], b.size, b.root[i], i in b.treemap, b.node, b.hdr + 8 * i)
    ensures BinLinked(i, b.tries[i], b.node, b.hdr + 8 * i)
    ensures Apart(b.tries[i]) && NonEmptyRings(b.tries[i])
    ensures !Member(b.tries[i], x)
    ensures i in b.treemap <==> Root in b.tries[i]
    ensures b.root[i] == At(b.tries[i], Root)
  {
    hide RingOk, BinLinked;
    assert BinOkAt(b, i);
    if Member(b.tries[i], x) {
      MemberIndex(b, i, x);
    }
    TrieApart(i, b.tries[i], b.size);
  }

  lemma EmptyBinFacts(b: Bins, i: nat, s: nat)
    requires BinsOk(b) && InBin(i, s) && i !in b.treemap
    ensures b.tries[i] == map[] && InsertPoint(i, b.tries[i], b.size, Root, s)
  {
    hide RingOk, BinLinked;
    assert BinOkAt(b, i);
    EmptyWithoutRoot(i, b.tries[i], b.size);
    RootCovers(i, s);
  }

  lemma InsertAtRoot(t: Trie, at: Path, x: nat)
    requires NonEmptyRings(t)
    requires Root in t || at == Root
    ensures NonEmptyRings(InsertAt(t, at, x)) && Root in InsertAt(t, at, x)
    ensures At(InsertAt(t, at, x), Root) == if Root in t then At(t, Root) else x
  {
  }

  /** Where an unlinked chunk was: bin, path, and index in its ring. */
  lemma Locate(b: Bins, x: nat) returns (i: nat, p: Path, k: nat)
    requires BinsOk(b) && x in b.size && b.hdr > 0
    ensures x in b.node && x != 0 && i == b.node[x].index && i < NTREEBINS
    ensures |b.tries| == |b.root| == NTREEBINS && NonEmptyRings(b.tries[i])
    ensures Root in b.tries[i] && b.root[i] == At(b.tries[i], Root)
    ensures Member(b.tries[i], x) && p in b.tries[i] && k < |b.tries[i][p]| && b.tries[i][p][k] == x
    ensures BinLinked(i, b.tries[i], b.node, b.hdr + 8 * i) && TrieOk(i, b.tries[i], b.size)
    ensures Apart(b.tries[i])
    ensures ChunkLinked(i, b.tries[i][p], k, b.node)
    ensures b.node[x].parent == 0 <==> k > 0
    ensures b.node[x].bk == x <==> |b.tries[i][p]| == 1
  {
    hide RingOk, InBin, InsertPoint;
    assert Located(b, x);
    i := b.node[x].index;
    assert BinOkAt(b, i);
    TrieApart(i, b.tries[i], b.size);
    var t := b.tries[i];
    EmptyWithoutRootAt(i, t, b.size, var q :| q in t && x in t[q]; q);
    p :| p in t && x in t[p];
    k :| 0 <= k < |t[p]| && t[p][k] == x;
    assert RingLinked(i, t[p], b.node) && ChunkLinked(i, t[p], k, b.node);
    if k == 0 {
      assert NodeLinked(t, p, b.node, b.hdr + 8 * i);
      if p.Step? {
        assert p == Step(p.up, p.bit);
        assert RingLinked(i, t[p.up], b.node) && ChunkLinked(i, t[p.up], 0, b.node);
      }
    }
  }

  /** What the tail of unlink_large_chunk finds: path `p` is that of the tree node `x`. */
  ghost predicate PlaceReady(root: seq<nat>, node: Nodes, hdr: nat, x: nat, xp: nat, r: nat, t: Trie, p: Path) {
    && x in node && node[x].index < |root| && (r == 0 || (r in node && r != x))
    && (root[node[x].index] == x <==> p.Root?)
    && (p.Step? ==> p.up in t && |t[p.up]| > 0 && xp == t[p.up][0] && xp in node && xp != x)
    && (p.Step? ==> (node[xp].child0 == x <==> !p.bit))
    && xp == ParentWord(t, p, hdr + 8 * node[x].index)
    && (node[x].child0 != 0 ==> node[x].child0 in node)
    && (node[x].child1 != 0 ==> node[x].child1 in node)
  }

  /** The words after unlink_large_chunk represent the trie `t'`, which has lost `x`. */
  ghost predicate Unlinked(b: Bins, root': seq<nat>, treemap': set<nat>, node': Nodes, i: nat, t': Trie, x: nat)
    requires i < |b.root| && i < |b.tries|
  {
    && BinLinked(i, t', node', b.hdr + 8 * i) && NonEmptyRings(t')
    && TrieOk(i, t', b.size - {x})
    && (forall y :: Member(t', y) <==> Member(b.tries[i], y) && y != x)
    && root' == b.root[i := At(t', Root)]
    && treemap' == (if Root in t' then b.treemap else b.treemap - {i})
    && WritesWithin(b.tries[i], x, b.node, node')
  }

  lemma RemoveKeepsBins(b: Bins, b': Bins, i: nat, x: nat)
    requires BinsOk(b) && i < NTREEBINS && Member(b.tries[i], x) && x in b.size
    requires |b'.tries| == NTREEBINS && b' == Bins(b'.root, b'.treemap, b'.node, b.hdr, b.tries[i := b'.tries[i]], b.size - {x})
    requires Unlinked(b, b'.root, b'.treemap, b'.node, i, b'.tries[i], x)
    ensures BinsOk(b')
  {
    hide RingOk, BinLinked, TrieOk, InBin;
    assert BinOkAt(b, i);
    assert Root in b'.tries[i] ==> Root in b.tries[i] by {
      if Root in b'.tries[i] {
        RootStays(b, i, b'.tries[i], x);
      }
    }
    assert BinOkAt(b', i);
    hide BinOkAt;
    ReplaceBin(b, b', i, x);
  }

  /** A bin that is not empty afterwards was not empty before. */
  lemma RootStays(b: Bins, i: nat, t': Trie, x: nat)
    requires BinsOk(b) && i < NTREEBINS && Root in t' && NonEmptyRings(t')
    requires forall y :: Member(t', y) <==> Member(b.tries[i], y) && y != x
    ensures Root in b.tries[i]
  {
    hide RingOk, BinLinked;
    assert t'[Root][0] in t'[Root];
    assert Member(t', t'[Root][0]);
    var p :| p in b.tries[i] && t'[Root][0] in b.tries[i][p];
    assert BinOkAt(b, i);
    EmptyWithoutRootAt(i, b.tries[i], b.size, p);
  }

  lemma WithinTransitive(t: Trie, x: nat, n0: Nodes, n1: Nodes, n2: Nodes)
    requires WritesWithin(t, x, n0, n1) && WritesWithin(t, x, n1, n2)
    ensures WritesWithin(t, x, n0, n2)
  {
  }

  /** One write to a chunk of the trie that keeps the bin index. */
  lemma OneWrite(t: Trie, x: nat, node: Nodes, y: nat, n: TNode)
    requires y in node && Member(t, y) && n.index == node[y].index
    ensures WritesWithin(t, x, node, node[y := n]) && node[y := n].Keys == node.Keys
  {
  }

  lemma AdoptWithin(t: Trie, node: Nodes, x: nat, xp: nat, r: nat)
    requires x in node && r in node && Member(t, r)
    requires node[x].child0 != 0 ==> node[x].child0 in node && Member(t, node[x].child0)
    requires node[x].child1 != 0 ==> node[x].child1 in node && Member(t, node[x].child1)
    ensures WritesWithin(t, x, node, WriteAdopt(node, x, xp, r))
  {
    hide WritesWithin, Member;
    var c0, c1 := node[x].child0, node[x].child1;
    var n1 := node[r := node[r].(parent := xp)];
    OneWrite(t, x, node, r, n1[r]);
    var n2 := if c0 == 0 then n1 else n1[r := n1[r].(child0 := c0)];
    OneWrite(t, x, n1, r, n2[r]);
    var n3 := if c0 == 0 then n2 else n2[c0 := n2[c0].(parent := r)];
    if c0 != 0 {
      OneWrite(t, x, n2, c0, n3[c0]);
    } else {
      OneWrite(t, x, n2, r, n2[r]);
    }
    assert n3[x].child1 == c1;
    var n4 := if c1 == 0 then n3 else n3[r := n3[r].(child1 := c1)];
    OneWrite(t, x, n3, r, n4[r]);
    assert n1 == node[r := n1[r]] && n2 == n1[r := n2[r]] && n3 == (if c0 == 0 then n2[r := n2[r]] else n2[c0 := n3[c0]]) && n4 == n3[r := n4[r]];
    WithinTransitive(t, x, node, n1, n2);
    WithinTransitive(t, x, node, n2, n3);
    WithinTransitive(t, x, node, n3, n4);
    if c1 != 0 {
      OneWrite(t, x, n4, c1, n4[c1].(parent := r));
      WithinTransitive(t, x, node, n4, n4[c1 := n4[c1].(parent := r)]);
    }
  }

  lemma TakeOverWithin(t: Trie, t1: Trie, p: Path, node: Nodes, hdr: nat, x: nat, r: nat)
    requires p.Step? ==> p.up in t1 && |t1[p.up]| > 0 && t1[p.up][0] in node && t1[p.up][0] != x && Member(t, t1[p.up][0])
    requires x in node && r in node && Member(t, r)
    requires node[x].child0 != 0 ==> node[x].child0 in node && Member(t, node[x].child0)
    requires node[x].child1 != 0 ==> node[x].child1 in node && Member(t, node[x].child1)
    ensures WritesWithin(t, x, node, WriteTakeOver(t1, p, node, hdr, x, r))
  {
    hide WritesWithin, Member, WriteAdopt;
    if p.Step? {
      var h := t1[p.up][0];
      var n := if p.bit then node[h].(child1 := r) else node[h].(child0 := r);
      OneWrite(t, x, node, h, n);
      AdoptWithin(t, node[h := n], x, ParentWord(t1, p, hdr), r);
      WithinTransitive(t, x, node, node[h := n], WriteTakeOver(t1, p, node, hdr, x, r));
    } else {
      AdoptWithin(t, node, x, ParentWord(t1, p, hdr), r);
    }
  }

  /** All heads of a linked trie are chunks. */
  lemma HeadsNonZero(i: nat, t: Trie, node: Nodes, hdr: nat, q: Path)
    requires BinLinked(i, t, node, hdr) && NonEmptyRings(t) && q in t
    ensures t[q][0] != 0 && t[q][0] in node && Member(t, t[q][0])
  {
    assert RingLinked(i, t[q], node) && ChunkLinked(i, t[q], 0, node);
    assert t[q][0] in t[q];
  }

  lemma Closed(i: nat, t: Trie, size: Sizes, p: Path)
    requires TrieOk(i, t, size) && p in t && p.Step?
    ensures p.up in t
  {
    assert p == Step(p.up, p.bit);
  }

  lemma PlaceReadyFrom(root: seq<nat>, i: nat, t: Trie, p: Path, node: Nodes, hdr: nat, x: nat, r: nat)
    requires LinkedBut(i, t, p, node, hdr + 8 * i) && Apart(t) && TakesOver(t, p, node, x)
    requires i < |root| && x in node && node[x].index == i && x != 0
    requires Root in t && root[i] == At(t, Root)
    requires r == 0 || (r in node && r != x)
    ensures PlaceReady(root, node, hdr, x, node[x].parent, r, t, p)
  {
    TakeOverDefined(i, t, p, node, hdr + 8 * i, x);
    assert NodeLinked(t, p, node, hdr + 8 * i);
    assert x in t[p] && t[Root][0] in t[Root];
    if p.Step? {
      assert NodeLinked(t, p.up, node, hdr + 8 * i);
      assert p == Step(p.up, p.bit);
      if p.bit && Step(p.up, false) in t {
        assert t[Step(p.up, false)][0] in t[Step(p.up, false)];
      }
    }
  }

  /** The state after the node `x` at `p` was taken out of its ring of several. */
  lemma HeadOfRing(b: Bins, i: nat, t: Trie, p: Path, x: nat)
    requires i < |b.root| && i < |b.tries| && t == b.tries[i]
    requires BinLinked(i, t, b.node, b.hdr + 8 * i) && TrieOk(i, t, b.size) && Apart(t) && NonEmptyRings(t)
    requires p in t && |t[p]| > 1 && t[p][0] == x && x in b.node && b.node[x].index == i && x != 0
    requires Root in t && b.root[i] == At(t, Root)
    ensures b.node[x].fd in b.node && b.node[x].bk in b.node && b.node[x].bk == RingRemove(t[p], 0)[0]
    ensures b.node[x].bk != 0 && Member(t, b.node[x].bk)
    ensures var n1 := WriteUnring(b.node, b.node[x].fd, b.node[x].bk);
            && WritesWithin(t, x, b.node, n1)
            && PlaceReady(b.root, n1, b.hdr, x, b.node[x].parent, b.node[x].bk, t[p := [x]], p)
            && LinkedBut(i, t[p := [x]], p, n1, b.hdr + 8 * i) && Apart(t[p := [x]])
            && LooseRing(i, t[p := [x]], RingRemove(t[p], 0), n1) && TakesOver(t[p := [x]], p, n1, x)
  {
    hide BinLinked, LinkedBut, LooseRing, RingOk, PlaceReady;
    var hdr := b.hdr + 8 * i;
    UnringHead(i, t, b.node, hdr, p);
    var t1 := t[p := [x]];
    var r := b.node[x].bk;
    var n1 := WriteUnring(b.node, b.node[x].fd, r);
    LastOfRing(i, t, b.node, hdr, p);
    assert t[p][1] in t[p] && r in t[p] && x in t[p];
    assert Member(t, t[p][1]) && Member(t, r);
    if p.Step? {
      Closed(i, t, b.size, p);
    }
    PlaceReadyFrom(b.root, i, t1, p, n1, b.hdr, x, r);
  }

  lemma LastOfRing(i: nat, t: Trie, node: Nodes, hdr: nat, p: Path)
    requires BinLinked(i, t, node, hdr) && Apart(t) && p in t && |t[p]| > 1
    ensures RingRemove(t[p], 0)[0] == t[p][|t[p]| - 1] != 0
  {
    assert RingLinked(i, t[p], node) && ChunkLinked(i, t[p], |t[p]| - 1, node);
  }

  lemma HeadOfRingGone(b: Bins, i: nat, t: Trie, p: Path, x: nat, n1: Nodes, root': seq<nat>, node': Nodes)
    requires i < |b.root| && i < |b.tries| && t == b.tries[i]
    requires BinLinked(i, t, b.node, b.hdr + 8 * i) && TrieOk(i, t, b.size) && Apart(t) && NonEmptyRings(t)
    requires p in t && |t[p]| > 1 && t[p][0] == x && x in b.node && b.node[x].index == i && x != 0
    requires Root in t && b.root[i] == At(t, Root)
    requires b.node[x].fd in b.node && b.node[x].bk in b.node
    requires n1 == WriteUnring(b.node, b.node[x].fd, b.node[x].bk)
    requires PlaceReady(b.root, n1, b.hdr, x, b.node[x].parent, b.node[x].bk, t[p := [x]], p)
    requires node' == WriteTakeOver(t[p := [x]], p, n1, b.hdr + 8 * i, x, b.node[x].bk)
    requires root' == if p.Root? then b.root[i := b.node[x].bk] else b.root
    ensures Unlinked(b, root', b.treemap, node', i, t[p := RingRemove(t[p], 0)], x)
  {
    hide BinLinked, LinkedBut, LooseRing, RingOk, WriteUnring, WriteTakeOver, WritesWithin, PlaceReady, TrieOk;
    var hdr := b.hdr + 8 * i;
    var r := b.node[x].bk;
    var t1 := t[p := [x]];
    var t' := t[p := RingRemove(t[p], 0)];
    HeadOfRing(b, i, t, p, x);
    assert forall s :: s in t1 ==> t1[s][0] != 0 by {
      forall s | s in t ensures t[s][0] != 0 {
        HeadsNonZero(i, t, b.node, hdr, s);
      }
    }
    TakeOver(i, t1, p, n1, hdr, x, RingRemove(t[p], 0));
    assert t1[p := RingRemove(t[p], 0)] == t';
    RingRemoveKeepsTrie(i, t, b.size, p, 0);
    HeadTakeOverWithin(b, i, t, p, x, n1);
    WithinTransitive(t, x, b.node, n1, node');
    assert NonEmptyRings(t');
    assert root' == b.root[i := At(t', Root)];
  }

  lemma HeadTakeOverWithin(b: Bins, i: nat, t: Trie, p: Path, x: nat, n1: Nodes)
    requires BinLinked(i, t, b.node, b.hdr + 8 * i) && TrieOk(i, t, b.size) && Apart(t) && NonEmptyRings(t)
    requires p in t && |t[p]| > 1 && t[p][0] == x && x in b.node && b.node[x].bk in n1
    requires LinkedBut(i, t[p := [x]], p, n1, b.hdr + 8 * i) && Apart(t[p := [x]]) && TakesOver(t[p := [x]], p, n1, x)
    requires Member(t, b.node[x].bk)
    ensures x in n1
    ensures p.Step? ==> t[p.up][0] in n1 && t[p.up][0] != x
    ensures n1[x].child0 != 0 ==> n1[x].child0 in n1
    ensures n1[x].child1 != 0 ==> n1[x].child1 in n1
    ensures WritesWithin(t, x, n1, WriteTakeOver(t[p := [x]], p, n1, b.hdr + 8 * i, x, b.node[x].bk))
  {
    hide BinLinked, RingOk, LinkedBut, WriteTakeOver, WritesWithin;
    var hdr := b.hdr + 8 * i;
    var t1 := t[p := [x]];
    TakeOverDefined(i, t1, p, n1, hdr, x);
    if p.Step? {
      HeadsNonZero(i, t, b.node, hdr, p.up);
      assert Depth(p.up) != Depth(p);
    }
    forall c | Step(p, c) in t ensures Member(t, t1[Step(p, c)][0]) {
      assert Depth(Step(p, c)) != Depth(p);
      HeadsNonZero(i, t, b.node, hdr, Step(p, c));
    }
    TakeOverWithin(t, t1, p, n1, hdr, x, b.node[x].bk);
  }

  /** The state after a chunk that is no tree node was taken out of its ring. */
  lemma InsideRingGone(b: Bins, i: nat, t: Trie, p: Path, k: nat, x: nat)
    requires i < |b.root| && i < |b.tries| && t == b.tries[i]
    requires BinLinked(i, t, b.node, b.hdr + 8 * i) && TrieOk(i, t, b.size) && Apart(t) && NonEmptyRings(t)
    requires p in t && 0 < k < |t[p]| && t[p][k] == x && x in b.node
    requires Root in t && b.root[i] == At(t, Root)
    ensures b.node[x].fd in b.node && b.node[x].bk in b.node
    ensures Unlinked(b, b.root, b.treemap, WriteUnring(b.node, b.node[x].fd, b.node[x].bk), i, t[p := RingRemove(t[p], k)], x)
  {
    hide BinLinked, RingOk, TrieOk;
    var t' := t[p := RingRemove(t[p], k)];
    UnringOther(i, t, b.node, b.hdr + 8 * i, p, k);
    RingRemoveKeepsTrie(i, t, b.size, p, k);
    var n := |t[p]|;
    assert t[p][Next(k, n)] in t[p] && t[p][Prev(k, n)] in t[p];
    assert Member(t, b.node[x].fd) && Member(t, b.node[x].bk);
    assert At(t', Root) == At(t, Root);
  }

  /** The words after the childless node at `q` below the lone node `x` was detached. */
  lemma LoneNode(b: Bins, i: nat, t: Trie, p: Path, x: nat, q: Path, n1: Nodes)
    requires i < |b.root| && i < |b.tries| && t == b.tries[i]
    requires BinLinked(i, t, b.node, b.hdr + 8 * i) && TrieOk(i, t, b.size) && Apart(t) && NonEmptyRings(t)
    requires p in t && t[p] == [x] && x in b.node && b.node[x].index == i && x != 0
    requires Root in t && b.root[i] == At(t, Root) && LeafUnder(t, q, p) && q != p
    requires q.Step? && q.up in t && t[q.up][0] in b.node && n1 == WriteSlot(b.node, t[q.up][0], q.bit, 0)
    ensures t[q][0] != 0 && t[q][0] in n1 && x in n1 && n1[x].index == i
    ensures WritesWithin(t, x, b.node, n1)
    ensures PlaceReady(b.root, n1, b.hdr, x, b.node[x].parent, t[q][0], t - {q}, p)
    ensures BinLinked(i, t - {q}, n1, b.hdr + 8 * i) && LooseRing(i, t - {q}, t[q], n1)
    ensures Apart(t - {q}) && TakesOver(t - {q}, p, n1, x)
  {
    hide RingOk, PlaceReady, BinLinked, LinkedBut, LooseRing, Apart, TrieOk, WriteSlot;
    var hdr := b.hdr + 8 * i;
    CutLeafPlace(i, t, b.size, p, q);
    HeadsNonZero(i, t, b.node, hdr, q);
    HeadsNonZero(i, t, b.node, hdr, q.up);
    CutLeaf(i, t, b.node, hdr, q);
    SlotWrite(t, x, b.node, t[q.up][0], q.bit);
    BinLinkedIsLinkedBut(i, t - {q}, n1, hdr, p);
    assert x in t[p] && t[q][0] in t[q];
    assert t[q][0] != x by {
      assert Apart(t);
      TwoHeads(t, p, q);
    }
    PlaceReadyFrom(b.root, i, t - {q}, p, n1, b.hdr, x, t[q][0]);
  }

  lemma TwoHeads(t: Trie, p: Path, q: Path)
    requires Apart(t) && NonEmptyRings(t) && p in t && q in t && p != q
    ensures t[p][0] != t[q][0]
  {
    assert t[p][0] in t[p] && t[q][0] in t[q];
  }

  lemma SlotWrite(t: Trie, x: nat, node: Nodes, h: nat, bit: bool)
    requires h in node && x in node && Member(t, h)
    ensures WritesWithin(t, x, node, WriteSlot(node, h, bit, 0))
    ensures WriteSlot(node, h, bit, 0).Keys == node.Keys
    ensures WriteSlot(node, h, bit, 0)[x].index == node[x].index
    ensures WriteSlot(node, h, bit, 0)[x].parent == node[x].parent
  {
  }

  lemma BinLinkedIsLinkedBut(i: nat, t: Trie, node: Nodes, hdr: nat, p: Path)
    requires BinLinked(i, t, node, hdr)
    ensures LinkedBut(i, t, p, node, hdr)
  {
    forall q | q in t ensures RingLinked(i, t[q], node) && NodeLinked(t, q, node, hdr) {
      assert NodeLinked(t, q, node, hdr);
    }
  }

  /** Without the childless node at `q`, the rest is still closed upwards. */
  lemma CutLeafPlace(i: nat, t: Trie, size: Sizes, p: Path, q: Path)
    requires TrieOk(i, t, size) && Apart(t) && p in t && Root in t && LeafUnder(t, q, p) && q != p
    ensures p in t - {q} && Root in t - {q} && Apart(t - {q})
    ensures p.Step? ==> p.up in t - {q} && p.up != p
    ensures forall up, bit :: Step(up, bit) in t - {q} ==> up in t - {q}
    ensures LeafUnder(t, q, q)
  {
    hide RingOk;
    UnderDepth(q, p);
    if p.Step? {
      Closed(i, t, size, p);
      assert Depth(p.up) < Depth(p);
    }
    forall up, bit | Step(up, bit) in t - {q} ensures up in t - {q} {
      assert bit == false || bit == true;
    }
  }

  lemma LoneTakeOverWithin(b: Bins, i: nat, t: Trie, p: Path, x: nat, q: Path, n1: Nodes)
    requires BinLinked(i, t, b.node, b.hdr + 8 * i) && Apart(t) && NonEmptyRings(t)
    requires p in t && q in t && q != p && t[p] == [x] && t[q][0] in n1 && NonEmptyRings(t - {q})
    requires LinkedBut(i, t - {q}, p, n1, b.hdr + 8 * i) && Apart(t - {q}) && TakesOver(t - {q}, p, n1, x)
    ensures x in n1
    ensures p.Step? ==> p.up in t - {q} && t[p.up][0] in n1 && t[p.up][0] != x
    ensures n1[x].child0 != 0 ==> n1[x].child0 in n1
    ensures n1[x].child1 != 0 ==> n1[x].child1 in n1
    ensures WritesWithin(t, x, n1, WriteTakeOver(t - {q}, p, n1, b.hdr + 8 * i, x, t[q][0]))
  {
    hide BinLinked, RingOk, LinkedBut, WriteTakeOver, WritesWithin;
    var hdr := b.hdr + 8 * i;
    var t1 := t - {q};
    TakeOverDefined(i, t1, p, n1, hdr, x);
    HeadsNonZero(i, t, b.node, hdr, q);
    if p.Step? {
      HeadsNonZero(i, t, b.node, hdr, p.up);
    }
    forall c | Step(p, c) in t1 ensures Member(t, t1[Step(p, c)][0]) {
      HeadsNonZero(i, t, b.node, hdr, Step(p, c));
    }
    TakeOverWithin(t, t1, p, n1, hdr, x, t[q][0]);
  }

  /** The state after the lone node `x` at `p` was replaced by the ring from `q`. */
  lemma LoneNodeGone(b: Bins, i: nat, t: Trie, p: Path, x: nat, q: Path, n1: Nodes, root': seq<nat>, node': Nodes)
    requires i < |b.root| && i < |b.tries| && t == b.tries[i]
    requires BinLinked(i, t, b.node, b.hdr + 8 * i) && TrieOk(i, t, b.size) && Apart(t) && NonEmptyRings(t)
    requires p in t && t[p] == [x] && x in b.node && b.node[x].index == i && x != 0
    requires Root in t && b.root[i] == At(t, Root) && LeafUnder(t, q, p) && q != p
    requires q.Step? && q.up in t && t[q.up][0] in b.node && n1 == WriteSlot(b.node, t[q.up][0], q.bit, 0)
    requires PlaceReady(b.root, n1, b.hdr, x, b.node[x].parent, t[q][0], t - {q}, p)
    requires t[q][0] in n1
    requires node' == WriteTakeOver(t - {q}, p, n1, b.hdr + 8 * i, x, t[q][0])
    requires root' == if p.Root? then b.root[i := t[q][0]] else b.root
    ensures Unlinked(b, root', b.treemap, node', i, Replace(t, p, q), x)
  {
    hide BinLinked, LinkedBut, LooseRing, RingOk, WriteSlot, WriteTakeOver, WritesWithin, PlaceReady, TrieOk;
    var hdr := b.hdr + 8 * i;
    var t1 := t - {q};
    var t' := Replace(t, p, q);
    LoneNode(b, i, t, p, x, q, n1);
    assert forall s :: s in t1 ==> t1[s][0] != 0 by {
      forall s | s in t ensures t[s][0] != 0 {
        HeadsNonZero(i, t, b.node, hdr, s);
      }
    }
    BinLinkedIsLinkedBut(i, t1, n1, hdr, p);
    TakeOver(i, t1, p, n1, hdr, x, t[q]);
    ReplaceKeepsTrie(i, t, b.size, p, q);
    forall y ensures Member(t', y) <==> Member(t, y) && y != x {
      ReplaceMembers(i, t, b.size, p, q, y);
    }
    LoneTakeOverWithin(b, i, t, p, x, q, n1);
    WithinTransitive(t, x, b.node, n1, node');
    assert root' == b.root[i := At(t', Root)];
  }

  /** The state after a lone node without children was unlinked. */
  lemma LeafGone(b: Bins, i: nat, t: Trie, p: Path, x: nat, root': seq<nat>, treemap': set<nat>, node': Nodes)
    requires i < |b.root| && i < |b.tries| && t == b.tries[i]
    requires BinLinked(i, t, b.node, b.hdr + 8 * i) && TrieOk(i, t, b.size) && Apart(t) && NonEmptyRings(t)
    requires p in t && t[p] == [x] && x in b.node && b.node[x].index == i && x != 0
    requires Root in t && b.root[i] == At(t, Root) && LeafUnder(t, p, p)
    requires p.Step? ==> p.up in t && t[p.up][0] in b.node && node' == WriteSlot(b.node, t[p.up][0], p.bit, 0)
    requires p.Root? ==> node' == b.node
    requires root' == if p.Root? then b.root[i := 0] else b.root
    requires treemap' == if p.Root? then b.treemap - {i} else b.treemap
    ensures Unlinked(b, root', treemap', node', i, Replace(t, p, p), x)
  {
    hide RingOk, WriteSlot, TrieOk, WritesWithin, BinLinked, LooseRing;
    var t' := Replace(t, p, p);
    ReplaceKeepsTrie(i, t, b.size, p, p);
    forall y ensures Member(t', y) <==> Member(t, y) && y != x {
      ReplaceMembers(i, t, b.size, p, p, y);
    }
    if p.Step? {
      LeafCut(i, t, b.node, b.hdr + 8 * i, p, x);
    } else {
      EmptyAfterRoot(i, t, b.size);
      NoWrites(t, x, b.node);
      NothingLinked(i, b.node, b.hdr + 8 * i);
    }
    assert root' == b.root[i := At(t', Root)];
  }

  lemma LeafCut(i: nat, t: Trie, node: Nodes, hdr: nat, p: Path, x: nat)
    requires BinLinked(i, t, node, hdr) && Apart(t) && NonEmptyRings(t) && x in node
    requires p in t && p.Step? && p.up in t && t[p.up][0] in node && LeafUnder(t, p, p)
    ensures BinLinked(i, t - {p}, WriteSlot(node, t[p.up][0], p.bit, 0), hdr)
    ensures WritesWithin(t, x, node, WriteSlot(node, t[p.up][0], p.bit, 0))
  {
    hide RingOk, WriteSlot, WritesWithin, BinLinked, LooseRing;
    CutLeaf(i, t, node, hdr, p);
    HeadsNonZero(i, t, node, hdr, p.up);
    SlotWrite(t, x, node, t[p.up][0], p.bit);
  }

  lemma NoWrites(t: Trie, x: nat, node: Nodes)
    ensures WritesWithin(t, x, node, node)
  {
  }

  lemma NothingLinked(i: nat, node: Nodes, hdr: nat)
    ensures BinLinked(i, map[], node, hdr)
  {
  }

  lemma EmptyAfterRoot(i: nat, t: Trie, size: Sizes)
    requires TrieOk(i, t, size) && LeafUnder(t, Root, Root)
    ensures t - {Root} == map[]
  {
    forall q | q in t ensures q == Root {
      if q != Root {
        EmptyAfterRootAt(i, t, size, q);
      }
    }
  }

  lemma {:induction false} EmptyAfterRootAt(i: nat, t: Trie, size: Sizes, q: Path)
    requires TrieOk(i, t, size) && q in t && q != Root
    ensures Step(Root, false) in t || Step(Root, true) in t
  {
    hide RingOk;
    assert q == Step(q.up, q.bit);
    if q.up != Root {
      EmptyAfterRootAt(i, t, size, q.up);
    }
  }

  /** A lone node without children can be unlinked at once. */
  lemma LoneLeaf(b: Bins, i: nat, t: Trie, p: Path, x: nat)
    requires i < |b.root| && i < |b.tries| && t == b.tries[i]
    requires BinLinked(i, t, b.node, b.hdr + 8 * i) && TrieOk(i, t, b.size) && Apart(t) && NonEmptyRings(t)
    requires p in t && t[p] == [x] && x in b.node && b.node[x].index == i && x != 0
    requires Root in t && b.root[i] == At(t, Root)
    ensures PlaceReady(b.root, b.node, b.hdr, x, b.node[x].parent, 0, t, p)
    ensures p.Step? ==> p.up in t && t[p.up][0] in b.node
  {
    hide BinLinked, LinkedBut, PlaceReady, RingOk;
    BinLinkedIsLinkedBut(i, t, b.node, b.hdr + 8 * i, p);
    if p.Step? {
      Closed(i, t, b.size, p);
      HeadsNonZero(i, t, b.node, b.hdr + 8 * i, p.up);
    }
    PlaceReadyFrom(b.root, i, t, p, b.node, b.hdr, x, 0);
  }

  /** The children of the node at path `q`. */
  lemma ChildFacts(i: nat, t: Trie, node: Nodes, hdr: nat, size: Sizes, q: Path)
    requires BinLinked(i, t, node, hdr) && TrieOk(i, t, size) && NonEmptyRings(t) && q in t
    ensures t[q][0] in node && t[q][0] != 0 && Exp(i, q) >= 0
    ensures node[t[q][0]].child0 == At(t, Step(q, false)) && node[t[q][0]].child1 == At(t, Step(q, true))
    ensures forall b :: Step(q, b) in t ==> At(t, Step(q, b)) != 0 && Exp(i, Step(q, b)) >= 0
    ensures q.Step? ==> q.up in t
  {
    assert NodeLinked(t, q, node, hdr) && RingLinked(i, t[q], node) && ChunkLinked(i, t[q], 0, node);
    assert RingOk(i, q, t[q], size);
    forall b | Step(q, b) in t ensures At(t, Step(q, b)) != 0 && Exp(i, Step(q, b)) >= 0 {
      assert RingLinked(i, t[Step(q, b)], node) && ChunkLinked(i, t[Step(q, b)], 0, node);
      assert RingOk(i, Step(q, b), t[Step(q, b)], size);
    }
    if q.Step? {
      assert q == Step(q.up, q.bit);
    }
  }

  /** The best fit so far, with `-nb` as the remainder while there is none. */
  ghost predicate Candidate(t: Trie, size: Sizes, nb: nat, v: nat, rsize: nat) {
    if v == 0 then nb + rsize == W64 else v in size && size[v] == nb + rsize && Member(t, v)
  }

  /** All nodes of the subtree at `at` are large enough. */
  ghost predicate AllFit(t: Trie, size: Sizes, nb: nat, at: Path) {
    forall q :: q in t && Under(q, at) && |t[q]| > 0 && t[q][0] in size ==> SizeAt(t, size, q) >= nb
  }

  /** `t` is the node of the subtree that is left. */
  ghost predicate RestAt(i: nat, t: Trie, x: nat, rest: Rest) {
    match rest
    case Nothing => x == 0
    case Subtree(at) => at in t && |t[at]| > 0 && x == t[at][0] && x != 0 && Exp(i, at) >= 0
  }

  lemma FindFacts(b: Bins, i: nat)
    requires BinsOk(b) && i < NTREEBINS
    ensures i < |b.tries| == |b.root| == NTREEBINS
    ensures BinLinked(i, b.tries[i], b.node, b.hdr + 8 * i) && TrieOk(i, b.tries[i], b.size)
    ensures NonEmptyRings(b.tries[i]) && b.root[i] == At(b.tries[i], Root)
    ensures i in b.treemap <==> Root in b.tries[i]
    ensures Root in b.tries[i] ==> b.root[i] != 0
  {
    hide RingOk, RingLinked, NodeLinked;
    assert BinOkAt(b, i);
    if Root in b.tries[i] {
      HeadsNonZero(i, b.tries[i], b.node, b.hdr + 8 * i, Root);
    }
  }

  /** What the first walk finds at the node on path `p`. */
  lemma WalkFacts(i: nat, t: Trie, size: Sizes, node: Nodes, hdr: nat, p: Path, nb: nat, k: nat)
    requires BinLinked(i, t, node, hdr) && TrieOk(i, t, size) && NonEmptyRings(t) && p in t && i < NTREEBINS
    requires Covers(i, p, nb) && Exp(i, p) <= 64 && k == (nb - Lo(i, p)) * Pow2(64 - Exp(i, p))
    ensures var x := t[p][0];
            && x in size && x in node && x != 0
            && node[x].child0 == At(t, Step(p, false)) && node[x].child1 == At(t, Step(p, true))
            && size[x] < W64
    ensures forall bit :: Step(p, bit) in t ==> t[Step(p, bit)][0] != 0 && |t[Step(p, bit)]| > 0
    ensures Step(p, true) in t && Step(p, false) in t ==> t[Step(p, true)][0] != t[Step(p, false)][0]
    ensures size[t[p][0]] != nb ==>
            var bit := k >= W64 / 2;
            && 0 <= Exp(i, Step(p, bit)) < Exp(i, p) <= 64 && Covers(i, Step(p, bit), nb)
            && k * 2 % W64 == (nb - Lo(i, Step(p, bit))) * Pow2(64 - Exp(i, Step(p, bit)))
  {
    hide BinLinked, Covers, Lo;
    ChildFacts(i, t, node, hdr, size, p);
    NodeSize(i, t, size, p);
    SizeBound(i, p, size[t[p][0]]);
    if Step(p, true) in t && Step(p, false) in t {
      TrieApart(i, t, size);
      TwoHeads(t, Step(p, true), Step(p, false));
    }
    if size[t[p][0]] != nb {
      OneSizeLeft(i, p, nb, size[t[p][0]]);
      TopBit(i, p, nb, k);
    }
  }

  /** The state of the first walk at the node `x` on path `p`. */
  ghost predicate Walking(i: nat, t: Trie, size: Sizes, nb: nat, v: nat, rsize: nat, rest: Rest, rst: nat,
                          p: Path, x: nat, sizebits: nat)
  {
    && TrieOk(i, t, size) && i < NTREEBINS && 0 < nb < W64
    && p in t && |t[p]| > 0 && x == t[p][0] && x != 0 && Covers(i, p, nb) && 0 <= Exp(i, p) <= 64
    && sizebits == (nb - Lo(i, p)) * Pow2(64 - Exp(i, p))
    && Candidate(t, size, nb, v, rsize) && 0 < rsize <= W64 - nb
    && WalkSettled(i, t, size, nb, rsize, rest, p) && RestOk(i, t, size, nb, rest, p)
    && RestAt(i, t, rst, rest)
  }

  /** The result of the first walk: everything but the subtree at `x` is settled. */
  ghost predicate Searched(i: nat, t: Trie, size: Sizes, nb: nat, v: nat, rsize: nat, x: nat, rest: Rest) {
    && TrieOk(i, t, size)
    && Candidate(t, size, nb, v, rsize) && AllSettled(i, t, size, nb, rsize, rest) && RestAt(i, t, x, rest)
    && rsize <= W64 - nb
    && (rest.Subtree? ==> rsize == 0 || AllFit(t, size, nb, rest.at))
  }

  /** A search for a size beyond all chunks, which finds nothing wherever it looks. */
  ghost predicate Barren(i: nat, t: Trie, size: Sizes, nb: nat, v: nat, rsize: nat, x: nat, rest: Rest) {
    && TrieOk(i, t, size) && RestAt(i, t, x, rest)
    && v == 0 && nb + rsize == W64
    && (forall y :: y in size ==> size[y] < nb)
  }

  ghost predicate BarrenAt(i: nat, t: Trie, size: Sizes, nb: nat, v: nat, rsize: nat, rest: Rest, rst: nat, p: Path, x: nat) {
    && Barren(i, t, size, nb, v, rsize, rst, rest)
    && p in t && |t[p]| > 0 && x == t[p][0] && x != 0
  }

  lemma BarrenStart(i: nat, t: Trie, size: Sizes, nb: nat)
    requires TrieOk(i, t, size) && nb < W64 && forall y :: y in size ==> size[y] < nb
    ensures Barren(i, t, size, nb, 0, W64 - nb, 0, Nothing)
  {
  }

  /** A turn of either walk when nothing fits: the wrapped remainder is never better. */
  lemma BarrenTurn(i: nat, t: Trie, size: Sizes, node: Nodes, hdr: nat, nb: nat, v: nat, rsize: nat, rest: Rest, rst: nat,
                   p: Path, x: nat)
    requires BarrenAt(i, t, size, nb, v, rsize, rest, rst, p, x) && nb > 0
    requires BinLinked(i, t, node, hdr) && NonEmptyRings(t)
    ensures x in size && x in node && (size[x] - nb) % W64 >= rsize && Exp(i, p) >= 0
    ensures node[x].child0 == At(t, Step(p, false)) && node[x].child1 == At(t, Step(p, true))
    ensures forall c :: Step(p, c) in t ==>
            && At(t, Step(p, c)) != 0 && Exp(i, Step(p, c)) == Exp(i, p) - 1 >= 0
            && RestAt(i, t, At(t, Step(p, c)), Subtree(Step(p, c)))
            && BarrenAt(i, t, size, nb, v, rsize, rest, rst, Step(p, c), At(t, Step(p, c)))
            && Barren(i, t, size, nb, v, rsize, At(t, Step(p, c)), Subtree(Step(p, c)))
  {
    hide BinLinked, RingOk;
    ChildFacts(i, t, node, hdr, size, p);
    NodeSize(i, t, size, p);
    assert (size[x] - nb) % W64 == size[x] - nb + W64;
  }

  /** The state before the first walk. */
  lemma WalkStart(i: nat, t: Trie, size: Sizes, nb: nat, x: nat)
    requires TrieOk(i, t, size) && InBin(i, nb) && nb > 0 && Root in t && |t[Root]| > 0 && x == t[Root][0] && x != 0
    ensures Walking(i, t, size, nb, 0, W64 - nb, Nothing, 0, Root, x, nb * Pow2(LeftShift(i)) % W64)
  {
    assert nb < W64 && i < NTREEBINS;
    hide TrieOk, InBin, WalkSettled, LeftShift, Lo, Pow2;
    FirstShift(i, nb);
    SearchFromRoot(i, t, size, nb, W64 - nb);
  }

  /** One turn of the first walk, by the same computation as in tmalloc_large. */
  lemma WalkTurn(i: nat, t: Trie, size: Sizes, node: Nodes, hdr: nat, nb: nat, v: nat, rsize: nat, rest: Rest, rst: nat,
                 p: Path, x: nat, sizebits: nat)
    requires Walking(i, t, size, nb, v, rsize, rest, rst, p, x, sizebits)
    requires BinLinked(i, t, node, hdr) && NonEmptyRings(t)
    ensures x in size && x in node && (size[x] - nb) % W64 >= 0 && rsize > 0
    ensures var trem := (size[x] - nb) % W64;
            var v', rsize' := if trem < rsize then x else v, if trem < rsize then trem else rsize;
            var bit, rt := sizebits >= W64 / 2, node[x].child1;
            var next := if bit then node[x].child1 else node[x].child0;
            var rst', rest' := if rt != 0 && rt != next then rt else rst,
                               if rt != 0 && rt != next then Subtree(Step(p, true)) else rest;
            if rsize' == 0 then Searched(i, t, size, nb, v', 0, x, Subtree(p))
            else if next == 0 then Searched(i, t, size, nb, v', rsize', rst', rest')
            else Walking(i, t, size, nb, v', rsize', rest', rst', Step(p, bit), next, sizebits * 2 % W64)
                 && 0 <= Exp(i, Step(p, bit)) < Exp(i, p)
  {
    hide TrieOk, BinLinked, Covers, WalkSettled, AllSettled, RestOk, RestAt, Candidate, Lo, Pow2, Exp;
    WalkFacts(i, t, size, node, hdr, p, nb, sizebits);
    Visit(i, t, size, nb, v, rsize, rest, p);
    var trem := (size[x] - nb) % W64;
    var rsize' := if trem < rsize then trem else rsize;
    if rsize' == 0 {
      ExactFit(i, t, size, nb, Subtree(p));
    } else {
      Turned(i, t, size, nb, rsize', rest, rst, p, sizebits >= W64 / 2);
    }
  }

  /** Looking at the node on path `p` keeps the best remainder. */
  lemma Visit(i: nat, t: Trie, size: Sizes, nb: nat, v: nat, rsize: nat, rest: Rest, p: Path)
    requires TrieOk(i, t, size) && p in t && |t[p]| > 0 && t[p][0] in size && size[t[p][0]] < W64
    requires 0 < nb < W64 && rsize <= W64 - nb && Candidate(t, size, nb, v, rsize) && t[p][0] != 0
    requires WalkSettled(i, t, size, nb, rsize, rest, p) && Exp(i, p) >= 0
    ensures RestAt(i, t, t[p][0], Subtree(p))
    ensures var x := t[p][0];
            var trem := (size[x] - nb) % W64;
            && trem >= 0
            && (trem < rsize ==> Candidate(t, size, nb, x, trem) && trem <= W64 - nb && WalkSettled(i, t, size, nb, trem, rest, p))
            && (trem < rsize ==> nb + trem == size[x])
            && (trem >= rsize && size[x] >= nb ==> nb + rsize <= size[x])
  {
    hide TrieOk, WalkSettled, Covers, Exp;
    var x := t[p][0];
    assert x in t[p];
    WrappedRemainder(size[x], nb, rsize);
    var trem := (size[x] - nb) % W64;
    if trem < rsize {
      Improve(i, t, size, nb, rsize, trem, rest, p);
    }
  }

  /** Everything in a subtree is at least as large as the lower bound of its path. */
  lemma FitAbove(i: nat, t: Trie, size: Sizes, nb: nat, at: Path)
    requires TrieOk(i, t, size) && nb <= Lo(i, at)
    ensures AllFit(t, size, nb, at)
  {
    forall q | q in t && Under(q, at) && |t[q]| > 0 && t[q][0] in size ensures SizeAt(t, size, q) >= nb {
      NodeSize(i, t, size, q);
      UnderInterval(i, q, at);
    }
  }

  /** The rest of the walk after the turn at path `p`. */
  lemma Turned(i: nat, t: Trie, size: Sizes, nb: nat, rsize: nat, rest: Rest, rst: nat, p: Path, bit: bool)
    requires TrieOk(i, t, size) && NonEmptyRings(t) && p in t && t[p][0] in size
    requires WalkSettled(i, t, size, nb, rsize, rest, p) && RestOk(i, t, size, nb, rest, p) && RestAt(i, t, rst, rest)
    requires SizeAt(t, size, p) >= nb ==> nb + rsize <= SizeAt(t, size, p)
    requires Covers(i, p, nb) && Covers(i, Step(p, bit), nb)
    requires forall b :: Step(p, b) in t ==> t[Step(p, b)][0] != 0
    ensures var right := !bit && Step(p, true) in t;
            var rest' := if right then Subtree(Step(p, true)) else rest;
            var rst' := if right then t[Step(p, true)][0] else rst;
            && WalkSettled(i, t, size, nb, rsize, rest', Step(p, bit)) && RestOk(i, t, size, nb, rest', Step(p, bit))
            && RestAt(i, t, rst', rest')
            && (rest'.Subtree? ==> AllFit(t, size, nb, rest'.at))
            && (Step(p, bit) !in t ==> AllSettled(i, t, size, nb, rsize, rest'))
  {
    hide Covers, WalkSettled, AllSettled, TrieOk;
    var rest' := if !bit && Step(p, true) in t then Subtree(Step(p, true)) else rest;
    WalkStep(i, t, size, nb, rsize, rest, p, bit, rest');
    if rest'.Subtree? {
      FitAbove(i, t, size, nb, rest'.at);
    }
  }

  /** The unsigned remainder is below a remainder that fits only for sizes that fit better. */
  lemma WrappedRemainder(s: nat, nb: nat, rsize: nat)
    requires s < W64 && rsize <= W64 - nb && 0 < nb < W64
    ensures 0 <= (s - nb) % W64
    ensures (s - nb) % W64 < rsize ==> s == nb + (s - nb) % W64
    ensures (s - nb) % W64 >= rsize && s >= nb ==> nb + rsize <= s
  {
    if s < nb {
      assert (s - nb + W64) % W64 == (s - nb) % W64;
    }
  }

  lemma OneSizeLeft(i: nat, p: Path, s: nat, s': nat)
    requires Covers(i, p, s) && Covers(i, p, s') && s != s'
    ensures Exp(i, p) > 0
  {
  }

  lemma SizeBound(i: nat, p: Path, s: nat)
    requires Covers(i, p, s) && i < NTREEBINS
    ensures s < W64
  {
    AllUnderRoot(p);
    UnderInterval(i, p, Root);
    Pow2Of64();
    if i < NTREEBINS - 1 {
      MinSizeStep(i);
      MinSizeMonotone(i + 1, NTREEBINS - 1);
      LastBins();
    }
  }

  /** One turn of the second walk, by the same computation as in tmalloc_large. */
  lemma LeftTurn(i: nat, t: Trie, size: Sizes, node: Nodes, hdr: nat, nb: nat, v: nat, rsize: nat, x: nat, rest: Rest)
    requires Searched(i, t, size, nb, v, rsize, x, rest) && x != 0 && 0 < nb < W64 && i < NTREEBINS
    requires BinLinked(i, t, node, hdr) && NonEmptyRings(t)
    ensures rest.Subtree? && Exp(i, rest.at) >= 0
    ensures x in size && x in node && (size[x] - nb) % W64 >= 0
    ensures var trem := (size[x] - nb) % W64;
            var next := if node[x].child0 != 0 then node[x].child0 else node[x].child1;
            && Searched(i, t, size, nb, if trem < rsize then x else v, if trem < rsize then trem else rsize,
                        next, LeftmostChild(t, rest.at))
            && (trem >= rsize ==> v != 0)
            && (next == 0 <==> LeftmostChild(t, rest.at).Nothing?)
            && (next != 0 ==> 0 <= Exp(i, LeftmostChild(t, rest.at).at) < Exp(i, rest.at))
  {
    hide BinLinked, AllSettled, Covers, Exp, RingOk;
    var p := rest.at;
    ChildFacts(i, t, node, hdr, size, p);
    NodeSize(i, t, size, p);
    SizeBound(i, p, size[x]);
    WrappedRemainder(size[x], nb, rsize);
    var trem := (size[x] - nb) % W64;
    var rsize' := if trem < rsize then trem else rsize;
    assert x in t[p];
    if trem < rsize {
      ImproveAll(i, t, size, nb, rsize, trem, rest);
    }
    LeftStep(i, t, size, nb, rsize', p);
    ExpOfStep(i, p);
    var next := LeftmostChild(t, p);
    if next.Subtree? && rsize != 0 {
      FitBelow(t, size, nb, p, next.at);
    }
  }

  lemma ImproveAll(i: nat, t: Trie, size: Sizes, nb: nat, rsize: nat, rsize': nat, rest: Rest)
    requires TrieOk(i, t, size) && AllSettled(i, t, size, nb, rsize, rest) && rsize' <= rsize
    ensures AllSettled(i, t, size, nb, rsize', rest)
  {
    hide TrieOk;
    forall q ensures Settled(i, t, size, nb, rsize', rest, q) {
      assert Settled(i, t, size, nb, rsize, rest, q);
    }
  }

  lemma ExpOfStep(i: nat, p: Path)
    ensures forall b :: Exp(i, Step(p, b)) == Exp(i, p) - 1
  {
  }

  lemma FitBelow(t: Trie, size: Sizes, nb: nat, p: Path, at: Path)
    requires AllFit(t, size, nb, p) && at.Step? && at.up == p
    ensures AllFit(t, size, nb, at)
  {
    forall q | q in t && Under(q, at) && |t[q]| > 0 && t[q][0] in size ensures SizeAt(t, size, q) >= nb {
      UnderTransitive(q, at, p);
    }
  }

  /** An empty bin is searched without looking. */
  lemma SearchedEmpty(i: nat, t: Trie, size: Sizes, nb: nat, fits: bool)
    requires TrieOk(i, t, size) && Root !in t && nb < W64
    requires fits || forall y :: y in size ==> size[y] < nb
    ensures Searched(i, t, size, nb, 0, W64 - nb, 0, Nothing)
    ensures !fits ==> Barren(i, t, size, nb, 0, W64 - nb, 0, Nothing)
  {
    EmptyWithoutRoot(i, t, size);
  }

  /** In a later bin everything is larger. */
  lemma SearchLaterBin(b: Bins, i: nat, nb: nat)
    requires BinsOk(b) && i in b.treemap && nb < W64
    requires nb < MinSize(i)
    ensures i < |b.tries| == |b.root|
    ensures Searched(i, b.tries[i], b.size, nb, 0, W64 - nb, b.root[i], Subtree(Root))
    ensures b.root[i] != 0
  {
    hide RingOk, BinLinked, AllSettled;
    assert BinOkAt(b, i);
    var t := b.tries[i];
    SearchFromRoot(i, t, b.size, nb, W64 - nb);
    forall q | q in t && |t[q]| > 0 && t[q][0] in b.size ensures SizeAt(t, b.size, q) >= nb {
      assert t[q][0] in t[q];
      MemberInBin(b, i, t[q][0]);
    }
    NodeSize(i, t, b.size, Root);
    TrieApart(i, t, b.size);
    HeadsNonZero(i, t, b.node, b.hdr + 8 * i, Root);
  }

  lemma BarrenLaterBin(b: Bins, i: nat, nb: nat)
    requires BinsOk(b) && i in b.treemap && nb < W64 && forall y :: y in b.size ==> b.size[y] < nb
    ensures i < |b.tries| == |b.root|
    ensures Barren(i, b.tries[i], b.size, nb, 0, W64 - nb, b.root[i], Subtree(Root))
    ensures b.root[i] != 0
  {
    hide RingOk, BinLinked;
    assert BinOkAt(b, i);
    TrieApart(i, b.tries[i], b.size);
    HeadsNonZero(i, b.tries[i], b.node, b.hdr + 8 * i, Root);
  }

  lemma MemberInBin(b: Bins, i: nat, x: nat)
    requires BinsOk(b) && i < NTREEBINS && Member(b.tries[i], x)
    ensures x in b.size && x != 0 && InBin(i, b.size[x])
  {
    hide BinOkAt, InBin;
    MemberIndex(b, i, x);
    assert Located(b, x);
  }

  /** Nothing in the bin of `nb` fits. */
  ghost predicate NoneFits(b: Bins, i: nat, nb: nat)
    requires i < |b.tries|
  {
    forall x :: Member(b.tries[i], x) && x in b.size ==> b.size[x] < nb
  }

  lemma SearchedNone(b: Bins, i: nat, nb: nat, rsize: nat)
    requires BinsOk(b) && i < NTREEBINS && nb <= W64
    requires Searched(i, b.tries[i], b.size, nb, 0, rsize, 0, Nothing)
    ensures NoneFits(b, i, nb)
  {
    hide BinOkAt, AllSettled, RingOk, InBin;
    forall x | Member(b.tries[i], x) && x in b.size ensures b.size[x] < nb {
      SearchDone(i, b.tries[i], b.size, nb, rsize, x);
      MemberBelowW64(b, i, x);
    }
  }

  lemma MemberBelowW64(b: Bins, i: nat, x: nat)
    requires BinsOk(b) && i < NTREEBINS && Member(b.tries[i], x)
    ensures x in b.size && b.size[x] < W64
  {
    hide BinOkAt;
    MemberInBin(b, i, x);
  }

  /** The result of a search that ended in bin `j`, after nothing was found in the bins from `i` up to `j`. */
  lemma BestOverBins(b: Bins, i: nat, j: nat, nb: nat, v: nat, rsize: nat, x: nat)
    requires BinsOk(b) && InBin(i, nb) && i <= j < NTREEBINS && x in b.size
    requires Searched(j, b.tries[j], b.size, nb, v, rsize, 0, Nothing)
    requires i < j ==> NoneFits(b, i, nb)
    requires forall k :: i < k < j ==> k !in b.treemap
    requires v == 0 ==> forall k :: i < k ==> k !in b.treemap
    ensures b.size[x] >= nb ==> v != 0 && nb + rsize <= b.size[x]
  {
    hide BinOkAt, AllSettled, RingOk, TrieOk;
    assert Located(b, x);
    var k := b.node[x].index;
    MemberMarked(b, k, x);
    MemberBelowW64(b, k, x);
    if k < i {
      BinsOrdered(k, i, b.size[x], nb);
    } else if k == j {
      SearchDone(j, b.tries[j], b.size, nb, rsize, x);
    } else if k > j && v != 0 {
      MemberInBin(b, j, v);
      BinsOrdered(j, k, b.size[v], b.size[x]);
    }
  }

  lemma MemberMarked(b: Bins, i: nat, x: nat)
    requires BinsOk(b) && i < NTREEBINS && Member(b.tries[i], x)
    ensures i in b.treemap
  {
    hide RingOk, BinLinked, InBin;
    assert BinOkAt(b, i);
    EmptyWithoutRootAt(i, b.tries[i], b.size, var q :| q in b.tries[i] && x in b.tries[i][q]; q);
  }

  lemma BinLinks(b: Bins, i: nat)
    requires BinsOk(b) && i < NTREEBINS
    ensures i < |b.tries| == |b.root| && BinLinked(i, b.tries[i], b.node, b.hdr + 8 * i) && NonEmptyRings(b.tries[i])
  {
    hide RingOk, RingLinked, NodeLinked;
    assert BinOkAt(b, i);
  }

  lemma RestFacts(i: nat, t: Trie, size: Sizes, nb: nat, v: nat, rsize: nat, x: nat, rest: Rest)
    requires Searched(i, t, size, nb, v, rsize, x, rest) || Barren(i, t, size, nb, v, rsize, x, rest)
    ensures x == 0 <==> rest.Nothing?
    ensures Barren(i, t, size, nb, v, rsize, x, rest) ==> v == 0
    ensures v == 0 ==> rsize == W64 - nb
  {
  }

  lemma LaterBin(i: nat, j: nat, nb: nat)
    requires InBin(i, nb) && i < j < NTREEBINS
    ensures nb < MinSize(j)
  {
    MinSizeMonotone(i + 1, j);
  }

  lemma FitFacts(b: Bins, i: nat, nb: nat, v: nat, rsize: nat)
    requires i < |b.tries| && Searched(i, b.tries[i], b.size, nb, v, rsize, 0, Nothing)
    ensures v != 0 ==> v in b.size && b.size[v] == nb + rsize
  {
  }

  lemma MarkedBelow(b: Bins)
    requires BinsOk(b)
    ensures forall k :: k in b.treemap ==> k < NTREEBINS
  {
  }

  lemma SmallFits(b: Bins, i: nat, nb: nat)
    requires BinsOk(b) && i in b.treemap && nb < 256
    ensures i < NTREEBINS && nb < MinSize(i) && nb < W64
  {
    hide BinOkAt, Located;
    MinSizeMonotone(0, i);
    Pow2Values();
  }

  lemma SizeOfMember(b: Bins, i: nat, nb: nat, x: nat, rest: Rest)
    requires BinsOk(b) && i < NTREEBINS && nb < MinSize(i) && i < |b.tries| && nb < W64
    requires Searched(i, b.tries[i], b.size, nb, 0, W64 - nb, x, rest) && x != 0
    ensures x in b.size && (b.size[x] - nb) % W64 == b.size[x] - nb < W64 - nb
  {
    hide BinOkAt, AllSettled, RingOk;
    assert x in b.tries[i][rest.at];
    MemberInBin(b, i, x);
  }

  lemma LeastOverBins(b: Bins, i: nat, nb: nat, v: nat, rsize: nat, x: nat)
    requires BinsOk(b) && i in b.treemap && (forall k :: k in b.treemap ==> i <= k) && x in b.size
    requires i < |b.tries| && Searched(i, b.tries[i], b.size, nb, v, rsize, 0, Nothing) && v != 0
    requires nb < MinSize(i)
    ensures v in b.size && b.size[v] <= b.size[x]
  {
    hide BinOkAt, AllSettled, RingOk, TrieOk;
    assert Located(b, x);
    var k := b.node[x].index;
    MemberMarked(b, k, x);
    MemberInBin(b, i, v);
    MemberInBin(b, k, x);
    if k == i {
      SearchDone(i, b.tries[i], b.size, nb, rsize, x);
    } else {
      BinsOrdered(i, k, b.size[v], b.size[x]);
    }
  }

  class TreeBins {
    const hdr: nat
    var root: seq<nat>
    var treemap: set<nat>
    var node: Nodes
    ghost var tries: seq<Trie>
    ghost var size: Sizes

    ghost function Value(): Bins
      reads this
    {
      Bins(root, treemap, node, hdr, tries, size)
    }

    ghost predicate Valid()
      reads this
    {
      hdr > 0 && BinsOk(Value())
    }

    /** The heads of the large free chunks hold their sizes. */
    ghost predicate Agree(head: Heads)
      reads this
    {
      forall x :: x in size ==> x in head && head[x].size == size[x]
    }

    /** treebin_at, as a word that a parent field can hold. */
    function Header(i: nat): nat { hdr + 8 * i }

    constructor (hdr: nat)
      requires hdr > 0
      ensures Valid() && size == map[] && treemap == {} && this.hdr == hdr
    {
      this.hdr := hdr;
      root := seq(NTREEBINS, _ => 0);
      treemap := {};
      node := map[];
      tries := seq(NTREEBINS, _ => map[]);
      size := map[];
      new;
      forall i | 0 <= i < NTREEBINS ensures BinOkAt(Value(), i) {
        assert tries[i] == map[];
      }
    }

    /** insert_large_chunk: file the free chunk `x` of size `s`. */
    method InsertLargeChunk(x: nat, s: nat, head: Heads) returns (ghost at: Path)
      requires Valid() && Agree(head)
      requires x != 0 && x !in size && InBin(Index(s), s)
      modifies this
      ensures Valid() && size == old(size)[x := s]
      ensures InsertPoint(Index(s), old(tries[Index(s)]), old(size), at, s)
      ensures tries == old(tries)[Index(s) := InsertAt(old(tries[Index(s)]), at, x)]
    {
      hide Index, InBin, BinOk, BinLinked, InsertPoint, InsertAt;
      var i := Index(s);
      ghost var b, t0 := Value(), tries[i];
      BinFacts(b, i, x);
      if i !in treemap {
        EmptyBinFacts(b, i, s);
        LinkFirst(i, t0, node, Header(i), x);
        treemap := treemap + {i};
        root := root[i := x];
        node := node[x := TNode(x, x, 0, 0, Header(i), i)];
        at := Root;
      } else {
        at := InsertBelowRoot(x, s, i, head);
      }
      size := size[x := s];
      tries := tries[i := InsertAt(t0, at, x)];
      InsertAtRoot(t0, at, x);
      InsertKeepsBins(b, Value(), i, at, x, s);
    }

    /** The loop of insert_large_chunk, for a bin that is not empty. */
    method InsertBelowRoot(x: nat, s: nat, i: nat, head: Heads) returns (ghost at: Path)
      requires i < |root| && i < |tries| && i < NTREEBINS
      requires BinOk(i, tries[i], size, root[i], true, node, Header(i))
      requires Apart(tries[i]) && NonEmptyRings(tries[i]) && Root in tries[i] && root[i] == At(tries[i], Root)
      requires BinLinked(i, tries[i], node, Header(i)) && Agree(head)
      requires x != 0 && !Member(tries[i], x) && InBin(i, s)
      modifies this`node
      ensures InsertPoint(i, tries[i], size, at, s)
      ensures at.Root? ==> at in tries[i]
      ensures BinLinked(i, InsertAt(tries[i], at, x), node, Header(i))
      ensures WritesWithin(tries[i], x, old(node), node)
      ensures x in node && node[x].index == i
    {
      hide BinOk, BinLinked, Apart, InBin, Index, LeftShift, Covers, InsertAt, Exp, Lo, Pow2, WritesWithin;
      ghost var t0 := tries[i];
      var t := root[i];
      var k: nat := s * Pow2(LeftShift(i)) % W64;
      FirstShift(i, s);
      at := Root;
      while true
        invariant at in t0 && |t0[at]| > 0 && t == t0[at][0] && Covers(i, at, s) && Exp(i, at) <= 64
        invariant k == (s - Lo(i, at)) * Pow2(64 - Exp(i, at))
        invariant at.Step? ==> !SizeOnPath(t0, size, at.up, s)
        invariant node == old(node)
        decreases Exp(i, at)
      {
        DescendFacts(i, t0, size, root[i], node, Header(i), at, s, k);
        if head[t].size != s {
          var bit := k >= W64 / 2;
          var c := if bit then node[t].child1 else node[t].child0;
          k := k * 2 % W64;
          if c != 0 {
            t := c;
            at := Step(at, bit);
          } else {
            LinkNewChild(i, t0, node, Header(i), at, bit, x);
            var n := node[t];
            node := node[t := if bit then n.(child1 := x) else n.(child0 := x)];
            node := node[x := TNode(x, x, 0, 0, t, i)];
            at := Step(at, bit);
            break;
          }
        } else {
          LinkIntoRing(i, t0, node, Header(i), at, x);
          var f := node[t].fd;
          node := node[t := node[t].(fd := x)];
          node := node[f := node[f].(bk := x)];
          node := node[x := TNode(f, t, 0, 0, 0, i)];
          break;
        }
      }
    }
  
    /** The loop of unlink_large_chunk: detach a childless node below `x`, if `x` has children. */
    method CutDeepestLeaf(x: nat, ghost i: nat, ghost t: Trie, ghost p: Path) returns (r: nat, ghost q: Path)
      requires BinLinked(i, t, node, Header(i)) && TrieOk(i, t, size) && NonEmptyRings(t)
      requires p in t && t[p] == [x]
      modifies this`node
      ensures LeafUnder(t, q, p)
      ensures q == p ==> r == 0 && node == old(node)
      ensures q != p ==> q.Step? && q.up in t && t[q.up][0] in old(node) && r == t[q][0] && r != 0
      ensures q != p ==> node == WriteSlot(old(node), t[q.up][0], q.bit, 0)
    {
      hide RingOk, BinLinked;
      q := p;
      ChildFacts(i, t, node, Header(i), size, q);
      var rp, side := x, true;
      r := node[x].child1;
      if r == 0 {
        side := false;
        r := node[x].child0;
      }
      if r != 0 {
        q := Step(p, side);
        while true
          invariant q in t && r == t[q][0] && Under(q, p) && q != p && 0 <= Exp(i, q)
          invariant q.Step? && q.up in t && rp == t[q.up][0] && side == q.bit && rp in node
          invariant node == old(node)
          decreases Exp(i, q)
        {
          ChildFacts(i, t, node, Header(i), size, q);
          var c, turn := node[r].child1, true;
          if c == 0 {
            c, turn := node[r].child0, false;
          }
          if c == 0 {
            break;
          }
          rp, side, r := r, turn, c;
          q := Step(q, turn);
          ChildFacts(i, t, node, Header(i), size, q);
        }
        node := node[rp := if side then node[rp].(child1 := 0) else node[rp].(child0 := 0)];
      }
    }

    /** The tail of unlink_large_chunk: `r` takes the place of the tree node `x`, or nothing does. */
    method TakePlace(x: nat, xp: nat, r: nat, ghost t: Trie, ghost p: Path)
      requires PlaceReady(root, node, hdr, x, xp, r, t, p)
      modifies this`node, this`root, this`treemap
      ensures r != 0 ==> node == WriteTakeOver(t, p, old(node), Header(old(node)[x].index), x, r)
      ensures r == 0 && p.Step? ==> node == WriteSlot(old(node), t[p.up][0], p.bit, 0)
      ensures r == 0 && p.Root? ==> node == old(node)
      ensures root == if p.Root? then old(root)[old(node)[x].index := r] else old(root)
      ensures treemap == if p.Root? && r == 0 then old(treemap) - {old(node)[x].index} else old(treemap)
    {
      var i := node[x].index;
      if x == root[i] {
        root := root[i := r];
        if r == 0 {
          treemap := treemap - {i};
        }
      } else if node[xp].child0 == x {
        node := node[xp := node[xp].(child0 := r)];
      } else {
        node := node[xp := node[xp].(child1 := r)];
      }
      if r != 0 {
        node := node[r := node[r].(parent := xp)];
        var c0 := node[x].child0;
        if c0 != 0 {
          node := node[r := node[r].(child0 := c0)];
          node := node[c0 := node[c0].(parent := r)];
        }
        var c1 := node[x].child1;
        if c1 != 0 {
          node := node[r := node[r].(child1 := c1)];
          node := node[c1 := node[c1].(parent := r)];
        }
      }
    }

    /** unlink_large_chunk: take the chunk `x` out of its tree bin. */
    method UnlinkLargeChunk(x: nat)
      requires Valid() && x in size
      modifies this
      ensures Valid() && size == old(size) - {x}
    {
      hide BinsOk, BinLinked, TrieOk, Apart, LinkedBut, LooseRing, Unlinked, PlaceReady, WriteTakeOver;
      ghost var b := Value();
      ghost var i, p, k := Locate(b, x);
      ghost var t, t', n1 := tries[i], tries[i], node;
      var xp := node[x].parent;
      if node[x].bk != x {
        var f, r := node[x].fd, node[x].bk;
        t' := t[p := RingRemove(t[p], k)];
        if k > 0 {
          InsideRingGone(b, i, t, p, k, x);
        } else {
          HeadOfRing(b, i, t, p, x);
        }
        node := node[f := node[f].(bk := r)];
        node := node[r := node[r].(fd := f)];
        n1 := node;
        if xp != 0 {
          TakePlace(x, xp, r, t[p := [x]], p);
          HeadOfRingGone(b, i, t, p, x, n1, root, node);
        }
      } else {
        var r;
        ghost var q;
        r, q := CutDeepestLeaf(x, i, t, p);
        n1 := node;
        t' := Replace(t, p, q);
        if q == p {
          BinLinkedIsLinkedBut(i, t, n1, Header(i), p);
          LoneLeaf(b, i, t, p, x);
        } else {
          LoneNode(b, i, t, p, x, q, n1);
        }
        if xp != 0 {
          TakePlace(x, xp, r, if q == p then t else t - {q}, p);
        }
        if q == p {
          LeafGone(b, i, t, p, x, root, treemap, node);
        } else {
          LoneNodeGone(b, i, t, p, x, q, n1, root, node);
        }
      }
      tries := tries[i := t'];
      size := size - {x};
      RemoveKeepsBins(b, Value(), i, x);
    }

    /** The first walk of tmalloc_large, in the bin of `nb`. */
    method WalkBin(i: nat, nb: nat, head: Heads) returns (v: nat, rsize: nat, t: nat, ghost rest: Rest)
      requires Valid() && Agree(head) && i < NTREEBINS && 0 < nb < W64 && i in treemap
      requires InBin(i, nb) || forall x :: x in size ==> size[x] < nb
      ensures if InBin(i, nb) then Searched(i, tries[i], size, nb, v, rsize, t, rest)
              else Barren(i, tries[i], size, nb, v, rsize, t, rest)
    {
      hide BinsOk, BinLinked, TrieOk, Searched, Walking, Barren, InBin, LeftShift, Pow2, Exp;
      FindFacts(Value(), i);
      v, rsize := 0, W64 - nb;
      ghost var tr := tries[i];
      t := root[i];
      var sizebits: nat := nb * Pow2(LeftShift(i)) % W64;
      var rst := 0;
      ghost var p := Root;
      rest := Nothing;
      if InBin(i, nb) {
        WalkStart(i, tr, size, nb, t);
      } else {
        BarrenStart(i, tr, size, nb);
      }
      while true
        invariant if InBin(i, nb) then Walking(i, tr, size, nb, v, rsize, rest, rst, p, t, sizebits)
                  else BarrenAt(i, tr, size, nb, v, rsize, rest, rst, p, t)
        decreases Exp(i, p)
      {
        if InBin(i, nb) {
          WalkTurn(i, tr, size, node, Header(i), nb, v, rsize, rest, rst, p, t, sizebits);
        } else {
          BarrenTurn(i, tr, size, node, Header(i), nb, v, rsize, rest, rst, p, t);
        }
        var trem := (head[t].size - nb) % W64;
        if trem < rsize {
          v := t;
          rsize := trem;
          if rsize == 0 {
            rest := Subtree(p);
            break;
          }
        }
        var rt := node[t].child1;
        var bit := sizebits >= W64 / 2;
        t := if bit then node[t].child1 else node[t].child0;
        if rt != 0 && rt != t {
          rst := rt;
          rest := Subtree(Step(p, true));
        }
        if t == 0 {
          t := rst;
          break;
        }
        sizebits := sizebits * 2 % W64;
        p := Step(p, bit);
      }
    }

    /** The second walk of tmalloc_large: down the leftmost children. */
    method WalkLeft(ghost i: nat, nb: nat, v0: nat, rsize0: nat, t0: nat, head: Heads, ghost rest0: Rest, ghost fits: bool)
      returns (v: nat, rsize: nat)
      requires Valid() && Agree(head) && i < |tries| && i < NTREEBINS && 0 < nb < W64
      requires fits ==> Searched(i, tries[i], size, nb, v0, rsize0, t0, rest0)
      requires !fits ==> Barren(i, tries[i], size, nb, v0, rsize0, t0, rest0)
      requires t0 != 0
      ensures fits ==> Searched(i, tries[i], size, nb, v, rsize, 0, Nothing) && v != 0
      ensures !fits ==> v == 0
    {
      hide BinsOk, BinLinked, Searched, Exp, TrieOk;
      v, rsize := v0, rsize0;
      var t: nat := t0;
      ghost var rest := rest0;
      BinLinks(Value(), i);
      while t != 0
        invariant fits ==> Searched(i, tries[i], size, nb, v, rsize, t, rest) && (t == 0 ==> v != 0 && rest.Nothing?)
        invariant !fits ==> Barren(i, tries[i], size, nb, v, rsize, t, rest)
        decreases rest.Subtree?, if rest.Subtree? then Exp(i, rest.at) else 0
      {
        if fits {
          LeftTurn(i, tries[i], size, node, Header(i), nb, v, rsize, t, rest);
        } else {
          BarrenTurn(i, tries[i], size, node, Header(i), nb, v, rsize, rest, t, rest.at, t);
        }
        var trem := (head[t].size - nb) % W64;
        if trem < rsize {
          rsize := trem;
          v := t;
        }
        t := if node[t].child0 != 0 then node[t].child0 else node[t].child1;
        rest := LeftmostChild(tries[i], rest.at);
      }
    }

    /** With no bit of the map set, there is no chunk. */
    lemma NoneMarked()
      requires Valid() && treemap == {}
      ensures size == map[]
    {
      ghost var b := Value();
      forall x | x in size ensures false {
        assert Located(b, x);
        EmptyBinFacts(b, node[x].index, size[x]);
      }
    }

    /** The search of tmalloc_large: the least chunk of all tree bins that has at least `nb` bytes. */
    method FindBestFit(nb: nat, head: Heads) returns (v: nat, rsize: nat)
      requires Valid() && Agree(head) && 0 < nb < W64
      requires InBin(Index(nb), nb) || forall x :: x in size ==> size[x] < nb
      ensures v == 0 ==> forall x :: x in size ==> size[x] < nb
      ensures v != 0 ==> v in size && size[v] == nb + rsize
      ensures forall x :: x in size && size[x] >= nb ==> v != 0 && nb + rsize <= size[x]
    {
      hide BinsOk, BinLinked, TrieOk, Searched, Barren, InBin, Index, NoneFits;
      var idx := Index(nb);
      ghost var b, j, fits := Value(), idx, InBin(idx, nb);
      FindFacts(b, idx);
      var t: nat;
      ghost var rest := Nothing;
      if root[idx] != 0 {
        v, rsize, t, rest := WalkBin(idx, nb, head);
      } else {
        v, rsize, t := 0, W64 - nb, 0;
        SearchedEmpty(idx, tries[idx], size, nb, fits);
      }
      RestFacts(idx, tries[idx], size, nb, v, rsize, t, rest);
      if t == 0 && v == 0 {
        if fits {
          SearchedNone(b, idx, nb, rsize);
        }
        var leftbits := set k | k in treemap && k > idx;
        assert forall k :: k in treemap && k > idx ==> k in leftbits;
        if leftbits != {} {
          var i := FirstBit(leftbits);
          j := i;
          MarkedBelow(b);
          if fits {
            LaterBin(idx, i, nb);
            SearchLaterBin(b, i, nb);
          } else {
            BarrenLaterBin(b, i, nb);
          }
          t := root[i];
          rest := Subtree(Root);
        }
      }
      if t != 0 {
        v, rsize := WalkLeft(j, nb, v, rsize, t, head, rest, fits);
      }
      assert forall k :: idx < k < j ==> k !in treemap;
      if fits {
        FitFacts(b, j, nb, v, rsize);
        assert v == 0 ==> forall k :: idx < k ==> k !in treemap;
        forall x | x in size ensures size[x] >= nb ==> v != 0 && nb + rsize <= size[x] {
          BestOverBins(b, idx, j, nb, v, rsize, x);
        }
      }
    }

    /** The search of tmalloc_small: the least chunk of all tree bins. */
    method FindLeast(nb: nat, head: Heads) returns (v: nat, rsize: nat)
      requires Valid() && Agree(head) && 0 < nb < 256 && treemap != {}
      ensures v != 0 && v in size && size[v] == nb + rsize
      ensures forall x :: x in size ==> size[v] <= size[x]
    {
      hide BinsOk, BinLinked, TrieOk, Searched, LeftmostChild, Exp, NoneFits;
      var i := FirstBit(treemap);
      ghost var b := Value();
      SmallFits(b, i, nb);
      SearchLaterBin(b, i, nb);
      BinLinks(b, i);
      ghost var tr, rest := tries[i], Subtree(Root);
      var t: nat := root[i];
      LeftTurn(i, tr, size, node, Header(i), nb, 0, W64 - nb, t, rest);
      SizeOfMember(b, i, nb, t, rest);
      v := t;
      rsize := head[t].size - nb;
      t := if node[t].child0 != 0 then node[t].child0 else node[t].child1;
      rest := LeftmostChild(tr, rest.at);
      while t != 0
        invariant Searched(i, tr, size, nb, v, rsize, t, rest)
        invariant v != 0 && (t == 0 ==> rest.Nothing?)
        decreases rest.Subtree?, if rest.Subtree? then Exp(i, rest.at) else 0
      {
        LeftTurn(i, tr, size, node, Header(i), nb, v, rsize, t, rest);
        var trem := (head[t].size - nb) % W64;
        if trem < rsize {
          rsize := trem;
          v := t;
        }
        t := if node[t].child0 != 0 then node[t].child0 else node[t].child1;
        rest := LeftmostChild(tr, rest.at);
      }
      FitFacts(b, i, nb, v, rsize);
      forall x | x in size ensures size[v] <= size[x] {
        LeastOverBins(b, i, nb, v, rsize, x);
      }
    }
  }

  /** lj_ffs */
  method FirstBit(s: set<nat>) returns (i: nat)
    requires s != {}
    ensures i in s && forall k :: k in s ==> i <= k
  {
    var rest := s;
    i :| i in rest;
    rest := rest - {i};
    while rest != {}
      invariant rest <= s && i in s
      invariant forall k :: k in s && k !in rest ==> i <= k
      decreases rest
    {
      var k :| k in rest;
      rest := rest - {k};
      if k < i {
        i := k;
      }
    }
  }
}
