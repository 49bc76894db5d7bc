/**
 How the words of the tree chunks of src/lj_alloc.c represent a trie, and what
 each group of pointer writes in insert_large_chunk and unlink_large_chunk does
 to the trie that the words represent.
 */
module TreeLinks {
  import opened Trie

  /** The words that are overlaid on a free large chunk. */
  datatype TNode = TNode(fd: nat, bk: nat, child0: nat, child1: nat, parent: nat, index: nat)

  type Nodes = map<nat, TNode>

  function Next(k: nat, n: nat): nat { if k + 1 >= n then 0 else k + 1 }

  function Prev(k: nat, n: nat): nat { if k == 0 then (if n == 0 then 0 else n - 1) else k - 1 }

  /** What the parent word of the node at path `p` holds; the root points to its bin. */
  function ParentWord(t: Trie, p: Path, hdr: nat): nat
    requires p.Step? && p.up in t ==> |t[p.up]| > 0
  {
    match p
    case Root => hdr
    case Step(up, _) => At(t, up)
  }

  ghost predicate NonEmptyRings(t: Trie) {
    forall p :: p in t ==> |t[p]| > 0
  }

  /** The chunk at index `k` of a ring is linked in both directions and carries the bin index. */
  ghost predicate ChunkLinked(i: nat, ring: seq<nat>, k: nat, node: Nodes)
    requires k < |ring|
  {
    var x := ring[k];
    && x in node && x != 0
    && node[x].fd == ring[Next(k, |ring|)]
    && node[x].bk == ring[Prev(k, |ring|)]
    && node[x].index == i
    && (k > 0 ==> node[x].child0 == 0 && node[x].child1 == 0 && node[x].parent == 0)
  }

  ghost predicate RingLinked(i: nat, ring: seq<nat>, node: Nodes) {
    && (forall k :: 0 <= k < |ring| ==> ring[k] in node)
    && (forall k :: 0 <= k < |ring| ==> ChunkLinked(i, ring, k, node))
  }

  /** The tree node at path `p` points to its children and back to its parent. */
  ghost predicate NodeLinked(t: Trie, p: Path, node: Nodes, hdr: nat)
    requires NonEmptyRings(t) && p in t
  {
    && t[p][0] in node
    && node[t[p][0]].child0 == At(t, Step(p, false))
    && node[t[p][0]].child1 == At(t, Step(p, true))
    && node[t[p][0]].parent == ParentWord(t, p, hdr)
  }

  ghost predicate BinLinked(i: nat, t: Trie, node: Nodes, hdr: nat) {
    && NonEmptyRings(t)
    && (forall p :: p in t ==> RingLinked(i, t[p], node))
    && (forall p {:trigger NodeLinked(t, p, node, hdr)} :: p in t ==> NodeLinked(t, p, node, hdr))
  }

  /** Writes outside the trie do not matter. */
  lemma LinksFrame(i: nat, t: Trie, node: Nodes, node': Nodes, hdr: nat)
    requires BinLinked(i, t, node, hdr)
    requires forall x :: Member(t, x) ==> x in node && x in node' && node'[x] == node[x]
    ensures BinLinked(i, t, node', hdr)
  {
    forall p | p in t ensures RingLinked(i, t[p], node') && NodeLinked(t, p, node', hdr) {
      assert RingLinked(i, t[p], node) && NodeLinked(t, p, node, hdr);
      forall k | 0 <= k < |t[p]| ensures ChunkLinked(i, t[p], k, node') {
        assert ChunkLinked(i, t[p], k, node);
        assert Member(t, t[p][k]);
      }
      assert Member(t, t[p][0]);
    }
  }

  /** No chunk is in two rings, or twice in one. */
  ghost predicate Apart(t: Trie) {
    && (forall p :: p in t ==> forall j, k :: 0 <= j < k < |t[p]| ==> t[p][j] != t[p][k])
    && (forall p, q, x :: p in t && q in t && x in t[p] && x in t[q] ==> p == q)
  }

  lemma TrieApart(i: nat, t: Trie, size: Sizes)
    requires TrieOk(i, t, size)
    ensures Apart(t) && NonEmptyRings(t)
  {
    forall p | p in t ensures |t[p]| > 0 && forall j, k :: 0 <= j < k < |t[p]| ==> t[p][j] != t[p][k] {
      assert RingOk(i, p, t[p], size);
    }
    forall p, q, x | p in t && q in t && x in t[p] && x in t[q] ensures p == q {
      OnePath(i, t, size, x, p, q);
    }
  }

  /** Only chunks of the trie and `x` are written, and no bin index but that of `x`. */
  ghost predicate WritesWithin(t: Trie, x: nat, node: Nodes, node': Nodes) {
    && (forall y :: y in node && y != x && !Member(t, y) ==> y in node' && node'[y] == node[y])
    && (forall y :: y in node && y != x ==> y in node' && node'[y].index == node[y].index)
  }

  // ------------------------------------------------------------------
  // insert_large_chunk

  /** `*C = X; X->parent = T; X->fd = X->bk = X` for a child slot `C` of `T`. */
  function WriteChild(node: Nodes, t: nat, bit: bool, x: nat, i: nat): Nodes
    requires t in node
  {
    var n := if bit then node[t].(child1 := x) else node[t].(child0 := x);
    node[t := n][x := TNode(x, x, 0, 0, t, i)]
  }

  /** Only the tree words of the first chunk of a ring may change. */
  lemma RingKeptButHead(i: nat, ring: seq<nat>, node: Nodes, node': Nodes)
    requires RingLinked(i, ring, node)
    requires forall k :: 0 < k < |ring| ==> ring[k] in node' && node'[ring[k]] == node[ring[k]]
    requires |ring| > 0 ==> ring[0] in node' && node'[ring[0]].(child0 := 0, child1 := 0) == node[ring[0]].(child0 := 0, child1 := 0)
    ensures RingLinked(i, ring, node')
  {
    forall k | 0 <= k < |ring| ensures ChunkLinked(i, ring, k, node') {
      assert ChunkLinked(i, ring, k, node);
    }
  }

  lemma LinkNewChild(i: nat, t: Trie, node: Nodes, hdr: nat, up: Path, bit: bool, x: nat)
    requires BinLinked(i, t, node, hdr) && Apart(t)
    requires up in t && Step(up, bit) !in t && !Member(t, x) && x != 0
    requires forall b :: Step(Step(up, bit), b) !in t
    ensures BinLinked(i, InsertAt(t, Step(up, bit), x), WriteChild(node, t[up][0], bit, x, i), hdr)
    ensures WritesWithin(t, x, node, WriteChild(node, t[up][0], bit, x, i))
  {
    var h := t[up][0];
    var t' := InsertAt(t, Step(up, bit), x);
    assert t'[Step(up, bit)] == [x];
    assert h in t[up] && Member(t, h);
    NewChildRings(i, t, node, hdr, up, bit, x);
    NewChildNodes(i, t, node, hdr, up, bit, x);
  }

  lemma NewChildRings(i: nat, t: Trie, node: Nodes, hdr: nat, up: Path, bit: bool, x: nat)
    requires BinLinked(i, t, node, hdr) && Apart(t)
    requires up in t && Step(up, bit) !in t && !Member(t, x) && x != 0
    ensures forall p :: p in t ==> RingLinked(i, t[p], WriteChild(node, t[up][0], bit, x, i))
    ensures RingLinked(i, [x], WriteChild(node, t[up][0], bit, x, i))
  {
    var h := t[up][0];
    var node' := WriteChild(node, h, bit, x, i);
    assert h in t[up];
    forall p | p in t ensures RingLinked(i, t[p], node') {
      assert RingLinked(i, t[p], node);
      forall k | 0 <= k < |t[p]| ensures t[p][k] != x && (k > 0 ==> t[p][k] != h) {
        assert t[p][k] in t[p];
      }
      RingKeptButHead(i, t[p], node, node');
    }
  }

  lemma NewChildNodes(i: nat, t: Trie, node: Nodes, hdr: nat, up: Path, bit: bool, x: nat)
    requires BinLinked(i, t, node, hdr) && Apart(t)
    requires up in t && Step(up, bit) !in t && !Member(t, x) && x != 0
    requires forall b :: Step(Step(up, bit), b) !in t
    ensures var t' := InsertAt(t, Step(up, bit), x);
            && NonEmptyRings(t')
            && forall p {:trigger NodeLinked(t', p, WriteChild(node, t[up][0], bit, x, i), hdr)} :: p in t' ==>
                 NodeLinked(t', p, WriteChild(node, t[up][0], bit, x, i), hdr)
  {
    hide RingLinked;
    assert NodeLinked(t, up, node, hdr);
    var h := t[up][0];
    var t' := InsertAt(t, Step(up, bit), x);
    var node' := WriteChild(node, h, bit, x, i);
    assert h in t[up] && t'[Step(up, bit)] == [x];
    forall p | p in t' ensures NodeLinked(t', p, node', hdr) {
      if p in t {
        assert NodeLinked(t, p, node, hdr);
        assert t[p][0] in t[p];
      }
    }
  }

  /** `*H = X; X->parent = H; X->fd = X->bk = X` for an empty bin. */
  lemma LinkFirst(i: nat, t: Trie, node: Nodes, hdr: nat, x: nat)
    requires t == map[] && x != 0
    ensures BinLinked(i, InsertAt(t, Root, x), node[x := TNode(x, x, 0, 0, hdr, i)], hdr)
  {
    assert InsertAt(t, Root, x)[Root] == [x];
  }

  /** `T->fd = F->bk = X; X->fd = F; X->bk = T; X->parent = 0` with `F = T->fd`. */
  function WriteRing(node: Nodes, t: nat, f: nat, x: nat, i: nat): Nodes
    requires t in node && f in node
  {
    var n1 := node[t := node[t].(fd := x)];
    n1[f := n1[f].(bk := x)][x := TNode(f, t, 0, 0, 0, i)]
  }

  lemma RingOfInsert(i: nat, ring: seq<nat>, node: Nodes, x: nat)
    requires RingLinked(i, ring, node) && |ring| > 0 && x !in ring && x != 0
    requires forall j, k :: 0 <= j < k < |ring| ==> ring[j] != ring[k]
    ensures RingLinked(i, RingInsert(ring, x), WriteRing(node, ring[0], ring[Next(0, |ring|)], x, i))
  {
    var r := RingInsert(ring, x);
    var node' := WriteRing(node, ring[0], ring[Next(0, |ring|)], x, i);
    forall k | 0 <= k < |r| ensures ChunkLinked(i, r, k, node') {
      if k != 1 {
        var j := if k == 0 then 0 else k - 1;
        assert ChunkLinked(i, ring, j, node);
        assert r[k] == ring[j] && ring[j] in ring;
      }
    }
  }

  /** A ring none of whose chunks was written. */
  lemma RingKept(i: nat, ring: seq<nat>, node: Nodes, node': Nodes)
    requires RingLinked(i, ring, node)
    requires forall k :: 0 <= k < |ring| ==> ring[k] in node' && node'[ring[k]] == node[ring[k]]
    ensures RingLinked(i, ring, node')
  {
    forall k | 0 <= k < |ring| ensures ChunkLinked(i, ring, k, node') {
      assert ChunkLinked(i, ring, k, node);
    }
  }

  /** Two tries whose tree nodes are the same chunks. */
  ghost predicate SameHeads(t: Trie, t': Trie) {
    && t.Keys == t'.Keys && NonEmptyRings(t) && NonEmptyRings(t')
    && (forall q :: q in t ==> t'[q][0] == t[q][0])
  }

  /** The tree words are the same in both, where they are words of `node`. */
  ghost predicate SameTreeWords(y: nat, node: Nodes, node': Nodes) {
    && y in node && y in node'
    && node'[y].child0 == node[y].child0 && node'[y].child1 == node[y].child1 && node'[y].parent == node[y].parent
  }

  lemma NodeKept(t: Trie, t': Trie, node: Nodes, node': Nodes, hdr: nat, q: Path)
    requires SameHeads(t, t') && q in t && NodeLinked(t, q, node, hdr) && SameTreeWords(t[q][0], node, node')
    ensures NodeLinked(t', q, node', hdr)
  {
  }

  lemma RingWrites(node: Nodes, h: nat, f: nat, x: nat, i: nat, y: nat)
    requires h in node && f in node && y in node && y != x
    ensures SameTreeWords(y, node, WriteRing(node, h, f, x, i)) && WriteRing(node, h, f, x, i)[y].index == node[y].index
    ensures y != h && y != f ==> WriteRing(node, h, f, x, i)[y] == node[y]
  {
  }

  lemma LinkIntoRing(i: nat, t: Trie, node: Nodes, hdr: nat, p: Path, x: nat)
    requires BinLinked(i, t, node, hdr) && Apart(t)
    requires p in t && !Member(t, x) && x != 0
    ensures node[t[p][0]].fd == t[p][Next(0, |t[p]|)]
    ensures t[p][Next(0, |t[p]|)] in node
    ensures BinLinked(i, InsertAt(t, p, x), WriteRing(node, t[p][0], t[p][Next(0, |t[p]|)], x, i), hdr)
    ensures WritesWithin(t, x, node, WriteRing(node, t[p][0], t[p][Next(0, |t[p]|)], x, i))
  {
    hide NodeLinked, WriteRing, ChunkLinked, RingInsert;
    var h := t[p][0];
    var f := t[p][Next(0, |t[p]|)];
    var t' := InsertAt(t, p, x);
    assert ChunkLinked(i, t[p], 0, node) && ChunkLinked(i, t[p], Next(0, |t[p]|), node);
    RingWords(i, t[p], node, 0);
    assert x !in t[p] && h in t[p] && f in t[p];
    RingOfInsert(i, t[p], node, x);
    InsertHead(t[p], x);
    assert Member(t, h) && Member(t, f);
    var node' := WriteRing(node, h, f, x, i);
    forall y | y in node && y != x
      ensures SameTreeWords(y, node, node') && node'[y].index == node[y].index && (y != h && y != f ==> node'[y] == node[y])
    {
      RingWrites(node, h, f, x, i, y);
    }
    forall q | q in t' ensures RingLinked(i, t'[q], node') {
      if q != p {
        assert forall k :: 0 <= k < |t[q]| ==> t[q][k] in t[q];
        RingKept(i, t[q], node, node');
      }
    }
    forall q | q in t' ensures NodeLinked(t', q, node', hdr) {
      assert NodeLinked(t, q, node, hdr) && RingLinked(i, t[q], node);
      assert t[q][0] in t[q];
      NodeKept(t, t', node, node', hdr, q);
    }
  }

  lemma InsertHead(ring: seq<nat>, x: nat)
    requires ring != []
    ensures |RingInsert(ring, x)| > 0 && RingInsert(ring, x)[0] == ring[0]
  {
  }

  // ------------------------------------------------------------------
  // unlink_large_chunk

  /** `F->bk = R; R->fd = F` with `F = X->fd` and `R = X->bk`. */
  function WriteUnring(node: Nodes, f: nat, r: nat): Nodes
    requires f in node && r in node
  {
    var n1 := node[f := node[f].(bk := r)];
    n1[r := n1[r].(fd := f)]
  }

  lemma RingOfRemove(i: nat, ring: seq<nat>, node: Nodes, k: nat)
    requires RingLinked(i, ring, node) && |ring| > 1 && k < |ring|
    requires forall a, b :: 0 <= a < b < |ring| ==> ring[a] != ring[b]
    requires k == 0 ==> node[ring[|ring| - 1]].child0 == node[ring[|ring| - 1]].child1 == 0
    ensures node[ring[k]].fd == ring[Next(k, |ring|)] && node[ring[k]].bk == ring[Prev(k, |ring|)]
    ensures RingLinked(i, RingRemove(ring, k), WriteUnring(node, ring[Next(k, |ring|)], ring[Prev(k, |ring|)]))
  {
    hide ChunkLinked, RingRemove;
    var rest := RingRemove(ring, k);
    assert ChunkLinked(i, ring, k, node);
    RingWords(i, ring, node, k);
    RestLength(ring, k);
    forall a | 0 <= a < |rest|
      ensures rest[a] in WriteUnring(node, ring[Next(k, |ring|)], ring[Prev(k, |ring|)])
      ensures ChunkLinked(i, rest, a, WriteUnring(node, ring[Next(k, |ring|)], ring[Prev(k, |ring|)]))
    {
      RestLinked(i, ring, node, k, a);
    }
  }

  lemma RestLength(ring: seq<nat>, k: nat)
    requires |ring| > 1 && k < |ring|
    ensures |RingRemove(ring, k)| == |ring| - 1
  {
  }

  lemma RingWords(i: nat, ring: seq<nat>, node: Nodes, k: nat)
    requires k < |ring| && ChunkLinked(i, ring, k, node)
    ensures ring[k] in node && node[ring[k]].fd == ring[Next(k, |ring|)] && node[ring[k]].bk == ring[Prev(k, |ring|)]
  {
  }

  /** The old index of the chunk that is at index `a` once the chunk at `k` is out of a ring of `n`. */
  function Before(k: nat, n: nat, a: nat): nat
    requires n > 0
  {
    if k == 0 then (if a == 0 then n - 1 else a) else (if a < k then a else a + 1)
  }

  lemma RestIndex(ring: seq<nat>, k: nat, a: nat)
    requires |ring| > 1 && k < |ring| && a < |ring| - 1
    ensures var n := |ring|; var b := Before(k, n, a);
            && |RingRemove(ring, k)| == n - 1 && b < n && b != k && RingRemove(ring, k)[a] == ring[b] && (a > 0 ==> b > 0)
            && Next(a, n - 1) < n - 1 && Prev(a, n - 1) < n - 1
            && Before(k, n, Next(a, n - 1)) == (if Next(b, n) == k then Next(k, n) else Next(b, n))
            && Before(k, n, Prev(a, n - 1)) == (if Prev(b, n) == k then Prev(k, n) else Prev(b, n))
  {
  }

  /** The chunk that is at index `a` once that at `k` is out of the ring. */
  lemma RestLinked(i: nat, ring: seq<nat>, node: Nodes, k: nat, a: nat)
    requires RingLinked(i, ring, node) && |ring| > 1 && k < |ring|
    requires forall a, b :: 0 <= a < b < |ring| ==> ring[a] != ring[b]
    requires k == 0 ==> node[ring[|ring| - 1]].child0 == node[ring[|ring| - 1]].child1 == 0
    requires a < |RingRemove(ring, k)|
    ensures var node' := WriteUnring(node, ring[Next(k, |ring|)], ring[Prev(k, |ring|)]);
            RingRemove(ring, k)[a] in node' && ChunkLinked(i, RingRemove(ring, k), a, node')
  {
    hide RingRemove;
    var n := |ring|;
    var b := Before(k, n, a);
    RestLength(ring, k);
    RestIndex(ring, k, a);
    RestIndex(ring, k, Next(a, n - 1));
    RestIndex(ring, k, Prev(a, n - 1));
    assert ChunkLinked(i, ring, b, node);
    assert ring[b] == ring[Next(k, n)] <==> b == Next(k, n);
    assert ring[b] == ring[Prev(k, n)] <==> b == Prev(k, n);
  }

  /** All nodes of the trie are linked, and all rings but the one at `p`, which has lost its node. */
  ghost predicate LinkedBut(i: nat, t: Trie, p: Path, node: Nodes, hdr: nat) {
    && NonEmptyRings(t)
    && (forall q :: q in t && q != p ==> RingLinked(i, t[q], node))
    && (forall q {:trigger NodeLinked(t, q, node, hdr)} :: q in t ==> NodeLinked(t, q, node, hdr))
  }

  /** A ring that is in no trie, and whose first chunk has no children. */
  ghost predicate LooseRing(i: nat, t: Trie, ring: seq<nat>, node: Nodes) {
    && |ring| > 0 && RingLinked(i, ring, node)
    && (forall j, k :: 0 <= j < k < |ring| ==> ring[j] != ring[k])
    && (forall q, x :: q in t && x in t[q] ==> x !in ring)
    && node[ring[0]].child0 == 0 && node[ring[0]].child1 == 0
  }

  /** `*RP = 0` for the slot of the childless node at `q`. */
  function WriteSlot(node: Nodes, h: nat, bit: bool, r: nat): Nodes
    requires h in node
  {
    node[h := if bit then node[h].(child1 := r) else node[h].(child0 := r)]
  }

  lemma CutLeaf(i: nat, t: Trie, node: Nodes, hdr: nat, q: Path)
    requires BinLinked(i, t, node, hdr) && Apart(t)
    requires q in t && q.Step? && q.up in t && LeafUnder(t, q, q)
    ensures t[q.up][0] in node
    ensures BinLinked(i, t - {q}, WriteSlot(node, t[q.up][0], q.bit, 0), hdr)
    ensures LooseRing(i, t - {q}, t[q], WriteSlot(node, t[q.up][0], q.bit, 0))
  {
    var h := t[q.up][0];
    assert NodeLinked(t, q.up, node, hdr);
    var t' := t - {q};
    var node' := WriteSlot(node, h, q.bit, 0);
    assert h in t[q.up];
    forall p | p in t ensures RingLinked(i, t[p], node') {
      forall k | 0 <= k < |t[p]| ensures t[p][k] in node' && ChunkLinked(i, t[p], k, node') {
        assert ChunkLinked(i, t[p], k, node);
        assert t[p][k] in t[p];
      }
    }
    forall p | p in t' ensures NodeLinked(t', p, node', hdr) {
      assert NodeLinked(t, p, node, hdr);
      assert t[p][0] in t[p];
      assert p.Step? ==> p.up != q;
    }
    assert NodeLinked(t, q, node, hdr);
    assert t[q][0] in t[q];
  }

  /** `R->parent = XP`, and `R` adopts the children of `X`. */
  function WriteAdopt(node: Nodes, x: nat, xp: nat, r: nat): Nodes
    requires x in node && r in node
    requires node[x].child0 != 0 ==> node[x].child0 in node
    requires node[x].child1 != 0 ==> node[x].child1 in node
  {
    var n1 := node[r := node[r].(parent := xp)];
    var c0 := n1[x].child0;
    var n2 := if c0 == 0 then n1 else n1[r := n1[r].(child0 := c0)];
    var n3 := if c0 == 0 then n2 else n2[c0 := n2[c0].(parent := r)];
    var c1 := n3[x].child1;
    var n4 := if c1 == 0 then n3 else n3[r := n3[r].(child1 := c1)];
    if c1 == 0 then n4 else n4[c1 := n4[c1].(parent := r)]
  }

  /** The writes that put the loose ring in the place of the node `x` at path `p`. */
  function WriteTakeOver(t: Trie, p: Path, node: Nodes, hdr: nat, x: nat, r: nat): Nodes
    requires p.Step? ==> p.up in t && |t[p.up]| > 0 && t[p.up][0] in node
    requires x in node && r in node
    requires node[x].child0 != 0 ==> node[x].child0 in node
    requires node[x].child1 != 0 ==> node[x].child1 in node
    requires p.Step? ==> t[p.up][0] != x
  {
    var n1 := if p.Root? then node else WriteSlot(node, t[p.up][0], p.bit, r);
    WriteAdopt(n1, x, ParentWord(t, p, hdr), r)
  }

  ghost predicate TakesOver(t: Trie, p: Path, node: Nodes, x: nat) {
    && p in t && t[p] == [x]
    && (p.Step? ==> p.up in t)
    && (forall up, bit :: Step(up, bit) in t ==> up in t)
  }

  lemma TakeOverDefined(i: nat, t: Trie, p: Path, node: Nodes, hdr: nat, x: nat)
    requires LinkedBut(i, t, p, node, hdr) && Apart(t) && TakesOver(t, p, node, x)
    ensures x in node
    ensures p.Step? ==> t[p.up][0] in node && t[p.up][0] != x
    ensures node[x].child0 == At(t, Step(p, false)) && node[x].child1 == At(t, Step(p, true))
    ensures node[x].child0 != 0 ==> node[x].child0 in node
    ensures node[x].child1 != 0 ==> node[x].child1 in node
  {
    assert NodeLinked(t, p, node, hdr);
    assert x in t[p];
    if p.Step? {
      assert NodeLinked(t, p.up, node, hdr);
      assert t[p.up][0] in t[p.up];
      assert Depth(p.up) != Depth(p);
    }
    if Step(p, false) in t {
      assert NodeLinked(t, Step(p, false), node, hdr);
    }
    if Step(p, true) in t {
      assert NodeLinked(t, Step(p, true), node, hdr);
    }
  }

  /** Chunks of the trie, the loose ring and the removed node are all different. */
  lemma TakeOverApart(i: nat, t: Trie, p: Path, node: Nodes, hdr: nat, x: nat, ring: seq<nat>)
    requires LinkedBut(i, t, p, node, hdr) && Apart(t) && TakesOver(t, p, node, x)
    requires LooseRing(i, t, ring, node)
    ensures forall q, k :: q in t && 0 <= k < |t[q]| ==> t[q][k] !in ring
    ensures forall q, k :: q in t && 0 <= k < |t[q]| && t[q][k] == x ==> q == p
    ensures forall q, s, k :: q in t && s in t && 0 <= k < |t[q]| && t[q][k] == t[s][0] ==> q == s && k == 0
  {
    forall q, k | q in t && 0 <= k < |t[q]| ensures t[q][k] !in ring && (t[q][k] == x ==> q == p) {
      assert t[q][k] in t[q];
      assert x in t[p];
    }
    forall q, s, k | q in t && s in t && 0 <= k < |t[q]| && t[q][k] == t[s][0] ensures q == s && k == 0 {
      assert t[q][k] in t[q] && t[s][0] in t[s];
    }
  }

  lemma TakeOverRing(i: nat, t: Trie, p: Path, node: Nodes, hdr: nat, x: nat, ring: seq<nat>, rg: seq<nat>)
    requires LinkedBut(i, t, p, node, hdr) && Apart(t) && TakesOver(t, p, node, x)
    requires LooseRing(i, t, ring, node) && x !in ring
    requires RingLinked(i, rg, node)
    requires forall k :: 0 < k < |rg| ==> rg[k] != ring[0] && forall q :: q in t ==> rg[k] != t[q][0]
    ensures x in node && ring[0] in node
    ensures p.Step? ==> t[p.up][0] in node && t[p.up][0] != x
    ensures node[x].child0 != 0 ==> node[x].child0 in node
    ensures node[x].child1 != 0 ==> node[x].child1 in node
    ensures RingLinked(i, rg, WriteTakeOver(t, p, node, hdr, x, ring[0]))
  {
    TakeOverDefined(i, t, p, node, hdr, x);
    var r := ring[0];
    var node' := WriteTakeOver(t, p, node, hdr, x, r);
    forall k | 0 <= k < |rg| ensures rg[k] in node' && ChunkLinked(i, rg, k, node') {
      assert ChunkLinked(i, rg, k, node);
      if k > 0 {
        assert p.Step? ==> rg[k] != t[p.up][0];
        assert Step(p, false) in t ==> rg[k] != t[Step(p, false)][0];
        assert Step(p, true) in t ==> rg[k] != t[Step(p, true)][0];
        assert node'[rg[k]] == node[rg[k]];
      }
    }
  }

  /** `n` holds the words of chunk `y` after the take-over. */
  ghost predicate TookOver(t: Trie, p: Path, node: Nodes, hdr: nat, x: nat, r: nat, y: nat, n: TNode)
    requires p.Step? ==> p.up in t && |t[p.up]| > 0
    requires x in node && y in node
  {
    var c0, c1 := node[x].child0, node[x].child1;
    var slot := p.Step? && y == t[p.up][0];
    && n.parent == (if y == r then ParentWord(t, p, hdr)
                    else if y != 0 && (y == c0 || y == c1) then r else node[y].parent)
    && n.child0 == (if y == r && c0 != 0 then c0 else if slot && !p.bit then r else node[y].child0)
    && n.child1 == (if y == r && c1 != 0 then c1 else if slot && p.bit then r else node[y].child1)
  }

  lemma TakeOverWords(t: Trie, p: Path, node: Nodes, hdr: nat, x: nat, r: nat, y: nat)
    requires p.Step? ==> p.up in t && |t[p.up]| > 0 && t[p.up][0] in node
    requires x in node && r in node && r != x && y in node && y != x
    requires node[x].child0 != 0 ==> node[x].child0 in node && node[x].child0 != x && node[x].child0 != r
    requires node[x].child1 != 0 ==> node[x].child1 in node && node[x].child1 != x && node[x].child1 != r
    requires p.Step? ==> t[p.up][0] != x && t[p.up][0] != r
    ensures y in WriteTakeOver(t, p, node, hdr, x, r)
    ensures TookOver(t, p, node, hdr, x, r, y, WriteTakeOver(t, p, node, hdr, x, r)[y])
  {
  }

  lemma TakeOverRoot(i: nat, t: Trie, p: Path, node: Nodes, hdr: nat, x: nat, ring: seq<nat>, node': Nodes)
    requires LinkedBut(i, t, p, node, hdr) && Apart(t) && TakesOver(t, p, node, x)
    requires LooseRing(i, t, ring, node) && x in node && ring[0] in node && ring[0] in node'
    requires forall s :: s in t ==> t[s][0] != 0
    requires TookOver(t, p, node, hdr, x, ring[0], ring[0], node'[ring[0]])
    ensures NodeLinked(t[p := ring], p, node', hdr)
  {
    TakeOverDefined(i, t, p, node, hdr, x);
    TakeOverApart(i, t, p, node, hdr, x, ring);
    assert NodeLinked(t, p, node, hdr);
    assert ring[0] in ring;
    assert Depth(Step(p, false)) == Depth(Step(p, true)) == Depth(p) + 1;
    assert p.Step? ==> Depth(p.up) + 1 == Depth(p);
  }

  lemma TakeOverOther(i: nat, t: Trie, p: Path, node: Nodes, hdr: nat, x: nat, ring: seq<nat>, q: Path, node': Nodes)
    requires LinkedBut(i, t, p, node, hdr) && Apart(t) && TakesOver(t, p, node, x)
    requires LooseRing(i, t, ring, node) && q in t && q != p
    requires forall s :: s in t ==> t[s][0] != 0
    requires x in node && t[q][0] in node && t[q][0] in node'
    requires TookOver(t, p, node, hdr, x, ring[0], t[q][0], node'[t[q][0]])
    ensures NodeLinked(t[p := ring], q, node', hdr)
  {
    TakeOverDefined(i, t, p, node, hdr, x);
    TakeOverApart(i, t, p, node, hdr, x, ring);
    var t' := t[p := ring];
    var y := t[q][0];
    assert NodeLinked(t, q, node, hdr);
    assert ring[0] in ring && y != ring[0];
    assert t'[q] == t[q];
    assert y == node[x].child0 ==> q == Step(p, false);
    assert y == node[x].child1 ==> q == Step(p, true);
    assert node'[y].parent == ParentWord(t', q, hdr) by {
      assert q.Step? && q.up == p ==> q == Step(p, q.bit);
    }
    assert p.Step? && y == t[p.up][0] ==> q == p.up;
    assert p.Step? ==> p == Step(p.up, p.bit);
    assert node'[y].child0 == At(t', Step(q, false));
    assert node'[y].child1 == At(t', Step(q, true));
  }

  lemma TakeOverNode(i: nat, t: Trie, p: Path, node: Nodes, hdr: nat, x: nat, ring: seq<nat>, q: Path)
    requires LinkedBut(i, t, p, node, hdr) && Apart(t) && TakesOver(t, p, node, x)
    requires LooseRing(i, t, ring, node) && q in t
    requires forall s :: s in t ==> t[s][0] != 0
    ensures x in node && ring[0] in node
    ensures p.Step? ==> t[p.up][0] in node && t[p.up][0] != x
    ensures node[x].child0 != 0 ==> node[x].child0 in node
    ensures node[x].child1 != 0 ==> node[x].child1 in node
    ensures NodeLinked(t[p := ring], q, WriteTakeOver(t, p, node, hdr, x, ring[0]), hdr)
  {
    TakeOverDefined(i, t, p, node, hdr, x);
    TakeOverApart(i, t, p, node, hdr, x, ring);
    assert NodeLinked(t, q, node, hdr);
    var r := ring[0];
    var y := t[p := ring][q][0];
    assert r in ring && t[q][0] in t[q] && x in t[p] && r in node;
    assert q != p ==> t[q][0] != x;
    assert Depth(Step(p, false)) == Depth(Step(p, true)) == Depth(p) + 1;
    TakeOverWords(t, p, node, hdr, x, r, y);
    var node' := WriteTakeOver(t, p, node, hdr, x, r);
    if q == p {
      TakeOverRoot(i, t, p, node, hdr, x, ring, node');
    } else {
      TakeOverOther(i, t, p, node, hdr, x, ring, q, node');
    }
  }

  lemma TakeOver(i: nat, t: Trie, p: Path, node: Nodes, hdr: nat, x: nat, ring: seq<nat>)
    requires LinkedBut(i, t, p, node, hdr) && Apart(t) && TakesOver(t, p, node, x)
    requires LooseRing(i, t, ring, node)
    requires forall s :: s in t ==> t[s][0] != 0
    ensures x in node && ring[0] in node
    ensures p.Step? ==> t[p.up][0] in node && t[p.up][0] != x
    ensures node[x].child0 != 0 ==> node[x].child0 in node
    ensures node[x].child1 != 0 ==> node[x].child1 in node
    ensures BinLinked(i, t[p := ring], WriteTakeOver(t, p, node, hdr, x, ring[0]), hdr)
  {
    TakeOverDefined(i, t, p, node, hdr, x);
    var node' := WriteTakeOver(t, p, node, hdr, x, ring[0]);
    var t' := t[p := ring];
    TakeOverApart(i, t, p, node, hdr, x, ring);
    forall q | q in t' ensures RingLinked(i, t'[q], node') {
      assert q == p ==> forall k :: 0 < k < |ring| ==> ring[k] in ring;
      assert ring[0] in ring;
      TakeOverRing(i, t, p, node, hdr, x, ring, t'[q]);
    }
    forall q | q in t' ensures NodeLinked(t', q, node', hdr) {
      TakeOverNode(i, t, p, node, hdr, x, ring, q);
    }
  }

  lemma UnringWrites(node: Nodes, f: nat, r: nat, y: nat)
    requires f in node && r in node && y in node
    ensures SameTreeWords(y, node, WriteUnring(node, f, r))
    ensures y != f && y != r ==> WriteUnring(node, f, r)[y] == node[y]
  {
  }

  /** Rings and nodes when the chunk at index `k` of the ring at `p` has left that ring. */
  lemma UnringRest(i: nat, t: Trie, t': Trie, node: Nodes, hdr: nat, p: Path, f: nat, r: nat)
    requires BinLinked(i, t, node, hdr) && Apart(t) && p in t && f in t[p] && r in t[p] && f in node && r in node
    requires SameHeads(t, t') && forall q :: q in t && q != p ==> t'[q] == t[q]
    ensures LinkedBut(i, t', p, WriteUnring(node, f, r), hdr)
  {
    hide NodeLinked, WriteUnring, ChunkLinked;
    var node' := WriteUnring(node, f, r);
    forall y | y in node ensures SameTreeWords(y, node, node') && (y != f && y != r ==> node'[y] == node[y]) {
      UnringWrites(node, f, r, y);
    }
    forall q | q in t' && q != p ensures RingLinked(i, t'[q], node') {
      assert forall k :: 0 <= k < |t[q]| ==> t[q][k] in t[q];
      RingKept(i, t[q], node, node');
    }
    forall q | q in t' ensures NodeLinked(t', q, node', hdr) {
      assert NodeLinked(t, q, node, hdr) && RingLinked(i, t[q], node);
      NodeKept(t, t', node, node', hdr, q);
    }
  }

  /** Taking the node out of a ring of several leaves the rest loose, and `x` alone at its path. */
  lemma UnringHead(i: nat, t: Trie, node: Nodes, hdr: nat, p: Path)
    requires BinLinked(i, t, node, hdr) && Apart(t) && p in t && |t[p]| > 1
    ensures node[t[p][0]].fd == t[p][1] && node[t[p][0]].bk == t[p][|t[p]| - 1]
    ensures t[p][1] in node && t[p][|t[p]| - 1] in node
    ensures LinkedBut(i, t[p := [t[p][0]]], p, WriteUnring(node, t[p][1], t[p][|t[p]| - 1]), hdr)
    ensures LooseRing(i, t[p := [t[p][0]]], RingRemove(t[p], 0), WriteUnring(node, t[p][1], t[p][|t[p]| - 1]))
    ensures Apart(t[p := [t[p][0]]])
  {
    hide LinkedBut, NodeLinked, WriteUnring, RingRemove;
    var ring := t[p];
    var t1 := t[p := [ring[0]]];
    assert RingLinked(i, ring, node);
    TailWords(i, ring, node, |ring| - 1);
    RingOfRemove(i, ring, node, 0);
    assert ring[1] in ring && ring[|ring| - 1] in ring;
    UnringRest(i, t, t1, node, hdr, p, ring[1], ring[|ring| - 1]);
    UnringWrites(node, ring[1], ring[|ring| - 1], ring[|ring| - 1]);
    LooseRest(ring);
    assert forall q, y :: q in t1 && y in t1[q] ==> y in t[q] && (q == p ==> y == ring[0]);
  }

  lemma TailWords(i: nat, ring: seq<nat>, node: Nodes, k: nat)
    requires RingLinked(i, ring, node) && 0 < k < |ring|
    ensures ring[k] in node && node[ring[k]].child0 == 0 && node[ring[k]].child1 == 0
  {
    assert ChunkLinked(i, ring, k, node);
  }

  /** The chunks of a ring without its node. */
  lemma LooseRest(ring: seq<nat>)
    requires |ring| > 1 && forall a, b :: 0 <= a < b < |ring| ==> ring[a] != ring[b]
    ensures var rest := RingRemove(ring, 0);
            && |rest| > 0 && rest[0] == ring[|ring| - 1]
            && (forall y :: y in rest <==> y in ring && y != ring[0])
            && (forall a, b :: 0 <= a < b < |rest| ==> rest[a] != rest[b])
  {
    forall y ensures y in RingRemove(ring, 0) <==> y in ring && y != ring[0] {
      RingRemoveMembers(ring, 0, y);
    }
    RingRemoveMembers(ring, 0, 0);
  }

  /** Taking a chunk other than the node out of its ring. */
  lemma UnringOther(i: nat, t: Trie, node: Nodes, hdr: nat, p: Path, k: nat)
    requires BinLinked(i, t, node, hdr) && Apart(t) && p in t && 0 < k < |t[p]|
    ensures node[t[p][k]].fd == t[p][Next(k, |t[p]|)] && node[t[p][k]].bk == t[p][Prev(k, |t[p]|)]
    ensures t[p][Next(k, |t[p]|)] in node && t[p][Prev(k, |t[p]|)] in node
    ensures BinLinked(i, t[p := RingRemove(t[p], k)],
                      WriteUnring(node, t[p][Next(k, |t[p]|)], t[p][Prev(k, |t[p]|)]), hdr)
  {
    hide NodeLinked, WriteUnring, ChunkLinked, RingRemove;
    var ring := t[p];
    var f, r := ring[Next(k, |ring|)], ring[Prev(k, |ring|)];
    var t' := t[p := RingRemove(ring, k)];
    assert RingLinked(i, ring, node);
    RingOfRemove(i, ring, node, k);
    RestHead(ring, k);
    assert f in ring && r in ring;
    UnringRest(i, t, t', node, hdr, p, f, r);
  }

  lemma RestHead(ring: seq<nat>, k: nat)
    requires 0 < k < |ring|
    ensures |RingRemove(ring, k)| > 0 && RingRemove(ring, k)[0] == ring[0]
  {
  }
}
