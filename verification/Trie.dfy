/**
 The bitwise tries that hold the large free chunks of the bundled allocator
 (src/lj_alloc.c), as values.

 A tree bin is a map from paths to rings.  A ring is the list of all chunks of
 one size, in `fd` order, starting with the chunk that is the tree node.  Each
 path covers an interval of sizes that is halved with every step, and a node
 only has to lie in the interval of its path.
 */
module Trie {
  import opened PowersOfTwo

  const NTREEBINS: nat := 32

  /** A position in a tree bin: the sequence of turns from the root, last turn outermost. */
  datatype Path = Root | Step(up: Path, bit: bool)

  type Trie = map<Path, seq<nat>>
  type Sizes = map<nat, nat>

  function Depth(p: Path): nat {
    match p
    case Root => 0
    case Step(up, _) => Depth(up) + 1
  }

  /** Number of size bits that are not yet fixed at the root of tree bin `i`. */
  function TopExp(i: nat): nat {
    if i >= NTREEBINS - 1 then 64 else i / 2 + 7
  }

  /** The smallest size of bin `i`: minsize_for_tree_index. */
  function MinSize(i: nat): nat {
    Pow2(i / 2 + 8) + (if i % 2 == 1 then Pow2(i / 2 + 7) else 0)
  }

  function BinLo(i: nat): nat {
    if i >= NTREEBINS - 1 then 0 else MinSize(i)
  }

  function Exp(i: nat, p: Path): int {
    TopExp(i) - Depth(p)
  }

  /** The least size that can be found at or below path `p`. */
  function Lo(i: nat, p: Path): nat {
    match p
    case Root => BinLo(i)
    case Step(up, bit) => Lo(i, up) + (if bit && Exp(i, p) >= 0 then Pow2(Exp(i, p)) else 0)
  }

  /** All sizes at or below path `p` are below this bound. */
  function Hi(i: nat, p: Path): nat
    requires Exp(i, p) >= 0
  {
    Lo(i, p) + Pow2(Exp(i, p))
  }

  /** Size `s` lies in the interval of path `p`. */
  predicate Covers(i: nat, p: Path, s: nat) {
    Exp(i, p) >= 0 && Lo(i, p) <= s < Hi(i, p)
  }

  /** Path `q` is in the subtree with root `p`. */
  predicate Under(q: Path, p: Path) {
    q == p || (q.Step? && Under(q.up, p))
  }

  /** Bin `i` is the one that compute_tree_index selects for size `s`; see TreeIndex. */
  predicate InBin(i: nat, s: nat) {
    i < NTREEBINS && MinSize(i) <= s < W64 && (i < NTREEBINS - 1 ==> s < MinSize(i + 1))
  }

  // ------------------------------------------------------------------
  // Intervals

  lemma {:induction false} UnderDepth(q: Path, p: Path)
    requires Under(q, p)
    ensures Depth(p) <= Depth(q)
    ensures q != p ==> Depth(p) < Depth(q)
  {
    if q != p {
      UnderDepth(q.up, p);
    }
  }

  lemma {:induction false} UnderTransitive(r: Path, q: Path, p: Path)
    requires Under(r, q) && Under(q, p)
    ensures Under(r, p)
  {
    if r != q {
      UnderTransitive(r.up, q, p);
    }
  }

  /** A subtree covers a part of what its root covers. */
  lemma {:induction false} UnderInterval(i: nat, q: Path, p: Path)
    requires Under(q, p) && Exp(i, q) >= 0
    ensures Exp(i, p) >= 0 && Lo(i, p) <= Lo(i, q) && Hi(i, q) <= Hi(i, p)
  {
    if q != p {
      UnderInterval(i, q.up, p);
      assert Pow2(Exp(i, q.up)) == 2 * Pow2(Exp(i, q));
    }
  }

  /** Below a proper descendant, the first step from `p` decides the half. */
  lemma {:induction false} FirstStep(q: Path, p: Path) returns (bit: bool)
    requires Under(q, p) && q != p
    ensures Under(q, Step(p, bit))
  {
    if q.up == p {
      bit := q.bit;
    } else {
      bit := FirstStep(q.up, p);
    }
  }

  /** The two paths of one length that cover a common size are the same path. */
  lemma {:induction false} CoverUnique(i: nat, p: Path, q: Path, s: nat)
    requires Covers(i, p, s) && Covers(i, q, s) && Depth(p) == Depth(q)
    ensures p == q
  {
    if p.Step? {
      UnderInterval(i, p, p.up);
      UnderInterval(i, q, q.up);
      CoverUnique(i, p.up, q.up, s);
    }
  }

  /** Of two paths that cover a common size, the longer one is below the shorter one. */
  lemma {:induction false} CoverNested(i: nat, p: Path, q: Path, s: nat)
    requires Covers(i, p, s) && Covers(i, q, s) && Depth(p) <= Depth(q)
    ensures Under(q, p)
  {
    if Depth(p) == Depth(q) {
      CoverUnique(i, p, q, s);
    } else {
      UnderInterval(i, q, q.up);
      CoverNested(i, p, q.up, s);
    }
  }

  /** The sizes of one bin are below the sizes of every later bin. */
  lemma {:induction false} BinsOrdered(i: nat, j: nat, s: nat, t: nat)
    requires InBin(i, s) && InBin(j, t) && i < j
    ensures s < t
  {
    MinSizeMonotone(i + 1, j);
  }

  lemma {:induction false} MinSizeStep(i: nat)
    ensures MinSize(i) + Pow2(i / 2 + 7) == MinSize(i + 1)
  {
    assert Pow2(i / 2 + 8) == 2 * Pow2(i / 2 + 7);
    if i % 2 == 1 {
      assert (i + 1) / 2 == i / 2 + 1;
      assert Pow2(i / 2 + 9) == 2 * Pow2(i / 2 + 8);
    }
  }

  lemma {:induction false} MinSizeMonotone(i: nat, j: nat)
    requires i <= j
    ensures MinSize(i) <= MinSize(j)
  {
    if i < j {
      MinSizeStep(j - 1);
      MinSizeMonotone(i, j - 1);
    }
  }

  /** The root of a bin covers all sizes of that bin. */
  lemma {:induction false} RootCovers(i: nat, s: nat)
    requires InBin(i, s)
    ensures Covers(i, Root, s)
  {
    if i == NTREEBINS - 1 {
      Pow2Of64();
    } else {
      MinSizeStep(i);
    }
  }

  // ------------------------------------------------------------------
  // Well-formed tries

  /** Every ring is non-empty, of one size, and that size is covered by the path of the ring. */
  ghost predicate RingOk(i: nat, p: Path, ring: seq<nat>, size: Sizes) {
    && |ring| > 0 && ring[0] in size
    && (forall k :: 0 <= k < |ring| ==> ring[k] in size && size[ring[k]] == size[ring[0]])
    && (forall j, k :: 0 <= j < k < |ring| ==> ring[j] != ring[k])
    && Covers(i, p, size[ring[0]])
  }

  ghost predicate TrieOk(i: nat, t: Trie, size: Sizes) {
    && (forall up, bit :: Step(up, bit) in t ==> up in t)
    && (forall p :: p in t ==> RingOk(i, p, t[p], size))
    && (forall p, q :: p in t && q in t && size[t[p][0]] == size[t[q][0]] ==> p == q)
  }

  lemma HeadsSized(i: nat, t: Trie, size: Sizes)
    requires TrieOk(i, t, size)
    ensures forall p :: p in t ==> |t[p]| > 0 && t[p][0] in size
  {
    assert forall p :: p in t ==> RingOk(i, p, t[p], size);
  }

  function At(t: Trie, p: Path): nat
    requires p in t ==> |t[p]| > 0
  {
    if p in t then t[p][0] else 0
  }

  ghost predicate Member(t: Trie, x: nat) {
    exists p :: p in t && x in t[p]
  }

  /** Ancestors of an occupied path are occupied. */
  lemma {:induction false} UpClosed(t: Trie, q: Path, p: Path)
    requires forall up, bit :: Step(up, bit) in t ==> up in t
    requires q in t && Under(q, p)
    ensures p in t
  {
    if q != p {
      assert q == Step(q.up, q.bit);
      UpClosed(t, q.up, p);
    }
  }

  /** A chunk has one path. */
  lemma {:induction false} OnePath(i: nat, t: Trie, size: Sizes, x: nat, p: Path, q: Path)
    requires TrieOk(i, t, size) && p in t && q in t && x in t[p] && x in t[q]
    ensures p == q
  {
    assert size[t[p][0]] == size[x] == size[t[q][0]];
  }

  // ------------------------------------------------------------------
  // Insertion

  /** The ring with `x` put behind the tree node. */
  function RingInsert(ring: seq<nat>, x: nat): seq<nat> {
    if ring == [] then [x] else [ring[0], x] + ring[1..]
  }

  function InsertAt(t: Trie, p: Path, x: nat): Trie {
    t[p := RingInsert(if p in t then t[p] else [], x)]
  }

  /** `p` is where the descent of insert_large_chunk for size `s` stops. */
  ghost predicate InsertPoint(i: nat, t: Trie, size: Sizes, p: Path, s: nat) {
    && Covers(i, p, s)
    && (p in t ==> |t[p]| > 0 && t[p][0] in size && size[t[p][0]] == s)
    && (p !in t ==> p.Root? || (p.up in t && !SizeOnPath(t, size, p.up, s)))
  }

  /** A node at `p` or above it has size `s`. */
  ghost predicate SizeOnPath(t: Trie, size: Sizes, p: Path, s: nat) {
    || (p in t && |t[p]| > 0 && t[p][0] in size && size[t[p][0]] == s)
    || (p.Step? && SizeOnPath(t, size, p.up, s))
  }

  lemma {:induction false} SizeOnPathAbove(t: Trie, size: Sizes, q: Path, p: Path, s: nat)
    requires Under(p, q) && q in t && |t[q]| > 0 && t[q][0] in size && size[t[q][0]] == s
    ensures SizeOnPath(t, size, p, s)
  {
    if p != q {
      SizeOnPathAbove(t, size, q, p.up, s);
    }
  }

  /** When the descent runs off the trie, the trie holds no chunk of that size. */
  lemma {:induction false} NewSizeAtInsertPoint(i: nat, t: Trie, size: Sizes, p: Path, s: nat, q: Path)
    requires TrieOk(i, t, size) && InsertPoint(i, t, size, p, s) && p !in t && q in t
    ensures size[t[q][0]] != s
  {
    if size[t[q][0]] == s {
      if Depth(q) >= Depth(p) {
        CoverNested(i, p, q, s);
        UpClosed(t, q, p);
      } else {
        CoverNested(i, q, p, s);
        assert Under(p.up, q);
        SizeOnPathAbove(t, size, q, p.up, s);
      }
    }
  }

  /** A ring keeps its properties when a new chunk of its size is put behind the tree node. */
  lemma RingWith(i: nat, p: Path, ring: seq<nat>, size: Sizes, x: nat, s: nat)
    requires ring == [] || (RingOk(i, p, ring, size) && size[ring[0]] == s)
    requires Covers(i, p, s) && x !in size
    ensures RingOk(i, p, RingInsert(ring, x), size[x := s])
  {
    hide Covers;
    var r := RingInsert(ring, x);
    assert ring != [] ==> r[0] == ring[0] && r[1] == x && forall j :: 2 <= j < |r| ==> r[j] == ring[j - 1];
  }

  lemma InsertRing(i: nat, t: Trie, size: Sizes, p: Path, x: nat, s: nat, q: Path)
    requires TrieOk(i, t, size) && InsertPoint(i, t, size, p, s)
    requires x !in size && q in InsertAt(t, p, x)
    ensures var r, size' := InsertAt(t, p, x)[q], size[x := s];
            && RingOk(i, q, r, size')
            && |r| > 0 && r[0] in size' && size'[r[0]] == if q in t then size[t[q][0]] else s
  {
    hide Covers, SizeOnPath;
    if q in t {
      assert RingOk(i, q, t[q], size);
    }
    if q == p {
      RingWith(i, p, if p in t then t[p] else [], size, x, s);
    }
  }

  lemma {:induction false} InsertKeepsTrie(i: nat, t: Trie, size: Sizes, p: Path, x: nat, s: nat)
    requires TrieOk(i, t, size) && InsertPoint(i, t, size, p, s)
    requires x !in size
    ensures TrieOk(i, InsertAt(t, p, x), size[x := s])
    ensures forall y :: Member(InsertAt(t, p, x), y) <==> Member(t, y) || y == x
  {
    hide RingOk, SizeOnPath, RingInsert, Covers;
    var t' := InsertAt(t, p, x);
    var size' := size[x := s];
    HeadsSized(i, t, size);
    forall q | q in t'
      ensures RingOk(i, q, t'[q], size')
      ensures |t'[q]| > 0 && t'[q][0] in size' && size'[t'[q][0]] == if q in t then size[t[q][0]] else s
    {
      InsertRing(i, t, size, p, x, s, q);
    }
    forall q | q in t && p !in t ensures size[t[q][0]] != s {
      NewSizeAtInsertPoint(i, t, size, p, s, q);
    }
    forall y ensures Member(t', y) <==> Member(t, y) || y == x {
      InsertMembers(t, p, x, y);
    }
  }

  lemma {:induction false} InsertMembers(t: Trie, p: Path, x: nat, y: nat)
    requires p in t ==> t[p] != []
    ensures Member(InsertAt(t, p, x), y) <==> Member(t, y) || y == x
  {
    var t' := InsertAt(t, p, x);
    assert p in t ==> t[p] == [t[p][0]] + t[p][1..];
    assert y in t'[p] <==> y == x || (p in t && y in t[p]);
    if Member(t', y) {
      var q :| q in t' && y in t'[q];
      assert q != p ==> q in t && y in t[q];
    }
    if Member(t, y) {
      var q :| q in t && y in t[q];
      assert q in t' && y in t'[q];
    }
  }

  // ------------------------------------------------------------------
  // Removal

  /** The ring without the chunk at index `k`; the last chunk takes over as the tree node. */
  function RingRemove(ring: seq<nat>, k: nat): seq<nat>
    requires k < |ring| && |ring| > 1
  {
    if k > 0 then ring[..k] + ring[k + 1..] else [ring[|ring| - 1]] + ring[1..|ring| - 1]
  }

  lemma {:induction false} RingRemoveMembers(ring: seq<nat>, k: nat, y: nat)
    requires k < |ring| && |ring| > 1
    requires forall a, b :: 0 <= a < b < |ring| ==> ring[a] != ring[b]
    ensures y in RingRemove(ring, k) <==> y in ring && y != ring[k]
    ensures forall a, b :: 0 <= a < b < |ring| - 1 ==> RingRemove(ring, k)[a] != RingRemove(ring, k)[b]
  {
    var r := RingRemove(ring, k);
    forall a | 0 <= a < |r| ensures r[a] in ring && r[a] != ring[k] {
      assert r[a] == (if k > 0 then (if a < k then ring[a] else ring[a + 1])
                      else (if a == 0 then ring[|ring| - 1] else ring[a]));
    }
    if y in ring && y != ring[k] {
      var a :| 0 <= a < |ring| && ring[a] == y;
      if k > 0 {
        assert r[if a < k then a else a - 1] == y;
      } else {
        assert r[if a == |ring| - 1 then 0 else a] == y;
      }
    }
  }

  /** `q` is a node without children in the subtree of `p`. */
  ghost predicate LeafUnder(t: Trie, q: Path, p: Path) {
    q in t && Under(q, p) && Step(q, false) !in t && Step(q, true) !in t
  }

  /** Take the childless node `q` away and put its ring where `p` was. */
  function Replace(t: Trie, p: Path, q: Path): Trie
    requires q in t
  {
    if p == q then t - {p} else (t - {q})[p := t[q]]
  }

  /** A ring keeps its properties when a chunk of another ring goes. */
  lemma RingWithout(i: nat, p: Path, ring: seq<nat>, size: Sizes, x: nat)
    requires RingOk(i, p, ring, size) && x !in ring
    ensures RingOk(i, p, ring, size - {x}) && (size - {x})[ring[0]] == size[ring[0]]
  {
    hide Covers;
    assert forall j :: 0 <= j < |ring| ==> ring[j] in ring;
  }

  lemma RingRemoveOk(i: nat, p: Path, ring: seq<nat>, size: Sizes, k: nat)
    requires RingOk(i, p, ring, size) && |ring| > 1 && k < |ring|
    ensures RingOk(i, p, RingRemove(ring, k), size - {ring[k]}) && size[RingRemove(ring, k)[0]] == size[ring[0]]
  {
    hide Covers, RingRemove;
    var r := RingRemove(ring, k);
    RingRemoveSize(ring, k);
    forall j | 0 <= j < |r| ensures r[j] in ring && r[j] != ring[k] {
      RingRemoveMembers(ring, k, r[j]);
    }
    RingRemoveMembers(ring, k, ring[k]);
  }

  lemma RingRemoveSize(ring: seq<nat>, k: nat)
    requires k < |ring| && |ring| > 1
    ensures |RingRemove(ring, k)| == |ring| - 1
  {
  }

  lemma RingRemoveAt(i: nat, t: Trie, size: Sizes, p: Path, k: nat, q: Path)
    requires TrieOk(i, t, size) && p in t && |t[p]| > 1 && k < |t[p]| && q in t
    ensures var r := t[p := RingRemove(t[p], k)][q];
            && RingOk(i, q, r, size - {t[p][k]})
            && |r| > 0 && r[0] in size - {t[p][k]} && size[r[0]] == size[t[q][0]]
    ensures forall y :: y in t[p := RingRemove(t[p], k)][q] <==> y in t[q] && y != t[p][k]
  {
    hide RingRemove, Covers;
    var x := t[p][k];
    assert RingOk(i, p, t[p], size) && RingOk(i, q, t[q], size);
    if q == p {
      RingRemoveOk(i, p, t[p], size, k);
      forall y ensures y in RingRemove(t[p], k) <==> y in t[p] && y != x {
        RingRemoveMembers(t[p], k, y);
      }
    } else {
      if x in t[q] {
        OnePath(i, t, size, x, p, q);
      }
      RingWithout(i, q, t[q], size, x);
    }
  }

  lemma {:induction false} RingRemoveKeepsTrie(i: nat, t: Trie, size: Sizes, p: Path, k: nat)
    requires TrieOk(i, t, size) && p in t && |t[p]| > 1 && k < |t[p]|
    ensures TrieOk(i, t[p := RingRemove(t[p], k)], size - {t[p][k]})
    ensures forall y :: Member(t[p := RingRemove(t[p], k)], y) <==> Member(t, y) && y != t[p][k]
  {
    hide RingOk, RingRemove;
    var x := t[p][k];
    var t' := t[p := RingRemove(t[p], k)];
    var size' := size - {x};
    HeadsSized(i, t, size);
    forall q | q in t'
      ensures q in t && RingOk(i, q, t'[q], size')
      ensures |t'[q]| > 0 && t'[q][0] in size' && size'[t'[q][0]] == size[t[q][0]]
    {
      RingRemoveAt(i, t, size, p, k, q);
    }
    forall y ensures Member(t', y) <==> Member(t, y) && y != x {
      RingRemoveMember(i, t, size, p, k, y);
    }
  }

  lemma RingRemoveMember(i: nat, t: Trie, size: Sizes, p: Path, k: nat, y: nat)
    requires TrieOk(i, t, size) && p in t && |t[p]| > 1 && k < |t[p]|
    ensures Member(t[p := RingRemove(t[p], k)], y) <==> Member(t, y) && y != t[p][k]
  {
    hide RingOk, RingRemove, TrieOk;
    var t' := t[p := RingRemove(t[p], k)];
    if Member(t', y) {
      var q :| q in t' && y in t'[q];
      RingRemoveAt(i, t, size, p, k, q);
      assert q in t && y in t[q];
    }
    if Member(t, y) && y != t[p][k] {
      var q :| q in t && y in t[q];
      RingRemoveAt(i, t, size, p, k, q);
      assert q in t' && y in t'[q];
    }
  }

  /** Where the ring at path `r` of the trie after Replace was before. */
  function ReplaceFrom(p: Path, q: Path, r: Path): Path {
    if r == p then q else r
  }

  lemma {:induction false} ReplaceRing(i: nat, t: Trie, size: Sizes, p: Path, q: Path, r: Path)
    requires TrieOk(i, t, size) && p in t && |t[p]| == 1 && LeafUnder(t, q, p)
    requires r in Replace(t, p, q)
    ensures ReplaceFrom(p, q, r) in t && Replace(t, p, q)[r] == t[ReplaceFrom(p, q, r)]
    ensures t[p][0] !in Replace(t, p, q)[r]
    ensures RingOk(i, r, Replace(t, p, q)[r], size - {t[p][0]})
  {
    hide Covers, Under;
    var from := ReplaceFrom(p, q, r);
    assert RingOk(i, from, t[from], size);
    assert from != p;
    if t[p][0] in t[from] {
      OnePath(i, t, size, t[p][0], from, p);
    }
    RingWithout(i, from, t[from], size, t[p][0]);
    if r == p {
      CoversAbove(i, q, p, size[t[q][0]]);
    }
  }

  lemma CoversAbove(i: nat, q: Path, p: Path, s: nat)
    requires Under(q, p) && Covers(i, q, s)
    ensures Covers(i, p, s)
  {
    UnderInterval(i, q, p);
  }

  lemma {:induction false} ReplaceKeepsTrie(i: nat, t: Trie, size: Sizes, p: Path, q: Path)
    requires TrieOk(i, t, size) && p in t && |t[p]| == 1 && LeafUnder(t, q, p)
    ensures TrieOk(i, Replace(t, p, q), size - {t[p][0]})
  {
    var t' := Replace(t, p, q);
    var size' := size - {t[p][0]};
    forall r | r in t' ensures RingOk(i, r, t'[r], size') && size'[t'[r][0]] == size[t'[r][0]] {
      ReplaceRing(i, t, size, p, q, r);
    }
    forall r, s | r in t' && s in t' && size'[t'[r][0]] == size'[t'[s][0]] ensures r == s {
      ReplaceRing(i, t, size, p, q, r);
      ReplaceRing(i, t, size, p, q, s);
      assert ReplaceFrom(p, q, r) == ReplaceFrom(p, q, s);
    }
    forall up, bit | Step(up, bit) in t' ensures up in t' {
      ReplaceRing(i, t, size, p, q, Step(up, bit));
      if Step(up, bit) == p {
        UnderDepth(q, p);
      }
    }
  }

  lemma AloneInRing(ring: seq<nat>, y: nat)
    requires |ring| == 1
    ensures y in ring <==> y == ring[0]
  {
  }

  lemma {:induction false} ReplaceMembers(i: nat, t: Trie, size: Sizes, p: Path, q: Path, y: nat)
    requires TrieOk(i, t, size) && p in t && |t[p]| == 1 && LeafUnder(t, q, p)
    ensures Member(Replace(t, p, q), y) <==> Member(t, y) && y != t[p][0]
  {
    hide RingOk, Under;
    var t' := Replace(t, p, q);
    if Member(t', y) {
      var r :| r in t' && y in t'[r];
      ReplaceRing(i, t, size, p, q, r);
      assert y in t[ReplaceFrom(p, q, r)];
    }
    if Member(t, y) && y != t[p][0] {
      var r :| r in t && y in t[r];
      AloneInRing(t[p], y);
      var to := if r == q then p else r;
      assert to in t' && y in t'[to];
    }
  }
}
