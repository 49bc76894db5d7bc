/**
 The hash part of a template table in a deterministic order: a heap sort of its nodes
 (bcwrite_ktab_sorted_hash of src/lj_bcwrite.c).
 */
module DumpSort {
  import opened DumpNumbers
  import opened DumpTypes

  /** The nodes of a hash part: each key is there once. */
  ghost predicate IsHash(nodes: set<Node>) {
    && (forall x {:trigger x in nodes} :: x in nodes ==> IsValue(x.key))
    && forall x, y {:trigger x in nodes, y in nodes} :: x in nodes && y in nodes && x.key == y.key ==> x == y
  }

  ghost predicate Sorted(s: seq<Node>) {
    forall i, j {:trigger s[i], s[j]} :: 0 <= i < j < |s| ==> KeyLess(s[i].key, s[j].key)
  }

  // ------------------------------------------------------------------
  // There is one sorted order

  ghost predicate IsLeast(nodes: set<Node>, x: Node) {
    x in nodes && forall y {:trigger y in nodes} :: y in nodes && y != x ==> KeyLess(x.key, y.key)
  }

  lemma {:induction false} LeastExists(nodes: set<Node>)
    requires nodes != {} && IsHash(nodes)
    ensures exists x :: IsLeast(nodes, x)
    decreases nodes
  {
    hide KeyLess;
    var z :| z in nodes;
    var rest := nodes - {z};
    if rest == {} {
      assert nodes == {z};
      assert IsLeast(nodes, z);
    } else {
      LeastExists(rest);
      var x :| IsLeast(rest, x);
      KeyOrder(x.key, z.key);
      if KeyLess(x.key, z.key) {
        assert forall y :: y in nodes && y != z ==> y in rest;
        assert IsLeast(nodes, x);
      } else {
        forall y | y in nodes && y != z ensures KeyLess(z.key, y.key) {
          assert y in rest;
          if y != x {
            KeyTransitive(z.key, x.key, y.key);
          }
        }
        assert IsLeast(nodes, z);
      }
    }
  }

  /** The nodes in the order of their keys */
  ghost function SortedNodes(nodes: set<Node>): (r: seq<Node>)
    requires IsHash(nodes)
    decreases nodes
  {
    if nodes == {} then []
    else
      LeastExists(nodes);
      var x :| IsLeast(nodes, x);
      [x] + SortedNodes(nodes - {x})
  }

  lemma TakeOut(nodes: set<Node>, x: Node, r: seq<Node>)
    requires x in nodes
    ensures multiset([x] + r) == multiset(nodes) <==> multiset(r) == multiset(nodes - {x})
  {
    var rest := multiset(nodes - {x});
    assert multiset(nodes) == multiset{x} + rest;
    assert multiset([x] + r) == multiset{x} + multiset(r);
    assert multiset{x} + multiset(r) - multiset{x} == multiset(r);
    assert multiset{x} + rest - multiset{x} == rest;
  }

  /** The nodes in ascending order are the only sequence that has these nodes, once each, in ascending order. */
  lemma {:induction false} SortedIsUnique(nodes: set<Node>, r: seq<Node>)
    requires IsHash(nodes) && Sorted(r) && multiset(r) == multiset(nodes)
    ensures r == SortedNodes(nodes)
    decreases nodes
  {
    hide KeyLess;
    if nodes == {} {
      assert |r| == |multiset(r)|;
    } else {
      LeastExists(nodes);
      var x :| IsLeast(nodes, x) && SortedNodes(nodes) == [x] + SortedNodes(nodes - {x});
      assert x in multiset(r);
      var i :| 0 <= i < |r| && r[i] == x;
      assert r[0] in multiset(nodes);
      KeyOrder(r[0].key, x.key);
      assert r[0] == x;
      assert r == [x] + r[1..];
      TakeOut(nodes, x, r[1..]);
      SortedIsUnique(nodes - {x}, r[1..]);
    }
  }

  lemma {:induction false} SortedNodesAscend(nodes: set<Node>)
    requires IsHash(nodes)
    ensures Sorted(SortedNodes(nodes)) && multiset(SortedNodes(nodes)) == multiset(nodes)
    decreases nodes
  {
    hide KeyLess;
    if nodes != {} {
      LeastExists(nodes);
      var x :| IsLeast(nodes, x) && SortedNodes(nodes) == [x] + SortedNodes(nodes - {x});
      var r := SortedNodes(nodes - {x});
      SortedNodesAscend(nodes - {x});
      forall j | 0 <= j < |r| ensures KeyLess(x.key, r[j].key) {
        assert r[j] in multiset(nodes - {x});
      }
      TakeOut(nodes, x, r);
    }
  }

  // ------------------------------------------------------------------
  // The heap

  function Parent(c: nat): nat
    requires c > 0
  {
    (c - 1) / 2
  }

  /** The node `c` is not below its parent. */
  ghost predicate InOrder(h: seq<Node>, c: nat)
    requires 0 < c < |h|
  {
    !KeyLess(h[c].key, h[Parent(c)].key)
  }

  /** From `lo` on, no node below `end` is less than its parent. */
  ghost predicate HeapFrom(h: seq<Node>, lo: nat, end: nat) {
    end <= |h| && forall c: nat {:trigger InOrder(h, c)} :: 2 * lo < c < end ==> InOrder(h, c)
  }

  /** The first node of a heap is the least. */
  lemma {:induction false} TopIsLeast(h: seq<Node>, end: nat, k: nat)
    requires HeapFrom(h, 0, end) && k < end && forall i {:trigger h[i]} :: 0 <= i < end ==> IsValue(h[i].key)
    ensures !KeyLess(h[k].key, h[0].key)
  {
    if k == 0 {
      KeyOrder(h[0].key, h[0].key);
    } else {
      TopIsLeast(h, end, Parent(k));
      assert InOrder(h, k);
      NotLess(h[0].key, h[Parent(k)].key, h[k].key);
    }
  }

  lemma NotLess(a: Value, b: Value, c: Value)
    requires IsValue(a) && IsValue(b) && IsValue(c) && !KeyLess(b, a) && !KeyLess(c, b)
    ensures !KeyLess(c, a)
  {
    KeyOrder(a, b);
    KeyOrder(b, c);
    if KeyLess(c, a) {
      if a != b {
        KeyTransitive(c, a, b);
        KeyOrder(b, c);
      }
    }
  }

  /** What holds while `key` has no place yet: all are in order, if the hole is left out, and `key` is not above the hole. */
  ghost predicate Sifting(h: seq<Node>, lo: nat, end: nat, idx: nat, key: Node) {
    && lo <= idx < end <= |h|
    && (forall c: nat {:trigger InOrder(h, c)} :: 2 * lo < c < end && c != idx && Parent(c) != idx ==> InOrder(h, c))
    && (idx > 2 * lo ==>
          && !KeyLess(key.key, h[Parent(idx)].key)
          && forall c: nat {:trigger h[c]} :: 0 < c < end && Parent(c) == idx ==> !KeyLess(h[c].key, h[Parent(idx)].key))
  }

  lemma SiftStart(h: seq<Node>, idx: nat, end: nat, key: Node)
    requires idx < end && HeapFrom(h, idx + 1, end)
    ensures Sifting(h, idx, end, idx, key)
  {
  }

  /** The lower child moves up, and leaves a hole. */
  lemma SiftDown(h: seq<Node>, lo: nat, end: nat, idx: nat, key: Node, c: nat)
    requires Sifting(h, lo, end, idx, key) && IsLowerChild(h, idx, end, c) && !KeyLess(key.key, h[c].key)
    ensures Sifting(h[idx := h[c]], lo, end, c, key)
  {
    hide KeyLess;
    var g := h[idx := h[c]];
    forall d: nat | 2 * lo < d < end && d != c && Parent(d) != c ensures InOrder(g, d) {
      if d == idx {
        assert !KeyLess(h[c].key, h[Parent(idx)].key);
      } else if Parent(d) != idx {
        assert InOrder(h, d);
      }
    }
    forall d: nat | 0 < d < end && Parent(d) == c ensures !KeyLess(g[d].key, g[Parent(c)].key) {
      assert InOrder(h, d);
    }
  }

  /** No child of `i` is below the key. */
  ghost predicate Fits(h: seq<Node>, i: nat, end: nat, key: Node) {
    end <= |h| && forall d: nat {:trigger h[d]} :: 0 < d < end && Parent(d) == i ==> !KeyLess(h[d].key, key.key)
  }

  lemma NoChildren(h: seq<Node>, i: nat, end: nat, key: Node)
    requires end <= 2 * i + 1 && end <= |h|
    ensures Fits(h, i, end, key)
  {
  }

  /** The key fits where no child is below it. */
  lemma SiftEnd(h: seq<Node>, lo: nat, end: nat, idx: nat, key: Node)
    requires Sifting(h, lo, end, idx, key)
    requires Fits(h, idx, end, key)
    ensures HeapFrom(h[idx := key], lo, end)
  {
    hide KeyLess;
    var g := h[idx := key];
    forall d: nat | 2 * lo < d < end ensures InOrder(g, d) {
      if d != idx && Parent(d) != idx {
        assert InOrder(h, d);
      }
    }
  }

  lemma MoveHole(h: seq<Node>, i: nat, j: nat, key: Node)
    requires i < |h| && j < |h| && i != j
    ensures multiset(h[i := h[j]][j := key]) == multiset(h[i := key])
  {
    assert multiset(h[i := h[j]][j := key]) == multiset(h) - multiset{h[i]} + multiset{h[j]} - multiset{h[j]} + multiset{key};
  }

  predicate AllValues(h: seq<Node>, lo: nat, end: nat) {
    end <= |h| && forall i {:trigger h[i]} :: lo <= i < end ==> IsValue(h[i].key)
  }

  lemma SliceUpdate(h: seq<Node>, lo: nat, end: nat, i: nat, x: Node)
    requires lo <= i < end <= |h|
    ensures h[i := x][lo..end] == h[lo..end][i - lo := x]
    ensures h[i := x][..lo] == h[..lo] && h[i := x][end..] == h[end..]
  {
  }

  /** The children of `i`, none of which is below `c` */
  ghost predicate IsLowerChild(h: seq<Node>, i: nat, end: nat, c: nat) {
    && 0 < c < end <= |h| && Parent(c) == i
    && forall d: nat {:trigger h[d]} :: 0 < d < end && Parent(d) == i && d != c ==> !KeyLess(h[d].key, h[c].key)
  }

  /** The lower of the two children */
  method LowerChild(heap: array<Node>, i: nat, end: nat) returns (c: nat)
    requires 2 * i + 1 < end <= heap.Length && AllValues(heap[..], i + 1, end)
    ensures IsLowerChild(heap[..], i, end, c)
  {
    hide KeyLess;
    c := 2 * i + 1;
    if c + 1 < end {
      KeyOrder(heap[c].key, heap[c + 1].key);
      if KeyLess(heap[c + 1].key, heap[c].key) {
        c := c + 1;
      }
    }
  }

  /** The heap while `key` is on its way down from `idx`; all that was in `h0` but for the node `idx` is still there. */
  ghost predicate Placing(h: seq<Node>, h0: seq<Node>, idx: nat, end: nat, i: nat, key: Node) {
    && idx <= i < end <= |h| == |h0|
    && Sifting(h, idx, end, i, key) && AllValues(h, idx + 1, end)
    && multiset(h[idx..end][i - idx := key]) == multiset{key} + multiset(h0[idx + 1..end])
    && h[..idx] == h0[..idx] && h[end..] == h0[end..]
  }

  lemma PlacingStart(h: seq<Node>, idx: nat, end: nat, key: Node)
    requires idx < end <= |h| && HeapFrom(h, idx + 1, end) && AllValues(h, idx + 1, end)
    ensures Placing(h, h, idx, end, idx, key)
  {
    SiftStart(h, idx, end, key);
    assert h[idx..end][0 := key] == [key] + h[idx + 1..end];
  }

  lemma PlacingDown(h: seq<Node>, h0: seq<Node>, idx: nat, end: nat, i: nat, key: Node, c: nat)
    requires Placing(h, h0, idx, end, i, key) && IsLowerChild(h, i, end, c) && !KeyLess(key.key, h[c].key)
    ensures Placing(h[i := h[c]], h0, idx, end, c, key)
  {
    hide KeyLess, Sifting, IsValue;
    SiftDown(h, idx, end, i, key, c);
    MoveHole(h[idx..end], i - idx, c - idx, key);
    SliceUpdate(h, idx, end, i, h[c]);
  }

  lemma PlacingEnd(h: seq<Node>, h0: seq<Node>, idx: nat, end: nat, i: nat, key: Node)
    requires Placing(h, h0, idx, end, i, key) && Fits(h, i, end, key)
    ensures var g := h[i := key];
            && HeapFrom(g, idx, end) && multiset(g[idx..end]) == multiset{key} + multiset(h0[idx + 1..end])
            && g[..idx] == h0[..idx] && g[end..] == h0[end..]
  {
    hide KeyLess, Sifting, IsValue, HeapFrom, Fits;
    SiftEnd(h, idx, end, i, key);
    SliceUpdate(h, idx, end, i, key);
  }

  lemma PlacingInside(h: seq<Node>, h0: seq<Node>, idx: nat, end: nat, i: nat, key: Node)
    requires Placing(h, h0, idx, end, i, key)
    ensures idx <= i < end && AllValues(h, i + 1, end)
  {
  }

  /** bcwrite_ktabk_heap_insert: the node `key` comes to the place `idx`, or below it. */
  method HeapInsert(heap: array<Node>, idx: nat, end: nat, key: Node)
    requires idx < end <= heap.Length && HeapFrom(heap[..], idx + 1, end) && IsValue(key.key) && AllValues(heap[..], idx + 1, end)
    modifies heap
    ensures HeapFrom(heap[..], idx, end)
    ensures multiset(heap[idx..end]) == multiset{key} + multiset(old(heap[idx + 1..end]))
    ensures heap[..idx] == old(heap[..idx]) && heap[end..] == old(heap[end..])
  {
    hide KeyLess, Placing, HeapFrom, IsLowerChild, AllValues, Fits, IsValue;
    var i := idx;
    PlacingStart(heap[..], idx, end, key);
    while 2 * i + 1 < end
      invariant i < end && Placing(heap[..], old(heap[..]), idx, end, i, key)
    {
      PlacingInside(heap[..], old(heap[..]), idx, end, i, key);
      var c := LowerChild(heap, i, end);
      IsChild(heap[..], i, end, c);
      if KeyLess(key.key, heap[c].key) {
        NoneBelow(heap[..], end, i, c, key);
        break;
      }
      PlacingDown(heap[..], old(heap[..]), idx, end, i, key, c);
      ghost var before := heap[..];
      heap[i] := heap[c];
      assert heap[..] == before[i := before[c]];
      i := c;
    }
    if 2 * i + 1 >= end {
      NoChildren(heap[..], i, end, key);
    }
    PlacingEnd(heap[..], old(heap[..]), idx, end, i, key);
    ghost var before := heap[..];
    heap[i] := key;
    assert heap[..] == before[i := key];
  }

  /** The nodes in a part of the heap are values if those in its multiset are. */
  lemma ValuesInserted(h: seq<Node>, g: seq<Node>, idx: nat, end: nat, key: Node)
    requires idx < end <= |h| && AllValues(g, idx + 1, end) && IsValue(key.key)
    requires multiset(h[idx..end]) == multiset{key} + multiset(g[idx + 1..end])
    ensures AllValues(h, idx, end)
  {
    hide IsValue;
    forall i | idx <= i < end ensures IsValue(h[i].key) {
      assert h[i] in h[idx..end];
      assert h[i] in multiset{key} + multiset(g[idx + 1..end]);
      assert h[i] == key || h[i] in g[idx + 1..end];
    }
  }

  lemma IsChild(h: seq<Node>, i: nat, end: nat, c: nat)
    requires IsLowerChild(h, i, end, c)
    ensures i < c < end <= |h|
  {
  }

  lemma NoneBelow(h: seq<Node>, end: nat, idx: nat, c: nat, key: Node)
    requires IsLowerChild(h, idx, end, c) && KeyLess(key.key, h[c].key)
    requires IsValue(key.key) && AllValues(h, idx + 1, end)
    ensures Fits(h, idx, end, key)
  {
    hide KeyLess;
    forall d: nat | 0 < d < end && Parent(d) == idx ensures !KeyLess(h[d].key, key.key) {
      KeyOrder(key.key, h[c].key);
      if d != c {
        NotLess(key.key, h[c].key, h[d].key);
      }
    }
  }

  // ------------------------------------------------------------------
  // The nodes of a hash part

  /** The live nodes, the last one first */
  function LiveDown(node: seq<Node>): (r: seq<Node>)
    ensures |r| <= |node|
  {
    if node == [] then []
    else
      var n := node[|node| - 1];
      (if n.val.Nil? then [] else [n]) + LiveDown(node[..|node| - 1])
  }

  /** A hash part: keys are there once among the live nodes. */
  ghost predicate GoodNodes(node: seq<Node>) {
    && (forall i {:trigger node[i]} :: 0 <= i < |node| && !node[i].val.Nil? ==> IsValue(node[i].key) && !node[i].key.Nil? && !node[i].key.Marker?)
    && forall i, j {:trigger node[i], node[j]} ::
         0 <= i < j < |node| && !node[i].val.Nil? && !node[j].val.Nil? ==> node[i].key != node[j].key
  }

  ghost function LiveSet(node: seq<Node>): set<Node> {
    set n | n in node && !n.val.Nil?
  }

  lemma {:induction false} LiveOnce(node: seq<Node>)
    requires GoodNodes(node)
    ensures IsHash(LiveSet(node)) && multiset(LiveDown(node)) == multiset(LiveSet(node))
  {
    hide GoodNodes, LiveSet, IsHash, LiveDown;
    LiveIsHash(node);
    if node == [] {
      NoNodes();
    } else {
      var k := |node| - 1;
      GoodPrefix(node, k);
      LiveOnce(node[..k]);
      assert node == node[..k] + [node[k]];
      LiveOneMore(node[..k], node[k]);
    }
  }

  lemma NoNodes()
    ensures LiveSet([]) == {} && LiveDown([]) == []
  {
  }

  lemma GoodPrefix(node: seq<Node>, k: nat)
    requires GoodNodes(node) && k <= |node|
    ensures GoodNodes(node[..k])
  {
    hide IsValue;
  }

  lemma LiveIsHash(node: seq<Node>)
    requires GoodNodes(node)
    ensures IsHash(LiveSet(node))
  {
    hide IsValue;
  }

  lemma LiveOneMore(rest: seq<Node>, n: Node)
    requires GoodNodes(rest + [n]) && multiset(LiveDown(rest)) == multiset(LiveSet(rest))
    ensures multiset(LiveDown(rest + [n])) == multiset(LiveSet(rest + [n]))
  {
    hide GoodNodes, LiveSet;
    LiveStep(rest + [n], |rest|);
    assert (rest + [n])[..|rest|] == rest && (rest + [n])[..|rest| + 1] == rest + [n];
    LiveSetGrows(rest, n);
    if !n.val.Nil? {
      assert LiveSet(rest + [n]) - {n} == LiveSet(rest);
      TakeOut(LiveSet(rest + [n]), n, LiveDown(rest));
    }
  }

  lemma LiveSetGrows(rest: seq<Node>, n: Node)
    requires GoodNodes(rest + [n])
    ensures if n.val.Nil? then LiveSet(rest + [n]) == LiveSet(rest) else LiveSet(rest + [n]) == LiveSet(rest) + {n} && n !in LiveSet(rest)
  {
    hide IsValue;
    var node := rest + [n];
    assert node[|rest|] == n;
    assert forall i :: 0 <= i < |rest| ==> node[i] == rest[i];
  }

  lemma LiveStep(node: seq<Node>, k: nat)
    requires k < |node|
    ensures LiveDown(node[..k + 1]) == (if node[k].val.Nil? then [] else [node[k]]) + LiveDown(node[..k])
  {
    assert node[..k + 1][..k] == node[..k];
  }

  lemma NoneLive(k: nat, node: seq<Node>)
    requires k <= |node| && |LiveDown(node[..k])| > 0
    ensures k > 0
  {
  }

  /** The first loop of bcwrite_ktab_sorted_hash */
  method BuildHeap(heap: array<Node>, node: seq<Node>, nhash: nat)
    requires GoodNodes(node) && 0 < nhash == |LiveDown(node)| && nhash <= heap.Length
    modifies heap
    ensures HeapFrom(heap[..], 0, nhash) && AllValues(heap[..], 0, nhash)
    ensures multiset(heap[..nhash]) == multiset(LiveDown(node))
  {
    hide HeapFrom, AllValues, IsValue, LiveDown;
    var i, k := nhash, |node|;
    assert node[..k] == node;
    assert heap[i..nhash] == [];
    NothingToOrder(heap[..], nhash);
    while true
      invariant 0 < i <= nhash && k <= |node| && i == |LiveDown(node[..k])|
      invariant HeapFrom(heap[..], i, nhash) && AllValues(heap[..], i, nhash)
      invariant multiset(heap[i..nhash]) + multiset(LiveDown(node[..k])) == multiset(LiveDown(node))
      decreases k
    {
      NoneLive(k, node);
      k := k - 1;
      LiveStep(node, k);
      if !node[k].val.Nil? {
        i := i - 1;
        ghost var before := heap[..];
        HeapInsert(heap, i, nhash, node[k]);
        ValuesInserted(heap[..], before, i, nhash, node[k]);
        if i == 0 {
          assert LiveDown(node[..k]) == [];
          assert heap[0..nhash] == heap[..nhash];
          break;
        }
      }
    }
  }

  lemma NothingToOrder(h: seq<Node>, n: nat)
    requires n <= |h|
    ensures HeapFrom(h, n, n) && AllValues(h, n, n)
  {
  }

  // ------------------------------------------------------------------
  // Draining the heap

  /** `out` was drained, and `n` nodes are left. */
  ghost predicate Draining(h: seq<Node>, n: nat, out: seq<Node>, nodes: set<Node>) {
    && IsHash(nodes) && HeapFrom(h, 0, n) && Sorted(out)
    && multiset(out) + multiset(h[..n]) == multiset(nodes)
    && forall i, j {:trigger out[i], h[j]} :: 0 <= i < |out| && 0 <= j < n ==> KeyLess(out[i].key, h[j].key)
  }

  lemma StillThere(h: seq<Node>, n: nat, out: seq<Node>, nodes: set<Node>, j: nat)
    requires n <= |h| && multiset(out) + multiset(h[..n]) == multiset(nodes) && j < n
    ensures h[j] in nodes && (j > 0 ==> h[j] != h[0])
  {
    assert h[j] in h[..n];
    assert h[j] in multiset(nodes);
    if j > 0 {
      assert h[..n] == [h[0]] + h[1..n];
      assert h[1..n][j - 1] == h[j];
      assert multiset(nodes)[h[0]] >= 1 + multiset(h[1..n])[h[0]];
    }
  }

  /** The first node of the heap is the next one. */
  lemma DrainOne(h: seq<Node>, n: nat, out: seq<Node>, nodes: set<Node>)
    requires Draining(h, n, out, nodes) && n > 0
    ensures HeapFrom(h, 0, n) && AllValues(h, 0, n) && Sorted(out + [h[0]])
    ensures forall j {:trigger h[j]} :: 0 < j < n ==> KeyLess(h[0].key, h[j].key)
  {
    hide KeyLess, IsValue;
    forall j | 0 <= j < n ensures h[j] in nodes && (j > 0 ==> h[j] != h[0]) {
      StillThere(h, n, out, nodes, j);
    }
    forall j | 0 < j < n ensures KeyLess(h[0].key, h[j].key) {
      TopIsLeast(h, n, j);
      KeyOrder(h[0].key, h[j].key);
    }
  }
}
