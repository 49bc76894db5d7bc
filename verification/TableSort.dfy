/**
 table.sort (src/lib_table.c): an in-place quicksort that must not be led astray by the
 comparison function of a script.
 */
module TableSort {
  import opened PowersOfTwo

  // ------------------------------------------------------------------
  // Strict weak orders

  ghost predicate StrictWeakOrder<V(!new)>(lt: (V, V) -> bool) {
    && (forall x :: !lt(x, x))
    && (forall x, y, z :: lt(x, y) && lt(y, z) ==> lt(x, z))
    && (forall x, y, z :: lt(x, z) ==> lt(x, y) || lt(y, z))
  }

  /** x may stand before y. */
  predicate Le<V>(lt: (V, V) -> bool, x: V, y: V) {
    !lt(y, x)
  }

  lemma LeTransitive<V(!new)>(lt: (V, V) -> bool, x: V, y: V, z: V)
    requires StrictWeakOrder(lt) && Le(lt, x, y) && Le(lt, y, z)
    ensures Le(lt, x, z)
  {
  }

  // ------------------------------------------------------------------
  // Permutations of a part

  /** From `l` to before `e` the elements are in another order; the others are where they were. */
  ghost predicate Permuted<V>(s0: seq<V>, s: seq<V>, l: nat, e: nat) {
    && l <= e <= |s0| == |s|
    && s[..l] == s0[..l] && s[e..] == s0[e..]
    && multiset(s[l..e]) == multiset(s0[l..e])
  }

  lemma PermutedNot<V>(s: seq<V>, l: nat, e: nat)
    requires l <= e <= |s|
    ensures Permuted(s, s, l, e)
  {
  }

  lemma PermutedSizes<V>(s0: seq<V>, s: seq<V>, l: nat, e: nat)
    requires Permuted(s0, s, l, e)
    ensures l <= e <= |s0| == |s|
  {
  }

  lemma PermutedTwice<V>(s0: seq<V>, s1: seq<V>, s2: seq<V>, l: nat, e: nat)
    requires Permuted(s0, s1, l, e) && Permuted(s1, s2, l, e)
    ensures Permuted(s0, s2, l, e)
  {
  }

  /** A permutation of a part is one of every larger part. */
  lemma PermutedWider<V>(s0: seq<V>, s: seq<V>, l: nat, e: nat, l': nat, e': nat)
    requires Permuted(s0, s, l, e) && l' <= l && e <= e' <= |s|
    ensures Permuted(s0, s, l', e')
  {
    assert s[l'..e'] == s[l'..l] + s[l..e] + s[e..e'];
    assert s0[l'..e'] == s0[l'..l] + s0[l..e] + s0[e..e'];
    assert s[l'..l] == s[..l][l'..] == s0[..l][l'..] == s0[l'..l];
    assert s[e..e'] == s[e..][..e' - e] == s0[e..][..e' - e] == s0[e..e'];
    assert s[..l'] == s[..l][..l'] && s0[..l'] == s0[..l][..l'];
    assert s[e'..] == s[e..][e' - e..] && s0[e'..] == s0[e..][e' - e..];
  }

  lemma Swapped<V>(s: seq<V>, i: nat, j: nat, l: nat, e: nat)
    requires l <= i < e <= |s| && l <= j < e
    ensures Permuted(s, s[i := s[j]][j := s[i]], l, e)
  {
    var t := s[i := s[j]][j := s[i]];
    assert t[l..e] == s[l..e][i - l := s[l..e][j - l]][j - l := s[l..e][i - l]];
    assert t[..l] == s[..l] && t[e..] == s[e..];
  }

  /** Elements of a permuted part come from this part. */
  lemma PermutedFrom<V>(s0: seq<V>, s: seq<V>, l: nat, e: nat, k: nat) returns (k0: nat)
    requires Permuted(s0, s, l, e) && l <= k < e
    ensures l <= k0 < e && s0[k0] == s[k]
  {
    assert s[l..e][k - l] == s[k];
    assert s[k] in multiset(s[l..e]);
    assert s[k] in multiset(s0[l..e]);
    var i :| 0 <= i < e - l && s0[l..e][i] == s[k];
    k0 := l + i;
  }

  lemma PermutedOutside<V>(s0: seq<V>, s: seq<V>, l: nat, e: nat, k: nat)
    requires Permuted(s0, s, l, e) && k < |s| && (k < l || e <= k)
    ensures s[k] == s0[k]
  {
    if k < l {
      assert s[..l][k] == s0[..l][k];
    } else {
      assert s[e..][k - e] == s0[e..][k - e];
    }
  }

  // ------------------------------------------------------------------
  // What is sorted already

  /** From `b` to before `e`, all pairs are in order but for those within the part from `l` to `u`. */
  ghost predicate Partial<V>(lt: (V, V) -> bool, s: seq<V>, b: nat, e: nat, l: int, u: int) {
    e <= |s| && forall x, y {:trigger s[x], s[y]} :: b <= x < y < e && (x < l || u < y) ==> Le(lt, s[x], s[y])
  }

  ghost predicate Sorted<V>(lt: (V, V) -> bool, s: seq<V>, b: nat, e: nat) {
    e <= |s| && forall x, y {:trigger s[x], s[y]} :: b <= x < y < e ==> Le(lt, s[x], s[y])
  }

  /** Permuting the rest leaves what is sorted. */
  lemma PartialPermuted<V(!new)>(lt: (V, V) -> bool, s0: seq<V>, s: seq<V>, b: nat, e: nat, l: nat, u: nat)
    requires Partial(lt, s0, b, e, l, u) && b <= l <= u < e && Permuted(s0, s, l, u + 1)
    ensures Partial(lt, s, b, e, l, u)
  {
    hide Permuted, Le;
    PermutedSizes(s0, s, l, u + 1);
    forall x, y | b <= x < y < e && (x < l || u < y) ensures Le(lt, s[x], s[y]) {
      var x0, y0 := x, y;
      if l <= x <= u {
        x0 := PermutedFrom(s0, s, l, u + 1, x);
      } else {
        PermutedOutside(s0, s, l, u + 1, x);
      }
      if l <= y <= u {
        y0 := PermutedFrom(s0, s, l, u + 1, y);
      } else {
        PermutedOutside(s0, s, l, u + 1, y);
      }
      assert Le(lt, s0[x0], s0[y0]);
    }
  }

  /** The element `i` is between all on its left and all on its right. */
  ghost predicate Partitioned<V>(lt: (V, V) -> bool, s: seq<V>, l: nat, u: nat, i: nat) {
    && l <= i <= u < |s|
    && (forall k {:trigger s[k]} :: l <= k < i ==> Le(lt, s[k], s[i]))
    && (forall k {:trigger s[k]} :: i < k <= u ==> Le(lt, s[i], s[k]))
  }

  /** When one side is sorted, only the other one is left. */
  lemma PartialOneSide<V(!new)>(lt: (V, V) -> bool, s: seq<V>, b: nat, e: nat, l: nat, u: nat, i: nat, left: bool)
    requires StrictWeakOrder(lt) && Partial(lt, s, b, e, l, u) && b <= l && u < e && Partitioned(lt, s, l, u, i)
    requires if left then Sorted(lt, s, l, i) else Sorted(lt, s, i + 1, u + 1)
    ensures if left then Partial(lt, s, b, e, i + 1, u) else Partial(lt, s, b, e, l, i - 1)
  {
    var l', u' := if left then i + 1 else l, if left then u else i - 1;
    forall x, y | b <= x < y < e && (x < l' || u' < y) ensures Le(lt, s[x], s[y]) {
      if l <= x && y <= u && x < i < y {
        LeTransitive(lt, s[x], s[i], s[y]);
      }
    }
  }

  lemma PartitionedPermuted<V(!new)>(lt: (V, V) -> bool, s0: seq<V>, s: seq<V>, l: nat, u: nat, i: nat, j: nat, e: nat)
    requires Partitioned(lt, s0, l, u, i) && Permuted(s0, s, j, e) && l <= j <= e <= u + 1 && (e <= i || i < j)
    ensures Partitioned(lt, s, l, u, i)
  {
    PermutedOutside(s0, s, j, e, i);
    forall k | l <= k <= u && k != i ensures if k < i then Le(lt, s[k], s[i]) else Le(lt, s[i], s[k]) {
      var k0 := k;
      if j <= k < e {
        k0 := PermutedFrom(s0, s, j, e, k);
      } else {
        PermutedOutside(s0, s, j, e, k);
      }
      assert s0[k0] == s[k];
    }
  }

  class Sorter<V(!new)> {
    /** The order, if the comparison function is consistent with one */
    const lt: (V, V) -> bool
    const consistent: bool

    constructor (lt: (V, V) -> bool, consistent: bool)
      ensures this.lt == lt && this.consistent == consistent
    {
      this.lt := lt;
      this.consistent := consistent;
    }

    ghost predicate Ordered() {
      consistent && StrictWeakOrder(lt)
    }

    /** sort_comp: what a script answers, anything if it is not consistent */
    method Less(x: V, y: V) returns (b: bool)
      ensures consistent ==> b == lt(x, y)
    {
      b :| consistent ==> b == lt(x, y);
    }

    /** set2 */
    method Swap(a: array<V>, i: nat, j: nat, ghost l: nat, ghost e: nat)
      requires l <= i < e <= a.Length && l <= j < e
      modifies a
      ensures a[..] == old(a[..][i := a[j]][j := a[i]]) && Permuted(old(a[..]), a[..], l, e)
    {
      Swapped(a[..], i, j, l, e);
      a[i], a[j] := a[j], a[i];
    }

    /** The first and the last element are put in order. */
    method OrderEnds(a: array<V>, l: nat, u: nat)
      requires l < u < a.Length
      modifies a
      ensures Permuted(old(a[..]), a[..], l, u + 1)
      ensures Ordered() ==> Le(lt, a[l], a[u])
    {
      hide Permuted, StrictWeakOrder, Le;
      PermutedNot(a[..], l, u + 1);
      var b := Less(a[u], a[l]);
      LeIsNotLt(a[u], a[l]);
      if b {
        Swap(a, l, u, l, u + 1);
      }
    }

    /** The middle element is put between the first and the last. */
    method OrderMiddle(a: array<V>, l: nat, i: nat, u: nat)
      requires l < i < u < a.Length && (Ordered() ==> Le(lt, a[l], a[u]))
      modifies a
      ensures Permuted(old(a[..]), a[..], l, u + 1)
      ensures Ordered() ==> Le(lt, a[l], a[i]) && Le(lt, a[i], a[u])
    {
      hide Permuted, StrictWeakOrder, Le;
      PermutedNot(a[..], l, u + 1);
      var b := Less(a[i], a[l]);
      LeIsNotLt(a[i], a[l]);
      if b {
        Swap(a, i, l, l, u + 1);
      } else {
        b := Less(a[u], a[i]);
        LeIsNotLt(a[u], a[i]);
        if b {
          Swap(a, i, u, l, u + 1);
        }
      }
    }

    lemma LeIsNotLt(x: V, y: V)
      ensures Le(lt, y, x) <==> !lt(x, y)
      ensures Ordered() && lt(x, y) ==> Le(lt, x, y)
    {
    }

    /** All of these are at most P. */
    ghost predicate Below(s: seq<V>, from: int, end: int, p: V) {
      0 <= from && end <= |s| && forall k {:trigger s[k]} :: from <= k < end ==> Le(lt, s[k], p)
    }

    ghost predicate Above(s: seq<V>, from: int, end: int, p: V) {
      0 <= from && end <= |s| && forall k {:trigger s[k]} :: from <= k < end ==> Le(lt, p, s[k])
    }

    /** Up to the first element that is not below the pivot; false if the end is passed. */
    method ScanUp(a: array<V>, l: nat, u: nat, p: V, i0: nat) returns (ok: bool, i: nat)
      requires l <= i0 < u < a.Length && a[u - 1] == p
      requires Ordered() ==> i0 < u - 1 && Below(a[..], l, i0 + 1, p)
      ensures i0 < i <= u
      ensures Ordered() ==> ok && i < u && Below(a[..], l, i, p) && Le(lt, p, a[i])
    {
      i := i0 + 1;
      var b := Less(a[i], p);
      while b
        invariant i0 < i <= u && (consistent ==> b == lt(a[i], p))
        invariant Ordered() ==> i < u && Below(a[..], l, i, p)
        decreases u - i, b
      {
        if i >= u {
          return false, i;
        }
        i := i + 1;
        b := Less(a[i], p);
      }
      ok := true;
    }

    /** Down to the first element that is not above the pivot; false if the start is passed. */
    method ScanDown(a: array<V>, l: nat, u: nat, p: V, j0: nat) returns (ok: bool, j: nat)
      requires l < j0 <= u < a.Length
      requires Ordered() ==> Le(lt, a[l], p) && Above(a[..], j0, u + 1, p)
      ensures l <= j < j0
      ensures Ordered() ==> ok && Above(a[..], j + 1, u + 1, p) && Le(lt, a[j], p)
    {
      hide StrictWeakOrder;
      j := j0 - 1;
      var b := Less(p, a[j]);
      LeIsNotLt(p, a[j]);
      while b
        invariant l <= j < j0 && (consistent ==> (b <==> !Le(lt, a[j], p)) && (b && Ordered() ==> Le(lt, p, a[j])))
        invariant Ordered() ==> Above(a[..], j + 1, u + 1, p)
        decreases j, b
      {
        if j <= l {
          return false, j;
        }
        j := j - 1;
        b := Less(p, a[j]);
        LeIsNotLt(p, a[j]);
      }
      ok := true;
    }

    /** What holds before each round: all up to `i` are at most the pivot, and all from `j` on at least. */
    ghost predicate Scanned(s: seq<V>, l: nat, u: nat, i: nat, j: nat, p: V) {
      && l + 3 <= u && l <= i <= j < u < |s| && (i == l ==> j == u - 1) && (i > l ==> j < u - 1) && s[u - 1] == p
      && (Ordered() ==> Below(s, l, i + 1, p) && Above(s, j, u + 1, p))
    }

    /** A round of the partition: `i` and `j` move until they meet, or two elements on the wrong sides are exchanged. */
    method PartitionRound(a: array<V>, l: nat, u: nat, p: V, i0: nat, j0: nat) returns (ok: bool, i: nat, j: nat)
      requires Scanned(a[..], l, u, i0, j0, p)
      modifies a
      ensures Permuted(old(a[..]), a[..], l, u + 1) && i0 < i <= u && l <= j < j0
      ensures Ordered() ==> ok
      ensures ok && i <= j ==> Scanned(a[..], l, u, i, j, p)
      ensures ok && j < i ==> a[..] == old(a[..]) && (Ordered() ==> i < u && Below(a[..], l, i, p) && Above(a[..], j + 1, u + 1, p))
    {
      hide Permuted, StrictWeakOrder, Scanned, Below, Above, Le;
      ScannedParts(a[..], l, u, i0, j0, p);
      PermutedNot(a[..], l, u + 1);
      j := l;
      ok, i := ScanUp(a, l, u, p, i0);
      if !ok {
        return;
      }
      ok, j := ScanDown(a, l, u, p, j0);
      if ok && i <= j {
        ScannedSwap(a[..], l, u, i, j, p);
        Swap(a, i, j, l, u + 1);
      }
    }

    lemma ScannedParts(s: seq<V>, l: nat, u: nat, i: nat, j: nat, p: V)
      requires Scanned(s, l, u, i, j, p)
      ensures l <= i < u - 1 && l < j < u < |s| && s[u - 1] == p
      ensures Ordered() ==> Below(s, l, i + 1, p) && Above(s, j, u + 1, p) && Le(lt, s[l], p)
    {
    }

    lemma ScannedSwap(s: seq<V>, l: nat, u: nat, i: nat, j: nat, p: V)
      requires l + 3 <= u < |s| && l < i <= j < u - 1 && s[u - 1] == p
      requires Ordered() ==> Below(s, l, i, p) && Le(lt, p, s[i]) && Above(s, j + 1, u + 1, p) && Le(lt, s[j], p)
      ensures Scanned(s[i := s[j]][j := s[i]], l, u, i, j, p)
    {
    }

    /** The pivot, which is the last but one element, comes to the place `i`. */
    method Partition(a: array<V>, l: nat, u: nat) returns (ok: bool, i: nat)
      requires l + 3 <= u < a.Length
      requires Ordered() ==> Le(lt, a[l], a[u - 1]) && Le(lt, a[u - 1], a[u])
      modifies a
      ensures Permuted(old(a[..]), a[..], l, u + 1) && l < i <= u
      ensures Ordered() ==> ok && Partitioned(lt, a[..], l, u, i)
    {
      hide Permuted, StrictWeakOrder, Partitioned, Scanned, Below, Above, Le;
      var p := a[u - 1];
      i := l;
      var j := u - 1;
      PermutedNot(a[..], l, u + 1);
      ScanStart(a[..], l, u);
      while i <= j
        invariant l <= i <= u && l <= j < u && (i <= j ==> Scanned(a[..], l, u, i, j, p)) && (j < i ==> l < i)
        invariant Permuted(old(a[..]), a[..], l, u + 1) && a[u - 1] == p
        invariant Ordered() && j < i ==> i < u && Below(a[..], l, i, p) && Above(a[..], j + 1, u + 1, p)
        decreases u - i
      {
        ghost var before := a[..];
        ok, i, j := PartitionRound(a, l, u, p, i, j);
        PermutedTwice(old(a[..]), before, a[..], l, u + 1);
        if !ok {
          return;
        }
        ScannedPivot(a[..], before, l, u, i, j, p);
      }
      ghost var before := a[..];
      Swap(a, u - 1, i, l, u + 1);
      PermutedTwice(old(a[..]), before, a[..], l, u + 1);
      ok := true;
      if Ordered() {
        PivotPlaced(before, a[..], l, u, i, j, p);
      }
    }

    lemma ScanStart(s: seq<V>, l: nat, u: nat)
      requires l + 3 <= u < |s| && (Ordered() ==> Le(lt, s[l], s[u - 1]) && Le(lt, s[u - 1], s[u]))
      ensures Scanned(s, l, u, l, u - 1, s[u - 1])
    {
      LeSelf(s[u - 1]);
    }

    lemma ScannedPivot(s: seq<V>, before: seq<V>, l: nat, u: nat, i: nat, j: nat, p: V)
      requires if i <= j then Scanned(s, l, u, i, j, p) else s == before && u > 0 && u - 1 < |s| && before[u - 1] == p
      ensures 0 < u <= |s| && s[u - 1] == p
    {
    }

    lemma LeSelf(x: V)
      ensures Ordered() ==> Le(lt, x, x)
    {
    }

    lemma PivotPlaced(s: seq<V>, t: seq<V>, l: nat, u: nat, i: nat, j: nat, p: V)
      requires l < i < u < |s| && j < i && s[u - 1] == p && t == s[u - 1 := s[i]][i := s[u - 1]]
      requires Below(s, l, i, p) && Above(s, j + 1, u + 1, p)
      ensures Partitioned(lt, t, l, u, i)
    {
    }

    /** The first, the middle and the last element are put in order. */
    method OrderThree(a: array<V>, l: nat, u: nat) returns (i: nat)
      requires l + 2 <= u < a.Length
      modifies a
      ensures Permuted(old(a[..]), a[..], l, u + 1) && i == (l + u) / 2
      ensures Ordered() ==> Le(lt, a[l], a[i]) && Le(lt, a[i], a[u])
    {
      hide Permuted, StrictWeakOrder, Le;
      OrderEnds(a, l, u);
      i := (l + u) / 2;
      ghost var before := a[..];
      OrderMiddle(a, l, i, u);
      PermutedTwice(old(a[..]), before, a[..], l, u + 1);
    }

    /** The pivot is put before the last element, and from there to its place. */
    method MovePivot(a: array<V>, l: nat, u: nat, i0: nat) returns (ok: bool, i: nat)
      requires l + 3 <= u < a.Length && l < i0 < u && (Ordered() ==> Le(lt, a[l], a[i0]) && Le(lt, a[i0], a[u]))
      modifies a
      ensures Permuted(old(a[..]), a[..], l, u + 1) && l < i <= u
      ensures Ordered() ==> ok && Partitioned(lt, a[..], l, u, i)
    {
      hide Permuted, StrictWeakOrder, Partitioned, Le;
      Swap(a, i0, u - 1, l, u + 1);
      ghost var before := a[..];
      ok, i := Partition(a, l, u);
      PermutedTwice(old(a[..]), before, a[..], l, u + 1);
    }

    /** Puts up to three elements in order, or moves a pivot to its place `i` between the others. */
    method Divide(a: array<V>, l: nat, u: nat) returns (ok: bool, done: bool, i: nat)
      requires l < u < a.Length
      modifies a
      ensures Permuted(old(a[..]), a[..], l, u + 1)
      ensures if u - l < 3 then ok && done else !done && l < i <= u
      ensures Ordered() ==> ok && if done then Sorted(lt, a[..], l, u + 1) else Partitioned(lt, a[..], l, u, i)
    {
      hide Permuted, StrictWeakOrder, Partitioned, Sorted, Le;
      ok, done, i := true, true, l;
      if u - l == 1 {
        OrderEnds(a, l, u);
        SortedPair(a[..], l, u);
        return;
      }
      i := OrderThree(a, l, u);
      if u - l == 2 {
        SortedTriple(a[..], l, u);
        return;
      }
      done := false;
      ghost var before := a[..];
      ok, i := MovePivot(a, l, u, i);
      PermutedTwice(old(a[..]), before, a[..], l, u + 1);
    }

    lemma SortedPair(s: seq<V>, l: nat, u: nat)
      requires u == l + 1 < |s| && (Ordered() ==> Le(lt, s[l], s[u]))
      ensures Ordered() ==> Sorted(lt, s, l, u + 1)
    {
    }

    lemma SortedTriple(s: seq<V>, l: nat, u: nat)
      requires u == l + 2 < |s| && (Ordered() ==> Le(lt, s[l], s[l + 1]) && Le(lt, s[l + 1], s[u]))
      ensures Ordered() ==> Sorted(lt, s, l, u + 1)
    {
      if Ordered() {
        LeTransitive(lt, s[l], s[l + 1], s[u]);
      }
    }

    /** The recursive call of auxsort, for the smaller side of the pivot `i`; the other side is left. */
    method SortSmaller(a: array<V>, l0: nat, u0: nat, i0: nat) returns (ok: bool, ghost depth: nat, l: nat, u: int)
      requires l0 + 3 <= u0 < a.Length && l0 < i0 <= u0
      requires Ordered() ==> Partitioned(lt, a[..], l0, u0, i0)
      modifies a
      ensures Permuted(old(a[..]), a[..], l0, u0 + 1)
      ensures if i0 - l0 < u0 - i0 then l == i0 + 1 && u == u0 else l == l0 && u == i0 - 1
      ensures Ordered() ==> ok && Partitioned(lt, a[..], l0, u0, i0) && Sorted(lt, a[..], if l == l0 then i0 + 1 else l0, if l == l0 then u0 + 1 else i0)
      ensures Pow2(depth + 1) <= u0 + 1 - l0
      decreases u0 + 1 - l0, 0
    {
      hide Permuted, StrictWeakOrder, Partitioned, Sorted, Le, Pow2, DepthOk;
      var i, j := i0, l0;
      l, u := l0, u0;
      // adjust so that the smaller side is from j to i
      if i - l < u - i {
        j, i, l := l, i - 1, i + 1;
      } else {
        j, i, u := i + 1, u, i - 1;
      }
      ok, depth := AuxSort(a, j, i);
      DepthBound(depth, j, i, u0 + 1 - l0);
      PermutedWider(old(a[..]), a[..], j, i + 1, l0, u0 + 1);
      if Ordered() {
        PartitionedPermuted(lt, old(a[..]), a[..], l0, u0, i0, j, i + 1);
      }
    }

    /**
     auxsort: for a consistent comparison function the part is sorted, and no error is raised.
     For any other one, the elements of the part are still there, and no others were touched.
     The depth of the recursion is logarithmic.
     */
    method AuxSort(a: array<V>, l0: nat, u0: int) returns (ok: bool, ghost depth: nat)
      requires l0 <= u0 + 1 <= a.Length
      modifies a
      ensures Permuted(old(a[..]), a[..], l0, u0 + 1)
      ensures Ordered() ==> ok && Sorted(lt, a[..], l0, u0 + 1)
      ensures DepthOk(depth, u0 + 1 - l0)
      decreases u0 + 1 - l0, 1
    {
      hide Permuted, StrictWeakOrder, Partitioned, Partial, Sorted, Le, DepthOk;
      var l, u := l0, u0;
      depth := 0;
      ok := true;
      PermutedNot(a[..], l, u + 1);
      PartialNothing(a[..], l, u);
      DepthOfNone(u0 + 1 - l0);
      while l < u
        invariant l0 <= l <= u + 1 <= u0 + 1
        invariant Permuted(old(a[..]), a[..], l0, u0 + 1)
        invariant Ordered() ==> Partial(lt, a[..], l0, u0 + 1, l, u)
        invariant DepthOk(depth, u0 + 1 - l0)
        decreases u + 1 - l
      {
        ghost var before, l1, u1 := a[..], l, u;
        var done, i;
        ok, done, i := Divide(a, l, u);
        Rearranged(old(a[..]), before, a[..], l0, u0 + 1, l, u);
        if done {
          if Ordered() {
            PartialSorted(a[..], l0, u0 + 1, l, u);
          }
          return;
        }
        if !ok {
          return;
        }
        before := a[..];
        ghost var d;
        ok, d, l, u := SortSmaller(a, l, u, i);
        depth := DepthMax(depth, d, u1 + 1 - l1, u0 + 1 - l0);
        Rearranged(old(a[..]), before, a[..], l0, u0 + 1, l1, u1);
        if !ok {
          return;
        }
        if Ordered() {
          PartialOneSide(lt, a[..], l0, u0 + 1, l1, u1, i, l != l1);
        }
      }
      if Ordered() {
        NothingLeft(a[..], l0, u0 + 1, l, u);
      }
    }

    /** A depth for `n` elements that is at most the logarithm of their number */
    ghost predicate DepthOk(depth: nat, n: int) {
      if n <= 0 then depth == 0 else Pow2(depth) <= n
    }

    lemma DepthOfNone(n: int)
      ensures DepthOk(0, n)
    {
    }

    lemma DepthMax(depth: nat, d: nat, n: int, n0: int) returns (r: nat)
      requires DepthOk(depth, n0) && Pow2(d + 1) <= n <= n0
      ensures DepthOk(r, n0) && r >= depth && r >= d + 1
    {
      r := if d + 1 > depth then d + 1 else depth;
    }

    lemma PartialSorted(s: seq<V>, b: nat, e: nat, l: nat, u: nat)
      requires Partial(lt, s, b, e, l, u) && Sorted(lt, s, l, u + 1)
      ensures Sorted(lt, s, b, e)
    {
    }

    lemma PartialNothing(s: seq<V>, l: nat, u: int)
      requires l <= u + 1 <= |s|
      ensures Partial(lt, s, l, u + 1, l, u)
    {
    }

    lemma NothingLeft(s: seq<V>, b: nat, e: nat, l: int, u: int)
      requires Partial(lt, s, b, e, l, u) && u <= l && Ordered()
      ensures Sorted(lt, s, b, e)
    {
    }

    /** A part of the part was rearranged. */
    lemma Rearranged(s0: seq<V>, s1: seq<V>, s2: seq<V>, b: nat, e: nat, l: nat, u: nat)
      requires Permuted(s0, s1, b, e) && Permuted(s1, s2, l, u + 1) && b <= l <= u < e
      ensures Permuted(s0, s2, b, e)
      ensures Ordered() && Partial(lt, s1, b, e, l, u) ==> Partial(lt, s2, b, e, l, u)
    {
      hide Permuted, Partial, StrictWeakOrder;
      PermutedSizes(s1, s2, l, u + 1);
      PermutedSizes(s0, s1, b, e);
      PermutedWider(s1, s2, l, u + 1, b, e);
      PermutedTwice(s0, s1, s2, b, e);
      if Partial(lt, s1, b, e, l, u) {
        PartialPermuted(lt, s1, s2, b, e, l, u);
      }
    }

    /** The smaller side has less than half of the elements. */
    lemma DepthBound(d: nat, j: nat, i: int, n: nat)
      requires 2 * (i + 1 - j) < n && n >= 4 && DepthOk(d, i + 1 - j)
      ensures Pow2(d + 1) <= n
    {
      assert Pow2(0) == 1 && Pow2(1) == 2;
    }

    /** table.sort of the first `n` elements */
    method Sort(a: array<V>, n: nat) returns (ok: bool)
      requires n <= a.Length
      modifies a
      ensures Permuted(old(a[..]), a[..], 0, n)
      ensures Ordered() ==> ok && Sorted(lt, a[..], 0, n)
    {
      ghost var depth;
      ok, depth := AuxSort(a, 0, n - 1);
    }
  }
}
