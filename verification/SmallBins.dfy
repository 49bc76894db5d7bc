/**
 The small bins of the bundled allocator (src/lj_alloc.c): circular doubly
 linked lists through the `fd`/`bk` words of the free chunks and of one header
 per bin.
 */
module SmallBins {

  const NSMALLBINS: nat := 32

  /** The two words that are overlaid on a free chunk, and that a bin header has. */
  datatype Link = Link(fd: nat, bk: nat)

  type Links = map<nat, Link>

  function Succ(k: nat, n: nat): nat { if k + 1 >= n then 0 else k + 1 }

  function Pred(k: nat, n: nat): nat { if k == 0 then (if n == 0 then 0 else n - 1) else k - 1 }

  ghost predicate ElementLinked(ring: seq<nat>, k: nat, link: Links)
    requires k < |ring|
  {
    && ring[k] in link
    && link[ring[k]].fd == ring[Succ(k, |ring|)]
    && link[ring[k]].bk == ring[Pred(k, |ring|)]
  }

  ghost predicate Distinct(s: seq<nat>) {
    forall j, k :: 0 <= j < k < |s| ==> s[j] != s[k]
  }

  /** A header and the chunks of its bin form one circle. */
  ghost predicate Circle(ring: seq<nat>, link: Links) {
    Distinct(ring) && forall k :: 0 <= k < |ring| ==> ElementLinked(ring, k, link)
  }

  /** `P->fd = F; P->bk = B; B->fd = P; F->bk = P` */
  function WriteInsert(link: Links, b: nat, f: nat, p: nat): Links
    requires b in link && f in link
  {
    var l1 := link[b := link[b].(fd := p)];
    l1[f := l1[f].(bk := p)][p := Link(f, b)]
  }

  lemma InsertFirst(b: nat, link: Links, p: nat)
    requires b in link && p != b
    ensures Circle([b, p], WriteInsert(link, b, b, p))
  {
  }

  lemma InsertNext(b: nat, list: seq<nat>, link: Links, p: nat)
    requires |list| > 0 && Circle([b] + list, link) && p != b && p !in list
    ensures list[0] in link && b in link && link[b].fd == list[0]
    ensures Circle([b, p] + list, WriteInsert(link, b, list[0], p))
  {
    var ring, ring' := [b] + list, [b, p] + list;
    assert ElementLinked(ring, 0, link) && ElementLinked(ring, 1, link);
    assert list[0] == ring[1];
    var link' := WriteInsert(link, b, list[0], p);
    forall k | 0 <= k < |ring'| ensures ElementLinked(ring', k, link') {
      if k != 1 {
        var j := if k == 0 then 0 else k - 1;
        assert ElementLinked(ring, j, link) && ring'[k] == ring[j];
        assert k >= 2 ==> ring[j] == list[k - 2] && list[k - 2] in list;
      }
    }
    forall j, k | 0 <= j < k < |ring'| ensures ring'[j] != ring'[k] {
      assert k >= 2 ==> ring'[k] == ring[k - 1] && ring'[k] in list;
      assert j >= 2 ==> ring'[j] == ring[j - 1];
    }
  }

  /** `F->bk = B; B->fd = F` */
  function WriteUnlink(link: Links, f: nat, b: nat): Links
    requires b in link && f in link
  {
    var l1 := link[f := link[f].(bk := b)];
    l1[b := l1[b].(fd := f)]
  }

  function Without(list: seq<nat>, k: nat): seq<nat>
    requires k < |list|
  {
    list[..k] + list[k + 1..]
  }

  /** The neighbours of element `k` of a bin with more than one chunk. */
  lemma Neighbours(b: nat, list: seq<nat>, link: Links, k: nat)
    requires k < |list| && |list| > 1 && Circle([b] + list, link)
    ensures var ring, n := [b] + list, |list| + 1;
            && list[k] in link && ring[Succ(k + 1, n)] in link && ring[Pred(k + 1, n)] in link
            && link[list[k]] == Link(ring[Succ(k + 1, n)], ring[Pred(k + 1, n)])
            && ring[Succ(k + 1, n)] != ring[Pred(k + 1, n)]
  {
    var ring, n := [b] + list, |list| + 1;
    assert ElementLinked(ring, k + 1, link) && ring[k + 1] == list[k];
    assert ElementLinked(ring, Succ(k + 1, n), link) && ElementLinked(ring, Pred(k + 1, n), link);
  }

  lemma WithoutDistinct(list: seq<nat>, k: nat)
    requires k < |list| && Distinct(list)
    ensures Distinct(Without(list, k))
  {
    var w := Without(list, k);
    forall i, j | 0 <= i < j < |w| ensures w[i] != w[j] {
      assert w[i] == list[if i < k then i else i + 1];
      assert w[j] == list[if j < k then j else j + 1];
    }
  }

  /** Taking element `k` out of a circle of more than two. */
  lemma UnlinkElement(b: nat, list: seq<nat>, link: Links, k: nat)
    requires k < |list| && |list| > 1 && Circle([b] + list, link)
    ensures list[k] in link && link[list[k]].fd in link && link[list[k]].bk in link
    ensures link[list[k]].fd != link[list[k]].bk
    ensures Circle([b] + Without(list, k), WriteUnlink(link, link[list[k]].fd, link[list[k]].bk))
  {
    Neighbours(b, list, link, k);
    var ring, ring' := [b] + list, [b] + Without(list, k);
    var n := |ring|;
    var f, r := ring[Succ(k + 1, n)], ring[Pred(k + 1, n)];
    var link' := WriteUnlink(link, f, r);
    assert ring' == Without(ring, k + 1);
    WithoutDistinct(ring, k + 1);
    forall j | 0 <= j < |ring'| ensures ElementLinked(ring', j, link') {
      UnlinkKeepsElement(ring, k + 1, j, link);
    }
  }

  lemma UnlinkKeepsElement(ring: seq<nat>, k: nat, j: nat, link: Links)
    requires Circle(ring, link) && k < |ring| && |ring| > 2 && j < |ring| - 1
    requires ring[Succ(k, |ring|)] in link && ring[Pred(k, |ring|)] in link
    ensures ElementLinked(Without(ring, k), j, WriteUnlink(link, ring[Succ(k, |ring|)], ring[Pred(k, |ring|)]))
  {
    var n := |ring|;
    var i := if j < k then j else j + 1;
    assert ElementLinked(ring, i, link);
    assert ring[i] == ring[Succ(k, n)] <==> i == Succ(k, n);
    assert ring[i] == ring[Pred(k, n)] <==> i == Pred(k, n);
  }

  /** The only chunk of a bin has the header on both sides. */
  lemma OnlyElement(b: nat, list: seq<nat>, link: Links)
    requires |list| == 1 && Circle([b] + list, link)
    ensures list[0] in link && link[list[0]] == Link(b, b) && b in link && link[b] == Link(list[0], list[0])
  {
    assert ElementLinked([b] + list, 0, link) && ElementLinked([b] + list, 1, link);
  }

  lemma CircleFrame(ring: seq<nat>, link: Links, link': Links)
    requires Circle(ring, link)
    requires forall x :: x in ring ==> x in link' && x in link && link'[x] == link[x]
    ensures Circle(ring, link')
  {
    forall k | 0 <= k < |ring| ensures ElementLinked(ring, k, link') {
      assert ElementLinked(ring, k, link) && ring[k] in ring;
    }
  }

  lemma WithoutMembers(list: seq<nat>, k: nat, y: nat)
    requires k < |list| && Distinct(list)
    ensures y in Without(list, k) <==> y in list && y != list[k]
  {
    var w := Without(list, k);
    forall j | 0 <= j < |w| ensures w[j] in list && w[j] != list[k] {
      assert w[j] == list[if j < k then j else j + 1];
    }
    if y in list && y != list[k] {
      var j :| 0 <= j < |list| && list[j] == y;
      assert w[if j < k then j else j - 1] == y;
    }
  }

  /** The fields of the small bins as one value. */
  datatype Bins = Bins(smallmap: set<nat>, link: Links, hdr: nat, lists: seq<seq<nat>>, bin: map<nat, nat>)

  function HeaderAt(hdr: nat, i: nat): nat { hdr + 16 * i }

  /** Bin `i`: its map bit tells whether it has chunks, and then they form a circle with the header. */
  ghost predicate BinOk(b: Bins, i: nat)
    requires i < |b.lists|
  {
    && HeaderAt(b.hdr, i) in b.link
    && (i in b.smallmap <==> b.lists[i] != [])
    && (b.lists[i] != [] ==> Circle([HeaderAt(b.hdr, i)] + b.lists[i], b.link))
    && (forall x :: x in b.lists[i] ==> x in b.bin && b.bin[x] == i)
  }

  predicate IsHeader(hdr: nat, x: nat) {
    exists i :: 0 <= i < NSMALLBINS && x == HeaderAt(hdr, i)
  }

  ghost predicate BinsOk(b: Bins) {
    && |b.lists| == NSMALLBINS
    && (forall i :: i in b.smallmap ==> i < NSMALLBINS)
    && (forall i {:trigger BinOk(b, i)} :: 0 <= i < NSMALLBINS ==> BinOk(b, i))
    && (forall x :: x in b.bin ==> b.bin[x] < NSMALLBINS && x in b.lists[b.bin[x]] && !IsHeader(b.hdr, x))
  }

  /** A change in bin `i` that writes only words of this bin and of `p`. */
  lemma ReplaceBin(b: Bins, b': Bins, i: nat, p: nat)
    requires BinsOk(b) && i < NSMALLBINS
    requires |b'.lists| == NSMALLBINS && b'.hdr == b.hdr && BinOk(b', i)
    requires forall j :: 0 <= j < NSMALLBINS && j != i ==> b'.lists[j] == b.lists[j]
    requires forall j :: j != i ==> (j in b'.smallmap <==> j in b.smallmap)
    requires forall x :: x != p ==> (x in b'.bin <==> x in b.bin)
    requires forall x :: x != p && x in b.bin && x in b'.bin ==> b'.bin[x] == b.bin[x]
    requires forall x :: x in b.bin && b.bin[x] == i && x != p ==> x in b'.lists[i]
    requires p in b.bin ==> b.bin[p] == i
    requires p in b'.bin ==> b'.bin[p] == i && p in b'.lists[i] && !IsHeader(b.hdr, p)
    requires forall x :: x in b.link && x != p && x != HeaderAt(b.hdr, i) && !(x in b.bin && b.bin[x] == i)
                     ==> x in b'.link && b'.link[x] == b.link[x]
    requires forall x :: x in b.link ==> x in b'.link
    requires !IsHeader(b.hdr, p)
    ensures BinsOk(b')
  {
    forall j | 0 <= j < NSMALLBINS ensures BinOk(b', j) {
      if j != i {
        OtherBin(b, b', i, p, j);
      }
    }
    assert BinOk(b', i);
  }

  lemma OtherBin(b: Bins, b': Bins, i: nat, p: nat, j: nat)
    requires BinsOk(b) && i < NSMALLBINS && j < NSMALLBINS && j != i
    requires |b'.lists| == NSMALLBINS && b'.hdr == b.hdr
    requires b'.lists[j] == b.lists[j] && (j in b'.smallmap <==> j in b.smallmap)
    requires forall x :: x != p ==> (x in b'.bin <==> x in b.bin)
    requires forall x :: x != p && x in b.bin && x in b'.bin ==> b'.bin[x] == b.bin[x]
    requires p in b.bin ==> b.bin[p] == i
    requires forall x :: x in b.link && x != p && x != HeaderAt(b.hdr, i) && !(x in b.bin && b.bin[x] == i)
                     ==> x in b'.link && b'.link[x] == b.link[x]
    requires !IsHeader(b.hdr, p)
    ensures BinOk(b', j)
  {
    assert BinOk(b, j);
    var h := HeaderAt(b.hdr, j);
    assert h != p;
    if b.lists[j] != [] {
      var ring := [h] + b.lists[j];
      forall x | x in ring ensures x in b.link && x in b'.link && b'.link[x] == b.link[x] {
        var k :| 0 <= k < |ring| && ring[k] == x;
        assert ElementLinked(ring, k, b.link);
        assert k > 0 ==> x == b.lists[j][k - 1] && x in b.lists[j];
        assert x in b.bin ==> !IsHeader(b.hdr, x);
      }
      CircleFrame(ring, b.link, b'.link);
    }
  }

  /** The members of bin `i` without element `k`, and its neighbours. */
  lemma RemoveFacts(b: Bins, i: nat, k: nat)
    requires BinsOk(b) && i < NSMALLBINS && k < |b.lists[i]|
    ensures forall y :: y in Without(b.lists[i], k) <==> y in b.lists[i] && y != b.lists[i][k]
    ensures !IsHeader(b.hdr, b.lists[i][k]) && b.lists[i][k] in b.bin && b.bin[b.lists[i][k]] == i
    ensures b.lists[i][k] in b.link
    ensures var f := b.link[b.lists[i][k]].fd; f == HeaderAt(b.hdr, i) || (f in b.bin && b.bin[f] == i)
    ensures var r := b.link[b.lists[i][k]].bk; r == HeaderAt(b.hdr, i) || (r in b.bin && b.bin[r] == i)
  {
    assert BinOk(b, i);
    var list, ring := b.lists[i], [HeaderAt(b.hdr, i)] + b.lists[i];
    var n := |ring|;
    assert Distinct(list) by {
      forall x, y | 0 <= x < y < |list| ensures list[x] != list[y] {
        assert list[x] == ring[x + 1] && list[y] == ring[y + 1];
      }
    }
    forall y ensures y in Without(list, k) <==> y in list && y != list[k] {
      WithoutMembers(list, k, y);
    }
    assert list[k] in list && ElementLinked(ring, k + 1, b.link) && ring[k + 1] == list[k];
    assert Succ(k + 1, n) > 0 ==> ring[Succ(k + 1, n)] == list[Succ(k + 1, n) - 1] && list[Succ(k + 1, n) - 1] in list;
    assert Pred(k + 1, n) > 0 ==> ring[Pred(k + 1, n)] == list[Pred(k + 1, n) - 1] && list[Pred(k + 1, n) - 1] in list;
  }

  /** The bins after the writes that unlink element `k` of bin `i`. */
  ghost function Unlinked(b: Bins, i: nat, k: nat): Bins
    requires i < |b.lists| && k < |b.lists[i]|
    requires b.lists[i][k] in b.link
    requires b.link[b.lists[i][k]].fd in b.link && b.link[b.lists[i][k]].bk in b.link
  {
    var p := b.lists[i][k];
    var f, r := b.link[p].fd, b.link[p].bk;
    Bins(if f == r then b.smallmap - {i} else b.smallmap,
         if f == r then b.link else WriteUnlink(b.link, f, r),
         b.hdr, b.lists[i := Without(b.lists[i], k)], b.bin - {p})
  }

  lemma UnlinkDefined(b: Bins, i: nat, k: nat)
    requires BinsOk(b) && i < NSMALLBINS && k < |b.lists[i]|
    ensures b.lists[i][k] in b.link
    ensures b.link[b.lists[i][k]].fd in b.link && b.link[b.lists[i][k]].bk in b.link
    ensures b.link[b.lists[i][k]].fd == b.link[b.lists[i][k]].bk <==> |b.lists[i]| == 1
    ensures HeaderAt(b.hdr, i) in b.link && b.link[HeaderAt(b.hdr, i)].fd == b.lists[i][0]
    ensures b.lists[i][0] in b.link && b.link[b.lists[i][0]].bk == HeaderAt(b.hdr, i)
  {
    assert BinOk(b, i);
    var h, list := HeaderAt(b.hdr, i), b.lists[i];
    if |list| > 1 {
      Neighbours(h, list, b.link, k);
      Neighbours(h, list, b.link, 0);
    } else {
      OnlyElement(h, list, b.link);
    }
    assert ElementLinked([h] + list, 0, b.link);
  }

  lemma UnlinkKeepsBins(b: Bins, i: nat, k: nat)
    requires BinsOk(b) && i < NSMALLBINS && k < |b.lists[i]|
    requires b.lists[i][k] in b.link
    requires b.link[b.lists[i][k]].fd in b.link && b.link[b.lists[i][k]].bk in b.link
    ensures BinsOk(Unlinked(b, i, k))
  {
    hide Distinct, ElementLinked;
    var p, b' := b.lists[i][k], Unlinked(b, i, k);
    assert BinOk(b, i) && IsHeader(b.hdr, HeaderAt(b.hdr, i));
    if |b.lists[i]| > 1 {
      UnlinkElement(HeaderAt(b.hdr, i), b.lists[i], b.link, k);
    }
    UnlinkDefined(b, i, k);
    RemoveFacts(b, i, k);
    assert BinOk(b', i);
    ReplaceBin(b, b', i, p);
  }

  /** The bins after the writes that insert `p` in front of bin `i`. */
  lemma InsertKeepsBins(b: Bins, i: nat, p: nat, f: nat, b': Bins)
    requires BinsOk(b) && i < NSMALLBINS && p !in b.bin && !IsHeader(b.hdr, p)
    requires HeaderAt(b.hdr, i) in b.link && f in b.link
    requires f == if i in b.smallmap then b.link[HeaderAt(b.hdr, i)].fd else HeaderAt(b.hdr, i)
    requires b' == Bins(b.smallmap + {i}, WriteInsert(b.link, HeaderAt(b.hdr, i), f, p), b.hdr,
                        b.lists[i := [p] + b.lists[i]], b.bin[p := i])
    ensures BinsOk(b')
  {
    hide Distinct, ElementLinked;
    var h, list := HeaderAt(b.hdr, i), b.lists[i];
    assert BinOk(b, i) && IsHeader(b.hdr, h);
    if list == [] {
      InsertFirst(h, b.link, p);
      assert [h] + b'.lists[i] == [h, p];
    } else {
      UnlinkDefined(b, i, 0);
      assert f == list[0] && list[0] in list;
      InsertNext(h, list, b.link, p);
      assert [h] + b'.lists[i] == [h, p] + list;
    }
    assert BinOk(b', i);
    ReplaceBin(b, b', i, p);
  }

  class SmallBins {
    const hdr: nat
    var smallmap: set<nat>
    var link: Links
    ghost var lists: seq<seq<nat>>
    ghost var bin: map<nat, nat>

    ghost function Value(): Bins
      reads this
    {
      Bins(smallmap, link, hdr, lists, bin)
    }

    ghost predicate Valid()
      reads this
    {
      BinsOk(Value())
    }

    /** smallbin_at */
    function Header(i: nat): nat { HeaderAt(hdr, i) }

    /** A bin with a chunk has its bit set. */
    lemma Marked(p: nat)
      requires Valid() && p in bin
      ensures bin[p] in smallmap && bin[p] < NSMALLBINS
    {
      assert BinOk(Value(), bin[p]);
    }

    lemma MarkInside(i: nat)
      requires Valid() && i in smallmap
      ensures i < NSMALLBINS
    {
    }

    /** init_bins */
    constructor (hdr: nat)
      ensures Valid() && smallmap == {} && bin == map[] && this.hdr == hdr
      ensures lists == seq(NSMALLBINS, _ => [])
    {
      this.hdr := hdr;
      smallmap := {};
      var words: Links := map[];
      for i := 0 to NSMALLBINS
        invariant forall j :: 0 <= j < i ==> HeaderAt(hdr, j) in words
      {
        words := words[HeaderAt(hdr, i) := Link(HeaderAt(hdr, i), HeaderAt(hdr, i))];
      }
      link := words;
      lists := seq(NSMALLBINS, _ => []);
      bin := map[];
      new;
      forall i | 0 <= i < NSMALLBINS ensures BinOk(Value(), i) {
        assert lists[i] == [];
      }
    }

    /** insert_small_chunk: link the free chunk `p` of size `s` into its bin, in front. */
    method InsertSmallChunk(p: nat, s: nat)
      requires Valid() && s / 8 < NSMALLBINS && p !in bin && !IsHeader(hdr, p)
      modifies this
      ensures Valid() && bin == old(bin)[p := s / 8]
      ensures lists == old(lists)[s / 8 := [p] + old(lists[s / 8])]
    {
      hide Circle;
      var i := s / 8;
      ghost var v := Value();
      assert BinOk(v, i);
      var b := Header(i);
      var f := b;
      if i !in smallmap {
        smallmap := smallmap + {i};
      } else {
        UnlinkDefined(v, i, 0);
        f := link[b].fd;
      }
      link := link[b := link[b].(fd := p)];
      link := link[f := link[f].(bk := p)];
      link := link[p := Link(f, b)];
      lists := lists[i := [p] + lists[i]];
      bin := bin[p := i];
      assert smallmap == v.smallmap + {i};
      InsertKeepsBins(v, i, p, f, Value());
    }

    /** unlink_small_chunk: take `p` out of the middle of its bin. */
    method UnlinkSmallChunk(p: nat, s: nat) returns (ghost k: nat)
      requires Valid() && p in bin && bin[p] == s / 8
      modifies this
      ensures Valid() && bin == old(bin) - {p}
      ensures k < |old(lists[s / 8])| && old(lists[s / 8])[k] == p
      ensures lists == old(lists)[s / 8 := Without(old(lists[s / 8]), k)]
    {
      hide Circle, BinOk;
      ghost var v, list := Value(), lists[s / 8];
      k :| k < |list| && list[k] == p;
      UnlinkDefined(v, s / 8, k);
      var f, b := link[p].fd, link[p].bk;
      var i := s / 8;
      if f == b {
        smallmap := smallmap - {i};
      } else {
        link := link[f := link[f].(bk := b)];
        link := link[b := link[b].(fd := f)];
      }
      lists := lists[i := Without(list, k)];
      bin := bin - {p};
      UnlinkKeepsBins(v, i, k);
      assert Value() == Unlinked(v, i, k);
    }

    /** unlink_first_small_chunk, after `p = b->fd`. */
    method UnlinkFirstSmallChunk(i: nat) returns (p: nat)
      requires Valid() && i in smallmap
      modifies this
      ensures Valid() && i < |old(lists)| && old(lists[i]) != [] && p == old(lists[i])[0]
      ensures p in old(bin) && old(bin)[p] == i && bin == old(bin) - {p}
      ensures lists == old(lists)[i := old(lists[i])[1..]]
    {
      hide Circle;
      ghost var v, list := Value(), lists[i];
      assert BinOk(v, i);
      UnlinkDefined(v, i, 0);
      var b := Header(i);
      p := link[b].fd;
      assert p in list && Without(list, 0) == list[1..];
      var f := link[p].fd;
      if b == f {
        smallmap := smallmap - {i};
      } else {
        link := link[b := link[b].(fd := f)];
        link := link[f := link[f].(bk := b)];
      }
      lists := lists[i := list[1..]];
      bin := bin - {p};
      UnlinkKeepsBins(v, i, 0);
      assert Value() == Unlinked(v, i, 0);
    }
  }
}
