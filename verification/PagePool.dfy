/**
 The pages of src/lj_alloc_page.c: each holds blocks of one size class, which
 are handed out by a bump index first and from a free list later.
 */
module PagePool {
  import opened PageLists
  import PowersOfTwo

  const MAX_SIZE: nat := 1024
  const CLASS_COUNT: nat := 36
  const SMALL_PAGE: nat := 16 * 1024
  const LARGE_PAGE: nat := 32 * 1024
  const SMALL_MAX_PAYLOAD: nat := 512
  const PREFIX_SIZE: nat := 8
  const MAGIC: nat := 0x4c4a_5047

  /** offsetof(LJPage, data) with 64-bit pointers */
  const DATA_OFFSET: nat := 80

  const CLASS_SIZE: seq<nat> := [
    8, 16, 24, 32, 40, 48, 56,
    64, 80, 96, 112, 128, 144, 160, 176, 192, 208, 224, 240,
    256, 288, 320, 352, 384, 416, 448, 480,
    512, 576, 640, 704, 768, 832, 896, 960, 1024
  ]

  /** The size of the pages of a class */
  function PageSizeOf(payload: nat): nat {
    if payload > SMALL_MAX_PAYLOAD then LARGE_PAGE else SMALL_PAGE
  }

  /** page_size_class */
  function ClassOf(size: nat): nat
    requires 0 < size <= MAX_SIZE
  {
    if size <= 56 then (size + 7) / 8 - 1
    else if size <= 240 then 7 + (size - 49) / 16
    else if size <= 480 then 19 + (size - 225) / 32
    else 27 + (size - 449) / 64
  }

  /** The table entry of a class, by its group. */
  function ClassFormula(c: nat): nat {
    if c < 7 then 8 * (c + 1) else if c < 19 then 16 * (c - 3) else if c < 27 then 32 * (c - 11) else 64 * (c - 19)
  }

  lemma ClassTable(c: nat)
    requires c < CLASS_COUNT
    ensures |CLASS_SIZE| == CLASS_COUNT && CLASS_SIZE[c] == ClassFormula(c)
  {
  }

  /** The class of a size is the least that has room for it. */
  lemma ClassIsLeast(size: nat)
    requires 0 < size <= MAX_SIZE
    ensures var c := ClassOf(size);
            && c < CLASS_COUNT == |CLASS_SIZE| && size <= CLASS_SIZE[c] && (c > 0 ==> CLASS_SIZE[c - 1] < size)
  {
    var c := ClassOf(size);
    ClassTable(c);
    if c > 0 {
      ClassTable(c - 1);
    }
  }

  /** The scalar fields of struct LJPage. */
  datatype Info = Info(freeHead: nat, magic: nat, pageSize: nat, stride: nat, blockCount: nat, bump: nat, busy: nat,
                       payload: nat, cls: nat, onNonfull: bool)

  /** What page_new writes. */
  ghost predicate Shape(n: Info) {
    && n.cls < CLASS_COUNT && n.payload == CLASS_SIZE[n.cls] && n.stride == PREFIX_SIZE + n.payload && n.magic == MAGIC
    && n.pageSize == PageSizeOf(n.payload)
    && n.blockCount == (n.pageSize - DATA_OFFSET) / n.stride
  }

  lemma ShapeFacts(n: Info)
    requires Shape(n)
    ensures n.stride % 8 == 0 && n.stride > 8 && n.payload <= MAX_SIZE && n.blockCount > 0
    ensures DATA_OFFSET + n.blockCount * n.stride <= n.pageSize < DATA_OFFSET + (n.blockCount + 1) * n.stride
  {
    ClassMultiple(n.cls);
    PowersOfTwo.DivBounds(n.pageSize - DATA_OFFSET, n.stride);
  }

  lemma ClassMultiple(c: nat)
    requires c < CLASS_COUNT
    ensures |CLASS_SIZE| == CLASS_COUNT && 8 <= CLASS_SIZE[c] <= MAX_SIZE && (PREFIX_SIZE + CLASS_SIZE[c]) % 8 == 0
  {
    ClassTable(c);
    var units := if c < 7 then c + 1 else if c < 19 then 2 * (c - 3) else if c < 27 then 4 * (c - 11) else 8 * (c - 19);
    PowersOfTwo.Multiple(PREFIX_SIZE + CLASS_SIZE[c], 8, 1 + units);
  }

  /** The pointer that block `i` of page `p` is handed out with. */
  function Ptr(p: nat, stride: nat, i: nat): nat {
    p + DATA_OFFSET + i * stride + PREFIX_SIZE
  }

  /** Block pointers are aligned, and the block lies in its page. */
  lemma PtrInPage(p: nat, n: Info, i: nat)
    requires Shape(n) && i < n.blockCount && p % 8 == 0
    ensures var ptr := Ptr(p, n.stride, i);
            && ptr % 8 == 0 && p + DATA_OFFSET + PREFIX_SIZE <= ptr && ptr + n.payload <= p + n.pageSize
            && (ptr - PREFIX_SIZE - (p + DATA_OFFSET)) % n.stride == 0
  {
    ShapeFacts(n);
    var ptr := Ptr(p, n.stride, i);
    PowersOfTwo.MulMonotone(i + 1, n.blockCount, n.stride);
    assert (i + 1) * n.stride == i * n.stride + n.stride;
    PowersOfTwo.Multiple(i * n.stride, n.stride, i);
    MulOf8(i, n.stride / 8);
    assert n.stride == 8 * (n.stride / 8);
    PowersOfTwo.Multiple(ptr, 8, p / 8 + 11 + i * (n.stride / 8));
  }

  lemma MulOf8(i: nat, k: nat)
    ensures i * (8 * k) == 8 * (i * k)
  {
  }

  /** Two blocks of a page do not overlap. */
  lemma PtrApart(p: nat, stride: nat, i: nat, j: nat)
    requires i != j && stride > 0
    ensures Ptr(p, stride, i) + stride <= Ptr(p, stride, j) || Ptr(p, stride, j) + stride <= Ptr(p, stride, i)
    ensures Ptr(p, stride, i) != Ptr(p, stride, j)
  {
    if i < j {
      PowersOfTwo.MulMonotone(i + 1, j, stride);
    } else {
      PowersOfTwo.MulMonotone(j + 1, i, stride);
    }
    assert (i + 1) * stride == i * stride + stride && (j + 1) * stride == j * stride + stride;
  }

  /** `ptr` is a block of page `p` that was handed out at least once. */
  ghost predicate IsBlock(p: nat, n: Info, ptr: nat) {
    exists i: nat :: i < n.bump && ptr == Ptr(p, n.stride, i)
  }

  /** The free list of a page is threaded through the first words of its blocks. */
  ghost predicate Chain(head: nat, free: seq<nat>, link: Words) {
    && head == At(free, 0)
    && forall k {:trigger free[k]} :: 0 <= k < |free| ==> free[k] in link && link[free[k]] == At(free, k + 1)
  }

  /** The free blocks and the live blocks of a page partition the blocks below the bump index. */
  ghost predicate PageOk(p: nat, n: Info, free: seq<nat>, link: Words, size: map<nat, nat>) {
    && Shape(n) && p > 0 && p % 8 == 0 && n.bump <= n.blockCount && n.busy + |free| == n.bump
    && Distinct(free) && Chain(n.freeHead, free, link)
    && (forall x :: x in free ==> IsBlock(p, n, x) && x !in size)
    && (forall i: nat {:trigger Ptr(p, n.stride, i)} ::
          i < n.bump ==> Ptr(p, n.stride, i) in free || Ptr(p, n.stride, i) in size)
  }

  /** All blocks of a page are live. */
  ghost predicate AllLive(p: nat, n: Info, size: map<nat, nat>) {
    forall i: nat {:trigger Ptr(p, n.stride, i)} :: i < n.blockCount ==> Ptr(p, n.stride, i) in size
  }

  lemma FullIsLive(p: nat, n: Info, free: seq<nat>, link: Words, size: map<nat, nat>)
    requires PageOk(p, n, free, link, size) && n.busy >= n.blockCount
    ensures AllLive(p, n, size)
  {
    assert free == [];
  }

  /** A live pointer is pooled exactly when its size is at most 1024, and then is a block of the page its prefix names. */
  ghost predicate PtrOk(ptr: nat, s: nat, prefix: Words, info: map<nat, Info>, all: seq<nat>) {
    && s > 0
    && (s <= MAX_SIZE ==>
          && ptr >= PREFIX_SIZE && ptr - PREFIX_SIZE in prefix
          && prefix[ptr - PREFIX_SIZE] in all && prefix[ptr - PREFIX_SIZE] in info
          && IsBlock(prefix[ptr - PREFIX_SIZE], info[prefix[ptr - PREFIX_SIZE]], ptr)
          && s <= info[prefix[ptr - PREFIX_SIZE]].payload)
  }

  // ------------------------------------------------------------------
  // Blocks come and go

  lemma TakeBump(p: nat, n: Info, free: seq<nat>, link: Words, size: map<nat, nat>, s: nat)
    requires PageOk(p, n, free, link, size) && n.bump < n.blockCount
    ensures var ptr := Ptr(p, n.stride, n.bump);
            && PageOk(p, n.(bump := n.bump + 1, busy := n.busy + 1), free, link, size[ptr := s])
            && IsBlock(p, n.(bump := n.bump + 1, busy := n.busy + 1), ptr) && !IsBlock(p, n, ptr)
  {
    hide CLASS_SIZE, PageSizeOf;
    ShapeFacts(n);
    var ptr, n' := Ptr(p, n.stride, n.bump), n.(bump := n.bump + 1, busy := n.busy + 1);
    assert ptr == Ptr(p, n'.stride, n.bump);
    if i: nat :| i < n.bump && ptr == Ptr(p, n.stride, i) {
      PtrApart(p, n.stride, i, n.bump);
    }
    forall x | x in free ensures IsBlock(p, n', x) {
      var i: nat :| i < n.bump && x == Ptr(p, n.stride, i);
      assert x == Ptr(p, n'.stride, i);
    }
  }

  lemma TakeFree(p: nat, n: Info, free: seq<nat>, link: Words, size: map<nat, nat>, s: nat)
    requires PageOk(p, n, free, link, size) && n.bump >= n.blockCount && n.busy < n.blockCount
    ensures free != [] && n.freeHead == free[0] && free[0] in link && IsBlock(p, n, free[0]) && free[0] !in size
    ensures var n' := n.(freeHead := link[free[0]], busy := n.busy + 1);
            PageOk(p, n', free[1..], link, size[free[0] := s]) && IsBlock(p, n', free[0])
  {
    hide Shape;
    var n', free' := n.(freeHead := link[free[0]], busy := n.busy + 1), free[1..];
    SameBlocks(p, n, n');
    TailMembers(free);
    TailChain(n.freeHead, free, link);
    forall j: nat | j < n.bump ensures Ptr(p, n.stride, j) in free' || Ptr(p, n.stride, j) in size[free[0] := s] {
      assert Ptr(p, n.stride, j) in free || Ptr(p, n.stride, j) in size;
    }
  }

  /** The fields that never change. */
  ghost predicate SameShape(n: Info, n': Info) {
    && n'.cls == n.cls && n'.payload == n.payload && n'.magic == n.magic && n'.stride == n.stride
    && n'.pageSize == n.pageSize && n'.blockCount == n.blockCount
  }

  lemma SameBlocks(p: nat, n: Info, n': Info)
    requires n'.bump == n.bump && n'.stride == n.stride
    ensures forall x :: IsBlock(p, n', x) <==> IsBlock(p, n, x)
    ensures SameShape(n, n') ==> (Shape(n') <==> Shape(n))
  {
    forall x | IsBlock(p, n, x) || IsBlock(p, n', x) ensures IsBlock(p, n', x) && IsBlock(p, n, x) {
      var i: nat :| i < n.bump && x == Ptr(p, n.stride, i);
      assert x == Ptr(p, n'.stride, i);
    }
  }

  lemma TailMembers(s: seq<nat>)
    requires s != [] && Distinct(s)
    ensures Distinct(s[1..]) && forall x :: x in s[1..] <==> x in s && x != s[0]
  {
    forall x | x in s[1..] ensures x in s && x != s[0] {
      var k :| 0 <= k < |s[1..]| && s[1..][k] == x;
      assert x == s[k + 1];
    }
    assert s == [s[0]] + s[1..];
  }

  lemma TailChain(head: nat, free: seq<nat>, link: Words)
    requires free != [] && Chain(head, free, link)
    ensures head == free[0] && free[0] in link && Chain(link[free[0]], free[1..], link)
  {
    var rest := free[1..];
    forall k | 0 <= k < |rest| ensures rest[k] in link && link[rest[k]] == At(rest, k + 1) {
      assert rest[k] == free[k + 1];
    }
  }

  lemma GiveBack(p: nat, n: Info, free: seq<nat>, link: Words, size: map<nat, nat>, ptr: nat)
    requires PageOk(p, n, free, link, size) && ptr in size && IsBlock(p, n, ptr) && n.busy > 0
    ensures PageOk(p, n.(freeHead := ptr, busy := n.busy - 1), [ptr] + free, link[ptr := n.freeHead], size - {ptr})
  {
    var n', free', link' := n.(freeHead := ptr, busy := n.busy - 1), [ptr] + free, link[ptr := n.freeHead];
    assert ptr !in free;
    forall x | x in free' ensures IsBlock(p, n', x) && x !in size - {ptr} {
      var i: nat :| i < n.bump && x == Ptr(p, n.stride, i);
      assert x == Ptr(p, n'.stride, i);
    }
    forall k | 0 <= k < |free'| ensures free'[k] in link' && link'[free'[k]] == At(free', k + 1) {
      if k > 0 {
        assert free'[k] == free[k - 1] && free[k - 1] in free;
      }
    }
  }

  /** Changes at a pointer that is no block of page `q` do not matter to `q`. */
  lemma OtherPage(q: nat, n: Info, free: seq<nat>, link: Words, size: map<nat, nat>, ptr: nat, link': Words, size': map<nat, nat>)
    requires PageOk(q, n, free, link, size) && !IsBlock(q, n, ptr)
    requires forall x :: x != ptr && x in link ==> x in link' && link'[x] == link[x]
    requires forall x :: x != ptr ==> (x in size' <==> x in size)
    ensures PageOk(q, n, free, link', size')
  {
    forall i: nat | i < n.bump ensures Ptr(q, n.stride, i) in free || Ptr(q, n.stride, i) in size' {
      assert Ptr(q, n.stride, i) in free || Ptr(q, n.stride, i) in size;
      assert Ptr(q, n.stride, i) != ptr;
    }
    forall k | 0 <= k < |free| ensures free[k] in link' && link'[free[k]] == At(free, k + 1) {
      assert free[k] in free;
    }
  }

  // ------------------------------------------------------------------
  // Counting

  function BlocksBelow(p: nat, stride: nat, n: nat): set<nat> {
    set i: nat | i < n :: Ptr(p, stride, i)
  }

  lemma {:induction false} CountBlocks(p: nat, stride: nat, n: nat)
    requires stride > 0
    ensures |BlocksBelow(p, stride, n)| == n
  {
    hide Ptr;
    if n > 0 {
      CountBlocks(p, stride, n - 1);
      var x := Ptr(p, stride, n - 1);
      forall i: nat | i < n - 1 ensures Ptr(p, stride, i) != x {
        PtrApart(p, stride, i, n - 1);
      }
      assert BlocksBelow(p, stride, n) == BlocksBelow(p, stride, n - 1) + {x};
    }
  }

  function Elements(s: seq<nat>): set<nat> {
    set x | x in s
  }

  lemma {:induction false} CountElements(s: seq<nat>)
    requires Distinct(s)
    ensures |Elements(s)| == |s|
  {
    if s != [] {
      CountElements(s[1..]);
      assert s == [s[0]] + s[1..];
      assert Elements(s) == {s[0]} + Elements(s[1..]);
    }
  }

  lemma SubsetSize(a: set<nat>, b: set<nat>)
    requires a <= b
    ensures |b - a| == |b| - |a|
  {
    assert b == a + (b - a);
  }

  /** The live blocks of a page. */
  ghost function LiveBlocks(p: nat, n: Info, size: map<nat, nat>): set<nat> {
    BlocksBelow(p, n.stride, n.bump) * size.Keys
  }

  /** `busy_count` is the number of live blocks. */
  lemma BusyCountsLive(p: nat, n: Info, free: seq<nat>, link: Words, size: map<nat, nat>)
    requires PageOk(p, n, free, link, size)
    ensures |LiveBlocks(p, n, size)| == n.busy
  {
    hide Shape, Chain, Ptr, Distinct;
    ShapeFacts(n);
    var blocks := BlocksBelow(p, n.stride, n.bump);
    CountBlocks(p, n.stride, n.bump);
    CountElements(free);
    SubsetSize(Elements(free), blocks);
    assert LiveBlocks(p, n, size) == blocks - Elements(free);
  }

  /** A page without busy blocks has no live block. */
  lemma EmptyPage(p: nat, n: Info, free: seq<nat>, link: Words, size: map<nat, nat>)
    requires PageOk(p, n, free, link, size) && n.busy == 0
    ensures forall ptr :: ptr in size ==> !IsBlock(p, n, ptr)
  {
    BusyCountsLive(p, n, free, link, size);
    forall ptr | IsBlock(p, n, ptr) ensures ptr !in size {
      var i: nat :| i < n.bump && ptr == Ptr(p, n.stride, i);
      assert ptr in size ==> ptr in LiveBlocks(p, n, size);
    }
  }

  /** A live block of a page makes it busy. */
  lemma LiveIsBusy(p: nat, n: Info, free: seq<nat>, link: Words, size: map<nat, nat>, ptr: nat)
    requires PageOk(p, n, free, link, size) && ptr in size && IsBlock(p, n, ptr)
    ensures n.busy > 0
  {
    if n.busy == 0 {
      EmptyPage(p, n, free, link, size);
    }
  }
}
