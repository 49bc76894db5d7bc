/**
 The paged allocator front end (src/lj_alloc_page.c) over the bundled allocator:
 small blocks come from pages of one size class, all others from the allocator
 behind.  The size that the caller passes decides who owns a pointer.
 */
module PageAlloc {
  import opened PageLists
  import opened PagePool
  import opened PageState
  import MallocState
  import Live
  import Mapping
  import Segments
  import Tiling
  import PowersOfTwo

  /** sizeof(LJPageAllocState): the backing pointer, the heads of the classes, and the head of all pages */
  const STATE_SIZE: nat := 8 + 8 * CLASS_COUNT + 8

  // ------------------------------------------------------------------
  // What the allocator behind has handed out

  /** Block `a` of the allocator behind is the state, a page, or a large block. */
  ghost predicate Owned(v: Pool, self: nat, a: nat) {
    a + 16 == self || a + 16 in v.all || (a + 16 in v.size && v.size[a + 16] > MAX_SIZE)
  }

  ghost predicate PageBacked(v: Pool, bl: map<nat, nat>, self: nat, p: nat) {
    && p in v.info && p >= 16 && p != self && p - 16 in bl && bl[p - 16] >= v.info[p].pageSize
    && (p in v.size ==> v.size[p] <= MAX_SIZE)
  }

  ghost predicate LargeBacked(v: Pool, bl: map<nat, nat>, self: nat, x: nat) {
    x in v.size && v.size[x] > MAX_SIZE ==> x >= 16 && x != self && x - 16 in bl && bl[x - 16] >= v.size[x]
  }

  /** The blocks of the allocator behind are exactly the state, the pages and the large blocks. */
  ghost predicate BackedOk(v: Pool, bl: map<nat, nat>, self: nat) {
    && self >= 16 && self - 16 in bl && bl[self - 16] >= STATE_SIZE
    && (forall p {:trigger PageBacked(v, bl, self, p)} :: p in v.all ==> PageBacked(v, bl, self, p))
    && (forall x {:trigger LargeBacked(v, bl, self, x)} :: LargeBacked(v, bl, self, x))
    && (forall a {:trigger Owned(v, self, a)} :: a in bl ==> Owned(v, self, a))
  }

  ghost predicate BlocksApart(bl: map<nat, nat>, a: nat, b: nat) {
    a in bl && b in bl && a != b ==> a + 16 + bl[a] <= b + 16 || b + 16 + bl[b] <= a + 16
  }

  ghost predicate AllApart(bl: map<nat, nat>) {
    forall a, b {:trigger BlocksApart(bl, a, b)} :: BlocksApart(bl, a, b)
  }

  lemma PageIsBacked(v: Pool, bl: map<nat, nat>, self: nat, p: nat)
    requires BackedOk(v, bl, self) && p in v.all
    ensures PageBacked(v, bl, self, p)
  {
  }

  lemma LargeIsBacked(v: Pool, bl: map<nat, nat>, self: nat, x: nat)
    requires BackedOk(v, bl, self) && x in v.size && v.size[x] > MAX_SIZE
    ensures x >= 16 && x != self && x - 16 in bl && bl[x - 16] >= v.size[x]
  {
    assert LargeBacked(v, bl, self, x);
  }

  lemma BlocksAreApart(bl: map<nat, nat>, a: nat, b: nat)
    requires AllApart(bl)
    ensures BlocksApart(bl, a, b)
  {
  }

  lemma BackedFrom(v: Pool, bl: map<nat, nat>, self: nat)
    requires self >= 16 && self - 16 in bl && bl[self - 16] >= STATE_SIZE
    requires forall p :: p in v.all ==> PageBacked(v, bl, self, p)
    requires forall x :: LargeBacked(v, bl, self, x)
    requires forall a :: a in bl ==> Owned(v, self, a)
    ensures BackedOk(v, bl, self)
  {
  }

  /** The block that the user's bytes at `ptr` are in. */
  function Home(v: Pool, ptr: nat): nat
    requires ptr in v.size && PtrOk(ptr, v.size[ptr], v.prefix, v.info, v.all)
  {
    if v.size[ptr] <= MAX_SIZE then v.prefix[ptr - PREFIX_SIZE] else ptr
  }

  /** The bytes of a live pointer lie in its block of the allocator behind. */
  lemma HomeOf(v: Pool, bl: map<nat, nat>, self: nat, ptr: nat)
    requires ContentOk(v, 0) && BackedOk(v, bl, self) && ptr in v.size
    ensures PtrOk(ptr, v.size[ptr], v.prefix, v.info, v.all)
    ensures var h := Home(v, ptr);
            && h >= 16 && h - 16 in bl && h <= ptr && ptr + v.size[ptr] <= h + bl[h - 16] && v.size[ptr] > 0
            && (v.size[ptr] > MAX_SIZE ==> h == ptr) && (v.size[ptr] <= MAX_SIZE ==> h in v.all && h < ptr)
  {
    hide ContentOk, BackedOk, IsBlock;
    PtrFacts(v, ptr, 0);
    if v.size[ptr] <= MAX_SIZE {
      var p := v.prefix[ptr - PREFIX_SIZE];
      RegionOf(v, 0, p, ptr);
      PageIsBacked(v, bl, self, p);
    } else {
      LargeIsBacked(v, bl, self, ptr);
    }
  }

  /** Two live pointers own different bytes. */
  lemma PointersApart(v: Pool, bl: map<nat, nat>, self: nat, x: nat, y: nat)
    requires ContentOk(v, 0) && BackedOk(v, bl, self) && AllApart(bl) && x in v.size && y in v.size && x != y
    ensures x + v.size[x] <= y || y + v.size[y] <= x
  {
    hide ContentOk, BackedOk, AllApart, IsBlock;
    HomeOf(v, bl, self, x);
    HomeOf(v, bl, self, y);
    var h, g := Home(v, x), Home(v, y);
    if h != g {
      BlocksAreApart(bl, h - 16, g - 16);
    } else if v.size[x] <= MAX_SIZE && v.size[y] <= MAX_SIZE {
      PageFacts(v, h, 0);
      SamePageApart(h, v.info[h], v.free[h], v.link, v.size, x, y);
    } else if v.size[x] > MAX_SIZE {
      PageIsBacked(v, bl, self, g);
    } else {
      PageIsBacked(v, bl, self, h);
    }
  }

  lemma SamePageApart(p: nat, n: Info, free: seq<nat>, link: Words, size: map<nat, nat>, x: nat, y: nat)
    requires PageOk(p, n, free, link, size) && IsBlock(p, n, x) && IsBlock(p, n, y) && x != y
    ensures x + n.payload <= y || y + n.payload <= x
  {
    ShapeFacts(n);
    var i: nat :| i < n.bump && x == Ptr(p, n.stride, i);
    var j: nat :| j < n.bump && y == Ptr(p, n.stride, j);
    PtrApart(p, n.stride, i, j);
  }

  /** A word that the front end keeps for itself: in its state, in the header of a page, before a block, or in a free block */
  ghost predicate OwnByte(v: Pool, self: nat, y: nat) {
    || self <= y < self + STATE_SIZE
    || (exists p :: p in v.all && p <= y < p + DATA_OFFSET)
    || (exists p, f :: OwnBlockByte(v, p, f, y))
  }

  /** In the prefix of a block of page `p`, or in the link of a free one */
  ghost predicate OwnBlockByte(v: Pool, p: nat, f: nat, y: nat) {
    && p in v.all && p in v.info && p in v.free && f >= PREFIX_SIZE && IsBlock(p, v.info[p], f)
    && f - PREFIX_SIZE <= y < if f in v.free[p] then f + 8 else f
  }

  /** A block of a page and the user's bytes of another one are apart, with their prefixes. */
  lemma BlockApart(v: Pool, bl: map<nat, nat>, self: nat, x: nat, p: nat, f: nat)
    requires ContentOk(v, 0) && BackedOk(v, bl, self) && AllApart(bl) && x in v.size && p in v.all && p in v.info
    requires IsBlock(p, v.info[p], f) && f != x
    ensures f >= PREFIX_SIZE && (x + v.size[x] <= f - PREFIX_SIZE || f + v.info[p].payload <= x)
  {
    hide ContentOk, BackedOk, AllApart, IsBlock;
    HomeOf(v, bl, self, x);
    var h := Home(v, x);
    RegionOf(v, 0, p, f);
    PageIsBacked(v, bl, self, p);
    if h != p {
      BlocksAreApart(bl, h - 16, p - 16);
    } else if v.size[x] > MAX_SIZE {
      LargeIsBacked(v, bl, self, x);
    } else {
      PtrFacts(v, x, 0);
      PageFacts(v, p, 0);
      SamePageStride(p, v.info[p], x, f);
    }
  }

  lemma SamePageStride(p: nat, n: Info, x: nat, y: nat)
    requires Shape(n) && IsBlock(p, n, x) && IsBlock(p, n, y) && x != y
    ensures x + n.stride <= y || y + n.stride <= x
  {
    ShapeFacts(n);
    var i: nat :| i < n.bump && x == Ptr(p, n.stride, i);
    var j: nat :| j < n.bump && y == Ptr(p, n.stride, j);
    PtrApart(p, n.stride, i, j);
  }

  /** No page header, no prefix and no link of a free block lies in the bytes of a live pointer. */
  lemma MetadataOutsideLive(v: Pool, bl: map<nat, nat>, self: nat, x: nat, y: nat)
    requires ContentOk(v, 0) && BackedOk(v, bl, self) && AllApart(bl) && x in v.size && x <= y < x + v.size[x]
    ensures !OwnByte(v, self, y)
  {
    hide ContentOk, BackedOk, AllApart, IsBlock;
    HomeOf(v, bl, self, x);
    var h := Home(v, x);
    SelfBacked(v, bl, self);
    if h != self {
      BlocksAreApart(bl, h - 16, self - 16);
    } else if h == x {
      LargeIsBacked(v, bl, self, x);
    } else {
      PageIsBacked(v, bl, self, h);
    }
    forall p | p in v.all ensures !(p <= y < p + DATA_OFFSET) {
      HeaderApart(v, bl, self, x, p);
    }
    forall p, f ensures !OwnBlockByte(v, p, f, y) {
      if OwnBlockByte(v, p, f, y) {
        OwnBlockApart(v, bl, self, x, p, f);
      }
    }
  }

  lemma HeaderApart(v: Pool, bl: map<nat, nat>, self: nat, x: nat, p: nat)
    requires ContentOk(v, 0) && BackedOk(v, bl, self) && AllApart(bl) && x in v.size && p in v.all
    ensures x + v.size[x] <= p || p + DATA_OFFSET <= x
  {
    hide ContentOk, BackedOk, AllApart, IsBlock;
    HomeOf(v, bl, self, x);
    PageIsBacked(v, bl, self, p);
    PageFacts(v, p, 0);
    ShapeFacts(v.info[p]);
    if Home(v, x) != p {
      BlocksAreApart(bl, Home(v, x) - 16, p - 16);
    } else {
      PtrFacts(v, x, 0);
      RegionOf(v, 0, p, x);
    }
  }

  lemma OwnBlockApart(v: Pool, bl: map<nat, nat>, self: nat, x: nat, p: nat, f: nat)
    requires ContentOk(v, 0) && BackedOk(v, bl, self) && AllApart(bl) && x in v.size && p in v.all && p in v.info && p in v.free
    requires f >= PREFIX_SIZE && IsBlock(p, v.info[p], f)
    ensures x + v.size[x] <= f - PREFIX_SIZE || (if f in v.free[p] then f + 8 else f) <= x
  {
    hide ContentOk, BackedOk, AllApart, IsBlock;
    PageFacts(v, p, 0);
    ClassMultiple(v.info[p].cls);
    if f != x {
      BlockApart(v, bl, self, x, p, f);
    }
  }

  /** A block of a page that is no live block of this page is not live at all. */
  lemma NotLive(v: Pool, idle: nat, bl: map<nat, nat>, self: nat, p: nat, n': Info, ptr: nat)
    requires ContentOk(v, idle) && BackedOk(v, bl, self) && AllApart(bl) && p in v.all && p in v.info
    requires Shape(n') && p % 8 == 0 && n'.bump <= n'.blockCount && IsBlock(p, n', ptr) && n'.pageSize == v.info[p].pageSize
    requires IsBlock(p, v.info[p], ptr) ==> ptr !in v.size
    ensures ptr !in v.size
  {
    hide ContentOk, BackedOk, AllApart, IsBlock, Shape;
    BlockInRegion(p, n', ptr);
    PageIsBacked(v, bl, self, p);
    if ptr in v.size {
      PtrFacts(v, ptr, idle);
      if v.size[ptr] <= MAX_SIZE {
        OnePage(v, idle, p, v.prefix[ptr - PREFIX_SIZE], ptr);
      } else {
        LargeIsBacked(v, bl, self, ptr);
        BlocksAreApart(bl, p - 16, ptr - 16);
      }
    }
  }

  /** A new block of the allocator behind is at no live pointer, and apart from all pages. */
  lemma NewBlock(v: Pool, bl: map<nat, nat>, bl': map<nat, nat>, self: nat, mem: nat)
    requires ContentOk(v, 0) && BackedOk(v, bl, self) && AllApart(bl') && mem >= 16 && mem - 16 !in bl
    requires mem - 16 in bl' && bl' == bl[mem - 16 := bl'[mem - 16]] && bl'[mem - 16] > 0
    ensures mem !in v.size && mem !in v.all && mem != self
    ensures forall q :: q in v.all && q in v.info ==> mem + bl'[mem - 16] <= q || q + v.info[q].pageSize <= mem
  {
    hide ContentOk, BackedOk, AllApart, IsBlock;
    if mem in v.all {
      PageIsBacked(v, bl, self, mem);
    }
    if mem in v.size {
      HomeOf(v, bl, self, mem);
      BlocksAreApart(bl', Home(v, mem) - 16, mem - 16);
    }
    SelfBacked(v, bl, self);
    forall q | q in v.all && q in v.info ensures mem + bl'[mem - 16] <= q || q + v.info[q].pageSize <= mem {
      PageIsBacked(v, bl, self, q);
      BlocksAreApart(bl', q - 16, mem - 16);
    }
  }

  lemma SelfBacked(v: Pool, bl: map<nat, nat>, self: nat)
    requires BackedOk(v, bl, self)
    ensures self >= 16 && self - 16 in bl && bl[self - 16] >= STATE_SIZE
  {
  }

  // How the blocks follow the changes

  lemma TakenBacked(v: Pool, bl: map<nat, nat>, self: nat, p: nat, n': Info, free': seq<nat>, ptr: nat, s: nat)
    requires BackedOk(v, bl, self) && p in v.all && p in v.info && n'.pageSize == v.info[p].pageSize && s <= MAX_SIZE
    requires ptr >= PREFIX_SIZE && ptr !in v.size
    ensures BackedOk(Taken(v, p, n', free', ptr, s), bl, self)
  {
    hide BackedOk;
    var v' := Taken(v, p, n', free', ptr, s);
    SelfBacked(v, bl, self);
    forall q | q in v'.all ensures PageBacked(v', bl, self, q) {
      PageIsBacked(v, bl, self, q);
    }
    forall x: nat ensures LargeBacked(v', bl, self, x) {
      if x in v.size && v.size[x] > MAX_SIZE {
        LargeIsBacked(v, bl, self, x);
      }
    }
    OwnedIn(v, bl, self);
    forall a | a in bl ensures Owned(v', self, a) {
      assert Owned(v, self, a);
    }
    BackedFrom(v', bl, self);
  }

  lemma OwnedIn(v: Pool, bl: map<nat, nat>, self: nat)
    requires BackedOk(v, bl, self)
    ensures forall a :: a in bl ==> Owned(v, self, a)
  {
  }

  lemma GivenBacked(v: Pool, bl: map<nat, nat>, self: nat, p: nat, ptr: nat)
    requires BackedOk(v, bl, self) && p in v.info && p in v.free && v.info[p].busy > 0 && ptr in v.size && v.size[ptr] <= MAX_SIZE
    ensures BackedOk(Given(v, p, ptr), bl, self)
  {
    hide BackedOk;
    var v' := Given(v, p, ptr);
    SelfBacked(v, bl, self);
    forall q | q in v'.all ensures PageBacked(v', bl, self, q) {
      PageIsBacked(v, bl, self, q);
    }
    forall x: nat ensures LargeBacked(v', bl, self, x) {
      if x in v'.size && v.size[x] > MAX_SIZE {
        LargeIsBacked(v, bl, self, x);
      }
    }
    OwnedIn(v, bl, self);
    forall a | a in bl ensures Owned(v', self, a) {
      assert Owned(v, self, a);
    }
    BackedFrom(v', bl, self);
  }

  lemma OpenedBacked(v: Pool, bl: map<nat, nat>, bl': map<nat, nat>, self: nat, p: nat, n: Info)
    requires BackedOk(v, bl, self) && p >= 16 && p - 16 !in bl && p - 16 in bl' && bl' == bl[p - 16 := bl'[p - 16]]
    requires bl'[p - 16] >= n.pageSize && p !in v.size && p !in v.all && p != self
    ensures BackedOk(Opened(v, p, n), bl', self)
  {
    hide BackedOk;
    var v' := Opened(v, p, n);
    SelfBacked(v, bl, self);
    forall q | q in v'.all ensures PageBacked(v', bl', self, q) {
      if q != p {
        PageIsBacked(v, bl, self, q);
      }
    }
    forall x: nat ensures LargeBacked(v', bl', self, x) {
      if x in v.size && v.size[x] > MAX_SIZE {
        LargeIsBacked(v, bl, self, x);
      }
    }
    OwnedIn(v, bl, self);
    forall a | a in bl' ensures Owned(v', self, a) {
      assert a != p - 16 ==> Owned(v, self, a);
    }
    BackedFrom(v', bl', self);
  }

  lemma ClosedBacked(v: Pool, bl: map<nat, nat>, self: nat, k: nat)
    requires BackedOk(v, bl, self) && k < |v.all| && Distinct(v.all)
    ensures v.all[k] >= 16 && v.all[k] - 16 in bl && BackedOk(Closed(v, k), bl - {v.all[k] - 16}, self)
  {
    hide BackedOk;
    var v', p := Closed(v, k), v.all[k];
    PageIsBacked(v, bl, self, p);
    var bl' := bl - {p - 16};
    SelfBacked(v, bl, self);
    WithoutMembers(v.all, k);
    forall q | q in v'.all ensures PageBacked(v', bl', self, q) {
      PageIsBacked(v, bl, self, q);
    }
    forall x: nat ensures LargeBacked(v', bl', self, x) {
      if x in v.size && v.size[x] > MAX_SIZE {
        LargeIsBacked(v, bl, self, x);
      }
    }
    OwnedIn(v, bl, self);
    forall a | a in bl' ensures Owned(v', self, a) {
      assert Owned(v, self, a);
    }
    BackedFrom(v', bl', self);
  }

  /** Only the sizes matter, and where the pages are. */
  lemma SameBacked(v: Pool, v': Pool, bl: map<nat, nat>, self: nat)
    requires BackedOk(v, bl, self) && v'.all == v.all && v'.size == v.size
    requires forall p :: p in v.all && p in v.info ==> p in v'.info && v'.info[p].pageSize == v.info[p].pageSize
    ensures BackedOk(v', bl, self)
  {
    hide BackedOk;
    SelfBacked(v, bl, self);
    forall q | q in v'.all ensures PageBacked(v', bl, self, q) {
      PageIsBacked(v, bl, self, q);
    }
    forall x: nat ensures LargeBacked(v', bl, self, x) {
      if x in v.size && v.size[x] > MAX_SIZE {
        LargeIsBacked(v, bl, self, x);
      }
    }
    OwnedIn(v, bl, self);
    forall a | a in bl ensures Owned(v', self, a) {
      assert Owned(v, self, a);
    }
    BackedFrom(v', bl, self);
  }

  /** A page-sized block of the allocator behind can become a page. */
  lemma OpenedReady(v: Pool, bl: map<nat, nat>, bl': map<nat, nat>, self: nat, p: nat, n: Info)
    requires PoolOk(v, 0) && BackedOk(v, bl, self) && AllApart(bl') && p >= 16 && p % 8 == 0
    requires p - 16 !in bl && p - 16 in bl' && bl' == bl[p - 16 := bl'[p - 16]] && bl'[p - 16] >= n.pageSize
    requires Shape(n) && n.bump == 0 && n.busy == 0 && n.freeHead == 0
    ensures p !in v.all && forall q :: q in v.all && q in v.info ==> p + n.pageSize <= q || q + v.info[q].pageSize <= p
    ensures var v' := Linking(v, p, n);
            v'.info[p].cls < |v'.nonfull| && v'.info[p].cls < |v'.lists| && BackedOk(Inserted(v', p), bl', self)
  {
    hide ListsOk, ContentOk, MembersOk, BackedOk, AllApart, Inserted;
    ShapeFacts(n);
    NewBlock(v, bl, bl', self, p);
    LinkingOk(v, p, n);
    OpenedBacked(v, bl, bl', self, p, n);
    InsertedRest(Linking(v, p, n), p);
    SameBacked(Opened(v, p, n), Inserted(Linking(v, p, n), p), bl', self);
  }

  /** The pool after the next block of page `p` was handed out. */
  function TakenNext(v: Pool, p: nat, s: nat): Pool
    requires p in v.info && p in v.free && NextPtr(p, v.info[p]) >= PREFIX_SIZE
  {
    Taken(v, p, NextInfo(v.info[p], v.link), NextFree(v.info[p], v.free[p]), NextPtr(p, v.info[p]), s)
  }

  /** The next block of a page can be handed out. */
  lemma NextReady(v: Pool, idle: nat, bl: map<nat, nat>, self: nat, p: nat, s: nat)
    requires PoolOk(v, idle) && (idle == 0 || idle == p) && BackedOk(v, bl, self) && AllApart(bl)
    requires p in v.all && p in v.info && HasRoom(v.info[p]) && 0 < s <= v.info[p].payload
    ensures p in v.free && s <= MAX_SIZE
    ensures var n, ptr := v.info[p], NextPtr(p, v.info[p]);
            && ptr >= PREFIX_SIZE && ptr % 8 == 0 && ptr !in v.size
            && (n.bump >= n.blockCount ==> ptr == n.freeHead && ptr in v.link)
            && NextInfo(n, v.link).busy <= n.blockCount == NextInfo(n, v.link).blockCount
    ensures var v' := TakenNext(v, p, s);
            && p in v'.info && v'.info[p] == NextInfo(v.info[p], v.link) && v'.size == v.size[NextPtr(p, v.info[p]) := s] && p in v'.all
            && ContentOk(v', 0) && BackedOk(v', bl, self)
            && ListsOk(v') && MembersBut(v', p) && InList(v', p, true) && (HasRoom(v'.info[p]) ==> MembersOk(v'))
            && Pooled(v', p, NextPtr(p, v.info[p]))
  {
    hide ListsOk, ContentOk, MembersOk, BackedOk, AllApart, PageOk, IsBlock, InList, MembersBut, NextInfo, NextFree, NextPtr, HasRoom, Shape;
    NextBlock(v, idle, p, s);
    var n', free', ptr := NextInfo(v.info[p], v.link), NextFree(v.info[p], v.free[p]), NextPtr(p, v.info[p]);
    ShapeOf(p, v.info[p], v.free[p], v.link, v.size);
    ShapeOf(p, n', free', v.link, v.size[ptr := s]);
    ShapeFacts(n');
    NotLive(v, idle, bl, self, p, n', ptr);
    BlockInRegion(p, n', ptr);
    TakenContent(v, idle, p, n', free', ptr, s);
    TakenBacked(v, bl, self, p, n', free', ptr, s);
    ClassBound(n');
    TakenLists(v, p, n', free', ptr, s);
    RoomLeft(v.info[p]);
  }

  lemma ClassBound(n: Info)
    requires Shape(n)
    ensures n.cls < CLASS_COUNT
  {
  }

  lemma RoomLeft(n: Info)
    requires HasRoom(n)
    ensures n.busy + 1 <= n.blockCount
  {
  }

  /** What page_free_small has to work on: a page with room on its list, or a full one that is entered now. */
  lemma GivenReady(v: Pool, v1: Pool, bl: map<nat, nat>, self: nat, p: nat, ptr: nat)
    requires ContentOk(v, 0) && BackedOk(v, bl, self) && Pooled(v, p, ptr)
    requires v1.all == v.all && v1.free == v.free && v1.prefix == v.prefix && v1.link == v.link && v1.size == v.size
    requires v1.info == v.info[p := v.info[p].(onNonfull := true)]
    requires ListsOk(v1) && MembersBut(v1, p) && InList(v1, p, true)
    ensures p in v1.free && v1.info[p].busy > 0
    ensures var v' := Given(v1, p, ptr);
            && ListsOk(v') && MembersOk(v') && ContentOk(v', p) && BackedOk(v', bl, self)
            && p in v'.info && p in v'.all && (v'.info[p].busy > 0 ==> ContentOk(v', 0)) && v'.size == v.size - {ptr}
  {
    hide ListsOk, ContentOk, MembersOk, BackedOk, PageOk, IsBlock, InList, MembersBut;
    ContentSame(v, v1, 0);
    SameBacked(v, v1, bl, self);
    MoreBlocks(p, v.info[p], v1.info[p], ptr);
    GivenContent(v1, p, ptr);
    PageFacts(v1, p, 0);
    BusyBound(p, v1.info[p], v1.free[p], v1.link, v1.size);
    GivenLists(v1, p, ptr);
    GivenBacked(v1, bl, self, p, ptr);
    if Given(v1, p, ptr).info[p].busy > 0 {
      NotIdle(Given(v1, p, ptr), p);
    }
  }

  lemma BusyBound(p: nat, n: Info, free: seq<nat>, link: Words, size: map<nat, nat>)
    requires PageOk(p, n, free, link, size)
    ensures n.busy <= n.blockCount && n.cls < CLASS_COUNT && n.blockCount > 0 && (n.busy == n.blockCount || HasRoom(n))
  {
    ShapeFacts(n);
  }

  lemma ReleasedReady(v: Pool, bl: map<nat, nat>, self: nat, k: nat)
    requires ListsOk(v) && k < |v.all| && MembersBut(v, v.all[k]) && InList(v, v.all[k], false)
    requires ContentOk(v, v.all[k]) && v.all[k] in v.info && v.info[v.all[k]].busy == 0 && BackedOk(v, bl, self)
    ensures v.all[k] >= 16 && v.all[k] - 16 in bl && v.all[k] in v.allNext && v.all[k] in v.allPrev
    ensures PoolOk(Released(v, k), 0) && BackedOk(Released(v, k), bl - {v.all[k] - 16}, self) && Released(v, k).size == v.size
  {
    hide ListsOk, ContentOk, BackedOk, InList, MembersBut, Without, Unlinked, PoolOk;
    ReleasedOk(v, k);
    WithoutMembers(v.all, k);
    ClosedBacked(v, bl, self, k);
    ReleasedFields(v, k);
    SameBacked(Closed(v, k), Released(v, k), bl - {v.all[k] - 16}, self);
  }

  lemma ReleasedFields(v: Pool, k: nat)
    requires k < |v.all| && v.all[k] in v.allNext && v.all[k] in v.allPrev && v.all[k] in v.info
    ensures var v', c := Released(v, k), Closed(v, k);
            v'.all == c.all && v'.size == c.size && v'.info == v.info[v.all[k] := v.info[v.all[k]].(magic := 0)] && c.info == v.info
  {
  }

  // Large blocks come and go

  lemma LargeAdded(v: Pool, bl: map<nat, nat>, bl': map<nat, nat>, self: nat, mem: nat, s: nat)
    requires PoolOk(v, 0) && BackedOk(v, bl, self) && AllApart(bl') && mem >= 16 && mem - 16 !in bl && s > MAX_SIZE
    requires mem - 16 in bl' && bl' == bl[mem - 16 := bl'[mem - 16]] && bl'[mem - 16] >= s
    ensures mem !in v.size
    ensures var v' := v.(size := v.size[mem := s]); PoolOk(v', 0) && BackedOk(v', bl', self)
  {
    hide ListsOk, MembersOk, ContentOk, BackedOk, AllApart, IsBlock;
    NewBlock(v, bl, bl', self, mem);
    var v' := v.(size := v.size[mem := s]);
    forall p | p in v.all && p in v.info ensures !IsBlock(p, v.info[p], mem) {
      if IsBlock(p, v.info[p], mem) {
        RegionOf(v, 0, p, mem);
      }
    }
    forall x: nat ensures PtrAt(v', x) {
      if x in v.size {
        PtrFacts(v, x, 0);
      }
    }
    SizesOk(v, v'.size);
    SelfBacked(v, bl, self);
    forall p | p in v'.all ensures PageBacked(v', bl', self, p) {
      PageIsBacked(v, bl, self, p);
    }
    forall x: nat ensures LargeBacked(v', bl', self, x) {
      if x in v.size && v.size[x] > MAX_SIZE {
        LargeIsBacked(v, bl, self, x);
      }
    }
    OwnedIn(v, bl, self);
    forall a | a in bl' ensures Owned(v', self, a) {
      assert a != mem - 16 ==> Owned(v, self, a);
    }
    BackedFrom(v', bl', self);
  }

  lemma LargeRemoved(v: Pool, bl: map<nat, nat>, self: nat, ptr: nat)
    requires PoolOk(v, 0) && BackedOk(v, bl, self) && AllApart(bl) && ptr in v.size && v.size[ptr] > MAX_SIZE
    ensures ptr >= 16 && ptr - 16 in bl && bl[ptr - 16] >= v.size[ptr]
    ensures var v' := v.(size := v.size - {ptr}); PoolOk(v', 0) && BackedOk(v', bl - {ptr - 16}, self)
  {
    hide ListsOk, MembersOk, ContentOk, BackedOk, AllApart, IsBlock;
    LargeIsBacked(v, bl, self, ptr);
    var v', bl' := v.(size := v.size - {ptr}), bl - {ptr - 16};
    forall p | p in v.all && p in v.info ensures !IsBlock(p, v.info[p], ptr) {
      if IsBlock(p, v.info[p], ptr) {
        RegionOf(v, 0, p, ptr);
        PageIsBacked(v, bl, self, p);
        BlocksAreApart(bl, p - 16, ptr - 16);
      }
    }
    forall x: nat ensures PtrAt(v', x) {
      if x in v.size {
        PtrFacts(v, x, 0);
      }
    }
    SizesOk(v, v'.size);
    SelfBacked(v, bl, self);
    forall p | p in v'.all ensures PageBacked(v', bl', self, p) {
      PageIsBacked(v, bl, self, p);
    }
    forall x: nat ensures LargeBacked(v', bl', self, x) {
      if x in v'.size && v.size[x] > MAX_SIZE {
        LargeIsBacked(v, bl, self, x);
      }
    }
    OwnedIn(v, bl, self);
    forall a | a in bl' ensures Owned(v', self, a) {
      assert Owned(v, self, a);
    }
    BackedFrom(v', bl', self);
  }

  /** A pooled block stays where it is with another size. */
  lemma ResizedInPlace(v: Pool, bl: map<nat, nat>, self: nat, p: nat, ptr: nat, s: nat)
    requires PoolOk(v, 0) && BackedOk(v, bl, self) && Pooled(v, p, ptr) && 0 < s <= v.info[p].payload && s <= MAX_SIZE
    ensures var v' := v.(size := v.size[ptr := s]); PoolOk(v', 0) && BackedOk(v', bl, self)
  {
    hide ListsOk, MembersOk, ContentOk, BackedOk, IsBlock;
    var v' := v.(size := v.size[ptr := s]);
    forall x: nat ensures PtrAt(v', x) {
      if x in v.size {
        PtrFacts(v, x, 0);
      }
    }
    SizesOk(v, v'.size);
    SelfBacked(v, bl, self);
    forall q | q in v'.all ensures PageBacked(v', bl, self, q) {
      PageIsBacked(v, bl, self, q);
    }
    forall x: nat ensures LargeBacked(v', bl, self, x) {
      if x in v'.size && v'.size[x] > MAX_SIZE {
        LargeIsBacked(v, bl, self, x);
      }
    }
    OwnedIn(v, bl, self);
    forall a | a in bl ensures Owned(v', self, a) {
      assert Owned(v, self, a);
    }
    BackedFrom(v', bl, self);
  }

  // ------------------------------------------------------------------
  // What callers see

  /** No byte of another block than that at `ptr` has changed. */
  ghost predicate UsersKept(size: map<nat, nat>, bytes: map<nat, nat>, bytes': map<nat, nat>, ptr: nat) {
    forall x, y: nat :: x in size && x != ptr && x <= y < x + size[x] ==>
                          MallocState.ByteAt(bytes', y) == MallocState.ByteAt(bytes, y)
  }

  lemma KeptFewer(size: map<nat, nat>, size': map<nat, nat>, bytes: map<nat, nat>, bytes': map<nat, nat>, mem: nat, ptr: nat)
    requires UsersKept(size', bytes, bytes', mem) && mem !in size && forall x :: x in size ==> x in size' && size'[x] == size[x]
    ensures UsersKept(size, bytes, bytes', ptr)
  {
  }

  /** What the allocator behind keeps for its other blocks is kept for all other pointers. */
  lemma KeptBehind(v: Pool, bl: map<nat, nat>, self: nat, ptr: nat, bytes: map<nat, nat>, bytes': map<nat, nat>)
    requires ContentOk(v, 0) && BackedOk(v, bl, self) && ptr in v.size && v.size[ptr] > MAX_SIZE && ptr >= 16
    requires MallocState.OthersKept(bl, bytes, bytes', ptr - 16)
    ensures UsersKept(v.size, bytes, bytes', ptr)
  {
    hide ContentOk, BackedOk, IsBlock;
    forall x, y: nat | x in v.size && x != ptr && x <= y < x + v.size[x]
      ensures MallocState.ByteAt(bytes', y) == MallocState.ByteAt(bytes, y)
    {
      HomeOf(v, bl, self, x);
      var h := Home(v, x);
      if h == ptr {
        PageIsBacked(v, bl, self, h);
      }
      assert y in Live.Payload(bl, h - 16);
    }
  }

  class PageAllocState {
    const backing: MallocState.MallocState
    const self: nat
    var nonfull: seq<nat>
    var allpages: nat
    var info: map<nat, Info>
    var nonfullNext: Words
    var nonfullPrev: Words
    var allNext: Words
    var allPrev: Words
    var prefix: Words
    var link: Words
    ghost var lists: seq<seq<nat>>
    ghost var all: seq<nat>
    ghost var free: map<nat, seq<nat>>
    ghost var size: map<nat, nat>

    ghost function V(): Pool
      reads this
    {
      Pool(info, nonfull, allpages, nonfullNext, nonfullPrev, allNext, allPrev, prefix, link, lists, all, free, size)
    }

    /** What holds but for page `idle`, which has no busy block. */
    ghost predicate Ready(idle: nat)
      reads this, backing, backing.small, backing.tree
    {
      && backing.Valid() && AllApart(backing.Live())
      && PoolOk(V(), idle) && BackedOk(V(), backing.Live(), self)
    }

    ghost predicate Valid()
      reads this, backing, backing.small, backing.tree
    {
      Ready(0)
    }

    /** The state that lj_page_alloc_create writes into its first block. */
    constructor (backing: MallocState.MallocState, self: nat)
      requires backing.Valid() && self >= 16 && backing.Live().Keys == {self - 16} && backing.Live()[self - 16] >= STATE_SIZE
      ensures Valid() && size == map[] && all == [] && this.backing == backing && this.self == self
    {
      this.backing := backing;
      this.self := self;
      nonfull := seq(CLASS_COUNT, _ => 0);
      allpages := 0;
      info := map[];
      nonfullNext, nonfullPrev, allNext, allPrev, prefix, link := map[], map[], map[], map[], map[], map[];
      lists := seq(CLASS_COUNT, _ => []);
      all := [];
      free := map[];
      size := map[];
      new;
      hide MallocState.MallocState.Valid, MallocState.MallocState.Live;
      EmptyPool(V());
      BackedFrom(V(), backing.Live(), self);
    }

    lemma EmptyPool(v: Pool)
      requires v.nonfull == seq(CLASS_COUNT, _ => 0) && v.lists == seq(CLASS_COUNT, _ => []) && v.all == [] && v.size == map[] && v.allpages == 0
      ensures PoolOk(v, 0)
    {
      assert forall c :: 0 <= c < CLASS_COUNT ==> ListOk(v, c);
    }

    /** The words that page_nonfull_insert writes. */
    method WriteInsert(page: nat)
      requires page in info && info[page].cls < |nonfull|
      modifies this`nonfull, this`nonfullPrev, this`nonfullNext, this`info
      ensures var c := old(info[page].cls);
              && c < |old(nonfull)| && page in old(info)
              && nonfullPrev == InsertPrev(old(nonfull)[c], old(nonfullPrev), page)
              && nonfullNext == old(nonfullNext)[page := old(nonfull)[c]]
              && nonfull == old(nonfull)[c := page]
              && info == old(info)[page := old(info)[page].(onNonfull := true)]
    {
      var c := info[page].cls;
      var head := nonfull[c];
      nonfullPrev := nonfullPrev[page := 0];
      nonfullNext := nonfullNext[page := head];
      if head != 0 {
        nonfullPrev := nonfullPrev[head := page];
      }
      nonfull := nonfull[c := page];
      info := info[page := info[page].(onNonfull := true)];
    }

    /** page_nonfull_insert */
    method NonfullInsert(page: nat)
      requires ListsOk(V()) && MembersBut(V(), page) && InList(V(), page, false) && page != 0
      modifies this`nonfull, this`nonfullPrev, this`nonfullNext, this`info, this`lists
      ensures old(page in info && info[page].cls < |nonfull| && info[page].cls < |lists|) && V() == Inserted(old(V()), page)
      ensures ListsOk(V()) && MembersBut(V(), page) && InList(V(), page, true)
    {
      hide ListsOk, MembersBut, InList;
      ghost var v := V();
      ListShape(v, page, false);
      InsertedOk(v, page);
      WriteInsert(page);
      lists := Inserted(v, page).lists;
    }

    /** The words that page_nonfull_remove writes. */
    method WriteRemove(page: nat)
      requires page in info && info[page].cls < |nonfull| && page in nonfullNext && page in nonfullPrev
      modifies this`nonfull, this`nonfullPrev, this`nonfullNext, this`info
      ensures var c := old(info[page].cls);
              && c < |old(nonfull)| && page in old(info) && page in old(nonfullNext) && page in old(nonfullPrev)
              && nonfullPrev == RemovePrev(old(nonfullNext), old(nonfullPrev), page)
              && nonfullNext == RemoveNext(old(nonfullNext), old(nonfullPrev), page)
              && nonfull == old(nonfull)[c := if old(nonfullPrev)[page] == 0 then old(nonfullNext)[page] else old(nonfull)[c]]
              && info == old(info)[page := old(info)[page].(onNonfull := false)]
    {
      var c := info[page].cls;
      var prev, next := nonfullPrev[page], nonfullNext[page];
      if prev != 0 {
        nonfullNext := nonfullNext[prev := next];
      } else {
        nonfull := nonfull[c := next];
      }
      if next != 0 {
        nonfullPrev := nonfullPrev[next := prev];
      }
      nonfullPrev := nonfullPrev[page := 0];
      nonfullNext := nonfullNext[page := 0];
      info := info[page := info[page].(onNonfull := false)];
    }

    /** page_nonfull_remove */
    method NonfullRemove(page: nat) returns (ghost k: nat)
      requires ListsOk(V()) && MembersBut(V(), page) && InList(V(), page, true)
      modifies this`nonfull, this`nonfullPrev, this`nonfullNext, this`info, this`lists
      ensures old(page in info && info[page].cls < |nonfull| && info[page].cls < |lists|) && k < |old(lists[info[page].cls])|
      ensures old(page in nonfullNext && page in nonfullPrev) && V() == Removed(old(V()), page, k)
      ensures ListsOk(V()) && MembersBut(V(), page) && InList(V(), page, false)
    {
      hide ListsOk, MembersBut, InList, Without;
      ghost var v := V();
      ListShape(v, page, true);
      ghost var c := info[page].cls;
      k :| k < |lists[c]| && lists[c][k] == page;
      RemovedOk(v, page, k);
      WriteRemove(page);
      lists := Removed(v, page, k).lists;
    }

    /** page_all_insert */
    method AllInsert(page: nat)
      modifies this`allPrev, this`allNext, this`allpages
      ensures allPrev == InsertPrev(old(allpages), old(allPrev), page) && allNext == old(allNext)[page := old(allpages)] && allpages == page
    {
      allPrev := allPrev[page := 0];
      allNext := allNext[page := allpages];
      if allpages != 0 {
        allPrev := allPrev[allpages := page];
      }
      allpages := page;
    }

    /** page_all_remove */
    method AllRemove(page: nat)
      requires page in allNext && page in allPrev
      modifies this`allPrev, this`allNext, this`allpages
      ensures old(page in allNext && page in allPrev)
      ensures allPrev == RemovePrev(old(allNext), old(allPrev), page) && allNext == RemoveNext(old(allNext), old(allPrev), page)
      ensures allpages == if old(allPrev)[page] == 0 then old(allNext)[page] else old(allpages)
    {
      var prev, next := allPrev[page], allNext[page];
      if prev != 0 {
        allNext := allNext[prev := next];
      } else {
        allpages := next;
      }
      if next != 0 {
        allPrev := allPrev[next := prev];
      }
      allPrev := allPrev[page := 0];
      allNext := allNext[page := 0];
    }

    /** The blocks of a valid allocator are apart. */
    lemma BackingApart()
      requires backing.Valid()
      ensures AllApart(backing.Live())
      ensures forall a :: a in backing.Live() ==> backing.Live()[a] > 0
    {
      hide MallocState.MallocState.Valid;
      forall a, b ensures BlocksApart(backing.Live(), a, b) {
        if a in backing.Live() && b in backing.Live() && a != b {
          backing.LiveApart(a, b);
        }
      }
      forall a | a in backing.Live() ensures backing.Live()[a] > 0 {
        backing.LivePositive(a);
      }
    }

    /** The allocator behind has nothing for a request: nothing free fits, and the operating system refuses more. */
    static ghost predicate Fails(n: nat, nothingFits: bool, refused: bool) {
      nothingFits && (refused || !MallocState.Askable(MallocState.Need(n)))
    }

    /** A new block of the allocator behind. */
    method FromBehind(n: nat) returns (mem: nat, ghost refused: bool)
      requires backing.Valid() && 0 < n < PowersOfTwo.W64
      modifies backing, backing.small, backing.tree
      ensures backing.Valid() && AllApart(backing.Live()) && backing.bytes == old(backing.bytes)
      ensures mem == 0 ==> backing.Live() == old(backing.Live()) && Fails(n, old(backing.NothingFits(MallocState.Need(n))), refused)
      ensures mem != 0 ==> Live.Allocated(old(backing.Live()), backing.Live(), mem, n)
    {
      hide MallocState.MallocState.Valid, MallocState.MallocState.Live, AllApart;
      mem, refused := backing.Alloc(0, 0, n);
      BackingApart();
    }

    /** The words of page_new: the header, and the list of all pages. */
    method LinkPage(page: nat, n: Info)
      requires page !in all
      modifies this`info, this`free, this`all, this`allPrev, this`allNext, this`allpages
      ensures V() == Linking(old(V()), page, n)
    {
      info := info[page := n];
      free := free[page := []];
      all := [page] + all;
      AllInsert(page);
    }

    /** The page is entered in both lists. */
    method OpenPage(page: nat, n: Info)
      requires PoolOk(V(), 0) && page !in all && page > 0 && page % 8 == 0
      requires Shape(n) && n.bump == 0 && n.busy == 0 && n.freeHead == 0
      requires forall q :: q in all && q in info ==> page + n.pageSize <= q || q + info[q].pageSize <= page
      modifies this`nonfull, this`nonfullPrev, this`nonfullNext, this`info, this`lists, this`free,
               this`all, this`allPrev, this`allNext, this`allpages
      ensures var v' := old(Linking(V(), page, n));
              && page in v'.info && v'.info[page].cls < |v'.nonfull| && v'.info[page].cls < |v'.lists| && V() == Inserted(v', page)
      ensures PoolOk(V(), page)
    {
      hide ListsOk, ContentOk, InList, MembersBut, Inserted, MembersOk, Shape, Linking;
      LinkingOk(V(), page, n);
      LinkPage(page, n);
      NonfullInsert(page);
    }

    /** page_new: an empty page, or zero if the allocator behind has no room for it */
    method PageNew(c: nat) returns (page: nat, ghost refused: bool)
      requires Valid() && c < CLASS_COUNT
      modifies this`nonfull, this`nonfullPrev, this`nonfullNext, this`info, this`lists, this`free,
               this`all, this`allPrev, this`allNext, this`allpages, backing, backing.small, backing.tree
      ensures backing.bytes == old(backing.bytes)
      ensures page == 0 ==> Valid() && |CLASS_SIZE| == CLASS_COUNT
                            && Fails(PageSizeOf(CLASS_SIZE[c]), old(backing.NothingFits(MallocState.Need(PageSizeOf(CLASS_SIZE[c])))), refused)
      ensures page != 0 ==> Ready(page) && page in all && page in info && info[page].cls == c && info[page].busy == 0 && HasRoom(info[page])
    {
      hide MallocState.MallocState.Valid, MallocState.MallocState.Live, ContentOk, ListsOk, MembersOk, MembersBut, InList,
           BackedOk, Inserted;
      ClassMultiple(c);
      var payload := CLASS_SIZE[c];
      var pageSize := PageSizeOf(payload);
      var stride := PREFIX_SIZE + payload;
      ghost var v, bl := V(), backing.Live();
      page, refused := FromBehind(pageSize);
      assert V() == v;
      if page == 0 {
        return;
      }
      var n := Info(0, MAGIC, pageSize, stride, (pageSize - DATA_OFFSET) / stride, 0, 0, payload, c, false);
      ShapeFacts(n);
      OpenedReady(v, bl, backing.Live(), self, page, n);
      OpenPage(page, n);
      InsertedRest(Linking(v, page, n), page);
    }

    /** The words that page_alloc_small writes for the block. */
    method GrabBlock(page: nat) returns (ptr: nat)
      requires page in info && NextPtr(page, info[page]) >= PREFIX_SIZE
      requires info[page].bump >= info[page].blockCount ==> info[page].freeHead in link
      modifies this`info, this`prefix
      ensures page in old(info) && ptr == NextPtr(page, old(info)[page]) && ptr >= PREFIX_SIZE
      ensures info == old(info)[page := NextInfo(old(info)[page], link)] && prefix == old(prefix)[ptr - PREFIX_SIZE := page]
    {
      var n := info[page];
      var block: nat;
      if n.bump < n.blockCount {
        block := page + DATA_OFFSET + n.bump * n.stride;
        info := info[page := n.(bump := n.bump + 1)];
        ptr := block + PREFIX_SIZE;
      } else {
        ptr := n.freeHead;
        info := info[page := n.(freeHead := link[ptr])];
        block := ptr - PREFIX_SIZE;
      }
      prefix := prefix[block := page];
      info := info[page := info[page].(busy := info[page].busy + 1)];
    }

    /** A page without room leaves the list of its class. */
    method LeaveIfFull(page: nat)
      requires backing.Valid() && AllApart(backing.Live()) && ContentOk(V(), 0) && BackedOk(V(), backing.Live(), self)
      requires ListsOk(V()) && MembersBut(V(), page) && InList(V(), page, true)
      requires page in all && page in info && info[page].busy <= info[page].blockCount && (HasRoom(info[page]) ==> MembersOk(V()))
      modifies this`nonfull, this`nonfullPrev, this`nonfullNext, this`info, this`lists
      ensures Valid()
    {
      hide MallocState.MallocState.Valid, MallocState.MallocState.Live, ContentOk, ListsOk, MembersOk, MembersBut, InList,
           BackedOk, AllApart, Removed;
      if info[page].busy == info[page].blockCount {
        ghost var v := V();
        ghost var k := NonfullRemove(page);
        RemovedRest(v, page, k);
        ContentSame(v, V(), 0);
        SameBacked(v, V(), backing.Live(), self);
      }
    }

    /** page_alloc_small, once there is a page with room */
    method AllocFromPage(page: nat, s: nat, ghost idle: nat) returns (ptr: nat)
      requires Ready(idle) && (idle == 0 || idle == page) && page in all && page in info && HasRoom(info[page]) && 0 < s <= info[page].payload
      modifies this`nonfull, this`nonfullPrev, this`nonfullNext, this`info, this`lists, this`free, this`prefix, this`size
      ensures Valid() && ptr >= PREFIX_SIZE && ptr % 8 == 0 && ptr !in old(size) && size == old(size)[ptr := s]
    {
      hide MallocState.MallocState.Valid, MallocState.MallocState.Live, ContentOk, ListsOk, MembersOk, MembersBut, InList,
           BackedOk, NextPtr, NextFree, NextInfo, AllApart, Pooled;
      ghost var v := V();
      NextReady(v, idle, backing.Live(), self, page, s);
      ghost var free' := NextFree(info[page], free[page]);
      ptr := GrabBlock(page);
      free := free[page := free'];
      size := size[ptr := s];
      assert V() == TakenNext(v, page, s);
      LeaveIfFull(page);
    }

    lemma PayloadOf(page: nat, idle: nat)
      requires Ready(idle) && page in all && page in info
      ensures Shape(info[page]) && page > 0 && page % 8 == 0 && page in free
    {
      hide ListsOk, MembersOk, BackedOk, AllApart, MallocState.MallocState.Valid;
      PageFacts(V(), page, idle);
    }

    /** Nothing free serves a request: no page of its class has a block left, and nothing behind fits a page; or it is large. */
    ghost predicate NothingFor(n: nat)
      requires n > 0
      reads this, backing, backing.small, backing.tree
    {
      if n <= MAX_SIZE then
        ClassIsLeast(n);
        ClassFull(V(), ClassOf(n)) && backing.NothingFits(MallocState.Need(PageSizeOf(CLASS_SIZE[ClassOf(n)])))
      else backing.NothingFits(MallocState.Need(n))
    }

    /** page_alloc_small; it fails only if there is no block of the class, and no memory for another page. */
    method PageAllocSmall(s: nat) returns (ptr: nat, ghost refused: bool)
      requires Valid() && 0 < s <= MAX_SIZE
      modifies this, backing, backing.small, backing.tree
      ensures Valid() && backing.bytes == old(backing.bytes)
      ensures ptr == 0 ==> size == old(size) && old(NothingFor(s)) && refused
      ensures !old(ClassFull(V(), ClassOf(s))) ==> ptr != 0 && backing.Live() == old(backing.Live())
      ensures ptr != 0 ==> ptr % 8 == 0 && ptr !in old(size) && size == old(size)[ptr := s]
    {
      hide MallocState.MallocState.Valid, MallocState.MallocState.Live, ContentOk, ListsOk, MembersOk, MembersBut, InList,
           BackedOk, AllApart, ClassFull, MallocState.MallocState.NothingFits, ClassOf, CLASS_SIZE;
      var c := ClassOf(s);
      ClassIsLeast(s);
      HeadOfClass(V(), c);
      EmptyListIsFull(V(), c);
      refused := false;
      var page := nonfull[c];
      ghost var idle := 0;
      if page == 0 {
        page, refused := PageNew(c);
        if page == 0 {
          ptr := 0;
          return;
        }
        idle := page;
      }
      PayloadOf(page, idle);
      ptr := AllocFromPage(page, s, idle);
    }

    /** page_from_ptr, with what it asserts */
    method PageFromPtr(ptr: nat) returns (page: nat)
      requires Valid() && ptr in size && size[ptr] <= MAX_SIZE
      ensures Pooled(V(), page, ptr) && size[ptr] <= info[page].payload
      ensures page != 0 && info[page].magic == MAGIC && page + DATA_OFFSET + PREFIX_SIZE <= ptr < page + info[page].pageSize
      ensures info[page].stride > 0 && (ptr - PREFIX_SIZE - (page + DATA_OFFSET)) % info[page].stride == 0
    {
      hide ContentOk, ListsOk, MembersOk, BackedOk, AllApart, IsBlock, MallocState.MallocState.Valid;
      PtrFacts(V(), ptr, 0);
      page := prefix[ptr - PREFIX_SIZE];
      PageFacts(V(), page, 0);
      ShapeOf(page, info[page], free[page], link, size);
      BlockInRegion(page, info[page], ptr);
    }

    /** The words of page_release: the page leaves the list of all pages, and loses its magic. */
    method ClosePage(page: nat)
      requires ListsOk(V()) && MembersBut(V(), page) && InList(V(), page, false) && page in all
      requires ContentOk(V(), page) && page in info && info[page].busy == 0 && BackedOk(V(), backing.Live(), self)
      modifies this`allPrev, this`allNext, this`allpages, this`all, this`info
      ensures page >= 16 && page - 16 in backing.Live() && PoolOk(V(), 0) && BackedOk(V(), backing.Live() - {page - 16}, self)
    {
      hide MallocState.MallocState.Valid, MallocState.MallocState.Live, ContentOk, ListsOk, MembersOk, MembersBut, InList, BackedOk;
      ghost var v := V();
      ghost var k :| 0 <= k < |all| && all[k] == page;
      ReleasedReady(v, backing.Live(), self, k);
      AllRemove(page);
      all := Without(all, k);
      info := info[page := info[page].(magic := 0)];
      assert V() == Released(v, k);
    }

    /** page_release: an empty page goes back to the allocator behind */
    method PageRelease(page: nat)
      requires Ready(page) && page in all && page in info && info[page].busy == 0
      modifies this, backing, backing.small, backing.tree
      ensures Valid() && size == old(size) && backing.bytes == old(backing.bytes)
    {
      hide MallocState.MallocState.Valid, MallocState.MallocState.Live, ContentOk, ListsOk, MembersOk, MembersBut, InList,
           BackedOk, AllApart, Removed, Unlinked, PageOk;
      var pageSize := info[page].pageSize;
      ghost var v, bl := V(), backing.Live();
      PageFacts(v, page, page);
      BusyBound(page, info[page], free[page], link, size);
      InClassList(v, page);
      if info[page].onNonfull {
        ghost var k := NonfullRemove(page);
        RemovedRest(v, page, k);
      }
      ContentSame(v, V(), page);
      SameBacked(v, V(), bl, self);
      ClosePage(page);
      var none, _ := backing.Alloc(page, pageSize, 0);
      BackingApart();
    }

    /** The words of page_free_small, on a page that has room or is entered in its list first. */
    method PutBlock(page: nat, ptr: nat)
      requires page in info && info[page].busy > 0
      modifies this`info, this`link
      ensures page in old(info) && old(info)[page].busy > 0
      ensures info == old(info)[page := old(info)[page].(freeHead := ptr, busy := old(info)[page].busy - 1)]
      ensures link == old(link)[ptr := old(info)[page].freeHead]
    {
      link := link[ptr := info[page].freeHead];
      info := info[page := info[page].(freeHead := ptr)];
      info := info[page := info[page].(busy := info[page].busy - 1)];
    }

    /** page_free_small */
    method PageFreeSmall(ptr: nat, osize: nat)
      requires Valid() && ptr in size && osize == size[ptr] <= MAX_SIZE
      modifies this, backing, backing.small, backing.tree
      ensures Valid() && size == old(size) - {ptr} && backing.bytes == old(backing.bytes)
    {
      hide MallocState.MallocState.Valid, MallocState.MallocState.Live, ContentOk, ListsOk, MembersOk, MembersBut, InList,
           BackedOk, AllApart, PageOk, Inserted;
      ghost var v, bl := V(), backing.Live();
      var page := PageFromPtr(ptr);
      EnterIfFull(page, ptr);
      GivenReady(v, V(), bl, self, page, ptr);
      ghost var v1 := V();
      PutBlock(page, ptr);
      free := free[page := [ptr] + free[page]];
      size := size - {ptr};
      assert V() == Given(v1, page, ptr);
      if info[page].busy == 0 {
        PageRelease(page);
      }
    }

    /** A full page is entered in the list of its class, since it is about to have room. */
    method EnterIfFull(page: nat, ghost ptr: nat)
      requires Valid() && Pooled(V(), page, ptr)
      modifies this`nonfull, this`nonfullPrev, this`nonfullNext, this`info, this`lists
      ensures V().info == old(info)[page := old(info)[page].(onNonfull := true)]
      ensures ListsOk(V()) && MembersBut(V(), page) && InList(V(), page, true)
    {
      hide MallocState.MallocState.Valid, MallocState.MallocState.Live, ContentOk, ListsOk, MembersOk, MembersBut, InList,
           BackedOk, AllApart, PageOk, Inserted;
      ghost var v := V();
      PageFacts(v, page, 0);
      BusyBound(page, info[page], free[page], link, size);
      InClassList(v, page);
      PayloadOf(page, 0);
      if info[page].busy == info[page].blockCount {
        NonfullInsert(page);
        InsertedRest(v, page);
      }
    }

    // ----------------------------------------------------------------
    // lj_page_alloc_f

    /** A large block comes from the allocator behind. */
    method LargeAlloc(nsize: nat) returns (mem: nat, ghost refused: bool)
      requires Valid() && MAX_SIZE < nsize < PowersOfTwo.W64
      modifies this`size, backing, backing.small, backing.tree
      ensures Valid() && backing.bytes == old(backing.bytes)
      ensures mem == 0 ==> size == old(size) && Fails(nsize, old(NothingFor(nsize)), refused)
      ensures mem != 0 ==> mem % 8 == 0 && mem !in old(size) && size == old(size)[mem := nsize]
    {
      hide MallocState.MallocState.Valid, MallocState.MallocState.Live, PoolOk, BackedOk, AllApart;
      ghost var v, bl := V(), backing.Live();
      mem, refused := FromBehind(nsize);
      assert V() == v;
      if mem != 0 {
        LargeAdded(v, bl, backing.Live(), self, mem, nsize);
        size := size[mem := nsize];
        assert V() == v.(size := v.size[mem := nsize]);
      }
    }

    method LargeFree(ptr: nat, osize: nat)
      requires Valid() && ptr in size && osize == size[ptr] > MAX_SIZE
      modifies this`size, backing, backing.small, backing.tree
      ensures Valid() && size == old(size) - {ptr} && backing.bytes == old(backing.bytes)
    {
      hide MallocState.MallocState.Valid, MallocState.MallocState.Live, PoolOk, BackedOk, AllApart;
      ghost var v := V();
      LargeRemoved(v, backing.Live(), self, ptr);
      var none, _ := backing.Alloc(ptr, osize, 0);
      BackingApart();
      size := size - {ptr};
      assert V() == v.(size := v.size - {ptr});
    }

    method LargeRealloc(ptr: nat, osize: nat, nsize: nat) returns (mem: nat, ghost refused: bool)
      requires Valid() && ptr in size && osize == size[ptr] > MAX_SIZE && MAX_SIZE < nsize < PowersOfTwo.W64
      modifies this`size, backing, backing.small, backing.tree
      ensures Valid()
      ensures mem == 0 ==> size == old(size) && backing.bytes == old(backing.bytes)
      ensures mem == 0 && nsize < MallocState.MAX_REQUEST ==> Fails(nsize, old(NothingFor(nsize)), refused)
      ensures nsize < MallocState.MAX_REQUEST && old(StaysInPlace(ptr, nsize)) ==> mem == ptr
      ensures mem != 0 ==> Replaced(old(size), size, ptr, mem, nsize)
                           && MallocState.Moved(old(backing.bytes), backing.bytes, ptr, mem, MallocState.Min(osize, nsize))
      ensures UsersKept(old(size), old(backing.bytes), backing.bytes, ptr)
    {
      hide MallocState.MallocState.Valid, MallocState.MallocState.Live, ContentOk, ListsOk, MembersOk, BackedOk, AllApart;
      ghost var bl: map<nat, nat> := backing.Live();
      ghost var v, bytes := V(), backing.bytes;
      LargeRemoved(v, bl, self, ptr);
      ghost var rest: map<nat, nat> := bl - {ptr - 16};
      mem, refused := backing.Alloc(ptr, osize, nsize);
      BackingApart();
      KeptBehind(v, bl, self, ptr, bytes, backing.bytes);
      if mem != 0 {
        ghost var v1 := v.(size := v.size - {ptr});
        LargeAdded(v1, rest, backing.Live(), self, mem, nsize);
        size := (size - {ptr})[mem := nsize];
        assert V() == v1.(size := v1.size[mem := nsize]);
        ShorterMove(bytes, backing.bytes, ptr, mem, MallocState.Min(bl[ptr - 16], nsize), MallocState.Min(osize, nsize));
      }
    }

    /** The block at `ptr` need not move for `n` bytes: a pooled one has room for them, or the allocator behind can keep it. */
    ghost predicate StaysInPlace(ptr: nat, n: nat)
      requires ptr in size
      reads this, backing
    {
      if size[ptr] <= MAX_SIZE then exists page :: Pooled(V(), page, ptr) && n <= info[page].payload
      else n > MAX_SIZE && ptr >= 16 && backing.FitsInPlace(ptr - 16, MallocState.RequestSize(n))
    }

    /** memcpy from one live block into another */
    method CopyBlock(dst: nat, src: nat, n: nat)
      requires Valid() && dst in size && src in size && dst != src && n <= size[dst] && n <= size[src]
      modifies backing`bytes
      ensures Valid() && UsersKept(size, old(backing.bytes), backing.bytes, dst)
      ensures MallocState.Moved(old(backing.bytes), backing.bytes, src, dst, n)
    {
      hide MallocState.MallocState.Valid, MallocState.MallocState.Live, PoolOk, BackedOk, AllApart;
      ghost var bytes, bl := backing.bytes, backing.Live();
      OthersApart(dst);
      OthersApart(src);
      backing.Memcpy(dst, src, n);
      assert UsersKept(size, bytes, backing.bytes, dst);
    }

    /** The words that this front end writes are not in the bytes of any live pointer. */
    lemma OwnWordsApart(x: nat, y: nat)
      requires Valid() && x in size && x <= y < x + size[x]
      ensures !OwnByte(V(), self, y)
    {
      hide MallocState.MallocState.Valid, MallocState.MallocState.Live, ContentOk, ListsOk, MembersOk, BackedOk, AllApart;
      MetadataOutsideLive(V(), backing.Live(), self, x, y);
    }

    lemma OthersApart(x: nat)
      requires Valid() && x in size
      ensures forall y :: y in size && y != x ==> x + size[x] <= y || y + size[y] <= x
    {
      hide MallocState.MallocState.Valid, MallocState.MallocState.Live, ContentOk, ListsOk, MembersOk, BackedOk, AllApart;
      forall y | y in size && y != x ensures x + size[x] <= y || y + size[y] <= x {
        PointersApart(V(), backing.Live(), self, x, y);
      }
    }

    /** The cases of lj_page_alloc_f that move a block from one owner to another, or from page to page. */
    method MoveBlock(ptr: nat, osize: nat, nsize: nat) returns (mem: nat, ghost refused: bool)
      requires Valid() && ptr in size && osize == size[ptr] && 0 < nsize < PowersOfTwo.W64 && (osize <= MAX_SIZE || nsize <= MAX_SIZE)
      modifies this, backing, backing.small, backing.tree
      ensures Valid()
      ensures mem == 0 ==> size == old(size) && backing.bytes == old(backing.bytes) && Fails(nsize, old(NothingFor(nsize)), refused)
      ensures mem != 0 ==> Replaced(old(size), size, ptr, mem, nsize) && mem != ptr
                           && MallocState.Moved(old(backing.bytes), backing.bytes, ptr, mem, MallocState.Min(osize, nsize))
      ensures UsersKept(old(size), old(backing.bytes), backing.bytes, ptr)
    {
      hide MallocState.MallocState.Valid, MallocState.MallocState.Live, PoolOk, BackedOk, AllApart, NothingFor, ClassFull;
      if nsize <= MAX_SIZE {
        mem, refused := PageAllocSmall(nsize);
      } else {
        mem, refused := LargeAlloc(nsize);
      }
      if mem == 0 {
        return;
      }
      var copysize := if osize < nsize then osize else nsize;
      CopyBlock(mem, ptr, copysize);
      KeptFewer(old(size), size, old(backing.bytes), backing.bytes, mem, ptr);
      if osize <= MAX_SIZE {
        PageFreeSmall(ptr, osize);
      } else {
        LargeFree(ptr, osize);
      }
      assert (old(size)[mem := nsize]) - {ptr} == (old(size) - {ptr})[mem := nsize];
    }

    /** lj_page_alloc_f: `osize` tells who owns `ptr` */
    method Alloc(ptr: nat, osize: nat, nsize: nat) returns (mem: nat, ghost refused: bool)
      requires Valid() && nsize < PowersOfTwo.W64 && (ptr != 0 ==> ptr in size && osize == size[ptr])
      modifies this, backing, backing.small, backing.tree
      ensures Valid()
      ensures nsize == 0 ==> mem == 0 && size == if ptr == 0 then old(size) else old(size) - {ptr}
      ensures nsize > 0 && mem == 0 ==> size == old(size)
      ensures 0 < nsize < MallocState.MAX_REQUEST && mem == 0 ==> Fails(nsize, old(NothingFor(nsize)), refused)
      ensures ptr != 0 && 0 < nsize < MallocState.MAX_REQUEST && old(StaysInPlace(ptr, nsize)) ==> mem == ptr
      ensures ptr != 0 && osize <= MAX_SIZE && mem == ptr ==> old(StaysInPlace(ptr, nsize))
      ensures nsize == 0 || mem == 0 || ptr == 0 ==> backing.bytes == old(backing.bytes)
      ensures nsize > 0 && mem != 0 && ptr == 0 ==> mem % 8 == 0 && mem !in old(size) && size == old(size)[mem := nsize]
      ensures nsize > 0 && mem != 0 && ptr != 0 ==>
                Replaced(old(size), size, ptr, mem, nsize)
                && MallocState.Moved(old(backing.bytes), backing.bytes, ptr, mem, MallocState.Min(osize, nsize))
      ensures UsersKept(old(size), old(backing.bytes), backing.bytes, ptr)
    {
      hide MallocState.MallocState.Valid, MallocState.MallocState.Live, PoolOk, BackedOk, AllApart, NothingFor, ClassFull;
      mem, refused := 0, false;
      if ptr == 0 {
        if nsize == 0 {
          return;
        }
        if nsize <= MAX_SIZE {
          mem, refused := PageAllocSmall(nsize);
        } else {
          mem, refused := LargeAlloc(nsize);
        }
        return;
      }
      if nsize == 0 {
        if osize <= MAX_SIZE {
          PageFreeSmall(ptr, osize);
        } else {
          LargeFree(ptr, osize);
        }
        return;
      }
      if osize <= MAX_SIZE {
        var page := PageFromPtr(ptr);
        if nsize <= info[page].payload {
          Resize(page, ptr, nsize);
          mem := ptr;
          return;
        }
        mem, refused := MoveBlock(ptr, osize, nsize);
      } else if nsize <= MAX_SIZE {
        mem, refused := MoveBlock(ptr, osize, nsize);
      } else {
        mem, refused := LargeRealloc(ptr, osize, nsize);
      }
    }

    /** A block that is large enough stays; only what the caller calls its size is new. */
    ghost method Resize(page: nat, ptr: nat, nsize: nat)
      requires Valid() && Pooled(V(), page, ptr) && 0 < nsize <= info[page].payload
      modifies this`size
      ensures Valid() && Replaced(old(size), size, ptr, ptr, nsize)
    {
      hide MallocState.MallocState.Valid, MallocState.MallocState.Live, ContentOk, ListsOk, MembersOk, BackedOk, AllApart, IsBlock;
      ghost var v := V();
      PayloadOf(page, 0);
      ShapeFacts(info[page]);
      ResizedInPlace(v, backing.Live(), self, page, ptr, nsize);
      RegionOf(v, 0, page, ptr);
      size := size[ptr := nsize];
      assert V() == v.(size := v.size[ptr := nsize]);
    }

    /** The loop of lj_page_alloc_destroy: every page goes back once, then the state itself. */
    method GiveBack()
      requires Valid()
      modifies this, backing, backing.small, backing.tree
      ensures backing.Valid() && forall a :: a in backing.Live() <==> a in old(backing.Live()) && a + 16 in old(size) && old(size)[a + 16] > MAX_SIZE
    {
      hide MallocState.MallocState.Valid, MallocState.MallocState.Live, ContentOk, ListsOk, MembersOk, BackedOk, AllApart, Linked;
      ghost var bl: map<nat, nat> := backing.Live();
      ghost var v := V();
      ghost var k := 0;
      DestroyFacts(v, bl);
      var page := allpages;
      while page != 0
        invariant 0 <= k <= |all| && page == At(all, k)
        invariant V() == v && backing.Valid()
        invariant forall a :: a in backing.Live() <==> a in bl && a + 16 !in all[..k]
        decreases |all| - k
      {
        ElementFacts(v, k);
        PageBlock(v, bl, k);
        var next := allNext[page];
        var none, _ := backing.Alloc(page, info[page].pageSize, 0);
        page := next;
        k := k + 1;
        assert all[..k] == all[..k - 1] + [all[k - 1]];
      }
      AllGone(v, k);
      SelfBlock(v, bl);
      var none, _ := backing.Alloc(self, STATE_SIZE, 0);
      forall a: nat ensures a in backing.Live() <==> a in bl && a + 16 in v.size && v.size[a + 16] > MAX_SIZE {
        OwnerOf(v, bl, a);
      }
    }

    /**
     lj_page_alloc_destroy.  What is left mapped is what the operating system has refused to
     unmap, and large blocks that callers have not given back.
     */
    method Destroy() returns (ghost kept: set<nat>)
      requires Valid()
      modifies this, backing, backing.small, backing.tree
      ensures forall x :: x in backing.mapped <==> x in kept || exists p :: Mapping.InDirect(backing.direct, p, x)
      ensures kept <= Mapping.SegBytes(backing.segs)
      ensures forall p :: p in backing.direct ==> p + 16 in old(size) && old(size)[p + 16] > MAX_SIZE
    {
      hide MallocState.MallocState.Valid, ContentOk, ListsOk, MembersOk, BackedOk, AllApart;
      GiveBack();
      forall p | p in backing.direct ensures p in backing.Live() {
      }
      kept := backing.Destroy();
    }

    lemma DestroyFacts(v: Pool, bl: map<nat, nat>)
      requires Valid() && v == V() && bl == backing.Live()
      ensures v.allpages == At(v.all, 0) && Linked(v.allpages, v.all, v.allNext, v.allPrev) && BackedOk(v, bl, self)
    {
      hide MallocState.MallocState.Valid, MallocState.MallocState.Live, BackedOk;
    }

    lemma ElementFacts(v: Pool, k: nat)
      requires Linked(v.allpages, v.all, v.allNext, v.allPrev) && At(v.all, k) != 0
      ensures k < |v.all| && v.all[k] in v.allNext && v.allNext[v.all[k]] == At(v.all, k + 1) && v.all[k] !in v.all[..k]
    {
      assert ElementOk(v.all, k, v.allNext, v.allPrev);
    }

    lemma AllGone(v: Pool, k: nat)
      requires Linked(v.allpages, v.all, v.allNext, v.allPrev) && k <= |v.all| && At(v.all, k) == 0
      ensures v.all[..k] == v.all
    {
      assert k < |v.all| ==> ElementOk(v.all, k, v.allNext, v.allPrev);
    }

    lemma PageBlock(v: Pool, bl: map<nat, nat>, k: nat)
      requires BackedOk(v, bl, self) && k < |v.all|
      ensures v.all[k] in v.info && v.all[k] >= 16 && v.all[k] - 16 in bl
    {
      PageIsBacked(v, bl, self, v.all[k]);
    }

    lemma SelfBlock(v: Pool, bl: map<nat, nat>)
      requires BackedOk(v, bl, self)
      ensures self >= 16 && self - 16 in bl && self !in v.all && (self in v.size ==> v.size[self] <= MAX_SIZE)
    {
      SelfBacked(v, bl, self);
      if self in v.all {
        PageIsBacked(v, bl, self, self);
      }
      if self in v.size && v.size[self] > MAX_SIZE {
        LargeIsBacked(v, bl, self, self);
      }
    }

    lemma OwnerOf(v: Pool, bl: map<nat, nat>, a: nat)
      requires BackedOk(v, bl, self)
      ensures a in bl && a + 16 !in v.all && a + 16 != self ==> a + 16 in v.size && v.size[a + 16] > MAX_SIZE
      ensures a + 16 in v.size && v.size[a + 16] > MAX_SIZE ==> a + 16 !in v.all && a + 16 != self
    {
      OwnedIn(v, bl, self);
      assert a in bl ==> Owned(v, self, a);
      if a + 16 in v.size && v.size[a + 16] > MAX_SIZE {
        LargeIsBacked(v, bl, self, a + 16);
        if a + 16 in v.all {
          PageIsBacked(v, bl, self, a + 16);
        }
      }
    }

    lemma ShorterMove(b: map<nat, nat>, b': map<nat, nat>, a: nat, a': nat, n: nat, m: nat)
      requires MallocState.Moved(b, b', a, a', n) && m <= n
      ensures MallocState.Moved(b, b', a, a', m)
    {
    }
  }

  /** The block at `ptr` was given up for one of `n` bytes at `mem`; they may be the same. */
  ghost predicate Replaced(size: map<nat, nat>, size': map<nat, nat>, ptr: nat, mem: nat, n: nat) {
    mem % 8 == 0 && (mem == ptr || mem !in size) && size' == (size - {ptr})[mem := n]
  }

  /**
   lj_page_alloc_create, once the allocator behind was created in a region at `tbase`.  The region has room
   for the state, so that the branch is never taken in which there is none.
   */
  method Create(tbase: nat) returns (pas: PageAllocState)
    requires tbase > 0 && tbase % 8 == 0 && tbase + Segments.DEFAULT_GRANULARITY < Tiling.ADDRESS_LIMIT
    ensures pas.Valid() && pas.size == map[] && pas.all == []
  {
    hide MallocState.MallocState.Valid, MallocState.MallocState.Live;
    var backing := new MallocState.MallocState(tbase);
    var mem, _ := backing.Alloc(0, 0, STATE_SIZE);
    if mem == 0 {
      assert false;
    }
    pas := new PageAllocState(backing, mem);
  }
}
