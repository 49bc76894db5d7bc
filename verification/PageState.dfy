/**
 The state of the paged allocator front end (src/lj_alloc_page.c) as a value:
 what holds between calls, and what the changes of one page keep.
 */
module PageState {
  import opened PageLists
  import opened PagePool

  /**
   The words of all pages, with one map per link field; `lists`, `all` and `free`
   say which lists the words form, and `size` maps each live pointer to the size
   that its owner has asked for last.
   */
  datatype Pool = Pool(
    info: map<nat, Info>, nonfull: seq<nat>, allpages: nat,
    nonfullNext: Words, nonfullPrev: Words, allNext: Words, allPrev: Words,
    prefix: Words, link: Words,
    lists: seq<seq<nat>>, all: seq<nat>, free: map<nat, seq<nat>>, size: map<nat, nat>)

  // ------------------------------------------------------------------
  // Lists

  ghost predicate ListOk(v: Pool, c: nat)
    requires c < |v.nonfull| && c < |v.lists|
  {
    Linked(v.nonfull[c], v.lists[c], v.nonfullNext, v.nonfullPrev)
  }

  ghost predicate ListsOk(v: Pool) {
    && |v.nonfull| == |v.lists| == CLASS_COUNT
    && Linked(v.allpages, v.all, v.allNext, v.allPrev)
    && (forall c {:trigger ListOk(v, c)} :: 0 <= c < CLASS_COUNT ==> ListOk(v, c))
  }

  ghost predicate HasRoom(n: Info) {
    n.busy < n.blockCount
  }

  /** The list of a class holds exactly the pages of the class that are not full, and their flags say so. */
  ghost predicate Listed(v: Pool, p: nat)
    requires |v.lists| == CLASS_COUNT
  {
    && (p in v.all && p in v.info ==> (v.info[p].onNonfull <==> HasRoom(v.info[p])))
    && forall c :: 0 <= c < CLASS_COUNT ==>
         (p in v.lists[c] <==> p in v.all && p in v.info && v.info[p].cls == c && HasRoom(v.info[p]))
  }

  ghost predicate MembersOk(v: Pool) {
    |v.lists| == CLASS_COUNT && forall p {:trigger Listed(v, p)} :: Listed(v, p)
  }

  // ------------------------------------------------------------------
  // Pages and pointers

  ghost predicate PageAt(v: Pool, p: nat, idle: nat) {
    && p in v.info && p in v.free && PageOk(p, v.info[p], v.free[p], v.link, v.size)
    && (p != idle ==> v.info[p].busy > 0)
  }

  ghost predicate PtrAt(v: Pool, ptr: nat) {
    ptr in v.size ==> PtrOk(ptr, v.size[ptr], v.prefix, v.info, v.all)
  }

  /** Two pages do not overlap. */
  ghost predicate PagesApart(v: Pool, p: nat, q: nat) {
    p in v.info && q in v.info && p != q ==> p + v.info[p].pageSize <= q || q + v.info[q].pageSize <= p
  }

  /** Page `idle` may be without busy blocks; zero if there is no such page. */
  ghost predicate ContentOk(v: Pool, idle: nat) {
    && (forall p {:trigger PageAt(v, p, idle)} :: p in v.all ==> PageAt(v, p, idle))
    && (forall ptr {:trigger PtrAt(v, ptr)} :: PtrAt(v, ptr))
    && (forall p, q {:trigger PagesApart(v, p, q)} :: p in v.all && q in v.all ==> PagesApart(v, p, q))
  }

  ghost predicate PoolOk(v: Pool, idle: nat) {
    ListsOk(v) && MembersOk(v) && ContentOk(v, idle)
  }

  lemma PageFacts(v: Pool, p: nat, idle: nat)
    requires ContentOk(v, idle) && p in v.all
    ensures PageAt(v, p, idle)
  {
  }

  lemma ApartFacts(v: Pool, p: nat, q: nat, idle: nat)
    requires ContentOk(v, idle) && p in v.all && q in v.all
    ensures PagesApart(v, p, q)
  {
  }

  lemma PtrFacts(v: Pool, ptr: nat, idle: nat)
    requires ContentOk(v, idle) && ptr in v.size
    ensures PtrOk(ptr, v.size[ptr], v.prefix, v.info, v.all)
  {
    assert PtrAt(v, ptr);
  }

  lemma ContentFrom(v: Pool, idle: nat)
    requires forall p :: p in v.all ==> PageAt(v, p, idle)
    requires forall ptr :: PtrAt(v, ptr)
    requires forall p, q :: p in v.all && q in v.all ==> PagesApart(v, p, q)
    ensures ContentOk(v, idle)
  {
  }

  lemma BlockInRegion(p: nat, n: Info, ptr: nat)
    requires Shape(n) && p % 8 == 0 && n.bump <= n.blockCount && IsBlock(p, n, ptr)
    ensures p + DATA_OFFSET + PREFIX_SIZE <= ptr && ptr + n.payload <= p + n.pageSize && ptr % 8 == 0 && n.payload > 0
    ensures n.stride > 0 && (ptr - PREFIX_SIZE - (p + DATA_OFFSET)) % n.stride == 0
  {
    var i: nat :| i < n.bump && ptr == Ptr(p, n.stride, i);
    PtrInPage(p, n, i);
    ShapeFacts(n);
  }

  lemma RegionOf(v: Pool, idle: nat, p: nat, ptr: nat)
    requires ContentOk(v, idle) && p in v.all && p in v.info && IsBlock(p, v.info[p], ptr)
    ensures p + DATA_OFFSET + PREFIX_SIZE <= ptr && ptr + v.info[p].payload <= p + v.info[p].pageSize && v.info[p].payload > 0
    ensures ptr % 8 == 0
  {
    PageFacts(v, p, idle);
    BlockInRegion(p, v.info[p], ptr);
  }

  /** A block is in one page only. */
  lemma OnePage(v: Pool, idle: nat, p: nat, q: nat, ptr: nat)
    requires ContentOk(v, idle) && p in v.all && q in v.all && p in v.info && q in v.info
    requires IsBlock(q, v.info[q], ptr) && p <= ptr < p + v.info[p].pageSize
    ensures p == q
  {
    RegionOf(v, idle, q, ptr);
    ApartFacts(v, p, q, idle);
  }

  // ------------------------------------------------------------------
  // Changes of one page

  function Taken(v: Pool, p: nat, n': Info, free': seq<nat>, ptr: nat, s: nat): Pool
    requires ptr >= PREFIX_SIZE
  {
    v.(info := v.info[p := n'], free := v.free[p := free'], prefix := v.prefix[ptr - PREFIX_SIZE := p], size := v.size[ptr := s])
  }

  /** The block that page `p` hands out may be its next one, or one from its free list. */
  ghost predicate CanTake(v: Pool, idle: nat, p: nat, n': Info, free': seq<nat>, ptr: nat, s: nat) {
    && ContentOk(v, idle) && (idle == 0 || idle == p) && p in v.all && p in v.info && ptr !in v.size
    && SameShape(v.info[p], n') && n'.bump >= v.info[p].bump && n'.busy > 0
    && 0 < s <= n'.payload && PageOk(p, n', free', v.link, v.size[ptr := s]) && IsBlock(p, n', ptr)
  }

  lemma MoreBlocks(p: nat, n: Info, n': Info, x: nat)
    requires IsBlock(p, n, x) && n'.stride == n.stride && n'.bump >= n.bump
    ensures IsBlock(p, n', x)
  {
    var i: nat :| i < n.bump && x == Ptr(p, n.stride, i);
    assert x == Ptr(p, n'.stride, i);
  }

  lemma TakenPages(v: Pool, idle: nat, p: nat, n': Info, free': seq<nat>, ptr: nat, s: nat, q: nat)
    requires CanTake(v, idle, p, n', free', ptr, s) && ptr >= PREFIX_SIZE && q in v.all
    ensures PageAt(Taken(v, p, n', free', ptr, s), q, 0)
  {
    hide ContentOk, PageOk, IsBlock;
    PageFacts(v, q, idle);
    PageFacts(v, p, idle);
    ShapeOf(p, n', free', v.link, v.size[ptr := s]);
    BlockInRegion(p, n', ptr);
    if q != p {
      if IsBlock(q, v.info[q], ptr) {
        OnePage(v, idle, p, q, ptr);
      }
      OtherPage(q, v.info[q], v.free[q], v.link, v.size, ptr, v.link, v.size[ptr := s]);
    }
  }

  lemma ShapeOf(p: nat, n: Info, free: seq<nat>, link: Words, size: map<nat, nat>)
    requires PageOk(p, n, free, link, size)
    ensures Shape(n) && p > 0 && p % 8 == 0 && n.bump <= n.blockCount
  {
  }

  lemma TakenPtrs(v: Pool, idle: nat, p: nat, n': Info, free': seq<nat>, ptr: nat, s: nat, x: nat)
    requires CanTake(v, idle, p, n', free', ptr, s) && ptr >= PREFIX_SIZE
    ensures PtrAt(Taken(v, p, n', free', ptr, s), x)
  {
    hide ContentOk, PageOk, IsBlock;
    if x in v.size && x != ptr {
      PtrFacts(v, x, idle);
      if v.size[x] <= MAX_SIZE && v.prefix[x - PREFIX_SIZE] == p {
        MoreBlocks(p, v.info[p], n', x);
      }
    }
  }

  lemma TakenContent(v: Pool, idle: nat, p: nat, n': Info, free': seq<nat>, ptr: nat, s: nat)
    requires CanTake(v, idle, p, n', free', ptr, s) && ptr >= PREFIX_SIZE
    ensures ContentOk(Taken(v, p, n', free', ptr, s), 0)
  {
    hide ContentOk, PageOk, IsBlock, PtrOk, Shape;
    var v' := Taken(v, p, n', free', ptr, s);
    forall q | q in v'.all ensures PageAt(v', q, 0) {
      TakenPages(v, idle, p, n', free', ptr, s, q);
    }
    forall x: nat ensures PtrAt(v', x) {
      TakenPtrs(v, idle, p, n', free', ptr, s, x);
    }
    forall q, r | q in v'.all && r in v'.all ensures PagesApart(v', q, r) {
      PageFacts(v, q, idle);
      PageFacts(v, r, idle);
      ApartFacts(v, q, r, idle);
    }
    ContentFrom(v', 0);
  }

  function Given(v: Pool, p: nat, ptr: nat): Pool
    requires p in v.info && p in v.free && v.info[p].busy > 0
  {
    var n := v.info[p];
    v.(info := v.info[p := n.(freeHead := ptr, busy := n.busy - 1)], free := v.free[p := [ptr] + v.free[p]],
       link := v.link[ptr := n.freeHead], size := v.size - {ptr})
  }

  /** `ptr` is a live pooled pointer, and `p` is its page. */
  ghost predicate Pooled(v: Pool, p: nat, ptr: nat) {
    && ptr in v.size && v.size[ptr] <= MAX_SIZE && ptr >= PREFIX_SIZE && ptr - PREFIX_SIZE in v.prefix
    && p == v.prefix[ptr - PREFIX_SIZE] && p in v.all && p in v.info && IsBlock(p, v.info[p], ptr)
  }

  lemma GivenContent(v: Pool, p: nat, ptr: nat)
    requires ContentOk(v, 0) && Pooled(v, p, ptr)
    ensures p in v.free && v.info[p].busy > 0 && ContentOk(Given(v, p, ptr), p)
  {
    hide ContentOk, PageOk, IsBlock, Shape;
    PageFacts(v, p, 0);
    LiveIsBusy(p, v.info[p], v.free[p], v.link, v.size, ptr);
    var v' := Given(v, p, ptr);
    forall q | q in v'.all ensures PageAt(v', q, p) {
      GivenPages(v, p, ptr, q);
    }
    forall x: nat ensures PtrAt(v', x) {
      if x in v'.size {
        PtrFacts(v, x, 0);
        if v.size[x] <= MAX_SIZE && v.prefix[x - PREFIX_SIZE] == p {
          MoreBlocks(p, v.info[p], v'.info[p], x);
        }
      }
    }
    forall q, r | q in v'.all && r in v'.all ensures PagesApart(v', q, r) {
      PageFacts(v, q, 0);
      PageFacts(v, r, 0);
      ApartFacts(v, q, r, 0);
    }
    ContentFrom(v', p);
  }

  lemma GivenPages(v: Pool, p: nat, ptr: nat, q: nat)
    requires ContentOk(v, 0) && Pooled(v, p, ptr) && q in v.all && p in v.free && v.info[p].busy > 0
    ensures PageAt(Given(v, p, ptr), q, p)
  {
    hide ContentOk, PageOk, IsBlock;
    PageFacts(v, p, 0);
    PageFacts(v, q, 0);
    RegionOf(v, 0, p, ptr);
    var n := v.info[p];
    if q == p {
      GiveBack(p, n, v.free[p], v.link, v.size, ptr);
    } else {
      if IsBlock(q, v.info[q], ptr) {
        OnePage(v, 0, p, q, ptr);
      }
      OtherPage(q, v.info[q], v.free[q], v.link, v.size, ptr, v.link[ptr := n.freeHead], v.size - {ptr});
    }
  }

  /** A new page without blocks. */
  function Opened(v: Pool, p: nat, n: Info): Pool {
    v.(info := v.info[p := n], free := v.free[p := []], all := [p] + v.all)
  }

  lemma OpenedContent(v: Pool, p: nat, n: Info)
    requires ContentOk(v, 0) && p !in v.all && p > 0 && p % 8 == 0
    requires Shape(n) && n.bump == 0 && n.busy == 0 && n.freeHead == 0
    requires forall q :: q in v.all && q in v.info ==> p + n.pageSize <= q || q + v.info[q].pageSize <= p
    ensures ContentOk(Opened(v, p, n), p)
  {
    hide ContentOk, PageOk, IsBlock, Shape;
    var v' := Opened(v, p, n);
    NewPageOk(p, n, v.link, v.size);
    forall q | q in v'.all ensures PageAt(v', q, p) {
      if q != p {
        assert q in v.all;
        PageFacts(v, q, 0);
        ShapeOf(q, v.info[q], v.free[q], v.link, v.size);
      } else {
        assert v'.free[p] == [] && v'.info[p] == n;
      }
    }
    forall x: nat ensures PtrAt(v', x) {
      if x in v.size {
        PtrFacts(v, x, 0);
      }
    }
    forall q, r | q in v'.all && r in v'.all ensures PagesApart(v', q, r) {
      if q != p {
        PageFacts(v, q, 0);
      }
      if r != p {
        PageFacts(v, r, 0);
      }
      if q != p && r != p {
        ApartFacts(v, q, r, 0);
      }
    }
    ContentFrom(v', p);
  }

  lemma NewPageOk(p: nat, n: Info, link: Words, size: map<nat, nat>)
    requires Shape(n) && n.bump == 0 && n.busy == 0 && n.freeHead == 0 && p > 0 && p % 8 == 0
    ensures PageOk(p, n, [], link, size)
  {
  }

  /** A page without busy blocks goes. */
  function Closed(v: Pool, k: nat): Pool
    requires k < |v.all|
  {
    v.(all := Without(v.all, k))
  }

  lemma ClosedContent(v: Pool, k: nat)
    requires k < |v.all| && Distinct(v.all) && ContentOk(v, v.all[k]) && v.all[k] in v.info && v.info[v.all[k]].busy == 0
    ensures ContentOk(Closed(v, k), 0)
  {
    hide ContentOk, PageOk, IsBlock, Shape;
    var p, v' := v.all[k], Closed(v, k);
    WithoutMembers(v.all, k);
    PageFacts(v, p, p);
    EmptyPage(p, v.info[p], v.free[p], v.link, v.size);
    forall q | q in v'.all ensures PageAt(v', q, 0) {
      PageFacts(v, q, p);
    }
    forall x: nat ensures PtrAt(v', x) {
      if x in v.size {
        PtrFacts(v, x, p);
      }
    }
    forall q, r | q in v'.all && r in v'.all ensures PagesApart(v', q, r) {
      ApartFacts(v, q, r, p);
    }
    ContentFrom(v', 0);
  }

  /** The content does not depend on the lists, nor on the flags. */
  lemma ContentSame(v: Pool, v': Pool, idle: nat)
    requires ContentOk(v, idle) && v'.all == v.all && v'.free == v.free && v'.prefix == v.prefix && v'.link == v.link && v'.size == v.size
    requires forall p :: p in v.all && p in v.info ==> p in v'.info && (v'.info[p] == v.info[p] || v'.info[p] == v.info[p].(onNonfull := v'.info[p].onNonfull))
    ensures ContentOk(v', idle)
  {
    hide ContentOk, PageOk, IsBlock, Shape;
    forall q | q in v'.all ensures PageAt(v', q, idle) {
      PageFacts(v, q, idle);
      SamePage(q, v.info[q], v'.info[q], v.free[q], v.link, v.size);
    }
    forall x: nat ensures PtrAt(v', x) {
      if x in v.size {
        PtrFacts(v, x, idle);
        if v.size[x] <= MAX_SIZE {
          var p := v.prefix[x - PREFIX_SIZE];
          MoreBlocks(p, v.info[p], v'.info[p], x);
        }
      }
    }
    forall q, r | q in v'.all && r in v'.all ensures PagesApart(v', q, r) {
      PageFacts(v, q, idle);
      PageFacts(v, r, idle);
      ApartFacts(v, q, r, idle);
    }
    ContentFrom(v', idle);
  }

  lemma SamePage(p: nat, n: Info, n': Info, free: seq<nat>, link: Words, size: map<nat, nat>)
    requires PageOk(p, n, free, link, size) && n' == n.(onNonfull := n'.onNonfull)
    ensures PageOk(p, n', free, link, size)
  {
    SameBlocks(p, n, n');
    forall i: nat | i < n'.bump ensures Ptr(p, n'.stride, i) in free || Ptr(p, n'.stride, i) in size {
      assert Ptr(p, n.stride, i) in free || Ptr(p, n.stride, i) in size;
    }
  }

  // ------------------------------------------------------------------
  // One page enters or leaves the list of its class

  /** The lists are right for all pages but `p`. */
  ghost predicate MembersBut(v: Pool, p: nat) {
    |v.lists| == CLASS_COUNT && forall q {:trigger Listed(v, q)} :: q != p ==> Listed(v, q)
  }

  /** Page `p` is in the list of its class, if `b` holds, and in no other. */
  ghost predicate InList(v: Pool, p: nat, b: bool) {
    && p in v.info && v.info[p].cls < CLASS_COUNT == |v.lists|
    && forall c :: 0 <= c < CLASS_COUNT ==> (p in v.lists[c] <==> b && c == v.info[p].cls)
  }

  lemma ListShape(v: Pool, p: nat, b: bool)
    requires ListsOk(v) && InList(v, p, b)
    ensures p in v.info && v.info[p].cls < CLASS_COUNT && |v.nonfull| == |v.lists| == CLASS_COUNT
    ensures b ==> p in v.lists[v.info[p].cls] && p in v.nonfullNext && p in v.nonfullPrev
  {
    var c := v.info[p].cls;
    assert ListOk(v, c);
    if b {
      NoZero(v.nonfull[c], v.lists[c], v.nonfullNext, v.nonfullPrev, p);
    }
  }

  lemma MembersFrom(v: Pool, p: nat)
    requires MembersBut(v, p) && Listed(v, p)
    ensures MembersOk(v)
  {
  }

  function Inserted(v: Pool, p: nat): Pool
    requires p in v.info && v.info[p].cls < |v.nonfull| && v.info[p].cls < |v.lists|
  {
    var c := v.info[p].cls;
    v.(nonfullPrev := InsertPrev(v.nonfull[c], v.nonfullPrev, p), nonfullNext := v.nonfullNext[p := v.nonfull[c]],
       nonfull := v.nonfull[c := p], lists := v.lists[c := [p] + v.lists[c]], info := v.info[p := v.info[p].(onNonfull := true)])
  }

  lemma InsertedOk(v: Pool, p: nat)
    requires ListsOk(v) && MembersBut(v, p) && InList(v, p, false) && p != 0
    ensures ListsOk(Inserted(v, p)) && MembersBut(Inserted(v, p), p) && InList(Inserted(v, p), p, true)
  {
    var c, v' := v.info[p].cls, Inserted(v, p);
    assert ListOk(v, c);
    InsertFront(v.nonfull[c], v.lists[c], v.nonfullNext, v.nonfullPrev, p);
    forall d | 0 <= d < CLASS_COUNT ensures ListOk(v', d) {
      if d != c {
        assert ListOk(v, d);
        forall x | x in v.lists[d] ensures x != p && x != 0 && x !in v.lists[c] {
          assert Listed(v, x);
          NoZero(v.nonfull[d], v.lists[d], v.nonfullNext, v.nonfullPrev, x);
        }
        forall x | x in v.lists[d] ensures x in v.nonfullPrev ==> x in v'.nonfullPrev && v'.nonfullPrev[x] == v.nonfullPrev[x] {
          Untouched(v.nonfull[c], v.lists[c], v.nonfullNext, v.nonfullPrev, p, x);
        }
        Frame(v.nonfull[d], v.lists[d], v.nonfullNext, v.nonfullPrev, v'.nonfullNext, v'.nonfullPrev);
      }
    }
    forall q | q != p ensures Listed(v', q) {
      assert Listed(v, q);
    }
  }

  lemma NoZero(head: nat, list: seq<nat>, next: Words, prev: Words, x: nat)
    requires Linked(head, list, next, prev) && x in list
    ensures x != 0 && x in next && x in prev
  {
    var k :| 0 <= k < |list| && list[k] == x;
    assert ElementOk(list, k, next, prev);
  }

  function Removed(v: Pool, p: nat, k: nat): Pool
    requires p in v.info && v.info[p].cls < |v.nonfull| && v.info[p].cls < |v.lists| && k < |v.lists[v.info[p].cls]|
    requires p in v.nonfullNext && p in v.nonfullPrev
  {
    var c := v.info[p].cls;
    v.(nonfullPrev := RemovePrev(v.nonfullNext, v.nonfullPrev, p), nonfullNext := RemoveNext(v.nonfullNext, v.nonfullPrev, p),
       nonfull := v.nonfull[c := if v.nonfullPrev[p] == 0 then v.nonfullNext[p] else v.nonfull[c]],
       lists := v.lists[c := Without(v.lists[c], k)], info := v.info[p := v.info[p].(onNonfull := false)])
  }

  lemma RemovedOk(v: Pool, p: nat, k: nat)
    requires ListsOk(v) && MembersBut(v, p) && InList(v, p, true) && k < |v.lists[v.info[p].cls]| && v.lists[v.info[p].cls][k] == p
    ensures p in v.nonfullNext && p in v.nonfullPrev
    ensures ListsOk(Removed(v, p, k)) && MembersBut(Removed(v, p, k), p) && InList(Removed(v, p, k), p, false)
  {
    hide Without, RemoveNext, RemovePrev, Linked;
    var c := v.info[p].cls;
    assert ListOk(v, c);
    Remove(v.nonfull[c], v.lists[c], v.nonfullNext, v.nonfullPrev, k);
    DistinctList(v.nonfull[c], v.lists[c], v.nonfullNext, v.nonfullPrev);
    WithoutMembers(v.lists[c], k);
    var v' := Removed(v, p, k);
    forall d | 0 <= d < CLASS_COUNT ensures ListOk(v', d) {
      if d != c {
        RemovedOther(v, p, k, d);
      }
    }
    forall q | q != p ensures Listed(v', q) {
      assert Listed(v, q);
    }
  }

  lemma DistinctList(head: nat, list: seq<nat>, next: Words, prev: Words)
    requires Linked(head, list, next, prev)
    ensures Distinct(list)
  {
  }

  lemma RemovedOther(v: Pool, p: nat, k: nat, d: nat)
    requires ListsOk(v) && MembersBut(v, p) && InList(v, p, true) && k < |v.lists[v.info[p].cls]| && v.lists[v.info[p].cls][k] == p
    requires p in v.nonfullNext && p in v.nonfullPrev && d < CLASS_COUNT && d != v.info[p].cls
    ensures ListOk(Removed(v, p, k), d)
  {
    hide Without, RemoveNext, RemovePrev, Linked;
    var c, v' := v.info[p].cls, Removed(v, p, k);
    assert ListOk(v, d) && ListOk(v, c);
    forall x | x in v.lists[d]
      ensures x in v.nonfullNext ==> x in v'.nonfullNext && v'.nonfullNext[x] == v.nonfullNext[x]
      ensures x in v.nonfullPrev ==> x in v'.nonfullPrev && v'.nonfullPrev[x] == v.nonfullPrev[x]
    {
      assert x != p;
      assert Listed(v, x);
      NoZero(v.nonfull[d], v.lists[d], v.nonfullNext, v.nonfullPrev, x);
      Untouched(v.nonfull[c], v.lists[c], v.nonfullNext, v.nonfullPrev, p, x);
    }
    Frame(v.nonfull[d], v.lists[d], v.nonfullNext, v.nonfullPrev, v'.nonfullNext, v'.nonfullPrev);
  }

  // ------------------------------------------------------------------
  // One page enters or leaves the list of all pages

  /** page_all_insert on a page that is new */
  function Linking(v: Pool, p: nat, n: Info): Pool {
    Opened(v, p, n).(allPrev := InsertPrev(v.allpages, v.allPrev, p), allNext := v.allNext[p := v.allpages], allpages := p)
  }

  lemma OpenedLists(v: Pool, p: nat, n: Info)
    requires ListsOk(v) && MembersOk(v) && p != 0 && p !in v.all && n.cls < CLASS_COUNT
    ensures var v' := Linking(v, p, n); ListsOk(v') && MembersBut(v', p) && InList(v', p, false)
  {
    var v' := Linking(v, p, n);
    InsertFront(v.allpages, v.all, v.allNext, v.allPrev, p);
    forall c | 0 <= c < CLASS_COUNT ensures ListOk(v', c) {
      assert ListOk(v, c);
    }
    assert Listed(v, p);
    forall q | q != p ensures Listed(v', q) {
      assert Listed(v, q);
    }
  }

  /** page_new: the page is on both lists, and the only one without busy blocks. */
  lemma LinkingOk(v: Pool, p: nat, n: Info)
    requires PoolOk(v, 0) && p !in v.all && p > 0 && p % 8 == 0
    requires Shape(n) && n.bump == 0 && n.busy == 0 && n.freeHead == 0
    requires forall q :: q in v.all && q in v.info ==> p + n.pageSize <= q || q + v.info[q].pageSize <= p
    ensures var v' := Linking(v, p, n);
            && ListsOk(v') && MembersBut(v', p) && InList(v', p, false)
            && v'.info[p].cls < |v'.nonfull| && v'.info[p].cls < |v'.lists| && PoolOk(Inserted(v', p), p)
  {
    hide ListsOk, ContentOk, InList, MembersBut, Inserted, MembersOk;
    ShapeFacts(n);
    OpenedContent(v, p, n);
    OpenedLists(v, p, n);
    var v' := Linking(v, p, n);
    ListShape(v', p, false);
    InsertedOk(v', p);
    InsertedRest(v', p);
    ContentSame(Opened(v, p, n), Inserted(v', p), p);
  }

  /** What insertion in the list of a class leaves alone, and that all lists are right again if the page has room. */
  lemma InsertedRest(v: Pool, p: nat)
    requires p in v.info && v.info[p].cls < |v.nonfull| && v.info[p].cls < |v.lists|
    ensures var v' := Inserted(v, p);
            && v'.all == v.all && v'.free == v.free && v'.prefix == v.prefix && v'.link == v.link && v'.size == v.size
            && v'.info == v.info[p := v.info[p].(onNonfull := true)]
            && (MembersBut(v', p) && InList(v', p, true) && p in v.all && HasRoom(v.info[p]) ==> MembersOk(v'))
  {
    var v' := Inserted(v, p);
    if MembersBut(v', p) && InList(v', p, true) && p in v.all && HasRoom(v.info[p]) {
      assert Listed(v', p);
      MembersFrom(v', p);
    }
  }

  lemma RemovedRest(v: Pool, p: nat, k: nat)
    requires p in v.info && v.info[p].cls < |v.nonfull| && v.info[p].cls < |v.lists| && k < |v.lists[v.info[p].cls]|
    requires p in v.nonfullNext && p in v.nonfullPrev
    ensures var v' := Removed(v, p, k);
            && v'.all == v.all && v'.free == v.free && v'.prefix == v.prefix && v'.link == v.link && v'.size == v.size
            && v'.allNext == v.allNext && v'.allPrev == v.allPrev && v'.allpages == v.allpages
            && v'.info == v.info[p := v.info[p].(onNonfull := false)]
            && (MembersBut(v', p) && InList(v', p, false) && p in v.all && !HasRoom(v.info[p]) ==> MembersOk(v'))
  {
    hide Without, RemoveNext, RemovePrev;
    var v' := Removed(v, p, k);
    if MembersBut(v', p) && InList(v', p, false) && p in v.all && !HasRoom(v.info[p]) {
      assert Listed(v', p);
      MembersFrom(v', p);
    }
  }

  // ------------------------------------------------------------------
  // A whole allocation from a page, and a whole release

  /** The block that page_alloc_small hands out next. */
  function NextPtr(p: nat, n: Info): nat {
    if n.bump < n.blockCount then Ptr(p, n.stride, n.bump) else n.freeHead
  }

  function NextInfo(n: Info, link: Words): Info {
    if n.bump < n.blockCount then n.(bump := n.bump + 1, busy := n.busy + 1)
    else n.(freeHead := if n.freeHead in link then link[n.freeHead] else 0, busy := n.busy + 1)
  }

  function NextFree(n: Info, free: seq<nat>): seq<nat> {
    if n.bump < n.blockCount || free == [] then free else free[1..]
  }

  /** The content after page_alloc_small has taken the next block. */
  lemma NextBlock(v: Pool, idle: nat, p: nat, s: nat)
    requires ContentOk(v, idle) && p in v.all && p in v.info && HasRoom(v.info[p])
    ensures p in v.free && PageAt(v, p, idle)
    ensures var n, n', ptr := v.info[p], NextInfo(v.info[p], v.link), NextPtr(p, v.info[p]);
            && SameShape(n, n') && n'.bump >= n.bump && n'.busy == n.busy + 1 && n'.onNonfull == n.onNonfull
            && PageOk(p, n', NextFree(n, v.free[p]), v.link, v.size[ptr := s])
            && IsBlock(p, n', ptr) && (IsBlock(p, n, ptr) ==> ptr !in v.size)
            && (n.bump >= n.blockCount ==> ptr == n.freeHead && ptr in v.link)
  {
    hide ContentOk, PageOk, IsBlock, Shape;
    PageFacts(v, p, idle);
    var n := v.info[p];
    if n.bump < n.blockCount {
      TakeBump(p, n, v.free[p], v.link, v.size, s);
    } else {
      TakeFree(p, n, v.free[p], v.link, v.size, s);
    }
  }

  /** Whether or not the page is full now, all lists are right. */
  lemma TakenLists(v: Pool, p: nat, n': Info, free': seq<nat>, ptr: nat, s: nat)
    requires ListsOk(v) && MembersOk(v) && p in v.all && p in v.info && HasRoom(v.info[p]) && ptr >= PREFIX_SIZE
    requires n'.cls == v.info[p].cls < CLASS_COUNT && n'.onNonfull == v.info[p].onNonfull
    ensures var v' := Taken(v, p, n', free', ptr, s);
            && ListsOk(v') && MembersBut(v', p) && InList(v', p, true) && (HasRoom(n') ==> MembersOk(v'))
  {
    var v' := Taken(v, p, n', free', ptr, s);
    forall c | 0 <= c < CLASS_COUNT ensures ListOk(v', c) {
      assert ListOk(v, c);
    }
    MembersStay(v, v', p, true);
    assert Listed(v, p);
    if HasRoom(n') {
      assert Listed(v', p);
      MembersFrom(v', p);
    }
  }

  lemma GivenLists(v: Pool, p: nat, ptr: nat)
    requires ListsOk(v) && MembersBut(v, p) && InList(v, p, true) && p in v.all && p in v.info && p in v.free
    requires v.info[p].busy > 0 && v.info[p].onNonfull && v.info[p].busy <= v.info[p].blockCount
    ensures ListsOk(Given(v, p, ptr)) && MembersOk(Given(v, p, ptr))
  {
    var v' := Given(v, p, ptr);
    forall c | 0 <= c < CLASS_COUNT ensures ListOk(v', c) {
      assert ListOk(v, c);
    }
    forall q | q != p ensures Listed(v', q) {
      assert Listed(v, q);
    }
    assert Listed(v', p);
    MembersFrom(v', p);
  }

  /** Whether a page is in the list of its class. */
  lemma InClassList(v: Pool, p: nat)
    requires MembersOk(v) && p in v.all && p in v.info && v.info[p].cls < CLASS_COUNT
    ensures InList(v, p, HasRoom(v.info[p])) && MembersBut(v, p) && (v.info[p].onNonfull <==> HasRoom(v.info[p]))
  {
    assert Listed(v, p);
  }

  /** The first page of a class list has room. */
  lemma HeadOfClass(v: Pool, c: nat)
    requires ListsOk(v) && MembersOk(v) && c < CLASS_COUNT
    ensures |v.nonfull| == CLASS_COUNT
    ensures var p := v.nonfull[c]; p != 0 ==> p in v.all && p in v.info && v.info[p].cls == c && HasRoom(v.info[p])
  {
    assert ListOk(v, c);
    var p := v.nonfull[c];
    assert p != 0 ==> p in v.lists[c];
    assert Listed(v, p);
  }

  /** No page of a class has a block left. */
  ghost predicate ClassFull(v: Pool, c: nat) {
    forall p :: p in v.all && p in v.info && v.info[p].cls == c ==> AllLive(p, v.info[p], v.size)
  }

  /** That is so if the list of the class is empty. */
  lemma EmptyListIsFull(v: Pool, c: nat)
    requires ListsOk(v) && MembersOk(v) && ContentOk(v, 0) && c < CLASS_COUNT
    ensures |v.nonfull| == CLASS_COUNT && (v.nonfull[c] == 0 ==> ClassFull(v, c))
  {
    hide AllLive, PageOk;
    if v.nonfull[c] == 0 {
      assert ListOk(v, c);
      assert v.lists[c] != [] ==> ElementOk(v.lists[c], 0, v.nonfullNext, v.nonfullPrev);
      forall p | p in v.all && p in v.info && v.info[p].cls == c ensures AllLive(p, v.info[p], v.size) {
        assert Listed(v, p);
        PageFacts(v, p, 0);
        FullIsLive(p, v.info[p], v.free[p], v.link, v.size);
      }
    }
  }

  function Unlinked(v: Pool, k: nat): Pool
    requires k < |v.all| && v.all[k] in v.allNext && v.all[k] in v.allPrev
  {
    var p := v.all[k];
    Closed(v, k).(allPrev := RemovePrev(v.allNext, v.allPrev, p), allNext := RemoveNext(v.allNext, v.allPrev, p),
                  allpages := if v.allPrev[p] == 0 then v.allNext[p] else v.allpages)
  }

  lemma UnlinkedLists(v: Pool, k: nat)
    requires ListsOk(v) && k < |v.all| && MembersBut(v, v.all[k]) && InList(v, v.all[k], false)
    ensures v.all[k] in v.allNext && v.all[k] in v.allPrev
    ensures ListsOk(Unlinked(v, k)) && MembersOk(Unlinked(v, k))
  {
    hide Without, RemoveNext, RemovePrev, Linked;
    var p := v.all[k];
    Remove(v.allpages, v.all, v.allNext, v.allPrev, k);
    DistinctList(v.allpages, v.all, v.allNext, v.allPrev);
    WithoutMembers(v.all, k);
    var v' := Unlinked(v, k);
    forall c | 0 <= c < CLASS_COUNT ensures ListOk(v', c) {
      assert ListOk(v, c);
    }
    forall q ensures Listed(v', q) {
      assert q != p ==> Listed(v, q);
    }
  }

  /** A page changes, but not its class: the lists are right for all other pages. */
  lemma MembersStay(v: Pool, v': Pool, p: nat, b: bool)
    requires MembersOk(v) && p in v.info && p in v'.info && v'.info[p].cls == v.info[p].cls < CLASS_COUNT
    requires v'.lists == v.lists && v'.all == v.all && (forall q :: q != p ==> (q in v'.info <==> q in v.info))
    requires forall q :: q != p && q in v.info ==> v'.info[q] == v.info[q]
    requires b <==> (p in v.all && HasRoom(v.info[p]))
    ensures MembersBut(v', p) && InList(v', p, b)
  {
    assert Listed(v, p);
    forall q | q != p ensures Listed(v', q) {
      assert Listed(v, q);
    }
  }

  /** A page with busy blocks is no exception. */
  lemma NotIdle(v: Pool, p: nat)
    requires ContentOk(v, p) && p in v.info && v.info[p].busy > 0
    ensures ContentOk(v, 0)
  {
    hide PageOk, PtrOk;
    forall q | q in v.all ensures PageAt(v, q, 0) {
      assert PageAt(v, q, p);
    }
  }

  /** page_release without the call of the allocator behind: the page leaves the list of all pages, and its magic goes. */
  function Released(v: Pool, k: nat): Pool
    requires k < |v.all| && v.all[k] in v.allNext && v.all[k] in v.allPrev && v.all[k] in v.info
  {
    Unlinked(v, k).(info := v.info[v.all[k] := v.info[v.all[k]].(magic := 0)])
  }

  lemma ReleasedOk(v: Pool, k: nat)
    requires ListsOk(v) && k < |v.all| && MembersBut(v, v.all[k]) && InList(v, v.all[k], false)
    requires ContentOk(v, v.all[k]) && v.all[k] in v.info && v.info[v.all[k]].busy == 0
    ensures v.all[k] in v.allNext && v.all[k] in v.allPrev
    ensures PoolOk(Released(v, k), 0) && Released(v, k).size == v.size && Released(v, k).all == Without(v.all, k)
    ensures Distinct(v.all)
  {
    hide ContentOk, Without, RemoveNext, RemovePrev, Linked;
    UnlinkedLists(v, k);
    DistinctList(v.allpages, v.all, v.allNext, v.allPrev);
    WithoutMembers(v.all, k);
    ClosedContent(v, k);
    var v', p := Released(v, k), v.all[k];
    ContentSame(Closed(v, k), v', 0);
    forall c | 0 <= c < CLASS_COUNT ensures ListOk(v', c) {
      assert ListOk(Unlinked(v, k), c);
    }
    forall q ensures Listed(v', q) {
      assert Listed(Unlinked(v, k), q);
    }
  }

  // ------------------------------------------------------------------
  // Pointers that the allocator behind owns, and sizes

  /** Other sizes with the same pooled pointers. */
  lemma SizesOk(v: Pool, size': map<nat, nat>)
    requires PoolOk(v, 0)
    requires forall p, x :: p in v.all && p in v.info && IsBlock(p, v.info[p], x) ==> (x in size' <==> x in v.size)
    requires forall x :: PtrAt(v.(size := size'), x)
    ensures PoolOk(v.(size := size'), 0)
  {
    hide PageOk, PtrOk, IsBlock;
    var v' := v.(size := size');
    forall p | p in v'.all ensures PageAt(v', p, 0) {
      assert PageAt(v, p, 0);
      SizesPage(p, v.info[p], v.free[p], v.link, v.size, size');
    }
    forall c | 0 <= c < CLASS_COUNT ensures ListOk(v', c) {
      assert ListOk(v, c);
    }
    forall q ensures Listed(v', q) {
      assert Listed(v, q);
    }
    forall p, q | p in v'.all && q in v'.all ensures PagesApart(v', p, q) {
      assert PagesApart(v, p, q);
    }
  }

  lemma SizesPage(p: nat, n: Info, free: seq<nat>, link: Words, size: map<nat, nat>, size': map<nat, nat>)
    requires PageOk(p, n, free, link, size) && forall x :: IsBlock(p, n, x) ==> (x in size' <==> x in size)
    ensures PageOk(p, n, free, link, size')
  {
    forall i: nat | i < n.bump ensures Ptr(p, n.stride, i) in free || Ptr(p, n.stride, i) in size' {
      assert Ptr(p, n.stride, i) in free || Ptr(p, n.stride, i) in size;
      assert IsBlock(p, n, Ptr(p, n.stride, i));
    }
  }
}
