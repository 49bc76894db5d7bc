/**
 String buffers (src/lj_buf.c, src/lj_buf.h, src/lib_buffer.c): a queue of bytes
 in one block that grows and is compacted, or in a block of somebody else that
 is only read (copy-on-write).
 */
module StringBuffer {
  const LJ_MIN_SBUF: nat := 32
  const LJ_MAX_BUF: nat := 0x7fff_ff00

  type Byte = n: nat | n < 256

  /** `while (nsz < sz) nsz += nsz;` */
  function Doubled(nsz: nat, sz: nat): nat
    requires nsz > 0
    decreases sz - nsz
  {
    if nsz < sz then Doubled(nsz + nsz, sz) else nsz
  }

  /** The size after a growth is enough, at least twice the old size, and not more than twice of what is needed. */
  lemma {:induction false} DoubledSize(nsz: nat, sz: nat)
    requires nsz > 0
    ensures Doubled(nsz, sz) >= sz && Doubled(nsz, sz) >= nsz
    ensures nsz < sz ==> 2 * nsz <= Doubled(nsz, sz) < 2 * sz
    ensures nsz >= sz ==> Doubled(nsz, sz) == nsz
    decreases sz - nsz
  {
    if nsz < sz {
      DoubledSize(nsz + nsz, sz);
    }
  }

  function Min(a: int, b: int): int {
    if a < b then a else b
  }

  function Max(a: int, b: int): int {
    if a < b then b else a
  }

  /**
   What has been paid for in advance: four bytes for each byte beyond the middle of the
   block, nine for each byte that was consumed, and a copy of a block that is not owned.
   */
  function Credit(cow: bool, size: nat, r: nat, w: nat): int {
    9 * r + if cow then 4 * size else Max(0, 4 * w - 2 * size)
  }

  /** Growing a block that is too small, and moving its bytes down, is paid for by the bytes that are requested. */
  lemma GrowthPaid(cow: bool, size: nat, r: nat, w: nat, len: nat, sz: nat)
    requires r <= w <= size && len == w - r && len + sz > size
    requires (cow ==> w == size) && (!cow ==> size == 0 || size >= LJ_MIN_SBUF)
    ensures size + len + Credit(false, Doubled(Max(size, LJ_MIN_SBUF), len + sz), 0, len + sz) <= Credit(cow, size, r, w) + 4 * sz
  {
    DoubledSize(Max(size, LJ_MIN_SBUF), len + sz);
  }

  /** Growing a block early, since only few bytes at its start were consumed, is paid for as well. */
  lemma EarlyGrowthPaid(cow: bool, size: nat, r: nat, w: nat, sz: nat)
    requires r <= w <= size && w - r + sz <= size < w + sz && (cow || r < size / 8)
    requires (cow ==> w == size) && (!cow ==> size == 0 || size >= LJ_MIN_SBUF)
    ensures size + Credit(false, Doubled(Max(size, LJ_MIN_SBUF), w + sz), r, w + sz) <= Credit(cow, size, r, w) + 4 * sz
  {
    DoubledSize(Max(size, LJ_MIN_SBUF), w + sz);
  }

  /** The doubling does not wrap around in 32 bits as long as the block is below two gigabytes. */
  lemma GrowthFits(size: nat, r: nat, w: nat, sz: nat)
    requires r <= w <= size < 0x8000_0000 && w - r + sz <= LJ_MAX_BUF
    ensures Doubled(Max(size, LJ_MIN_SBUF), if w - r + sz > size then w - r + sz else w + sz) < 0x1_0000_0000
  {
    var need := if w - r + sz > size then w - r + sz else w + sz;
    DoubledSize(Max(size, LJ_MIN_SBUF), need);
    if LJ_MIN_SBUF <= size < need <= 2 * size {
      DoubledSize(2 * size, need);
    }
  }

  lemma CreditOfRoom(cow: bool, size: nat, r: nat, w: nat, sz: nat)
    requires r <= w && w + sz <= size && (cow ==> sz == 0)
    ensures Credit(cow, size, r, w) <= Credit(cow, size, r, w + sz) <= Credit(cow, size, r, w) + 4 * sz
  {
  }

  /** Moving the bytes down is paid for by the bytes that were consumed. */
  lemma CompactionPaid(size: nat, r: nat, w: nat, sz: nat)
    requires r <= w <= size && size >= LJ_MIN_SBUF && r >= size / 8 && w - r + sz <= size
    ensures (w - r) + Credit(false, size, 0, w - r + sz) <= Credit(false, size, r, w) + 4 * sz
  {
  }

  datatype Status = Ok | NoMemory | SelfError | ArgError

  /** An argument of buffer:put: a string, another buffer, or something that has no string */
  datatype Arg = Str(s: array<Byte>) | Buf(o: SBufExt) | Bad

  /** An argument of buffer:get */
  datatype Count = All | Upto(n: int)

  /** `len` bytes of `src` at `from` are copied to `dst` at `to`, front to back. */
  method CopyBytes(dst: array<Byte>, to: nat, src: array<Byte>, from: nat, len: nat)
    requires to + len <= dst.Length && from + len <= src.Length && (dst == src ==> to <= from)
    modifies dst
    ensures dst[..] == Overwritten(old(dst[..]), to, old(src[from..from + len]))
  {
    var i := 0;
    while i < len
      invariant 0 <= i <= len
      invariant forall j {:trigger dst[j]} :: to <= j < to + i ==> dst[j] == old(src[from + (j - to)])
      invariant forall j :: 0 <= j < dst.Length && !(to <= j < to + i) ==> dst[j] == old(dst[j])
    {
      dst[to + i] := src[from + i];
      i := i + 1;
    }
  }

  function Overwritten(s: seq<Byte>, to: nat, x: seq<Byte>): (r: seq<Byte>)
    requires to + |x| <= |s|
    ensures |r| == |s|
  {
    s[..to] + x + s[to + |x|..]
  }

  lemma OverwrittenTail(s: seq<Byte>, r: nat, w: nat, x: seq<Byte>)
    requires r <= w && w + |x| <= |s|
    ensures Overwritten(s, w, x)[r..w + |x|] == s[r..w] + x
  {
  }

  lemma SameSlice(x: seq<Byte>, y: seq<Byte>, b: nat, e: nat, r: nat, w: nat)
    requires b <= r <= w <= e <= |y| && e - b <= |x| && x[..e - b] == y[b..e]
    ensures x[r - b..w - b] == y[r..w]
  {
    assert forall k {:trigger y[k]} :: r <= k < w ==> x[..e - b][k - b] == y[b..e][k - b] == y[k];
  }

  class SBufExt {
    /** The block from `b` to `e`; a null pointer is an empty block. */
    var block: array<Byte>
    var b: nat
    var r: nat
    var w: nat
    var e: nat
    /** SBUF_FLAG_COW: the block belongs to somebody else */
    var cow: bool
    /** The bytes that were copied or moved so far, and what the operations so far account for */
    ghost var moved: int
    ghost var paid: int

    ghost predicate Valid()
      reads this
    {
      && InOrder()
      && (cow ==> w == e) && (!cow ==> b == 0 && e == block.Length && (e == 0 || e >= LJ_MIN_SBUF))
      && moved + Credit(cow, e - b, r - b, w - b) <= paid
    }

    ghost predicate InOrder()
      reads `b, `r, `w, `e, `block
    {
      b <= r <= w <= e <= block.Length
    }

    ghost function Queue(): (q: seq<Byte>)
      requires InOrder()
      reads `b, `r, `w, `e, `block, block
      ensures |q| == w - r
    {
      block[r..w]
    }

    /** What the buffer may write to */
    ghost function Owned(): set<object>
      reads this
    {
      if cow then {} else {block}
    }

    /** sbufleft */
    function Left(): nat
      requires Valid()
      reads this
    {
      e - w
    }

    /** lj_bufx_init */
    constructor ()
      ensures Valid() && InOrder() && Queue() == [] && !cow && fresh(block) && paid == moved == 0
    {
      block := new Byte[0];
      b, r, w, e := 0, 0, 0, 0;
      cow := false;
      moved, paid := 0, 0;
    }

    /** The size of the new block */
    method NewSize(osz: nat, sz: nat) returns (nsz: nat)
      ensures nsz == Doubled(Max(osz, LJ_MIN_SBUF), sz) && nsz >= osz && nsz >= LJ_MIN_SBUF && nsz >= sz
    {
      nsz := Max(osz, LJ_MIN_SBUF);
      DoubledSize(nsz, sz);
      while nsz < sz
        invariant nsz > 0 && Doubled(nsz, sz) == Doubled(Max(osz, LJ_MIN_SBUF), sz)
        decreases sz - nsz
      {
        nsz := nsz + nsz;
      }
    }

    /** The bytes of the block in a larger one */
    method NewBlock(nsz: nat) returns (nb: array<Byte>)
      requires b <= e <= block.Length && nsz >= e - b
      ensures fresh(nb) && nb.Length == nsz && nb[..e - b] == block[b..e]
    {
      nb := new Byte[nsz];
      CopyBytes(nb, 0, block, b, e - b);
      assert nb[..e - b] == nb[..][..e - b];
    }

    /** buf_grow: all bytes of the old block go to the new one. */
    method Grow(sz: nat)
      requires InOrder()
      modifies this`block, this`b, this`r, this`w, this`e, this`cow, this`moved
      ensures fresh(block) && !cow && b == 0 && e == block.Length == Doubled(Max(old(e - b), LJ_MIN_SBUF), sz) >= sz
      ensures r == old(r - b) && w == old(w - b) && moved == old(moved + (e - b)) && InOrder() && e >= LJ_MIN_SBUF
      ensures Queue() == old(Queue())
    {
      hide Doubled, Max;
      var osz, len := e - b, w - b;
      var nsz := NewSize(osz, sz);
      var nb := NewBlock(nsz);
      SameSlice(nb[..], block[..], b, e, r, w);
      moved := moved + osz;
      cow := false;
      r := r - b;
      block, b, w, e := nb, 0, len, nsz;
    }

    /** The bytes are moved down to the start of the block. */
    method Compact()
      requires InOrder() && b == 0 && e == block.Length && !cow
      modifies this`r, this`w, this`moved, block
      ensures InOrder() && r == 0 && w == old(w - r) && moved == old(moved + (w - r)) && Queue() == old(Queue())
    {
      var len := w - r;
      CopyBytes(block, 0, block, r, len);
      assert block[0..len] == block[..][0..len];
      moved := moved + len;
      r, w := 0, len;
    }

    /** lj_buf_more: there is room for `sz` more bytes, or they would be too many. */
    method More(sz: nat) returns (ok: bool)
      requires Valid()
      modifies this, Owned()
      ensures ok <==> old(Left()) >= sz || old(w - r) + sz <= LJ_MAX_BUF
      ensures Valid() && Queue() == old(Queue()) && (block == old(block) || fresh(block))
      ensures ok ==> Left() >= sz && (sz > 0 ==> !cow) && moved + Credit(cow, e - b, r - b, w - b + sz) <= old(paid) + 4 * sz
      ensures paid == if ok then old(paid) + 4 * sz else old(paid)
      ensures if cow then old(cow) && block == old(block) else fresh(block) || (!old(cow) && block == old(block))
    {
      hide Credit, Queue;
      ok := true;
      if sz > e - w {
        ok := MoreRoom(sz);
        if !ok {
          return;
        }
      }
      CreditOfRoom(cow, e - b, r - b, w - b, sz);
      paid := paid + 4 * sz;
    }

    /** The end of lj_buf_more2: `if (sbx->r != sbx->b)` */
    method CompactIfNeeded()
      requires InOrder() && b == 0 && e == block.Length && !cow
      modifies this`r, this`w, this`moved, block
      ensures InOrder() && r == 0 && w == old(w - r) && moved <= old(moved + (w - r)) && Queue() == old(Queue())
    {
      if r != b {
        Compact();
      }
    }

    /** lj_buf_more2 where the block is too small for all bytes */
    method GrowForMore(sz: nat)
      requires Valid() && sz > Left() && w - r + sz > e - b
      modifies this`block, this`b, this`r, this`w, this`e, this`cow, this`moved
      ensures fresh(block) && !cow && b == 0 && e == block.Length >= LJ_MIN_SBUF && e >= w + sz
      ensures InOrder() && r == 0 && w == old(w - r) && Queue() == old(Queue())
      ensures moved + Credit(false, e, r, w + sz) <= old(paid) + 4 * sz
    {
      hide Doubled, Max, Credit, Queue;
      var len := w - r;
      GrowthPaid(cow, e - b, r - b, w - b, len, sz);
      Grow(len + sz);
      CompactIfNeeded();
    }

    /** lj_buf_more2 */
    method MoreRoom(sz: nat) returns (ok: bool)
      requires Valid() && Left() < sz
      modifies this`block, this`b, this`r, this`w, this`e, this`cow, this`moved, Owned()
      ensures ok <==> old(w - r) + sz <= LJ_MAX_BUF
      ensures InOrder() && Queue() == old(Queue())
      ensures ok ==> e - w >= sz && !cow && b == 0 && e == block.Length >= LJ_MIN_SBUF
      ensures ok ==> fresh(block) || (!old(cow) && block == old(block))
      ensures ok ==> moved + Credit(false, e, r, w + sz) <= old(paid) + 4 * sz
      ensures !ok ==> unchanged(this)
    {
      hide Doubled, Max, Credit, Queue;
      var len := w - r;
      if sz > LJ_MAX_BUF || len + sz > LJ_MAX_BUF {
        return false;
      }
      ok := true;
      if len + sz > e - b {
        GrowForMore(sz);
      } else if cow || r - b < (e - b) / 8 {
        EarlyGrowthPaid(cow, e - b, r - b, w - b, sz);
        Grow((w - b) + sz);
      } else {
        CompactionPaid(e, r, w, sz);
        CompactIfNeeded();
      }
    }

    /** lj_buf_putmem: bytes that do not belong to the buffer itself */
    method PutMem(q: array<Byte>, from: nat, len: nat) returns (ok: bool)
      requires Valid() && from + len <= q.Length && q !in Owned()
      modifies this, Owned()
      ensures ok <==> old(Left()) >= len || old(w - r) + len <= LJ_MAX_BUF
      ensures Valid() && (if cow then old(cow) && block == old(block) else fresh(block) || (!old(cow) && block == old(block)))
      ensures Queue() == if ok then old(Queue()) + old(q[from..from + len]) else old(Queue())
      ensures paid == if ok then old(paid) + 4 * len else old(paid)
    {
      hide Credit;
      ok := More(len);
      if ok {
        ghost var before, x := block[..], q[from..from + len];
        if len > 0 {
          CopyBytes(block, w, q, from, len);
          OverwrittenTail(before, r, w, x);
        }
        w := w + len;
      }
    }

    /** lj_bufx_reset */
    method Reset()
      requires Valid()
      modifies this
      ensures Valid() && Queue() == [] && !cow && paid == old(paid)
      ensures fresh(block) || (!old(cow) && block == old(block))
    {
      if cow {
        cow := false;
        block := new Byte[0];
        b, e := 0, 0;
      }
      r, w := b, b;
    }

    /** `sbx->r += n` */
    method Advance(n: nat)
      requires Valid() && n <= w - r
      modifies this`r, this`paid
      ensures Valid() && r == old(r) + n && Queue() == old(Queue())[n..] && paid == old(paid) + 9 * n
    {
      assert block[r + n..w] == Queue()[n..];
      r := r + n;
      paid := paid + 9 * n;
    }

    /** The end of buffer_method_get and of buffer_method_skip: an empty buffer starts again at its base. */
    method Rewind()
      requires Valid() && r == w
      modifies this`r, this`w
      ensures Valid() && Queue() == []
    {
      if !cow {
        r, w := b, b;
      }
    }

    /** buffer_method_skip */
    method Skip(n: int) returns (st: Status)
      requires Valid()
      modifies this`r, this`w, this`paid
      ensures Valid() && st == if 0 <= n <= LJ_MAX_BUF then Ok else ArgError
      ensures st.Ok? ==> Queue() == old(Queue())[Min(n, old(w - r))..] && paid == old(paid) + 9 * Min(n, old(w - r))
      ensures !st.Ok? ==> unchanged(this)
    {
      hide Credit;
      if !(0 <= n <= LJ_MAX_BUF) {
        return ArgError;
      }
      var len := w - r;
      if n < len {
        Advance(n);
      } else {
        Advance(len);
        Rewind();
      }
      st := Ok;
    }

    /** buffer_method_set: `len` bytes at `from` become the queue, without a copy */
    method Set(p: array<Byte>, from: nat, len: nat)
      requires Valid() && from + len <= p.Length
      modifies this
      ensures Valid() && Queue() == p[from..from + len] && cow && block == p && paid == old(paid) + 4 * len
    {
      cow := true;
      block := p;
      b, r := from, from;
      w, e := from + len, from + len;
      paid := paid + 4 * len;
    }

    /** The room for `sz` bytes that buffer:new asks for */
    method Presize(sz: nat)
      requires Valid() && e == 0 && !cow
      modifies this
      ensures Valid() && Queue() == [] && !cow && fresh(block) && Left() >= sz && paid == old(paid)
    {
      if sz > 0 {
        Grow(sz);
      } else {
        block := new Byte[0];
      }
    }

    // ----------------------------------------------------------------
    // Reading

    /** One string of buffer:get */
    method GetOne(n: nat) returns (s: seq<Byte>)
      requires Valid()
      modifies this`r, this`paid
      ensures Valid() && s == old(Queue())[..Min(n, old(w - r))] && Queue() == old(Queue())[Min(n, old(w - r))..]
      ensures paid == old(paid) + 9 * |s|
    {
      hide Credit;
      var len := w - r;
      var m := if n > len then len else n;
      s := block[r..r + m];
      assert s == Queue()[..m];
      Advance(m);
    }

    /** buffer_method_get: a string for each argument, until one is out of range */
    method Get(args: seq<Count>) returns (st: Status, out: seq<seq<Byte>>)
      requires Valid()
      modifies this`r, this`w, this`paid
      ensures Valid() && st == if AllInRange(args) then Ok else ArgError
      ensures out == Strings(args, old(Queue())) && Queue() == Rest(args, old(Queue()))
      ensures paid == old(paid) + 9 * (|old(Queue())| - |Queue()|)
    {
      hide Queue, Credit, Strings, Rest;
      var i := 0;
      out := [];
      assert args[0..] == args && [] + Strings(args, Queue()) == Strings(args, Queue());
      while i < |args|
        invariant 0 <= i <= |args| && Valid()
        invariant AllInRange(args) == AllInRange(args[i..])
        invariant Strings(args, old(Queue())) == out + Strings(args[i..], Queue())
        invariant Rest(args, old(Queue())) == Rest(args[i..], Queue())
        invariant paid == old(paid) + 9 * (|old(Queue())| - |Queue()|)
      {
        StringsStep(args[i..], Queue());
        assert args[i..][1..] == args[i + 1..];
        if args[i].Upto? && !(0 <= args[i].n <= LJ_MAX_BUF) {
          assert out + [] == out;
          return ArgError, out;
        }
        var s := GetOne(if args[i].All? then LJ_MAX_BUF else args[i].n);
        out := out + [s];
        i := i + 1;
      }
      StringsStep(args[i..], Queue());
      assert out + [] == out;
      if r == w {
        Rewind();
      }
      st := Ok;
    }

    /** buffer_method___tostring */
    method ToString() returns (s: seq<Byte>)
      requires Valid()
      ensures s == Queue()
    {
      s := block[r..w];
    }

    // ----------------------------------------------------------------
    // Writing in place

    /** buffer_method_reserve */
    method Reserve(sz: int) returns (st: Status, left: nat)
      requires Valid()
      modifies this, Owned()
      ensures Valid() && Queue() == old(Queue()) && left == Left()
      ensures st == if !(0 <= sz <= LJ_MAX_BUF) then ArgError else if old(Left()) >= sz || old(w - r) + sz <= LJ_MAX_BUF then Ok else NoMemory
      ensures st.Ok? ==> left >= sz && (sz > 0 ==> !cow)
      ensures if cow then old(cow) && block == old(block) else fresh(block) || (!old(cow) && block == old(block))
      ensures paid == if st.Ok? then old(paid) + 4 * sz else old(paid)
    {
      hide Credit;
      if !(0 <= sz <= LJ_MAX_BUF) {
        return ArgError, e - w;
      }
      var ok := More(sz);
      st, left := if ok then Ok else NoMemory, e - w;
    }

    /** A byte that is written to the reserved room */
    method Fill(k: nat, x: Byte)
      requires Valid() && k < Left()
      modifies Owned()
      ensures Valid() && Queue() == old(Queue()) && Room() == old(Room())[k := x]
    {
      block[w + k] := x;
    }

    /** The bytes of the room behind the queue */
    ghost function Room(): (room: seq<Byte>)
      requires InOrder()
      reads `b, `r, `w, `e, `block, block
      ensures |room| == e - w
    {
      block[w..e]
    }

    lemma RoomTaken(len: nat)
      requires InOrder() && len <= e - w
      ensures block[r..w + len] == Queue() + Room()[..len] && block[w + len..e] == Room()[len..]
    {
    }

    /** buffer_method_commit */
    method Commit(len: int) returns (st: Status)
      requires Valid()
      modifies this`w, this`paid
      ensures Valid() && st == if 0 <= len <= LJ_MAX_BUF && len <= old(Left()) then Ok else ArgError
      ensures st.Ok? ==> Queue() == old(Queue()) + old(Room())[..len] && Room() == old(Room())[len..] && paid == old(paid) + 4 * len
      ensures !st.Ok? ==> unchanged(this)
    {
      hide Credit;
      if !(0 <= len <= LJ_MAX_BUF) || len > e - w {
        return ArgError;
      }
      CreditOfRoom(cow, e - b, r - b, w - b, len);
      RoomTaken(len);
      w := w + len;
      paid := paid + 4 * len;
      st := Ok;
    }

    // ----------------------------------------------------------------
    // buffer:put

    /** The bytes of an argument are not in a block that this buffer may write to. */
    ghost predicate Foreign(a: Arg)
      reads this, if a.Buf? then {a.o} else {}
    {
      match a
      case Str(s) => s !in Owned()
      case Buf(o) => o == this || (o.Valid() && o.block !in Owned())
      case Bad => true
    }

    /** One argument of buffer:put */
    method PutOne(a: Arg) returns (st: Status)
      requires Valid() && Foreign(a)
      modifies this, Owned()
      ensures Valid() && (if cow then old(cow) && block == old(block) else fresh(block) || (!old(cow) && block == old(block)))
      ensures st == if a.Bad? then ArgError else if a == Buf(this) then SelfError
                    else if old(Left()) >= |old(BytesOf(a))| || old(w - r) + |old(BytesOf(a))| <= LJ_MAX_BUF then Ok else NoMemory
      ensures Queue() == old(Queue()) + if st.Ok? then old(BytesOf(a)) else []
      ensures paid == old(paid) + if st.Ok? then 4 * |old(BytesOf(a))| else 0
    {
      hide Credit;
      match a {
        case Str(s) =>
          var ok := PutMem(s, 0, s.Length);
          assert s[..] == s[0..s.Length];
          st := if ok then Ok else NoMemory;
        case Buf(o) =>
          if o == this {
            return SelfError;
          }
          var ok := PutMem(o.block, o.r, o.w - o.r);
          st := if ok then Ok else NoMemory;
        case Bad =>
          st := ArgError;
      }
    }

    /** buffer_method_put: all arguments up to the first one that is refused */
    method Put(args: seq<Arg>) returns (st: Status, ghost done: nat)
      requires Valid() && forall i :: 0 <= i < |args| ==> Foreign(args[i])
      modifies this, Owned()
      ensures Valid() && done <= |args| && old(AllInOrder(args))
      ensures Queue() == old(Queue()) + Concat(old(Parts(args))[..done]) && paid == old(paid) + 4 * |Concat(old(Parts(args))[..done])|
      ensures st.Ok? <==> done == |args|
      ensures done < |args| ==> (st.SelfError? <==> args[done] == Buf(this)) && (st.ArgError? <==> args[done].Bad?)
      ensures st.NoMemory? ==> |Queue()| + |old(Parts(args))[done]| > LJ_MAX_BUF
      ensures if cow then old(cow) && block == old(block) else fresh(block) || (!old(cow) && block == old(block))
    {
      hide Queue, Credit, BytesOf, Valid, Taking, Concat;
      var arg := 0;
      done := 0;
      st := Ok;
      InOrderAll(args);
      ghost var parts := Parts(args);
      TakingStart(args, parts);
      while arg < |args|
        invariant 0 <= arg <= |args| && done == arg && st == Ok && Valid() && InOrder() && Taking(args, parts)
        invariant if cow then old(cow) && block == old(block) else fresh(block) || (!old(cow) && block == old(block))
        invariant Queue() == old(Queue()) + Concat(parts[..arg]) && paid == old(paid) + 4 * |Concat(parts[..arg])|
      {
        st := PutNext(args, parts, arg);
        if st != Ok {
          return;
        }
        ConcatNext(parts, arg);
        arg := arg + 1;
        done := arg;
      }
    }

    /** The arguments are as they were, and foreign. */
    ghost predicate Taking(args: seq<Arg>, parts: seq<seq<Byte>>)
      reads this, set a | a in args && a.Buf? :: a.o, set a | a in args && a.Buf? :: a.o.block, set a | a in args && a.Str? :: a.s
    {
      |parts| == |args| && forall i :: 0 <= i < |args| ==>
        Foreign(args[i]) && (args[i] != Buf(this) ==> (args[i].Buf? ==> args[i].o.InOrder()) && BytesOf(args[i]) == parts[i])
    }

    lemma TakingStart(args: seq<Arg>, parts: seq<seq<Byte>>)
      requires Valid() && forall i :: 0 <= i < |args| ==> Foreign(args[i])
      requires AllInOrder(args) && parts == Parts(args)
      ensures Taking(args, parts) && Concat(parts[..0]) == []
    {
    }

    method PutNext(args: seq<Arg>, ghost parts: seq<seq<Byte>>, arg: nat) returns (st: Status)
      requires Valid() && Taking(args, parts) && arg < |args| == |parts|
      modifies this, Owned()
      ensures Valid() && InOrder() && Taking(args, parts)
      ensures if cow then old(cow) && block == old(block) else fresh(block) || (!old(cow) && block == old(block))
      ensures (st.SelfError? <==> args[arg] == Buf(this)) && (st.ArgError? <==> args[arg].Bad?)
      ensures st.NoMemory? ==> |Queue()| + |parts[arg]| > LJ_MAX_BUF
      ensures Queue() == old(Queue()) + (if st.Ok? then parts[arg] else []) && paid == old(paid) + if st.Ok? then 4 * |parts[arg]| else 0
    {
      hide Queue, Credit, BytesOf;
      st := PutOne(args[arg]);
    }

    lemma InOrderAll(args: seq<Arg>)
      requires Valid() && forall i :: 0 <= i < |args| ==> Foreign(args[i])
      ensures InOrder() && AllInOrder(args)
    {
    }
  }

  function Concat(parts: seq<seq<Byte>>): seq<Byte> {
    if parts == [] then [] else Concat(parts[..|parts| - 1]) + parts[|parts| - 1]
  }

  lemma ConcatNext(parts: seq<seq<Byte>>, i: nat)
    requires i < |parts|
    ensures Concat(parts[..i + 1]) == Concat(parts[..i]) + parts[i]
  {
    assert parts[..i + 1][..i] == parts[..i];
  }

  ghost predicate AllInOrder(args: seq<Arg>)
    reads set a | a in args && a.Buf? :: a.o
  {
    forall i :: 0 <= i < |args| && args[i].Buf? ==> args[i].o.InOrder()
  }

  /** The bytes of each argument */
  ghost function Parts(args: seq<Arg>): (parts: seq<seq<Byte>>)
    requires AllInOrder(args)
    reads set a | a in args && a.Buf? :: a.o, set a | a in args && a.Buf? :: a.o.block, set a | a in args && a.Str? :: a.s
    ensures |parts| == |args| && forall i :: 0 <= i < |args| ==> parts[i] == BytesOf(args[i])
  {
    if args == [] then [] else Parts(args[..|args| - 1]) + [BytesOf(args[|args| - 1])]
  }

  ghost function BytesOf(a: Arg): seq<Byte>
    requires a.Buf? ==> a.o.InOrder()
    reads if a.Buf? then {a.o, a.o.block} else if a.Str? then {a.s} else {}
  {
    match a
    case Str(s) => s[..]
    case Buf(o) => o.Queue()
    case Bad => []
  }

  predicate InRange(c: Count) {
    c.Upto? ==> 0 <= c.n <= LJ_MAX_BUF
  }

  predicate AllInRange(args: seq<Count>) {
    forall i :: 0 <= i < |args| ==> InRange(args[i])
  }

  function Wanted(c: Count, len: nat): nat
    requires InRange(c)
  {
    Min(if c.All? then LJ_MAX_BUF else c.n, len)
  }

  lemma StringsStep(args: seq<Count>, q: seq<Byte>)
    ensures args == [] ==> Strings(args, q) == [] && Rest(args, q) == q && AllInRange(args)
    ensures args != [] && !InRange(args[0]) ==> Strings(args, q) == [] && Rest(args, q) == q && !AllInRange(args)
    ensures args != [] && InRange(args[0]) ==>
              var n := Wanted(args[0], |q|);
              && Strings(args, q) == [q[..n]] + Strings(args[1..], q[n..]) && Rest(args, q) == Rest(args[1..], q[n..])
              && AllInRange(args) == AllInRange(args[1..])
  {
    assert args != [] ==> args == [args[0]] + args[1..];
  }

  /** What buffer:get takes from the front of a queue */
  function Strings(args: seq<Count>, q: seq<Byte>): seq<seq<Byte>> {
    if args == [] || !InRange(args[0]) then [] else
      var n := Wanted(args[0], |q|);
      [q[..n]] + Strings(args[1..], q[n..])
  }

  /** What it leaves */
  function Rest(args: seq<Count>, q: seq<Byte>): seq<Byte> {
    if args == [] || !InRange(args[0]) then q else Rest(args[1..], q[Wanted(args[0], |q|)..])
  }

  /** The strings and what is left are the queue, in order: first in, first out. */
  lemma {:induction false} FrontAndRest(args: seq<Count>, q: seq<Byte>)
    ensures Concat(Strings(args, q)) + Rest(args, q) == q
  {
    StringsStep(args, q);
    if args != [] && InRange(args[0]) {
      var n := Wanted(args[0], |q|);
      FrontAndRest(args[1..], q[n..]);
      ConcatFirst(q[..n], Strings(args[1..], q[n..]));
      assert q == q[..n] + q[n..];
    }
  }

  lemma {:induction false} ConcatFirst(x: seq<Byte>, parts: seq<seq<Byte>>)
    ensures Concat([x] + parts) == x + Concat(parts)
  {
    var all := [x] + parts;
    if parts == [] {
      assert all[..0] == [];
    } else {
      assert all[..|all| - 1] == [x] + parts[..|parts| - 1];
      ConcatFirst(x, parts[..|parts| - 1]);
    }
  }

  // ------------------------------------------------------------------
  // Whole runs

  /** One call: put and set take a string, and Write is a reserve, the bytes, and a commit. */
  datatype Step = DoPut(x: array<Byte>) | DoSet(x: array<Byte>) | DoWrite(y: seq<Byte>) | DoGet(n: nat) | DoSkip(n: nat) | DoReset

  /** The same call on a plain queue */
  datatype Call = Add(x: seq<Byte>) | Replace(x: seq<Byte>) | Take(n: nat) | Drop(n: nat) | Clear

  ghost function CallOf(t: Step): Call
    reads if t.DoPut? || t.DoSet? then {t.x} else {}
  {
    match t
    case DoPut(x) => Add(x[..])
    case DoSet(x) => Replace(x[..])
    case DoWrite(y) => Add(y)
    case DoGet(n) => Take(n)
    case DoSkip(n) => Drop(n)
    case DoReset => Clear
  }

  function After(c: Call, q: seq<Byte>): seq<Byte> {
    match c
    case Add(x) => q + x
    case Replace(x) => x
    case Take(n) => q[Min(n, |q|)..]
    case Drop(n) => q[Min(n, |q|)..]
    case Clear => []
  }

  function QueueAfter(calls: seq<Call>): seq<Byte> {
    if calls == [] then [] else After(calls[|calls| - 1], QueueAfter(calls[..|calls| - 1]))
  }

  /** All bytes that are handed out by Take */
  function Taken(calls: seq<Call>): seq<Byte> {
    if calls == [] then []
    else
      var c, q := calls[|calls| - 1], QueueAfter(calls[..|calls| - 1]);
      Taken(calls[..|calls| - 1]) + if c.Take? then q[..Min(c.n, |q|)] else []
  }

  /** The number of bytes that come in */
  function Volume(calls: seq<Call>): nat {
    if calls == [] then 0
    else Volume(calls[..|calls| - 1]) + Incoming(calls[|calls| - 1])
  }

  function Incoming(c: Call): nat {
    match c case Add(x) => |x| case Replace(x) => |x| case _ => 0
  }

  ghost function Calls(steps: seq<Step>): (calls: seq<Call>)
    reads set t | t in steps && (t.DoPut? || t.DoSet?) :: t.x
    ensures |calls| == |steps| && forall i :: 0 <= i < |steps| ==> calls[i] == CallOf(steps[i])
  {
    if steps == [] then [] else Calls(steps[..|steps| - 1]) + [CallOf(steps[|steps| - 1])]
  }

  lemma OneString(n: nat, q: seq<Byte>)
    requires n <= LJ_MAX_BUF
    ensures AllInRange([Upto(n)]) && Strings([Upto(n)], q) == [q[..Min(n, |q|)]] && Rest([Upto(n)], q) == q[Min(n, |q|)..]
  {
    StringsStep([Upto(n)], q);
    StringsStep([], q[Min(n, |q|)..]);
  }

  lemma BufferOrder(sb: SBufExt)
    requires sb.Valid()
    ensures sb.InOrder()
  {
  }

  /** A step on a buffer, as long as all bytes fit */
  method Apply(sb: SBufExt, t: Step) returns (s: seq<Byte>)
    requires sb.Valid() && (t.DoPut? || t.DoSet? ==> t.x !in sb.Owned())
    requires |sb.Queue()| + Incoming(CallOf(t)) <= LJ_MAX_BUF && (t.DoGet? || t.DoSkip? ==> t.n <= LJ_MAX_BUF)
    modifies sb, sb.Owned()
    ensures sb.Valid() && sb.InOrder() && sb.Queue() == After(old(CallOf(t)), old(sb.Queue()))
    ensures s == if t.DoGet? then old(sb.Queue())[..Min(t.n, |old(sb.Queue())|)] else []
    ensures sb.paid + 9 * |sb.Queue()| <= old(sb.paid) + 9 * |old(sb.Queue())| + 17 * old(Incoming(CallOf(t)))
    ensures sb.cow || fresh(sb.block) || (!old(sb.cow) && sb.block == old(sb.block))
  {
    hide Strings, Rest, SBufExt.Queue, SBufExt.Valid, Credit;
    BufferOrder(sb);
    s := [];
    match t {
      case DoPut(x) =>
        var ok := sb.PutMem(x, 0, x.Length);
        assert x[0..x.Length] == x[..];
      case DoSet(x) =>
        sb.Set(x, 0, x.Length);
        assert x[0..x.Length] == x[..];
      case DoWrite(y) => Write(sb, y);
      case DoGet(n) =>
        OneString(n, sb.Queue());
        var st, out := sb.Get([Upto(n)]);
        s := out[0];
      case DoSkip(n) =>
        var st := sb.Skip(n);
      case DoReset => sb.Reset();
    }
    BufferOrder(sb);
  }

  /** Room is reserved, the bytes are written to it, and they are committed. */
  method Write(sb: SBufExt, y: seq<Byte>)
    requires sb.Valid() && |sb.Queue()| + |y| <= LJ_MAX_BUF
    modifies sb, sb.Owned()
    ensures sb.Valid() && sb.Queue() == old(sb.Queue()) + y && sb.paid == old(sb.paid) + 8 * |y|
    ensures if sb.cow then old(sb.cow) && sb.block == old(sb.block) else fresh(sb.block) || (!old(sb.cow) && sb.block == old(sb.block))
  {
    hide SBufExt.Queue, SBufExt.Room, Credit;
    var st, left := sb.Reserve(|y|);
    var i := 0;
    while i < |y|
      invariant sb.Valid() && 0 <= i <= |y| <= sb.Left() && sb.Queue() == old(sb.Queue()) && sb.paid == old(sb.paid) + 4 * |y|
      invariant if sb.cow then old(sb.cow) && sb.block == old(sb.block) else fresh(sb.block) || (!old(sb.cow) && sb.block == old(sb.block))
      invariant sb.Room()[..i] == y[..i]
    {
      sb.Fill(i, y[i]);
      i := i + 1;
    }
    st := sb.Commit(|y|);
    assert y[..|y|] == y;
  }

  /** Any run of calls does what a plain queue does; it writes to none of the strings, and copies no more than 17 times the bytes that come in. */
  method Run(steps: seq<Step>) returns (sb: SBufExt, out: seq<Byte>)
    requires Volume(Calls(steps)) <= LJ_MAX_BUF && forall i :: 0 <= i < |steps| && (steps[i].DoGet? || steps[i].DoSkip?) ==> steps[i].n <= LJ_MAX_BUF
    ensures fresh(sb) && sb.Valid() && sb.Queue() == QueueAfter(Calls(steps)) && out == Taken(Calls(steps))
    ensures sb.moved <= 17 * Volume(Calls(steps))
  {
    hide QueueAfter, After, Taken, Volume, Incoming, CallOf, SBufExt.Valid, SBufExt.Queue;
    sb := new SBufExt();
    out := [];
    NoCalls();
    ghost var calls := Calls(steps);
    var i := 0;
    while i < |steps|
      invariant 0 <= i <= |steps| && sb.Valid() && sb.InOrder() && fresh(sb) && (sb.cow || fresh(sb.block))
      invariant calls == old(Calls(steps)) && forall k :: 0 <= k < |steps| ==> calls[k] == CallOf(steps[k])
      invariant sb.Queue() == QueueAfter(calls[..i]) && out == Taken(calls[..i])
      invariant sb.paid + 9 * |sb.Queue()| <= 17 * Volume(calls[..i])
    {
      VolumeBound(calls, i);
      OneCall(calls, i);
      StepKind(steps[i]);
      var s := Apply(sb, steps[i]);
      out := out + s;
      i := i + 1;
    }
    assert calls[..i] == calls;
    CreditCovers(sb);
  }

  lemma CreditCovers(sb: SBufExt)
    requires sb.Valid()
    ensures sb.moved <= sb.paid
  {
  }

  lemma StepKind(t: Step)
    ensures CallOf(t).Take? <==> t.DoGet?
    ensures t.DoGet? ==> CallOf(t).n == t.n
  {
  }

  lemma NoCalls()
    ensures QueueAfter([]) == [] && Taken([]) == [] && Volume([]) == 0
  {
  }

  lemma OneCall(calls: seq<Call>, i: nat)
    requires i < |calls|
    ensures QueueAfter(calls[..i + 1]) == After(calls[i], QueueAfter(calls[..i]))
    ensures Taken(calls[..i + 1]) == Taken(calls[..i]) + if calls[i].Take? then QueueAfter(calls[..i])[..Min(calls[i].n, |QueueAfter(calls[..i])|)] else []
    ensures Volume(calls[..i + 1]) == Volume(calls[..i]) + Incoming(calls[i])
  {
    hide After, Incoming;
    assert calls[..i + 1][..i] == calls[..i];
  }

  lemma {:induction false} VolumeBound(calls: seq<Call>, i: nat)
    requires i < |calls|
    ensures |QueueAfter(calls[..i])| + Incoming(calls[i]) <= Volume(calls)
  {
    VolumeOfPrefix(calls, i + 1);
    assert calls[..i + 1][..i] == calls[..i];
    QueueSize(calls[..i]);
  }

  lemma {:induction false} VolumeOfPrefix(calls: seq<Call>, i: nat)
    requires i <= |calls|
    ensures Volume(calls[..i]) <= Volume(calls)
    decreases |calls|
  {
    if i == |calls| {
      assert calls[..i] == calls;
    } else {
      var n := |calls| - 1;
      assert calls[..n][..i] == calls[..i];
      VolumeOfPrefix(calls[..n], i);
    }
  }

  lemma {:induction false} QueueSize(calls: seq<Call>)
    ensures |QueueAfter(calls)| <= Volume(calls)
  {
    if calls != [] {
      QueueSize(calls[..|calls| - 1]);
    }
  }
}
