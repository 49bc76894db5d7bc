/** The bytecode writer (src/lj_bcwrite.c) */
module DumpWrite {
  import opened PowersOfTwo
  import opened DumpNumbers
  import opened DumpTypes
  import opened DumpSort
  import opened DumpFormat

  /** lj_fls: the number of the highest bit that is set */
  function Fls(v: nat): (r: nat)
    requires v > 0
  {
    if v < 2 then 0 else 1 + Fls(v / 2)
  }

  /** How many bytes the writer provides for the length of a prototype */
  function LengthBytes(n: nat): nat
    requires n > 0
  {
    (Fls(n) + 8) * 9 / 64
  }

  lemma {:induction false} FlsGroups(n: nat)
    requires n >= 128
    ensures Fls(n) == 7 + Fls(n / 128)
  {
    assert n / 2 / 2 / 2 / 2 / 2 / 2 / 2 == n / 128;
    var a := n / 2;
    var b := a / 2;
    var c := b / 2;
    var d := c / 2;
    var e := d / 2;
    var f := e / 2;
    assert Fls(n) == 1 + Fls(a) && Fls(a) == 1 + Fls(b) && Fls(b) == 1 + Fls(c);
    assert Fls(c) == 1 + Fls(d) && Fls(d) == 1 + Fls(e) && Fls(e) == 1 + Fls(f) && Fls(f) == 1 + Fls(f / 2);
  }

  lemma {:induction false} FlsBelow(n: nat, k: nat)
    requires 0 < n < Pow2(k + 1)
    ensures Fls(n) <= k
  {
    if n >= 2 {
      assert Pow2(k + 1) == 2 * Pow2(k);
      assert k > 0;
      FlsBelow(n / 2, k - 1);
    }
  }

  /** The bytes provided are just those that the length takes. */
  lemma {:induction false} LengthFits(n: nat)
    requires 0 < n < W32
    ensures LengthBytes(n) == |Uleb(n)| <= 5
  {
    var k := UlebFls(n);
    assert 7 * (k - 1) <= Fls(n) < 7 * k && k <= 5;
  }

  /** The number of bytes is the number of groups of seven bits. */
  lemma {:induction false} UlebFls(n: nat) returns (k: nat)
    requires n > 0
    ensures k == |Uleb(n)| > 0 && 7 * (k - 1) <= Fls(n) < 7 * k
    ensures n < W32 ==> k <= 5
    decreases n
  {
    if n < 128 {
      Pow2Values();
      FlsBelow(n, 6);
      k := 1;
    } else {
      var j := UlebFls(n / 128);
      FlsGroups(n);
      k := j + 1;
      if n < W32 {
        UlebLength(n);
      }
    }
  }

  lemma UlebLength(n: nat)
    requires n < W32
    ensures |Uleb(n)| <= 5
  {
    var a := n / 128;
    var b := a / 128;
    var c := b / 128;
    var d := c / 128;
    assert d < 16;
    assert |Uleb(d)| == 1 && |Uleb(c)| <= 2 && |Uleb(b)| <= 3 && |Uleb(a)| <= 4;
  }

  class Writer {
    var sb: seq<byte>
    var heap: array<Node>
    /** What was passed to the writer callback, and whether it took all of it */
    var out: seq<byte>
    var status: bool
    const o: Options

    constructor (o: Options)
      ensures sb == [] && out == [] && status && this.o == o && fresh(heap)
    {
      this.o := o;
      sb, out, status := [], [], true;
      heap := new Node[0];
    }

    /** lj_strfmt_wuleb128 at the end of the buffer */
    method PutUleb(v: word)
      modifies `sb
      ensures sb == old(sb) + Uleb(v)
    {
      sb := WriteUleb(sb, v);
    }

    /** lj_buf_wmem at the end of the buffer */
    method PutMem(mem: seq<byte>)
      modifies `sb
      ensures sb == old(sb) + mem
    {
      sb := sb + mem;
    }

    /** bcwrite_ktabk */
    method PutValue(v: Value)
      requires SmallValue(v)
      modifies `sb
      ensures sb == old(sb) + ValueBytes(v)
    {
      hide Uleb;
      match v {
        case Str(s) =>
          PutUleb(KTAB_STR + |s|);
          PutMem(s);
          assert sb == old(sb) + (Uleb(KTAB_STR + |s|) + s);
        case Int(k) =>
          PutMem([KTAB_INT]);
          PutUleb(k);
          assert sb == old(sb) + ([KTAB_INT] + Uleb(k));
        case Num(lo, hi) =>
          PutMem([KTAB_NUM]);
          PutUleb(lo);
          PutUleb(hi);
          assert sb == old(sb) + ([KTAB_NUM] + Uleb(lo) + Uleb(hi));
        case Marker => PutMem([KTAB_NIL]);
        case Nil => PutMem([KTAB_NIL]);
        case False => PutMem([KTAB_NIL + 1]);
        case True => PutMem([KTAB_NIL + 2]);
      }
    }

    method PutNode(n: Node)
      requires SmallValue(n.key) && SmallValue(n.val)
      modifies `sb
      ensures sb == old(sb) + (ValueBytes(n.key) + ValueBytes(n.val))
    {
      hide ValueBytes;
      PutValue(n.key);
      PutValue(n.val);
    }

    /** bcwrite_ktab_sorted_hash */
    method PutSortedHash(node: seq<Node>, nhash0: nat)
      requires GoodNodes(node) && 0 < nhash0 == |LiveDown(node)| <= heap.Length && SmallNodes(node)
      modifies `sb, heap
      ensures IsHash(LiveSet(node)) && sb == old(sb) + NodesBytes(SortedNodes(LiveSet(node)))
    {
      hide Draining, IsHash, HeapFrom, AllValues, LiveSet, LiveDown, GoodNodes, NodesBytes, SmallNodes, IsValue, KeyLess;
      LiveOnce(node);
      ghost var nodes := LiveSet(node);
      BuildHeap(heap, node, nhash0);
      var nhash := nhash0;
      ghost var out: seq<Node> := [];
      DrainStart(heap[..], nhash, nodes);
      NoNodesBytes();
      while true
        invariant 0 < nhash <= heap.Length && Draining(heap[..], nhash, out, nodes)
        invariant sb == old(sb) + NodesBytes(out)
        decreases nhash
      {
        var key := heap[0];
        DrainOne(heap[..], nhash, out, nodes);
        DrainedIsSmall(heap[..], nhash, out, node);
        PutNode(key);
        NodesBytesEnd(out, key);
        nhash := nhash - 1;
        ghost var before := heap[..];
        if nhash == 0 {
          heap[0] := key;
          DrainEnd(before, out, nodes);
          assert sb == old(sb) + NodesBytes(out + [key]);
          return;
        }
        DrainedRest(heap[..], nhash);
        HeapInsert(heap, 0, nhash, heap[nhash]);
        DrainNext(before, heap[..], nhash, out, nodes);
        out := out + [key];
      }
    }

    /** The nodes from the last one down, as bcwrite_ktab writes them if their order is not to be deterministic */
    method PutLiveDown(node: seq<Node>, nhash: nat)
      requires 0 < nhash == |LiveDown(node)| && SmallNodes(node)
      modifies `sb
      ensures sb == old(sb) + NodesBytes(LiveDown(node))
    {
      hide LiveDown, ValueBytes;
      var i, k := nhash, |node|;
      assert node[..k] == node;
      while true
        invariant 0 < i && k <= |node| && i == |LiveDown(node[..k])|
        invariant sb + NodesBytes(LiveDown(node[..k])) == old(sb) + NodesBytes(LiveDown(node))
        decreases k
      {
        NoneLive(k, node);
        k := k - 1;
        LiveStep(node, k);
        if !node[k].val.Nil? {
          ghost var before := sb;
          PutNode(node[k]);
          NodesBytesFirst(node[k], LiveDown(node[..k]));
          assert sb + NodesBytes(LiveDown(node[..k])) == before + NodesBytes(LiveDown(node[..k + 1]));
          i := i - 1;
          if i == 0 {
            assert LiveDown(node[..k]) == [];
            break;
          }
        } else {
          assert LiveDown(node[..k + 1]) == LiveDown(node[..k]);
        }
      }
    }

    /** The array part of a table, without the nils at its end */
    method PutArray(a: seq<Value>, n: nat)
      requires n <= |a| && forall i {:trigger a[i]} :: 0 <= i < |a| ==> SmallValue(a[i])
      modifies `sb
      ensures sb == old(sb) + ValuesBytes(a[..n])
    {
      hide ValueBytes, SmallValue;
      for i := 0 to n
        invariant sb + ValuesBytes(a[i..n]) == old(sb) + ValuesBytes(a[..n])
      {
        ghost var before := sb;
        PutValue(a[i]);
        assert a[i..n][1..] == a[i + 1..n];
        assert sb + ValuesBytes(a[i + 1..n]) == before + (ValueBytes(a[i]) + ValuesBytes(a[i + 1..n]));
      }
      assert a[n..n] == [];
    }

    /** bcwrite_ktab */
    method PutTable(t: Table)
      requires GoodTable(t)
      modifies `sb, `heap, heap
      ensures sb == old(sb) + TableBytes(t, o) && (heap == old(heap) || fresh(heap))
    {
      hide ValuesBytes, NodesBytes, LiveDown, Uleb, GoodNodes, LiveSet, SmallValue, SortedNodes, Used, IsHash;
      var narray := UsedLength(t.array_);
      var nhash := CountLive(t.node);
      PutUleb(narray);
      PutUleb(nhash);
      PutArray(t.array_, narray);
      assert sb == old(sb) + (Uleb(narray) + Uleb(nhash) + ValuesBytes(t.array_[..narray]));
      if nhash > 0 {
        if o.deterministic && nhash > 1 {
          if heap.Length < nhash {
            heap := new Node[|t.node|];
          }
          PutSortedHash(t.node, nhash);
        } else {
          PutLiveDown(t.node, nhash);
        }
      } else {
        NoNodesBytes();
      }
      assert sb == old(sb) + (Uleb(narray) + Uleb(nhash) + ValuesBytes(t.array_[..narray]) + NodesBytes(NodeOrder(t.node, o)));
    }

    /** The length of an array part without the nils at its end */
    method UsedLength(a: seq<Value>) returns (n: nat)
      ensures n == Used(a)
    {
      n := |a|;
      assert a[..n] == a;
      while n > 0 && a[n - 1].Nil?
        invariant n <= |a| && Used(a) == Used(a[..n])
      {
        assert a[..n][..n - 1] == a[..n - 1];
        n := n - 1;
      }
    }

    /** The hash slots that are used */
    method CountLive(node: seq<Node>) returns (n: nat)
      ensures n == |LiveDown(node)|
    {
      hide LiveDown;
      n := 0;
      LiveNone(node);
      for i := 0 to |node|
        invariant n == |LiveDown(node[..i])|
      {
        LiveStep(node, i);
        if !node[i].val.Nil? {
          n := n + 1;
        }
      }
      assert node[..|node|] == node;
    }

    /** bcwrite_kgc */
    method PutConst(c: Const)
      requires GoodConst(c)
      modifies `sb, `heap, heap
      ensures sb == old(sb) + ConstBytes(c, o) && (heap == old(heap) || fresh(heap))
    {
      hide Uleb, TableBytes, GoodTable;
      match c {
        case KStr(s) =>
          PutUleb(KGC_STR + |s|);
          PutMem(s);
          assert sb == old(sb) + (Uleb(KGC_STR + |s|) + s);
        case KChild(_) => PutUleb(KGC_CHILD);
        case KTab(t) =>
          TableIsGood(t);
          PutUleb(KGC_TAB);
          PutTable(t);
          assert sb == old(sb) + (Uleb(KGC_TAB) + TableBytes(t, o));
        case KI64(lo, hi) =>
          PutUleb(KGC_I64);
          PutUleb(lo);
          PutUleb(hi);
          assert sb == old(sb) + (Uleb(KGC_I64) + Uleb(lo) + Uleb(hi));
        case KU64(lo, hi) =>
          PutUleb(KGC_U64);
          PutUleb(lo);
          PutUleb(hi);
          assert sb == old(sb) + (Uleb(KGC_U64) + Uleb(lo) + Uleb(hi));
        case KComplex(re, im) =>
          PutUleb(KGC_COMPLEX);
          PutUleb(re.0);
          PutUleb(re.1);
          PutUleb(im.0);
          PutUleb(im.1);
          assert sb == old(sb) + (Uleb(KGC_COMPLEX) + Uleb(re.0) + Uleb(re.1) + Uleb(im.0) + Uleb(im.1));
      }
    }

    method PutConsts(cs: seq<Const>)
      requires GoodConsts(cs)
      modifies `sb, `heap, heap
      ensures sb == old(sb) + ConstsBytes(cs, o) && (heap == old(heap) || fresh(heap))
    {
      hide ConstBytes, GoodConst;
      for i := 0 to |cs|
        invariant heap == old(heap) || fresh(heap)
        invariant sb + ConstsBytes(cs[i..], o) == old(sb) + ConstsBytes(cs, o)
      {
        ghost var before := sb;
        ConstIsGood(cs[i]);
        PutConst(cs[i]);
        assert cs[i..][1..] == cs[i + 1..];
        assert sb + ConstsBytes(cs[i + 1..], o) == before + (ConstBytes(cs[i], o) + ConstsBytes(cs[i + 1..], o));
      }
    }

    /** bcwrite_knum */
    method PutNumbers(vs: seq<Value>)
      requires forall i :: 0 <= i < |vs| ==> IsNumber(vs[i])
      modifies `sb
      ensures sb == old(sb) + NumbersBytes(vs)
    {
      hide Uleb;
      for i := 0 to |vs|
        invariant sb + NumbersBytes(vs[i..]) == old(sb) + NumbersBytes(vs)
      {
        ghost var before := sb;
        assert vs[i..][1..] == vs[i + 1..];
        match vs[i] {
          case Int(k) =>
            sb := WriteTagged(sb, k, false);
            assert sb == before + NumberBytes(vs[i]);
          case Num(lo, hi) =>
            sb := WriteTagged(sb, lo, true);
            PutUleb(hi);
            assert sb == before + NumberBytes(vs[i]);
        }
        assert sb + NumbersBytes(vs[i + 1..]) == before + (NumberBytes(vs[i]) + NumbersBytes(vs[i + 1..]));
      }
    }

    /** The header of a prototype in the buffer, behind room for its length */
    method PutHead(pt: Proto)
      requires GoodProto(pt)
      modifies `sb
      ensures sb == NOROOM + HeadBytes(pt, o)
    {
      hide Uleb, GoodConsts, DebugHead, KeptFlags;
      sb := NOROOM;
      PutMem([KeptFlags(pt.flags), pt.numparams, pt.framesize, |pt.uv| / 2]);
      PutUleb(|pt.kgc|);
      PutUleb(|pt.knum|);
      PutUleb(|pt.bc| / 4);
      ghost var start := sb;
      assert start == NOROOM + ([KeptFlags(pt.flags), pt.numparams, pt.framesize, |pt.uv| / 2]
                                + Uleb(|pt.kgc|) + Uleb(|pt.knum|) + Uleb(|pt.bc| / 4));
      if !o.strip {
        PutDebugHead(pt.debug);
      }
      assert sb == start + (if o.strip then [] else DebugHead(pt.debug));
    }

    method PutDebugHead(d: Debug)
      requires d.Debug? ==> |d.info| < W32
      modifies `sb
      ensures sb == old(sb) + DebugHead(d)
    {
      hide Uleb;
      match d {
        case NoDebug => PutUleb(0);
        case Debug(first, num, info) =>
          PutUleb(|info|);
          PutUleb(first);
          PutUleb(num);
          assert sb == old(sb) + (Uleb(|info|) + Uleb(first) + Uleb(num));
      }
    }

    /** What bcwrite_proto puts into the buffer */
    method PutBody(pt: Proto)
      requires GoodProto(pt)
      modifies `sb, `heap, heap
      ensures sb == NOROOM + BodyBytes(pt, o) && (heap == old(heap) || fresh(heap))
    {
      hide HeadBytes, ConstsBytes, NumbersBytes, GoodConsts;
      PutHead(pt);
      PutMem(pt.bc);
      PutMem(pt.uv);
      PutConsts(pt.kgc);
      PutNumbers(pt.knum);
      if !o.strip {
        PutMem(DebugInfo(pt.debug));
      }
      assert sb == NOROOM + BodyBytes(pt, o);
    }

    /** The writer callback takes the bytes, or fails. */
    method Pass(bytes: seq<byte>)
      modifies `out, `status
      ensures out == old(out) + bytes
    {
      out := out + bytes;
      var ok: bool :| true;
      status := ok;
    }

    /** The end of bcwrite_proto: the length is written before the body, without a gap. */
    method PassBody(ghost body: seq<byte>)
      requires sb == NOROOM + body && 0 < |body| < W32
      modifies `sb, `out, `status
      ensures if old(status) then out == old(out) + Uleb(|body|) + body else out == old(out) && !status
    {
      hide Uleb;
      if status {
        var n := |sb| - 5;
        var nn := LengthBytes(n);
        LengthFits(n);
        var length := WriteUleb([], n);
        sb := sb[..5 - nn] + length + sb[5 - nn + |length|..];
        assert sb[5 - nn..] == length + body;
        Pass(sb[5 - nn..]);
      }
    }

    /** bcwrite_proto */
    method PutProto(pt: Proto)
      requires GoodTree(pt, o)
      modifies this, heap
      ensures heap == old(heap) || fresh(heap)
      ensures Passed(old(out), old(status), out, status, TreeBytes(pt, o))
      decreases pt, |pt.kgc| + 1
    {
      hide BodyBytes, GoodProto, GoodChildren, TreeBytes;
      TreeParts(pt, o);
      if HasChildren(pt.flags) {
        PutChildren(pt);
      }
      label L: assert Passed(old(out), old(status), out, status, ChildrenBytes(pt, o, |pt.kgc|));
      PutBody(pt);
      BodyNotEmpty(pt, o);
      PassBody(BodyBytes(pt, o));
      PassedTwice(old(out), old(status), old@L(out), old@L(status), out, status,
                  ChildrenBytes(pt, o, |pt.kgc|), Uleb(|BodyBytes(pt, o)|) + BodyBytes(pt, o));
    }

    /** The children of a prototype, the last one first */
    method PutChildren(pt: Proto)
      requires GoodProto(pt) && GoodChildren(pt, o, |pt.kgc|)
      modifies this, heap
      ensures heap == old(heap) || fresh(heap)
      ensures Passed(old(out), old(status), out, status, ChildrenBytes(pt, o, |pt.kgc|))
      decreases pt, |pt.kgc|
    {
      hide GoodProto, GoodTree, TreeBytes;
      var i: nat := |pt.kgc|;
      ghost var done: seq<byte> := [];
      while i > 0
        invariant i <= |pt.kgc| && GoodChildren(pt, o, i)
        invariant heap == old(heap) || fresh(heap)
        invariant Passed(old(out), old(status), out, status, done)
        invariant done + ChildrenBytes(pt, o, i) == ChildrenBytes(pt, o, |pt.kgc|)
      {
        i := i - 1;
        ghost var out1, status1, done1 := out, status, done;
        if pt.kgc[i].KChild? {
          PutProto(pt.kgc[i].pt);
          PassedTwice(old(out), old(status), out1, status1, out, status, done, TreeBytes(pt.kgc[i].pt, o));
          done := done + TreeBytes(pt.kgc[i].pt, o);
          assert done + ChildrenBytes(pt, o, i) == done1 + ChildrenBytes(pt, o, i + 1);
        } else {
          assert ChildrenBytes(pt, o, i + 1) == ChildrenBytes(pt, o, i);
        }
      }
      assert done + ChildrenBytes(pt, o, 0) == done;
    }

    /** lj_bcwrite, with its header and its end */
    method Write(pt: Proto, name: seq<byte>, be: bool, fr2: bool)
      requires GoodTree(pt, o) && |name| <= LJ_MAX_STR && status
      modifies this, heap
      ensures Passed(old(out), true, out, status, DumpBytes(pt, name, o, be, fr2))
    {
      hide GoodTree, TreeBytes, FlagByte, Uleb, Passed;
      sb := [HEAD1, HEAD2, HEAD3, VERSION, FlagByte(Flags(be, o.strip, IsFFI(pt), fr2, IsBitop(pt)))];
      if !o.strip {
        PutUleb(|name|);
        PutMem(name);
      }
      assert sb == HeaderBytes(pt, name, o, be, fr2);
      Pass(sb);
      PassedOnce(old(out), out, status, HeaderBytes(pt, name, o, be, fr2));
      label H: assert true;
      PutProto(pt);
      PassedTwice(old(out), true, old@H(out), old@H(status), out, status, HeaderBytes(pt, name, o, be, fr2), TreeBytes(pt, o));
      label P: assert true;
      if status {
        Pass([0]);
        PassedOnce(old@P(out), out, status, [0]);
      } else {
        PassedNone(out, [0]);
      }
      PassedTwice(old(out), true, old@P(out), old@P(status), out, status, HeaderBytes(pt, name, o, be, fr2) + TreeBytes(pt, o), [0]);
    }
  }

  /** Room for a length that is not known yet */
  const NOROOM: seq<byte> := [0, 0, 0, 0, 0]

  /** The callback got all of `bytes` if it is still in a good state, and otherwise a first part of them. */
  ghost predicate Passed(out: seq<byte>, status: bool, out': seq<byte>, status': bool, bytes: seq<byte>) {
    if status then out <= out' <= out + bytes && (status' ==> out' == out + bytes)
    else out' == out && !status'
  }

  lemma PassedOnce(out: seq<byte>, out': seq<byte>, status': bool, bytes: seq<byte>)
    requires out' == out + bytes
    ensures Passed(out, true, out', status', bytes)
  {
  }

  lemma PassedNone(out: seq<byte>, bytes: seq<byte>)
    ensures Passed(out, false, out, false, bytes)
  {
  }

  lemma PassedTwice(out: seq<byte>, status: bool, out': seq<byte>, status': bool, out'': seq<byte>, status'': bool, a: seq<byte>, b: seq<byte>)
    requires Passed(out, status, out', status', a) && Passed(out', status', out'', status'', b)
    ensures Passed(out, status, out'', status'', a + b)
  {
    if status {
      assert out + a <= out + (a + b);
      assert out + a + b == out + (a + b);
    }
  }

  lemma TreeParts(pt: Proto, o: Options)
    requires GoodTree(pt, o)
    ensures GoodProto(pt) && |BodyBytes(pt, o)| < W32 && GoodChildren(pt, o, |pt.kgc|)
    ensures TreeBytes(pt, o) == ChildrenBytes(pt, o, |pt.kgc|) + (Uleb(|BodyBytes(pt, o)|) + BodyBytes(pt, o))
    ensures !HasChildren(pt.flags) ==> ChildrenBytes(pt, o, |pt.kgc|) == []
  {
    if !HasChildren(pt.flags) {
      NoChildrenBytes(pt, o, |pt.kgc|);
    }
  }

  lemma {:induction false} NoChildrenBytes(pt: Proto, o: Options, n: nat)
    requires n <= |pt.kgc| && GoodChildren(pt, o, n) && forall i {:trigger pt.kgc[i]} :: 0 <= i < |pt.kgc| ==> !pt.kgc[i].KChild?
    ensures ChildrenBytes(pt, o, n) == []
  {
    if n > 0 {
      NoChildrenBytes(pt, o, n - 1);
    }
  }

  lemma LiveNone(node: seq<Node>)
    ensures LiveDown(node[..0]) == []
  {
  }

  lemma NodesBytesFirst(n: Node, rest: seq<Node>)
    ensures NodesBytes([n] + rest) == ValueBytes(n.key) + ValueBytes(n.val) + NodesBytes(rest)
  {
    assert ([n] + rest)[1..] == rest;
  }

  ghost predicate SmallNodes(node: seq<Node>) {
    forall i {:trigger node[i]} :: 0 <= i < |node| ==> SmallValue(node[i].key) && SmallValue(node[i].val)
  }

  lemma NoNodesBytes()
    ensures NodesBytes([]) == []
  {
  }

  lemma {:induction false} NodesBytesEnd(out: seq<Node>, n: Node)
    ensures NodesBytes(out + [n]) == NodesBytes(out) + (ValueBytes(n.key) + ValueBytes(n.val))
  {
    hide ValueBytes;
    if out == [] {
      assert out + [n] == [n];
      assert [n][1..] == [];
    } else {
      NodesBytesEnd(out[1..], n);
      assert (out + [n])[1..] == out[1..] + [n];
    }
  }

  lemma DrainStart(h: seq<Node>, n: nat, nodes: set<Node>)
    requires IsHash(nodes) && HeapFrom(h, 0, n) && multiset(h[..n]) == multiset(nodes)
    ensures Draining(h, n, [], nodes)
  {
    hide IsHash, HeapFrom;
  }

  lemma DrainedIsSmall(h: seq<Node>, n: nat, out: seq<Node>, node: seq<Node>)
    requires 0 < n && Draining(h, n, out, LiveSet(node)) && SmallNodes(node)
    ensures SmallValue(h[0].key) && SmallValue(h[0].val)
  {
    hide IsHash, SmallValue;
    StillThere(h, n, out, LiveSet(node), 0);
  }

  lemma DrainEnd(h: seq<Node>, out: seq<Node>, nodes: set<Node>)
    requires Draining(h, 1, out, nodes)
    ensures IsHash(nodes) && out + [h[0]] == SortedNodes(nodes)
  {
    hide IsHash, KeyLess;
    DrainOne(h, 1, out, nodes);
    assert h[..1] == [h[0]];
    assert multiset(out + [h[0]]) == multiset(nodes);
    SortedIsUnique(nodes, out + [h[0]]);
  }

  /** The last node is out of the way; the others still are in order, but for the first. */
  lemma DrainedRest(h: seq<Node>, n: nat)
    requires 0 < n < |h| && HeapFrom(h, 0, n + 1) && AllValues(h, 0, n + 1)
    ensures HeapFrom(h, 1, n) && AllValues(h, 1, n) && IsValue(h[n].key)
  {
  }

  lemma DrainNext(h: seq<Node>, g: seq<Node>, n: nat, out: seq<Node>, nodes: set<Node>)
    requires 0 < n < |h| == |g| && Draining(h, n + 1, out, nodes) && HeapFrom(g, 0, n)
    requires multiset(g[0..n]) == multiset{h[n]} + multiset(h[1..n])
    ensures Draining(g, n, out + [h[0]], nodes)
  {
    hide IsHash, KeyLess, HeapFrom;
    DrainOne(h, n + 1, out, nodes);
    assert h[..n + 1] == [h[0]] + h[1..n] + [h[n]];
    assert multiset(h[..n + 1]) == multiset{h[0]} + multiset(h[1..n]) + multiset{h[n]};
    assert g[0..n] == g[..n];
    assert multiset(out + [h[0]]) + multiset(g[..n]) == multiset(nodes);
    forall i, j | 0 <= i < |out + [h[0]]| && 0 <= j < n ensures KeyLess((out + [h[0]])[i].key, g[j].key) {
      assert g[j] in multiset(g[..n]);
      assert g[j] in h[1..n] + [h[n]];
    }
  }
}
