/** A dump that is read is what was written. */
module DumpTrip {
  import opened DumpNumbers
  import opened DumpTypes
  import opened DumpSort
  import opened DumpFormat
  import opened DumpParse

  lemma WordTrip(s: seq<byte>, p: nat, v: word)
    requires Holds(s, p, Uleb(v))
    ensures WordAt(s, p) == Got(v, p + |Uleb(v)|)
  {
    UlebTrip(s, p, v);
  }

  lemma PairTrip(s: seq<byte>, p: nat, v: word, w: word)
    requires Holds(s, p, Uleb(v) + Uleb(w))
    ensures PairAt(s, p) == Got((v, w), p + |Uleb(v) + Uleb(w)|)
  {
    hide Uleb, Holds;
    HoldsBoth(s, p, Uleb(v), Uleb(w));
    WordTrip(s, p, v);
    WordTrip(s, p + |Uleb(v)|, w);
  }

  lemma BlockTrip(s: seq<byte>, p: nat, block: seq<byte>)
    requires Holds(s, p, block)
    ensures BlockAt(s, p, |block|) == Got(block, p + |block|)
  {
  }

  /** A marker can only be told from a nil in the hash part. */
  function Restored(v: Value, hashed: bool): Value {
    if v.Marker? || v.Nil? then (if hashed then Marker else Nil) else v
  }

  lemma ValueTrip(s: seq<byte>, p: nat, v: Value, hashed: bool)
    requires Holds(s, p, ValueBytes(v)) && SmallValue(v)
    ensures ValueAt(s, p, hashed) == Got(Restored(v, hashed), p + |ValueBytes(v)|)
  {
    hide Holds, UlebAt;
    match v {
      case Str(str) => StrTrip(s, p, str, hashed);
      case Int(k) =>
        HoldsBoth(s, p, [KTAB_INT], Uleb(k));
        WordTrip(s, p, KTAB_INT);
        WordTrip(s, p + 1, k);
      case Num(lo, hi) => NumTrip(s, p, lo, hi, hashed);
      case Nil => WordTrip(s, p, KTAB_NIL);
      case Marker => WordTrip(s, p, KTAB_NIL);
      case False => WordTrip(s, p, KTAB_FALSE);
      case True => WordTrip(s, p, KTAB_TRUE);
    }
  }

  lemma StrTrip(s: seq<byte>, p: nat, str: seq<byte>, hashed: bool)
    requires Holds(s, p, ValueBytes(Str(str))) && |str| <= LJ_MAX_STR
    ensures ValueAt(s, p, hashed) == Got(Str(str), p + |ValueBytes(Str(str))|)
  {
    hide Holds, UlebAt, Uleb;
    HoldsBoth(s, p, Uleb(KTAB_STR + |str|), str);
    WordTrip(s, p, KTAB_STR + |str|);
    BlockTrip(s, p + |Uleb(KTAB_STR + |str|)|, str);
  }

  lemma NumTrip(s: seq<byte>, p: nat, lo: word, hi: word, hashed: bool)
    requires Holds(s, p, ValueBytes(Num(lo, hi)))
    ensures ValueAt(s, p, hashed) == Got(Num(lo, hi), p + |ValueBytes(Num(lo, hi))|)
  {
    hide Holds, UlebAt, WordAt;
    assert ValueBytes(Num(lo, hi)) == [KTAB_NUM] + (Uleb(lo) + Uleb(hi));
    HoldsBoth(s, p, [KTAB_NUM], Uleb(lo) + Uleb(hi));
    WordTrip(s, p, KTAB_NUM);
    PairTrip(s, p + 1, lo, hi);
  }

  /** An array part as it is read back */
  function RestoredArray(vs: seq<Value>): (r: seq<Value>)
    ensures |r| == |vs| && forall i :: 0 <= i < |vs| ==> r[i] == Restored(vs[i], false)
  {
    if vs == [] then [] else [Restored(vs[0], false)] + RestoredArray(vs[1..])
  }

  lemma {:induction false} ValuesTrip(s: seq<byte>, p: nat, vs: seq<Value>)
    requires Holds(s, p, ValuesBytes(vs)) && forall i {:trigger vs[i]} :: 0 <= i < |vs| ==> SmallValue(vs[i])
    ensures ValuesAt(s, p, |vs|) == Got(RestoredArray(vs), p + |ValuesBytes(vs)|)
    decreases |vs|
  {
    hide Holds, SmallValue, ValueAt, ValueBytes, Restored;
    if vs != [] {
      HoldsBoth(s, p, ValueBytes(vs[0]), ValuesBytes(vs[1..]));
      ValueTrip(s, p, vs[0], false);
      ValuesTrip(s, p + |ValueBytes(vs[0])|, vs[1..]);
    }
  }

  // ------------------------------------------------------------------
  // The hash part

  ghost predicate NewKey(node: seq<Node>, key: Value) {
    forall i {:trigger node[i]} :: 0 <= i < |node| ==> node[i].key != key
  }

  lemma {:induction false} SetNewKey(node: seq<Node>, key: Value, val: Value)
    requires NewKey(node, key)
    ensures SetNode(node, key, val) == node + [Node(key, val)]
  {
    if node != [] {
      assert node[0].key != key;
      SetNewKey(node[1..], key, val);
    }
  }

  /** Nodes whose keys are all different, and that belong into the hash part of a table with `n` array slots */
  ghost predicate Hashable(node: seq<Node>, n: nat) {
    && (forall i {:trigger node[i]} :: 0 <= i < |node| ==>
          && SmallValue(node[i].key) && SmallValue(node[i].val) && !node[i].val.Nil?
          && !node[i].key.Nil? && !node[i].key.Marker? && (node[i].key.Int? ==> node[i].key.k >= n))
    && forall i, j {:trigger node[i], node[j]} :: 0 <= i < j < |node| ==> node[i].key != node[j].key
  }

  /** Each node that is read is new in the table. */
  lemma {:induction false} NodesTrip(s: seq<byte>, p: nat, node: seq<Node>, k: nat, a: seq<Value>)
    requires k <= |node| && Hashable(node, |a|) && Holds(s, p, NodesBytes(node[k..]))
    ensures NodesAt(s, p, |node| - k, Table(a, node[..k])) == Got(Table(a, node), p + |NodesBytes(node[k..])|)
    decreases |node| - k
  {
    hide Holds, SmallValue, ValueAt, ValueBytes, SetNode;
    if k == |node| {
      assert node[..k] == node;
    } else {
      var n := node[k];
      assert node[k..][1..] == node[k + 1..];
      assert NodesBytes(node[k..]) == ValueBytes(n.key) + (ValueBytes(n.val) + NodesBytes(node[k + 1..]));
      HoldsBoth(s, p, ValueBytes(n.key), ValueBytes(n.val) + NodesBytes(node[k + 1..]));
      HoldsBoth(s, p + |ValueBytes(n.key)|, ValueBytes(n.val), NodesBytes(node[k + 1..]));
      ValueTrip(s, p, n.key, false);
      ValueTrip(s, p + |ValueBytes(n.key)|, n.val, true);
      SetNewKey(node[..k], n.key, n.val);
      assert node[..k] + [n] == node[..k + 1];
      NodesTrip(s, p + |ValueBytes(n.key)| + |ValueBytes(n.val)|, node, k + 1, a);
    }
  }

  // ------------------------------------------------------------------
  // Tables and constants

  lemma OrderHasLive(node: seq<Node>, o: Options)
    requires GoodNodes(node)
    ensures var order := NodeOrder(node, o);
            multiset(order) == multiset(LiveSet(node)) && |order| == |LiveDown(node)| && IsHash(LiveSet(node))
  {
    hide LiveSet, LiveDown, GoodNodes, Sorted, SortedNodes, IsHash;
    LiveOnce(node);
    if o.deterministic && |LiveDown(node)| > 1 {
      SortedNodesAscend(LiveSet(node));
    }
    var order := NodeOrder(node, o);
    assert |order| == |multiset(order)| == |multiset(LiveDown(node))| == |LiveDown(node)|;
  }

  /** The live nodes in any order belong into the hash part that is read. */
  lemma OrderIsHashable(t: Table, o: Options)
    requires GoodTable(t)
    ensures Hashable(NodeOrder(t.node, o), Used(t.array_)) && |NodeOrder(t.node, o)| == |LiveDown(t.node)|
  {
    hide IsValue, SmallValue, NodeOrder, LiveDown, IsHash;
    OrderHasLive(t.node, o);
    var order := NodeOrder(t.node, o);
    OnceEach(order, t.node);
    forall i | 0 <= i < |order| ensures order[i] in t.node && !order[i].val.Nil? {
      assert order[i] in multiset(LiveSet(t.node));
    }
  }

  lemma OnceEach(order: seq<Node>, node: seq<Node>)
    requires multiset(order) == multiset(LiveSet(node)) && IsHash(LiveSet(node))
    ensures forall i, j {:trigger order[i], order[j]} :: 0 <= i < j < |order| ==> order[i].key != order[j].key
  {
    hide IsValue;
    forall i, j | 0 <= i < j < |order| ensures order[i].key != order[j].key {
      assert order == order[..i] + [order[i]] + order[i + 1..];
      assert order[i + 1..][j - i - 1] == order[j];
      assert order[j] in order[i + 1..];
      assert multiset(order)[order[i]] >= 1 + multiset(order[i + 1..])[order[i]];
      assert order[i] in multiset(LiveSet(node)) && order[j] in multiset(LiveSet(node));
    }
  }

  /** A table as it is read back: without nils at its end, and with its live nodes in the order of the dump */
  ghost function NormalTable(t: Table, o: Options): Table
    requires GoodNodes(t.node)
  {
    Table(RestoredArray(t.array_[..Used(t.array_)]), NodeOrder(t.node, o))
  }

  lemma TableTrip(s: seq<byte>, p: nat, t: Table, o: Options)
    requires GoodTable(t) && Holds(s, p, TableBytes(t, o))
    ensures TableAt(s, p) == Got(NormalTable(t, o), p + |TableBytes(t, o)|)
  {
    hide Holds, SmallValue, ValuesAt, NodesAt, ValuesBytes, NodesBytes, Hashable, LiveDown, LiveSet, RestoredArray, Uleb, NodeOrder, Used;
    var n, nodes := Used(t.array_), NodeOrder(t.node, o);
    var k := |LiveDown(t.node)|;
    OrderIsHashable(t, o);
    assert TableBytes(t, o) == (Uleb(n) + Uleb(k)) + (ValuesBytes(t.array_[..n]) + NodesBytes(nodes));
    HoldsBoth(s, p, Uleb(n) + Uleb(k), ValuesBytes(t.array_[..n]) + NodesBytes(nodes));
    PairTrip(s, p, n, k);
    var q := p + |Uleb(n) + Uleb(k)|;
    HoldsBoth(s, q, ValuesBytes(t.array_[..n]), NodesBytes(nodes));
    ValuesTrip(s, q, t.array_[..n]);
    assert nodes[0..] == nodes && nodes[..0] == [];
    NodesTrip(s, q + |ValuesBytes(t.array_[..n])|, nodes, 0, RestoredArray(t.array_[..n]));
  }

  /** A table that is read back has the same live nodes, and the same array but for nils and markers. */
  lemma TableIsKept(t: Table, o: Options)
    requires GoodTable(t)
    ensures var r := NormalTable(t, o);
            && LiveSet(r.node) == LiveSet(t.node) && |r.node| == |LiveDown(t.node)|
            && |r.array_| <= |t.array_|
            && forall i :: 0 <= i < |t.array_| ==> (if i < |r.array_| then r.array_[i] else Nil) == Restored(t.array_[i], false)
  {
    hide IsValue, SmallValue, NodeOrder, LiveDown, IsHash;
    OrderHasLive(t.node, o);
    var order := NodeOrder(t.node, o);
    forall n ensures n in LiveSet(order) <==> n in LiveSet(t.node) {
      assert n in order <==> n in multiset(order);
      assert n in multiset(LiveSet(t.node)) <==> n in LiveSet(t.node);
    }
  }

  /** In a deterministic dump, the bytes of a table do not depend on where its nodes are. */
  lemma DeterministicBytes(t: Table, u: Table, o: Options)
    requires GoodTable(t) && GoodTable(u) && o.deterministic
    requires t.array_ == u.array_ && LiveSet(t.node) == LiveSet(u.node)
    ensures TableBytes(t, o) == TableBytes(u, o)
  {
    hide ValuesBytes, NodesBytes, LiveSet, LiveDown, Used, Uleb, IsHash;
    LiveOnce(t.node);
    LiveOnce(u.node);
    assert |LiveDown(t.node)| == |multiset(LiveDown(t.node))| == |multiset(LiveDown(u.node))| == |LiveDown(u.node)|;
    if |LiveDown(t.node)| <= 1 {
      SameOne(LiveDown(t.node), LiveDown(u.node));
    }
  }

  lemma SameOne(a: seq<Node>, b: seq<Node>)
    requires |a| <= 1 && multiset(a) == multiset(b)
    ensures a == b
  {
    assert |a| == |multiset(a)| == |multiset(b)| == |b|;
    if a != [] {
      assert a == [a[0]] && b == [b[0]];
      assert a[0] in multiset(b);
    }
  }

  lemma {:induction false} NumberTrip(s: seq<byte>, p: nat, v: Value)
    requires IsNumber(v) && Holds(s, p, NumberBytes(v))
    ensures NumberAt(s, p) == Got(v, p + |NumberBytes(v)|)
  {
    hide Holds, UlebAt, Uleb;
    match v
    case Int(k) => UlebTrip(s, p, Tagged(k, false));
    case Num(lo, hi) =>
      HoldsBoth(s, p, Uleb(Tagged(lo, true)), Uleb(hi));
      UlebTrip(s, p, Tagged(lo, true));
      WordTrip(s, p + |Uleb(Tagged(lo, true))|, hi);
  }

  lemma {:induction false} NumbersTrip(s: seq<byte>, p: nat, vs: seq<Value>)
    requires (forall i :: 0 <= i < |vs| ==> IsNumber(vs[i])) && Holds(s, p, NumbersBytes(vs))
    ensures NumbersAt(s, p, |vs|) == Got(vs, p + |NumbersBytes(vs)|)
    decreases |vs|
  {
    hide Holds, NumberAt, NumberBytes;
    if vs != [] {
      HoldsBoth(s, p, NumberBytes(vs[0]), NumbersBytes(vs[1..]));
      NumberTrip(s, p, vs[0]);
      NumbersTrip(s, p + |NumberBytes(vs[0])|, vs[1..]);
      assert [vs[0]] + vs[1..] == vs;
    }
  }

  lemma HeadTrip(s: seq<byte>, p: nat, pt: Proto, o: Options)
    requires GoodProto(pt) && Holds(s, p, HeadBytes(pt, o))
    ensures HeadAt(s, p, o.strip) == Got(HeadOf(pt, o), p + |HeadBytes(pt, o)|)
  {
    hide Holds, Uleb, UlebAt, GoodProto, DebugHead, PairAt, WordAt, HeadBytesAt, KeptFlags;
    WordsFit(pt);
    var four := [KeptFlags(pt.flags), pt.numparams, pt.framesize, |pt.uv| / 2];
    var debug := if o.strip then [] else DebugHead(pt.debug);
    var sizes := Uleb(|pt.kgc|) + Uleb(|pt.knum|);
    var nbc := Uleb(|pt.bc| / 4);
    assert HeadBytes(pt, o) == four + (sizes + (nbc + debug));
    HoldsBoth(s, p, four, sizes + (nbc + debug));
    FourTrip(s, p, KeptFlags(pt.flags), pt.numparams, pt.framesize, |pt.uv| / 2);
    HoldsBoth(s, p + 4, sizes, nbc + debug);
    PairTrip(s, p + 4, |pt.kgc|, |pt.knum|);
    HoldsBoth(s, p + 4 + |sizes|, nbc, debug);
    WordTrip(s, p + 4 + |sizes|, |pt.bc| / 4);
    if !o.strip {
      DebugTrip(s, p + 4 + |sizes| + |nbc|, pt.debug);
    }
  }

  lemma WordsFit(pt: Proto)
    requires GoodProto(pt)
    ensures |pt.uv| / 2 < 256 && |pt.kgc| < W32 && |pt.knum| < W32 && |pt.bc| / 4 < W32
    ensures pt.debug.Debug? ==> 0 < |pt.debug.info| < W32
  {
  }

  lemma FourTrip(s: seq<byte>, p: nat, a: byte, b: byte, c: byte, d: byte)
    requires Holds(s, p, [a, b, c, d])
    ensures HeadBytesAt(s, p) == Got(Head(a, b, c, d, 0, 0, 0, 0, 0, 0), p + 4)
  {
    assert s[p] == s[p..p + 4][0] && s[p + 1] == s[p..p + 4][1] && s[p + 2] == s[p..p + 4][2] && s[p + 3] == s[p..p + 4][3];
  }

  lemma DebugTrip(s: seq<byte>, p: nat, d: Debug)
    requires Holds(s, p, DebugHead(d)) && (d.Debug? ==> 0 < |d.info| < W32)
    ensures match d
            case NoDebug => WordAt(s, p) == Got(0, p + |DebugHead(d)|)
            case Debug(first, num, info) =>
              && WordAt(s, p) == Got(|info|, p + |Uleb(|info|)|)
              && PairAt(s, p + |Uleb(|info|)|) == Got((first, num), p + |DebugHead(d)|)
  {
    hide Holds, Uleb, UlebAt, PairAt, WordAt;
    match d
    case NoDebug => WordTrip(s, p, 0);
    case Debug(first, num, info) =>
      assert DebugHead(d) == Uleb(|info|) + (Uleb(first) + Uleb(num));
      HoldsBoth(s, p, Uleb(|info|), Uleb(first) + Uleb(num));
      WordTrip(s, p, |info|);
      PairTrip(s, p + |Uleb(|info|)|, first, num);
  }

  function HeadOf(pt: Proto, o: Options): Head
    requires |pt.uv| / 2 < 256 && |pt.kgc| < W32 && |pt.knum| < W32 && |pt.bc| < W32 && (pt.debug.Debug? ==> |pt.debug.info| < W32)
  {
    var h := Head(KeptFlags(pt.flags), pt.numparams, pt.framesize, |pt.uv| / 2, |pt.kgc|, |pt.knum|, |pt.bc| / 4, 0, 0, 0);
    if o.strip || pt.debug.NoDebug? then h
    else h.(sizedbg := |pt.debug.info|, firstline := pt.debug.firstline, numline := pt.debug.numline)
  }
}
