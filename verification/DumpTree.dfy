/** A tree of prototypes survives its dump: children are pushed before their parent takes them from the stack. */
module DumpTree {
  import opened DumpNumbers
  import opened DumpTypes
  import opened DumpSort
  import opened DumpFormat
  import opened DumpParse
  import opened DumpTrip

  lemma {:induction false} ChildIsGood(pt: Proto, o: Options, n: nat, k: nat)
    requires k < n <= |pt.kgc| && GoodChildren(pt, o, n) && pt.kgc[k].KChild?
    ensures GoodTree(pt.kgc[k].pt, o)
    decreases n
  {
    if k < n - 1 {
      ChildIsGood(pt, o, n - 1, k);
    }
  }

  /** A prototype as it is read back */
  ghost function Normal(pt: Proto, o: Options): Proto
    requires GoodTree(pt, o)
    decreases pt, |pt.kgc| + 1
  {
    Proto(KeptFlags(pt.flags), pt.numparams, pt.framesize, pt.uv, pt.bc, NormalFrom(pt, o, 0), pt.knum,
          if o.strip then NoDebug else pt.debug)
  }

  ghost function NormalConst(pt: Proto, o: Options, k: nat): Const
    requires GoodTree(pt, o) && k < |pt.kgc|
    decreases pt, 0
  {
    match pt.kgc[k]
    case KChild(_) => ChildIsGood(pt, o, |pt.kgc|, k); KChild(Normal(pt.kgc[k].pt, o))
    case KTab(t) => assert GoodConst(pt.kgc[k]); KTab(NormalTable(t, o))
    case c => c
  }

  /** The constants of a prototype from `k` on, as they are read back */
  ghost function NormalFrom(pt: Proto, o: Options, k: nat): (r: seq<Const>)
    requires GoodTree(pt, o) && k <= |pt.kgc|
    ensures |r| == |pt.kgc| - k
    decreases pt, |pt.kgc| - k
  {
    if k == |pt.kgc| then [] else [NormalConst(pt, o, k)] + NormalFrom(pt, o, k + 1)
  }

  /** What the children among the constants from `k` on leave on the stack, the last one first */
  ghost function Pending(pt: Proto, o: Options, k: nat): seq<Proto>
    requires GoodTree(pt, o) && k <= |pt.kgc|
    decreases |pt.kgc| - k
  {
    if k == |pt.kgc| then []
    else Pending(pt, o, k + 1) + if pt.kgc[k].KChild? then [NormalConst(pt, o, k).pt] else []
  }

  // ------------------------------------------------------------------
  // Constants are read with the stack

  lemma ConstTrip(s: seq<byte>, p: nat, pt: Proto, o: Options, k: nat, stack: seq<Proto>)
    requires GoodTree(pt, o) && k < |pt.kgc| && GoodConst(pt.kgc[k]) && Holds(s, p, ConstBytes(pt.kgc[k], o))
    ensures var c := pt.kgc[k];
            var top := if c.KChild? then [NormalConst(pt, o, k).pt] else [];
            ConstAt(s, p, stack + top) == Got((NormalConst(pt, o, k), stack), p + |ConstBytes(c, o)|)
  {
    hide Holds, UlebAt, Uleb, WordAt, ConstAt, ConstBytes, GoodTable, Normal, NormalTable, GoodTree;
    var c := pt.kgc[k];
    assert stack + [] == stack;
    ConstIsGood(c);
    match c {
      case KChild(_) => ChildConstTrip(s, p, c, o, stack, NormalConst(pt, o, k).pt);
      case KStr(_) => StrConstTrip(s, p, c, o, stack);
      case KTab(_) => TableConstTrip(s, p, c, o, stack);
      case _ => NumberConstTrip(s, p, c, o, stack);
    }
  }

  lemma ChildConstTrip(s: seq<byte>, p: nat, c: Const, o: Options, stack: seq<Proto>, child: Proto)
    requires c.KChild? && Holds(s, p, ConstBytes(c, o))
    ensures ConstAt(s, p, stack + [child]) == Got((KChild(child), stack), p + |ConstBytes(c, o)|)
  {
    hide Holds, UlebAt, Uleb, WordAt, PairAt, TableAt;
    WordTrip(s, p, KGC_CHILD);
    assert (stack + [child])[..|stack|] == stack;
  }

  lemma StrConstTrip(s: seq<byte>, p: nat, c: Const, o: Options, stack: seq<Proto>)
    requires c.KStr? && GoodConst(c) && Holds(s, p, ConstBytes(c, o))
    ensures ConstAt(s, p, stack) == Got((c, stack), p + |ConstBytes(c, o)|)
  {
    hide Holds, UlebAt, Uleb, WordAt, PairAt, TableAt, BlockAt;
    var head := Uleb(KGC_STR + |c.s|);
    HoldsBoth(s, p, head, c.s);
    WordTrip(s, p, KGC_STR + |c.s|);
    BlockTrip(s, p + |head|, c.s);
  }

  lemma TableConstTrip(s: seq<byte>, p: nat, c: Const, o: Options, stack: seq<Proto>)
    requires c.KTab? && GoodTable(c.t) && GoodNodes(c.t.node) && Holds(s, p, ConstBytes(c, o))
    ensures ConstAt(s, p, stack) == Got((KTab(NormalTable(c.t, o)), stack), p + |ConstBytes(c, o)|)
  {
    hide Holds, UlebAt, Uleb, WordAt, PairAt, TableAt, TableBytes, BlockAt, GoodTable, GoodNodes, NormalTable;
    HoldsBoth(s, p, Uleb(KGC_TAB), TableBytes(c.t, o));
    WordTrip(s, p, KGC_TAB);
    TableTrip(s, p + |Uleb(KGC_TAB)|, c.t, o);
  }

  lemma NumberConstTrip(s: seq<byte>, p: nat, c: Const, o: Options, stack: seq<Proto>)
    requires (c.KI64? || c.KU64? || c.KComplex?) && Holds(s, p, ConstBytes(c, o))
    ensures ConstAt(s, p, stack) == Got((c, stack), p + |ConstBytes(c, o)|)
  {
    hide Holds, UlebAt, Uleb, WordAt, PairAt, TableAt, BlockAt;
    match c
    case KI64(lo, hi) => PairConstTrip(s, p, KGC_I64, lo, hi);
    case KU64(lo, hi) => PairConstTrip(s, p, KGC_U64, lo, hi);
    case KComplex(re, im) =>
      var first := Uleb(KGC_COMPLEX) + Uleb(re.0) + Uleb(re.1);
      assert ConstBytes(c, o) == first + (Uleb(im.0) + Uleb(im.1));
      HoldsBoth(s, p, first, Uleb(im.0) + Uleb(im.1));
      PairConstTrip(s, p, KGC_COMPLEX, re.0, re.1);
      PairTrip(s, p + |first|, im.0, im.1);
  }

  /** A type and two words */
  lemma PairConstTrip(s: seq<byte>, p: nat, tp: word, lo: word, hi: word)
    requires Holds(s, p, Uleb(tp) + Uleb(lo) + Uleb(hi))
    ensures WordAt(s, p) == Got(tp, p + |Uleb(tp)|)
    ensures PairAt(s, p + |Uleb(tp)|) == Got((lo, hi), p + |Uleb(tp) + Uleb(lo) + Uleb(hi)|)
  {
    hide Holds, UlebAt, Uleb;
    assert Uleb(tp) + Uleb(lo) + Uleb(hi) == Uleb(tp) + (Uleb(lo) + Uleb(hi));
    HoldsBoth(s, p, Uleb(tp), Uleb(lo) + Uleb(hi));
    WordTrip(s, p, tp);
    PairTrip(s, p + |Uleb(tp)|, lo, hi);
  }

  /** All pending children are taken from the stack, and each one by the constant that it belongs to. */
  lemma {:induction false} ConstsTrip(s: seq<byte>, p: nat, pt: Proto, o: Options, k: nat, stack: seq<Proto>)
    requires GoodTree(pt, o) && k <= |pt.kgc| && GoodConsts(pt.kgc[k..]) && Holds(s, p, ConstsBytes(pt.kgc[k..], o))
    ensures ConstsAt(s, p, |pt.kgc| - k, stack + Pending(pt, o, k)) ==
            Got((NormalFrom(pt, o, k), stack), p + |ConstsBytes(pt.kgc[k..], o)|)
    decreases |pt.kgc| - k
  {
    hide Holds, ConstAt, ConstBytes, NormalConst, GoodTree, GoodConst;
    if k == |pt.kgc| {
      assert stack + [] == stack;
    } else {
      var c := pt.kgc[k];
      var later := pt.kgc[k + 1..];
      ConstIsGood(c);
      assert pt.kgc[k..][1..] == later && pt.kgc[k..][0] == c;
      assert forall i :: 0 <= i < |later| ==> later[i] == pt.kgc[k..][i + 1];
      HoldsBoth(s, p, ConstBytes(c, o), ConstsBytes(later, o));
      ChildConst(pt, o, k);
      var top := if c.KChild? then [NormalConst(pt, o, k).pt] else [];
      assert stack + Pending(pt, o, k) == (stack + Pending(pt, o, k + 1)) + top;
      ConstTrip(s, p, pt, o, k, stack + Pending(pt, o, k + 1));
      ConstsTrip(s, p + |ConstBytes(c, o)|, pt, o, k + 1, stack);
    }
  }

  lemma ChildConst(pt: Proto, o: Options, k: nat)
    requires GoodTree(pt, o) && k < |pt.kgc|
    ensures NormalConst(pt, o, k).KChild? <==> pt.kgc[k].KChild?
  {
  }

  /** The body of a prototype gives the prototype, and takes its children from the stack. */
  lemma ProtoTrip(s: seq<byte>, p: nat, pt: Proto, o: Options, stack: seq<Proto>)
    requires GoodTree(pt, o) && Holds(s, p, BodyBytes(pt, o))
    ensures ProtoAt(s, p, o.strip, stack + Pending(pt, o, 0)) == Got((Normal(pt, o), stack), p + |BodyBytes(pt, o)|)
  {
    hide Holds, HeadBytes, HeadAt, ConstsBytes, ConstsAt, NumbersBytes, NumbersAt, GoodConsts, GoodChildren, Pending, NormalFrom, BlockAt;
    var head, consts, numbers := HeadBytes(pt, o), ConstsBytes(pt.kgc, o), NumbersBytes(pt.knum);
    var info := if o.strip then [] else DebugInfo(pt.debug);
    assert BodyBytes(pt, o) == head + (pt.bc + (pt.uv + (consts + (numbers + info))));
    HoldsBoth(s, p, head, pt.bc + (pt.uv + (consts + (numbers + info))));
    HeadTrip(s, p, pt, o);
    var q := p + |head|;
    HoldsBoth(s, q, pt.bc, pt.uv + (consts + (numbers + info)));
    BlockTrip(s, q, pt.bc);
    var q1 := q + |pt.bc|;
    HoldsBoth(s, q1, pt.uv, consts + (numbers + info));
    BlockTrip(s, q1, pt.uv);
    var q2 := q1 + |pt.uv|;
    HoldsBoth(s, q2, consts, numbers + info);
    assert pt.kgc[0..] == pt.kgc;
    ConstsTrip(s, q2, pt, o, 0, stack);
    var q3 := q2 + |consts|;
    HoldsBoth(s, q3, numbers, info);
    NumbersTrip(s, q3, pt.knum);
    BlockTrip(s, q3 + |numbers|, info);
  }

  // ------------------------------------------------------------------
  // The tree

  /** Behind a tree, the reader has pushed its root, and nothing else. */
  lemma {:induction false} TreeTrip(s: seq<byte>, p: nat, pt: Proto, o: Options, stack: seq<Proto>, endmark: bool)
    requires GoodTree(pt, o) && Holds(s, p, TreeBytes(pt, o))
    ensures LoadAt(s, p, o.strip, stack, endmark) ==
            LoadAt(s, p + |TreeBytes(pt, o)|, o.strip, stack + [Normal(pt, o)], endmark)
    decreases pt, |pt.kgc| + 1
  {
    hide Holds, BodyBytes, ChildrenBytes, ProtoAt, Pending, Uleb, GoodProto, Normal, UlebAt;
    var n, body := |pt.kgc|, BodyBytes(pt, o);
    var children := ChildrenBytes(pt, o, n);
    assert TreeBytes(pt, o) == children + (Uleb(|body|) + body);
    HoldsBoth(s, p, children, Uleb(|body|) + body);
    NothingPending(pt, o);
    assert stack + [] == stack;
    ChildrenTrip(s, p, pt, o, n, stack, endmark);
    var q := p + |children|;
    HoldsBoth(s, q, Uleb(|body|), body);
    WordTrip(s, q, |body|);
    ProtoTrip(s, q + |Uleb(|body|)|, pt, o, stack);
    BlockTrip(s, q + |Uleb(|body|)|, body);
    BodyNotEmpty(pt, o);
  }

  lemma NothingPending(pt: Proto, o: Options)
    requires GoodTree(pt, o)
    ensures Pending(pt, o, |pt.kgc|) == []
  {
  }

  /** Behind the children of the constants below `n`, all that are pending are on the stack. */
  lemma {:induction false} ChildrenTrip(s: seq<byte>, p: nat, pt: Proto, o: Options, n: nat, stack: seq<Proto>, endmark: bool)
    requires GoodTree(pt, o) && n <= |pt.kgc| && GoodChildren(pt, o, n) && Holds(s, p, ChildrenBytes(pt, o, n))
    ensures LoadAt(s, p, o.strip, stack + Pending(pt, o, n), endmark) ==
            LoadAt(s, p + |ChildrenBytes(pt, o, n)|, o.strip, stack + Pending(pt, o, 0), endmark)
    decreases pt, n
  {
    hide Holds, LoadAt, TreeBytes, GoodTree, Normal;
    if n > 0 {
      var c := pt.kgc[n - 1];
      if c.KChild? {
        HoldsBoth(s, p, TreeBytes(c.pt, o), ChildrenBytes(pt, o, n - 1));
        TreeTrip(s, p, c.pt, o, stack + Pending(pt, o, n), endmark);
        assert stack + Pending(pt, o, n - 1) == stack + Pending(pt, o, n) + [Normal(c.pt, o)];
        ChildrenTrip(s, p + |TreeBytes(c.pt, o)|, pt, o, n - 1, stack, endmark);
      } else {
        assert ChildrenBytes(pt, o, n) == ChildrenBytes(pt, o, n - 1);
        assert Pending(pt, o, n - 1) == Pending(pt, o, n);
        ChildrenTrip(s, p, pt, o, n - 1, stack, endmark);
      }
    }
  }

  // ------------------------------------------------------------------
  // The dump

  lemma HeaderTrip(s: seq<byte>, p: nat, pt: Proto, name: seq<byte>, o: Options, be: bool, fr2: bool)
    requires |name| <= LJ_MAX_STR && Holds(s, p, HeaderBytes(pt, name, o, be, fr2))
    ensures p < |s| && s[p] == HEAD1
    ensures HeaderAt(s, p + 1, fr2) == Got((o.strip, if o.strip then [] else name), p + |HeaderBytes(pt, name, o, be, fr2)|)
  {
    hide Holds, Uleb, UlebAt, FlagByte;
    var flags := FlagByte(Flags(be, o.strip, IsFFI(pt), fr2, IsBitop(pt)));
    var tail := if o.strip then [] else Uleb(|name|) + name;
    assert HeaderBytes(pt, name, o, be, fr2) == [HEAD1, HEAD2, HEAD3, VERSION] + ([flags] + tail);
    HoldsBoth(s, p, [HEAD1, HEAD2, HEAD3, VERSION], [flags] + tail);
    FourTrip(s, p, HEAD1, HEAD2, HEAD3, VERSION);
    HoldsBoth(s, p + 4, [flags], tail);
    FlagBits(Flags(be, o.strip, IsFFI(pt), fr2, IsBitop(pt)));
    assert Uleb(flags) == [flags] by { UlebOne(flags); }
    WordTrip(s, p + 4, flags);
    if !o.strip {
      HoldsBoth(s, p + 5, Uleb(|name|), name);
      WordTrip(s, p + 5, |name|);
      BlockTrip(s, p + 5 + |Uleb(|name|)|, name);
    }
  }

  lemma FlagBits(f: Flags)
    ensures FlagByte(f) < 32 && (FlagByte(f) / 8 % 2 == 1 <==> f.fr2) && (FlagByte(f) / 2 % 2 == 1 <==> f.strip)
  {
  }

  lemma HoldsAll(s: seq<byte>)
    ensures Holds(s, 0, s)
  {
  }

  /** The end of a dump */
  lemma EndTrip(s: seq<byte>, p: nat, strip: bool, pt: Proto, endmark: bool)
    requires Holds(s, p, [0]) && p + 1 == |s|
    ensures LoadAt(s, p, strip, [pt], endmark) == Got(pt, |s|)
  {
    hide Holds;
    UlebOne(0);
    WordTrip(s, p, 0);
  }

  /** Reading a dump gives the tree that was written; the stack ends as it began. */
  lemma ReadsWhatWasWritten(pt: Proto, name: seq<byte>, o: Options, be: bool, fr2: bool, endmark: bool)
    requires GoodTree(pt, o) && |name| <= LJ_MAX_STR
    ensures var s := DumpBytes(pt, name, o, be, fr2);
            var header := HeaderAt(s, 1, fr2);
            && |s| > 0 && s[0] == HEAD1 && header.Got? && header.v == (o.strip, if o.strip then [] else name)
            && LoadAt(s, header.next, o.strip, [], endmark) == Got(Normal(pt, o), |s|)
  {
    hide GoodTree, TreeBytes, Normal, HeaderBytes, HeaderAt, Uleb, LoadAt, Holds, UlebAt;
    var s := DumpBytes(pt, name, o, be, fr2);
    var header, tree := HeaderBytes(pt, name, o, be, fr2), TreeBytes(pt, o);
    assert s == header + (tree + [0]);
    HoldsAll(s);
    HoldsBoth(s, 0, header, tree + [0]);
    HoldsBoth(s, |header|, tree, [0]);
    HeaderTrip(s, 0, pt, name, o, be, fr2);
    TreeTrip(s, |header|, pt, o, [], endmark);
    EndTrip(s, |header| + |tree|, o.strip, Normal(pt, o), endmark);
    assert [] + [Normal(pt, o)] == [Normal(pt, o)];
  }
}
