/** The bytecode reader (src/lj_bcread.c), over a dump that is in its buffer as a whole */
module DumpRead {
  import opened DumpNumbers
  import opened DumpTypes
  import opened DumpSort
  import opened DumpFormat
  import opened DumpParse
  import opened DumpLayout
  import opened DumpTree

  class Reader {
    const s: seq<byte>
    var p: nat
    /** The prototypes that were read and not taken yet */
    var stack: seq<Proto>

    constructor (s: seq<byte>)
      ensures this.s == s && p == 0 && stack == []
    {
      this.s := s;
      p, stack := 0, [];
    }

    /** Something was read: the reader is behind it, or there is an error. */
    ghost predicate At<T>(r: Read<T>, spec: Read<T>)
      reads this
    {
      r == spec && (r.Got? ==> p == r.next)
    }

    /** bcread_uleb128 */
    method GetWord() returns (r: Read<word>)
      modifies `p
      ensures At(r, WordAt(s, old(p)))
    {
      r := ReadUleb(s, p);
      if r.Got? {
        p := r.next;
      }
    }

    method GetPair() returns (r: Read<(word, word)>)
      modifies `p
      ensures At(r, PairAt(s, old(p)))
    {
      hide WordAt;
      var lo := GetWord();
      if lo.Fails? {
        return Fails;
      }
      var hi := GetWord();
      return if hi.Fails? then Fails else Got((lo.v, hi.v), p);
    }

    /** bcread_mem */
    method GetBlock(len: nat) returns (r: Read<seq<byte>>)
      modifies `p
      ensures At(r, BlockAt(s, old(p), len))
    {
      if p + len > |s| {
        return Fails;
      }
      r := Got(s[p..p + len], p + len);
      p := p + len;
    }

    /** bcread_ktabk */
    method GetValue(hashed: bool) returns (r: Read<Value>)
      modifies `p
      ensures At(r, ValueAt(s, old(p), hashed))
    {
      hide WordAt, BlockAt, PairAt;
      var tp := GetWord();
      if tp.Fails? {
        return Fails;
      }
      if tp.v >= KTAB_STR {
        var str := GetBlock(tp.v - KTAB_STR);
        return if str.Fails? then Fails else Got(Str(str.v), p);
      } else if tp.v == KTAB_INT {
        var k := GetWord();
        return if k.Fails? then Fails else Got(Int(k.v), p);
      } else if tp.v == KTAB_NUM {
        var n := GetPair();
        return if n.Fails? then Fails else Got(Num(n.v.0, n.v.1), p);
      } else if tp.v == KTAB_NIL {
        return Got(if hashed then Marker else Nil, p);
      }
      return Got(if tp.v == KTAB_FALSE then False else True, p);
    }

    /** The array entries of bcread_ktab */
    method GetValues(n: nat) returns (r: Read<seq<Value>>)
      modifies `p
      ensures At(r, ValuesAt(s, old(p), n))
    {
      hide ValueAt;
      var vs: seq<Value> := [];
      match ValuesAt(s, p, n) {
        case Fails =>
        case Got(ws, _) => assert [] + ws == ws;
      }
      for i := 0 to n
        invariant |vs| == i
        invariant ValuesAt(s, old(p), n) ==
                  match ValuesAt(s, p, n - i) { case Fails => Fails case Got(ws, q) => Got(vs + ws, q) }
      {
        var v := GetValue(false);
        if v.Fails? {
          return Fails;
        }
        match ValuesAt(s, p, n - i - 1) {
          case Fails =>
          case Got(ws, _) => assert vs + ([v.v] + ws) == (vs + [v.v]) + ws;
        }
        vs := vs + [v.v];
      }
      assert vs + [] == vs;
      return Got(vs, p);
    }

    /** The hash entries of bcread_ktab */
    method GetNodes(n: nat, t0: Table) returns (r: Read<Table>)
      modifies `p
      ensures At(r, NodesAt(s, old(p), n, t0))
    {
      hide ValueAt, SetKey;
      var t := t0;
      for i := 0 to n
        invariant NodesAt(s, old(p), n, t0) == NodesAt(s, p, n - i, t)
      {
        var key := GetValue(false);
        if key.Fails? || key.v.Nil? {
          return Fails;
        }
        var val := GetValue(true);
        if val.Fails? {
          return Fails;
        }
        t := SetKey(t, key.v, val.v);
      }
      return Got(t, p);
    }

    /** bcread_ktab */
    method GetTable() returns (r: Read<Table>)
      modifies `p
      ensures At(r, TableAt(s, old(p)))
    {
      hide PairAt, ValuesAt, NodesAt;
      var sizes := GetPair();
      if sizes.Fails? {
        return Fails;
      }
      var vs := GetValues(sizes.v.0);
      if vs.Fails? {
        return Fails;
      }
      r := GetNodes(sizes.v.1, Table(vs.v, []));
    }

    /** A round of bcread_kgc; the stack may run out. */
    method GetConst() returns (r: Read<Const>)
      modifies `p, `stack
      ensures match ConstAt(s, old(p), old(stack))
              case Fails => r.Fails?
              case Got(c, q) => r == Got(c.0, q) && p == q && stack == c.1
    {
      hide WordAt, BlockAt, PairAt, TableAt;
      var tp := GetWord();
      if tp.Fails? {
        return Fails;
      }
      if tp.v >= KGC_STR {
        var str := GetBlock(tp.v - KGC_STR);
        return if str.Fails? then Fails else Got(KStr(str.v), p);
      } else if tp.v == KGC_TAB {
        var t := GetTable();
        return if t.Fails? then Fails else Got(KTab(t.v), p);
      } else if tp.v != KGC_CHILD {
        var n := GetPair();
        if n.Fails? {
          return Fails;
        }
        if tp.v == KGC_COMPLEX {
          var im := GetPair();
          return if im.Fails? then Fails else Got(KComplex(n.v, im.v), p);
        }
        return Got(if tp.v == KGC_I64 then KI64(n.v.0, n.v.1) else KU64(n.v.0, n.v.1), p);
      } else {
        if |stack| == 0 {
          return Fails;
        }
        var child := stack[|stack| - 1];
        stack := stack[..|stack| - 1];
        return Got(KChild(child), p);
      }
    }

    /** bcread_kgc */
    method GetConsts(n: nat) returns (r: Read<seq<Const>>)
      modifies `p, `stack
      ensures match ConstsAt(s, old(p), n, old(stack))
              case Fails => r.Fails?
              case Got(cs, q) => r == Got(cs.0, q) && p == q && stack == cs.1
    {
      hide ConstAt;
      var cs: seq<Const> := [];
      match ConstsAt(s, p, n, stack) {
        case Fails =>
        case Got(ds, _) => assert [] + ds.0 == ds.0;
      }
      for i := 0 to n
        invariant ConstsAt(s, old(p), n, old(stack)) ==
                  match ConstsAt(s, p, n - i, stack) { case Fails => Fails case Got(ds, q) => Got((cs + ds.0, ds.1), q) }
      {
        var c := GetConst();
        if c.Fails? {
          return Fails;
        }
        match ConstsAt(s, p, n - i - 1, stack) {
          case Fails =>
          case Got(ds, _) => assert cs + ([c.v] + ds.0) == (cs + [c.v]) + ds.0;
        }
        cs := cs + [c.v];
      }
      assert cs + [] == cs;
      return Got(cs, p);
    }

    /** A round of bcread_knum */
    method GetNumber() returns (r: Read<Value>)
      modifies `p
      ensures At(r, NumberAt(s, old(p)))
    {
      hide UlebAt;
      if p >= |s| {
        NothingAt(s, p);
        return Fails;
      }
      var isnum := s[p] % 2 == 1;
      var lo := ReadTagged(s, p);
      if lo.Fails? {
        return Fails;
      }
      TagOf(s, p);
      p := lo.next;
      if isnum {
        var hi := GetWord();
        return if hi.Fails? then Fails else Got(Num(lo.v, hi.v), p);
      }
      return Got(Int(lo.v), p);
    }

    /** bcread_knum */
    method GetNumbers(n: nat) returns (r: Read<seq<Value>>)
      modifies `p
      ensures At(r, NumbersAt(s, old(p), n))
    {
      hide NumberAt;
      var vs: seq<Value> := [];
      match NumbersAt(s, p, n) {
        case Fails =>
        case Got(ws, _) => assert [] + ws == ws;
      }
      for i := 0 to n
        invariant NumbersAt(s, old(p), n) ==
                  match NumbersAt(s, p, n - i) { case Fails => Fails case Got(ws, q) => Got(vs + ws, q) }
      {
        var v := GetNumber();
        if v.Fails? {
          return Fails;
        }
        match NumbersAt(s, p, n - i - 1) {
          case Fails =>
          case Got(ws, _) => assert vs + ([v.v] + ws) == (vs + [v.v]) + ws;
        }
        vs := vs + [v.v];
      }
      assert vs + [] == vs;
      return Got(vs, p);
    }

    /** The head of a prototype */
    method GetHead(strip: bool) returns (r: Read<Head>)
      modifies `p
      ensures At(r, HeadAt(s, old(p), strip))
    {
      hide WordAt, PairAt;
      if p + 4 > |s| {
        return Fails;
      }
      var h := Head(s[p], s[p + 1], s[p + 2], s[p + 3], 0, 0, 0, 0, 0, 0);
      p := p + 4;
      var ks := GetPair();
      if ks.Fails? {
        return Fails;
      }
      var nbc := GetWord();
      if nbc.Fails? {
        return Fails;
      }
      h := h.(sizekgc := ks.v.0, sizekn := ks.v.1, nbc := nbc.v);
      if strip {
        return Got(h, p);
      }
      var sizedbg := GetWord();
      if sizedbg.Fails? {
        return Fails;
      }
      if sizedbg.v == 0 {
        return Got(h, p);
      }
      var lines := GetPair();
      return if lines.Fails? then Fails
             else Got(h.(sizedbg := sizedbg.v, firstline := lines.v.0, numline := lines.v.1), p);
    }

    /** lj_bcread_proto */
    method GetProto(strip: bool) returns (r: Read<Proto>)
      modifies `p, `stack
      ensures match ProtoAt(s, old(p), strip, old(stack))
              case Fails => r.Fails?
              case Got(pt, q) => r == Got(pt.0, q) && p == q && stack == pt.1
    {
      hide HeadAt, BlockAt, ConstsAt, NumbersAt;
      var h := GetHead(strip);
      if h.Fails? {
        return Fails;
      }
      var bc := GetBlock(4 * h.v.nbc);
      if bc.Fails? {
        return Fails;
      }
      var uv := GetBlock(2 * h.v.sizeuv);
      if uv.Fails? {
        return Fails;
      }
      var kgc := GetConsts(h.v.sizekgc);
      if kgc.Fails? {
        return Fails;
      }
      var knum := GetNumbers(h.v.sizekn);
      if knum.Fails? {
        return Fails;
      }
      var info := GetBlock(h.v.sizedbg);
      if info.Fails? {
        return Fails;
      }
      return Got(Proto(h.v.flags, h.v.numparams, h.v.framesize, uv.v, bc.v, kgc.v, knum.v, DebugOf(h.v, info.v)), p);
    }

    /** bcread_header, behind the first byte of a dump */
    method GetHeader(fr2: bool) returns (r: Read<(bool, seq<byte>)>)
      modifies `p
      ensures At(r, HeaderAt(s, old(p), fr2))
    {
      hide WordAt, BlockAt;
      if p + 3 > |s| || s[p] != HEAD2 || s[p + 1] != HEAD3 || s[p + 2] != VERSION {
        return Fails;
      }
      p := p + 3;
      var flags := GetWord();
      if flags.Fails? || flags.v >= 32 || (flags.v / 8 % 2 == 1) != fr2 {
        return Fails;
      }
      if flags.v / 2 % 2 == 1 {
        return Got((true, []), p);
      }
      var len := GetWord();
      if len.Fails? {
        return Fails;
      }
      var name := GetBlock(len.v);
      return if name.Fails? then Fails else Got((false, name.v), p);
    }

    /** The loop of lj_bcread over all prototypes of a dump */
    method Load(strip: bool, endmark: bool) returns (r: Read<Proto>)
      requires stack == []
      modifies `p, `stack
      ensures r == LoadAt(s, old(p), strip, [], endmark)
    {
      hide WordAt, ProtoAt;
      while true
        invariant LoadAt(s, old(p), strip, [], endmark) == LoadAt(s, p, strip, stack, endmark)
        decreases |s| - p
      {
        var len := GetWord();
        if len.Fails? {
          return Fails;
        }
        if len.v == 0 {
          break;
        }
        if p + len.v > |s| {
          return Fails;
        }
        var start := p;
        var pt := GetProto(strip);
        if pt.Fails? || p != start + len.v {
          return Fails;
        }
        stack := stack + [pt.v];
      }
      if (p != |s| && !endmark) || |stack| != 1 {
        return Fails;
      }
      return Got(stack[0], p);
    }
  }

  lemma NothingAt(s: seq<byte>, p: nat)
    requires p >= |s|
    ensures UlebAt(s, p).Fails?
  {
  }

  /** lj_bcread, behind the first byte of a dump: a dump that was written gives its tree, as it is read back. */
  method Read(s: seq<byte>, fr2: bool, endmark: bool) returns (r: Read<Proto>)
    ensures match HeaderAt(s, 1, fr2)
            case Fails => r.Fails?
            case Got(h, q) => r == LoadAt(s, q, h.0, [], endmark)
    ensures |s| < 4 || s[1..4] != ['L' as nat, 'J' as nat, 2] ==> r.Fails?
    ensures WordAt(s, 4).Fails? || WordAt(s, 4).v > 0x1f || (WordAt(s, 4).v / 8 % 2 == 1) != fr2 ==> r.Fails?
    ensures forall pt, name, o, be ::
              GoodTree(pt, o) && |name| <= LJ_MAX_STR && s == DumpBytes(pt, name, o, be, fr2) ==> r == Got(Normal(pt, o), |s|)
  {
    hide HeaderAt, LoadAt, GoodTree, DumpBytes, Normal, WordAt;
    HeaderRefused(s, fr2);
    forall pt, name, o, be | GoodTree(pt, o) && |name| <= LJ_MAX_STR && s == DumpBytes(pt, name, o, be, fr2)
      ensures HeaderAt(s, 1, fr2).Got? && LoadAt(s, HeaderAt(s, 1, fr2).next, HeaderAt(s, 1, fr2).v.0, [], endmark) == Got(Normal(pt, o), |s|)
    {
      ReadsWhatWasWritten(pt, name, o, be, fr2, endmark);
    }
    var ls := new Reader(s);
    ls.p := 1;
    var h := ls.GetHeader(fr2);
    if h.Fails? {
      return Fails;
    }
    r := ls.Load(h.v.0, endmark);
  }
}
