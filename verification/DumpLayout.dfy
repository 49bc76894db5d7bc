/**
 The grammar of bytecode dumps, as src/lj_bcdump.h gives it: a dump is a sequence of fields, bytes,
 numbers in ULEB128 and blocks, with the type codes written out. The bytes of a dump spell its fields.
 */
module DumpLayout {
  import opened DumpNumbers
  import opened DumpTypes
  import opened DumpSort
  import opened DumpFormat
  import opened DumpParse

  // ------------------------------------------------------------------
  // ULEB128

  /** What the low seven bits of the bytes mean, the first ones counting least */
  function Septets(t: seq<byte>): nat {
    if t == [] then 0 else t[0] % 0x80 + 0x80 * Septets(t[1..])
  }

  /** The shortest encoding of a number: the high bit marks all bytes but the last one. */
  ghost predicate IsUleb(t: seq<byte>, v: nat) {
    && t != [] && (forall i :: 0 <= i < |t| ==> (t[i] >= 0x80 <==> i < |t| - 1))
    && (|t| > 1 ==> t[|t| - 1] != 0) && Septets(t) == v
  }

  lemma {:induction false} UlebMeans(v: nat)
    ensures IsUleb(Uleb(v), v)
  {
    var t := Uleb(v);
    if v >= 0x80 {
      UlebMeans(v / 0x80);
      var rest := Uleb(v / 0x80);
      assert t[1..] == rest;
      forall i | 0 <= i < |t| ensures t[i] >= 0x80 <==> i < |t| - 1 {
        assert i > 0 ==> t[i] == rest[i - 1];
      }
    } else {
      assert t[1..] == [];
      assert Septets([]) == 0;
    }
  }

  // ------------------------------------------------------------------
  // Fields

  /** B, U, and a run of B or W */
  datatype Field = B(b: byte) | U(w: nat) | Block(bytes: seq<byte>)

  function FieldBytes(f: Field): seq<byte> {
    match f
    case B(b) => [b]
    case U(w) => Uleb(w)
    case Block(bytes) => bytes
  }

  function Spell(fs: seq<Field>): seq<byte> {
    if fs == [] then [] else FieldBytes(fs[0]) + Spell(fs[1..])
  }

  lemma {:induction false} SpellBoth(a: seq<Field>, b: seq<Field>)
    ensures Spell(a + b) == Spell(a) + Spell(b)
  {
    hide FieldBytes;
    if a == [] {
      assert a + b == b;
    } else {
      SpellBoth(a[1..], b);
      assert a + b == [a[0]] + (a[1..] + b);
      SpellMore(a[0], a[1..] + b);
      assert FieldBytes(a[0]) + (Spell(a[1..]) + Spell(b)) == (FieldBytes(a[0]) + Spell(a[1..])) + Spell(b);
    }
  }

  lemma SpellOne(f: Field)
    ensures Spell([f]) == FieldBytes(f)
  {
    assert [f][1..] == [];
    assert FieldBytes(f) + [] == FieldBytes(f);
  }

  lemma SpellMore(f: Field, fs: seq<Field>)
    ensures Spell([f] + fs) == FieldBytes(f) + Spell(fs)
  {
    assert ([f] + fs)[1..] == fs;
  }

  // ------------------------------------------------------------------
  // The grammar

  /** ktabk = ktabtypeU { intU | (loU hiU) | strB* } */
  function ValueFields(v: Value): seq<Field> {
    match v
    case Nil => [U(0)]
    case Marker => [U(0)]
    case False => [U(1)]
    case True => [U(2)]
    case Int(k) => [U(3), U(k)]
    case Num(lo, hi) => [U(4), U(lo), U(hi)]
    case Str(s) => [U(5 + |s|), Block(s)]
  }

  /** karray* */
  function ValuesFields(vs: seq<Value>): seq<Field> {
    if vs == [] then [] else ValueFields(vs[0]) + ValuesFields(vs[1..])
  }

  /** khash = ktabk ktabk: the key, and the value */
  function NodesFields(nodes: seq<Node>): seq<Field> {
    if nodes == [] then [] else ValueFields(nodes[0].key) + ValueFields(nodes[0].val) + NodesFields(nodes[1..])
  }

  /** ktab = narrayU nhashU karray* khash* */
  ghost function TableFields(t: Table, o: Options): seq<Field>
    requires GoodNodes(t.node)
  {
    [U(Used(t.array_)), U(|LiveDown(t.node)|)] + ValuesFields(t.array_[..Used(t.array_)]) + NodesFields(NodeOrder(t.node, o))
  }

  /** kgc = kgctypeU { ktab | (loU hiU) | (rloU rhiU iloU ihiU) | strB* } */
  ghost function ConstFields(c: Const, o: Options): seq<Field>
    requires c.KTab? ==> GoodNodes(c.t.node)
  {
    match c
    case KChild(_) => [U(0)]
    case KTab(t) => [U(1)] + TableFields(t, o)
    case KI64(lo, hi) => [U(2), U(lo), U(hi)]
    case KU64(lo, hi) => [U(3), U(lo), U(hi)]
    case KComplex(re, im) => [U(4), U(re.0), U(re.1), U(im.0), U(im.1)]
    case KStr(s) => [U(5 + |s|), Block(s)]
  }

  ghost function ConstsFields(cs: seq<Const>, o: Options): seq<Field>
    requires GoodConsts(cs)
  {
    if cs == [] then [] else ConstFields(cs[0], o) + ConstsFields(cs[1..], o)
  }

  /** knum = intU0 | (loU1 hiU): the lowest bit tells which */
  function NumberFields(v: Value): seq<Field>
    requires IsNumber(v)
  {
    match v
    case Int(k) => [U(2 * k)]
    case Num(lo, hi) => [U(2 * lo + 1), U(hi)]
  }

  function NumbersFields(vs: seq<Value>): seq<Field>
    requires forall i :: 0 <= i < |vs| ==> IsNumber(vs[i])
  {
    if vs == [] then [] else NumberFields(vs[0]) + NumbersFields(vs[1..])
  }

  /** phead = flagsB numparamsB framesizeB numuvB numkgcU numknU numbcU [debuglenU [firstlineU numlineU]] */
  function HeadFields(pt: Proto, o: Options): seq<Field>
    requires |pt.uv| / 2 < 256
  {
    [B(KeptFlags(pt.flags)), B(pt.numparams), B(pt.framesize), B(|pt.uv| / 2), U(|pt.kgc|), U(|pt.knum|), U(|pt.bc| / 4)]
    + if o.strip then [] else DebugFields(pt.debug)
  }

  function DebugFields(d: Debug): seq<Field> {
    match d
    case NoDebug => [U(0)]
    case Debug(first, num, info) => [U(|info|), U(first), U(num)]
  }

  /** pdata = phead bcinsW* uvdataH* kgc* knum* [debugB*] */
  ghost function BodyFields(pt: Proto, o: Options): seq<Field>
    requires GoodProto(pt)
  {
    HeadFields(pt, o) + [Block(pt.bc), Block(pt.uv)] + ConstsFields(pt.kgc, o) + NumbersFields(pt.knum)
    + if o.strip || pt.debug.NoDebug? then [] else [Block(pt.debug.info)]
  }

  /** proto = lengthU pdata; a prototype follows all of its children. */
  ghost function TreeFields(pt: Proto, o: Options): seq<Field>
    requires GoodTree(pt, o)
    decreases pt, |pt.kgc| + 1
  {
    ChildrenFields(pt, o, |pt.kgc|) + [U(|Spell(BodyFields(pt, o))|)] + BodyFields(pt, o)
  }

  ghost function ChildrenFields(pt: Proto, o: Options, n: nat): seq<Field>
    requires n <= |pt.kgc| && GoodChildren(pt, o, n)
    decreases pt, n
  {
    if n == 0 then []
    else (if pt.kgc[n - 1].KChild? then TreeFields(pt.kgc[n - 1].pt, o) else []) + ChildrenFields(pt, o, n - 1)
  }

  /** The flags: big endian, stripped, with FFI constants, two-slot frame info, with bit operations */
  function HeaderFlags(pt: Proto, o: Options, be: bool, fr2: bool): nat {
    (if be then 0x01 else 0) + (if o.strip then 0x02 else 0) + (if IsFFI(pt) then 0x04 else 0) + (if fr2 then 0x08 else 0)
    + (if IsBitop(pt) then 0x10 else 0)
  }

  /** header = ESC 'L' 'J' versionB flagsU [namelenU nameB*] */
  function HeaderFields(pt: Proto, name: seq<byte>, o: Options, be: bool, fr2: bool): seq<Field> {
    [B(0x1b), B('L' as nat), B('J' as nat), B(2), U(HeaderFlags(pt, o, be, fr2))] + if o.strip then [] else [U(|name|), Block(name)]
  }

  /** dump = header proto+ 0U */
  ghost function DumpFields(pt: Proto, name: seq<byte>, o: Options, be: bool, fr2: bool): seq<Field>
    requires GoodTree(pt, o)
  {
    HeaderFields(pt, name, o, be, fr2) + TreeFields(pt, o) + [U(0)]
  }

  // ------------------------------------------------------------------
  // The bytes spell the fields

  lemma SpellTwo(f: Field, g: Field)
    ensures Spell([f, g]) == FieldBytes(f) + FieldBytes(g)
  {
    SpellOne(g);
    SpellMore(f, [g]);
    assert [f] + [g] == [f, g];
  }

  lemma SpellThree(f: Field, g: Field, h: Field)
    ensures Spell([f, g, h]) == FieldBytes(f) + FieldBytes(g) + FieldBytes(h)
  {
    SpellTwo(g, h);
    SpellMore(f, [g, h]);
    assert [f] + [g, h] == [f, g, h];
  }

  lemma ValueLayout(v: Value)
    ensures ValueBytes(v) == Spell(ValueFields(v))
  {
    hide Spell, Uleb;
    SmallUleb();
    match v
    case Int(k) => SpellTwo(U(3), U(k));
    case Num(lo, hi) => SpellThree(U(4), U(lo), U(hi));
    case Str(s) => SpellTwo(U(5 + |s|), Block(s));
    case _ => SpellOne(ValueFields(v)[0]);
  }

  lemma SmallUleb()
    ensures forall v: nat :: v < 0x80 ==> Uleb(v) == [v]
  {
  }

  lemma {:induction false} ValuesLayout(vs: seq<Value>)
    ensures ValuesBytes(vs) == Spell(ValuesFields(vs))
  {
    hide ValueBytes, ValueFields;
    if vs != [] {
      ValueLayout(vs[0]);
      ValuesLayout(vs[1..]);
      SpellBoth(ValueFields(vs[0]), ValuesFields(vs[1..]));
    }
  }

  lemma {:induction false} NodesLayout(nodes: seq<Node>)
    ensures NodesBytes(nodes) == Spell(NodesFields(nodes))
  {
    hide ValueBytes, ValueFields;
    if nodes != [] {
      var key, val := ValueFields(nodes[0].key), ValueFields(nodes[0].val);
      ValueLayout(nodes[0].key);
      ValueLayout(nodes[0].val);
      NodesLayout(nodes[1..]);
      SpellBoth(key, val);
      SpellBoth(key + val, NodesFields(nodes[1..]));
    }
  }

  lemma TableLayout(t: Table, o: Options)
    requires GoodNodes(t.node)
    ensures TableBytes(t, o) == Spell(TableFields(t, o))
  {
    hide Spell, Uleb, ValuesBytes, ValuesFields, NodesBytes, NodesFields, NodeOrder, GoodNodes, LiveDown, Used;
    var sizes := [U(Used(t.array_)), U(|LiveDown(t.node)|)];
    var vs, nodes := t.array_[..Used(t.array_)], NodeOrder(t.node, o);
    SpellTwo(sizes[0], sizes[1]);
    ValuesLayout(vs);
    NodesLayout(nodes);
    SpellBoth(sizes, ValuesFields(vs));
    SpellBoth(sizes + ValuesFields(vs), NodesFields(nodes));
  }

  lemma ConstLayout(c: Const, o: Options)
    requires c.KTab? ==> GoodNodes(c.t.node)
    ensures ConstBytes(c, o) == Spell(ConstFields(c, o))
  {
    hide Spell, Uleb, TableBytes, TableFields, GoodNodes;
    match c
    case KStr(s) => SpellTwo(U(5 + |s|), Block(s));
    case KChild(_) => SpellOne(U(0));
    case KTab(t) =>
      TableLayout(t, o);
      SpellMore(U(1), TableFields(t, o));
    case KI64(lo, hi) => SpellThree(U(2), U(lo), U(hi));
    case KU64(lo, hi) => SpellThree(U(3), U(lo), U(hi));
    case KComplex(re, im) =>
      SpellThree(U(4), U(re.0), U(re.1));
      SpellTwo(U(im.0), U(im.1));
      SpellBoth([U(4), U(re.0), U(re.1)], [U(im.0), U(im.1)]);
      assert [U(4), U(re.0), U(re.1)] + [U(im.0), U(im.1)] == ConstFields(c, o);
  }

  lemma {:induction false} ConstsLayout(cs: seq<Const>, o: Options)
    requires GoodConsts(cs)
    ensures ConstsBytes(cs, o) == Spell(ConstsFields(cs, o))
  {
    hide ConstBytes, ConstFields, GoodConst;
    if cs != [] {
      ConstIsGood(cs[0]);
      ConstLayout(cs[0], o);
      ConstsLayout(cs[1..], o);
      SpellBoth(ConstFields(cs[0], o), ConstsFields(cs[1..], o));
    }
  }

  lemma NumberLayout(v: Value)
    requires IsNumber(v)
    ensures NumberBytes(v) == Spell(NumberFields(v))
  {
    hide Spell, Uleb;
    match v
    case Int(k) => SpellOne(U(2 * k));
    case Num(lo, hi) => SpellTwo(U(2 * lo + 1), U(hi));
  }

  lemma {:induction false} NumbersLayout(vs: seq<Value>)
    requires forall i :: 0 <= i < |vs| ==> IsNumber(vs[i])
    ensures NumbersBytes(vs) == Spell(NumbersFields(vs))
  {
    hide NumberBytes, NumberFields;
    if vs != [] {
      NumberLayout(vs[0]);
      NumbersLayout(vs[1..]);
      SpellBoth(NumberFields(vs[0]), NumbersFields(vs[1..]));
    }
  }

  lemma DebugLayout(d: Debug)
    ensures DebugHead(d) == Spell(DebugFields(d))
  {
    hide Spell, Uleb;
    match d
    case NoDebug => SpellOne(U(0));
    case Debug(first, num, info) => SpellThree(U(|info|), U(first), U(num));
  }

  lemma HeadLayout(pt: Proto, o: Options)
    requires |pt.uv| / 2 < 256
    ensures HeadBytes(pt, o) == Spell(HeadFields(pt, o))
  {
    hide Spell, Uleb, DebugHead, DebugFields, KeptFlags;
    var four := [B(KeptFlags(pt.flags)), B(pt.numparams), B(pt.framesize), B(|pt.uv| / 2)];
    var sizes := [U(|pt.kgc|), U(|pt.knum|), U(|pt.bc| / 4)];
    var debug := if o.strip then [] else DebugFields(pt.debug);
    SpellFour(KeptFlags(pt.flags), pt.numparams, pt.framesize, |pt.uv| / 2);
    SpellThree(sizes[0], sizes[1], sizes[2]);
    SpellBoth(four, sizes);
    DebugLayout(pt.debug);
    SpellNone();
    assert HeadFields(pt, o) == four + sizes + debug;
    SpellBoth(four + sizes, debug);
  }

  lemma SpellFour(a: byte, b: byte, c: byte, d: byte)
    ensures Spell([B(a), B(b), B(c), B(d)]) == [a, b, c, d]
  {
    hide Spell;
    SpellTwo(B(a), B(b));
    SpellTwo(B(c), B(d));
    SpellBoth([B(a), B(b)], [B(c), B(d)]);
    assert [B(a), B(b)] + [B(c), B(d)] == [B(a), B(b), B(c), B(d)];
  }

  lemma SpellNone()
    ensures Spell([]) == []
  {
  }

  lemma BodyLayout(pt: Proto, o: Options)
    requires GoodProto(pt)
    ensures BodyBytes(pt, o) == Spell(BodyFields(pt, o))
  {
    hide Spell, HeadBytes, HeadFields, ConstsBytes, ConstsFields, NumbersBytes, NumbersFields, GoodConsts, IsNumber;
    var head, blocks, consts, numbers := HeadFields(pt, o), [Block(pt.bc), Block(pt.uv)], ConstsFields(pt.kgc, o), NumbersFields(pt.knum);
    var info := if o.strip || pt.debug.NoDebug? then [] else [Block(pt.debug.info)];
    HeadLayout(pt, o);
    SpellTwo(blocks[0], blocks[1]);
    ConstsLayout(pt.kgc, o);
    NumbersLayout(pt.knum);
    SpellNone();
    if info != [] {
      SpellOne(info[0]);
    }
    SpellBoth(head, blocks);
    SpellBoth(head + blocks, consts);
    SpellBoth(head + blocks + consts, numbers);
    SpellBoth(head + blocks + consts + numbers, info);
  }

  lemma {:induction false} TreeLayout(pt: Proto, o: Options)
    requires GoodTree(pt, o)
    ensures TreeBytes(pt, o) == Spell(TreeFields(pt, o))
    decreases pt, |pt.kgc| + 1
  {
    hide Spell, BodyBytes, BodyFields, GoodProto;
    var children, body := ChildrenFields(pt, o, |pt.kgc|), BodyFields(pt, o);
    ChildrenLayout(pt, o, |pt.kgc|);
    BodyLayout(pt, o);
    SpellOne(U(|Spell(body)|));
    SpellBoth(children, [U(|Spell(body)|)]);
    SpellBoth(children + [U(|Spell(body)|)], body);
  }

  lemma {:induction false} ChildrenLayout(pt: Proto, o: Options, n: nat)
    requires n <= |pt.kgc| && GoodChildren(pt, o, n)
    ensures ChildrenBytes(pt, o, n) == Spell(ChildrenFields(pt, o, n))
    decreases pt, n
  {
    hide TreeBytes, TreeFields, GoodTree;
    if n > 0 {
      ChildrenLayout(pt, o, n - 1);
      var first := if pt.kgc[n - 1].KChild? then TreeFields(pt.kgc[n - 1].pt, o) else [];
      if pt.kgc[n - 1].KChild? {
        TreeLayout(pt.kgc[n - 1].pt, o);
      }
      SpellNone();
      SpellBoth(first, ChildrenFields(pt, o, n - 1));
    }
  }

  lemma HeaderLayout(pt: Proto, name: seq<byte>, o: Options, be: bool, fr2: bool)
    ensures HeaderBytes(pt, name, o, be, fr2) == Spell(HeaderFields(pt, name, o, be, fr2))
  {
    hide Spell, Uleb, IsFFI, IsBitop;
    SmallUleb();
    var flags := HeaderFlags(pt, o, be, fr2);
    var magic, rest := [B(0x1b), B('L' as nat), B('J' as nat)], [B(2), U(flags)];
    var names := if o.strip then [] else [U(|name|), Block(name)];
    SpellThree(magic[0], magic[1], magic[2]);
    SpellTwo(rest[0], rest[1]);
    SpellBoth(magic, rest);
    SpellNone();
    if !o.strip {
      SpellTwo(names[0], names[1]);
    }
    SpellBoth(magic + rest, names);
    assert HeaderFields(pt, name, o, be, fr2) == magic + rest + names;
  }

  /** A dump spells the fields that the grammar gives for its tree. */
  lemma DumpLayout(pt: Proto, name: seq<byte>, o: Options, be: bool, fr2: bool)
    requires GoodTree(pt, o)
    ensures DumpBytes(pt, name, o, be, fr2) == Spell(DumpFields(pt, name, o, be, fr2))
  {
    hide Spell, TreeBytes, TreeFields, GoodTree, Uleb, HeaderFields, HeaderBytes;
    SmallUleb();
    HeaderLayout(pt, name, o, be, fr2);
    TreeLayout(pt, o);
    SpellBoth(HeaderFields(pt, name, o, be, fr2), TreeFields(pt, o));
    SpellOne(U(0));
    SpellBoth(HeaderFields(pt, name, o, be, fr2) + TreeFields(pt, o), [U(0)]);
  }

  // ------------------------------------------------------------------
  // What is refused

  /** A header that is read starts with these bytes, has no unknown flag, and the frame info of this build. */
  lemma HeaderRefused(s: seq<byte>, fr2: bool)
    ensures var r, flags := HeaderAt(s, 1, fr2), WordAt(s, 4);
            r.Got? ==>
              && |s| >= 4 && s[1..4] == ['L' as nat, 'J' as nat, 2]
              && flags.Got? && flags.v <= 0x1f && (flags.v / 8 % 2 == 1 <==> fr2) && (flags.v / 2 % 2 == 1 <==> r.v.0)
  {
    hide WordAt, BlockAt;
  }
}
