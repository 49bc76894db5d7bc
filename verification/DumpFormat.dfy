/** The format of bytecode dumps: what is written for a tree of prototypes (src/lj_bcdump.h, src/lj_bcwrite.c). */
module DumpFormat {
  import opened DumpNumbers
  import opened DumpTypes
  import opened DumpSort

  const KTAB_NIL: nat := 0
  const KTAB_FALSE: nat := 1
  const KTAB_TRUE: nat := 2
  const KTAB_INT: nat := 3
  const KTAB_NUM: nat := 4
  const KTAB_STR: nat := 5

  const KGC_CHILD: nat := 0
  const KGC_TAB: nat := 1
  const KGC_I64: nat := 2
  const KGC_U64: nat := 3
  const KGC_COMPLEX: nat := 4
  const KGC_STR: nat := 5

  const LJ_MAX_STR: nat := 0x7fff_ff00

  /** Whether debug information is left out, and whether tables are written in a deterministic order */
  datatype Options = Options(strip: bool, deterministic: bool)

  function ValueBytes(v: Value): seq<byte> {
    match v
    case Nil => [KTAB_NIL]
    case Marker => [KTAB_NIL]
    case False => [KTAB_FALSE]
    case True => [KTAB_TRUE]
    case Int(k) => [KTAB_INT] + Uleb(k)
    case Num(lo, hi) => [KTAB_NUM] + Uleb(lo) + Uleb(hi)
    case Str(s) => Uleb(KTAB_STR + |s|) + s
  }

  function ValuesBytes(vs: seq<Value>): seq<byte> {
    if vs == [] then [] else ValueBytes(vs[0]) + ValuesBytes(vs[1..])
  }

  function NodesBytes(nodes: seq<Node>): seq<byte> {
    if nodes == [] then [] else ValueBytes(nodes[0].key) + ValueBytes(nodes[0].val) + NodesBytes(nodes[1..])
  }

  /** The length of an array part without the nils at its end */
  function Used(a: seq<Value>): (n: nat)
    ensures n <= |a| && (n > 0 ==> !a[n - 1].Nil?) && forall i :: n <= i < |a| ==> a[i].Nil?
  {
    if a == [] then 0 else if a[|a| - 1].Nil? then Used(a[..|a| - 1]) else |a|
  }

  /** The order in which the live nodes of a hash part are written */
  ghost function NodeOrder(node: seq<Node>, o: Options): seq<Node>
    requires GoodNodes(node)
  {
    LiveOnce(node);
    if o.deterministic && |LiveDown(node)| > 1 then SortedNodes(LiveSet(node)) else LiveDown(node)
  }

  ghost function TableBytes(t: Table, o: Options): seq<byte>
    requires GoodNodes(t.node)
  {
    var n := Used(t.array_);
    Uleb(n) + Uleb(|LiveDown(t.node)|) + ValuesBytes(t.array_[..n]) + NodesBytes(NodeOrder(t.node, o))
  }

  ghost function ConstBytes(c: Const, o: Options): seq<byte>
    requires c.KTab? ==> GoodNodes(c.t.node)
  {
    match c
    case KStr(s) => Uleb(KGC_STR + |s|) + s
    case KChild(_) => Uleb(KGC_CHILD)
    case KTab(t) => Uleb(KGC_TAB) + TableBytes(t, o)
    case KI64(lo, hi) => Uleb(KGC_I64) + Uleb(lo) + Uleb(hi)
    case KU64(lo, hi) => Uleb(KGC_U64) + Uleb(lo) + Uleb(hi)
    case KComplex(re, im) => Uleb(KGC_COMPLEX) + Uleb(re.0) + Uleb(re.1) + Uleb(im.0) + Uleb(im.1)
  }

  ghost predicate GoodConsts(cs: seq<Const>) {
    forall i :: 0 <= i < |cs| ==> GoodConst(cs[i])
  }

  ghost predicate SmallValue(v: Value) {
    v.Str? ==> |v.s| <= LJ_MAX_STR
  }

  ghost predicate GoodTable(t: Table) {
    && GoodNodes(t.node) && |t.array_| < W32 && |t.node| < W32 && |t.node| != 1
    && (forall i {:trigger t.array_[i]} :: 0 <= i < |t.array_| ==> SmallValue(t.array_[i]))
    && (forall i {:trigger t.node[i]} :: 0 <= i < |t.node| ==> SmallValue(t.node[i].key) && SmallValue(t.node[i].val))
    && (forall i {:trigger t.node[i]} :: 0 <= i < |t.node| && t.node[i].key.Int? ==> t.node[i].key.k >= |t.array_|)
  }

  ghost predicate GoodConst(c: Const) {
    && (c.KTab? ==> GoodTable(c.t))
    && (c.KStr? ==> |c.s| <= LJ_MAX_STR)
  }

  lemma TableIsGood(t: Table)
    requires GoodTable(t)
    ensures GoodNodes(t.node)
  {
  }

  lemma ConstIsGood(c: Const)
    requires GoodConst(c)
    ensures c.KTab? ==> GoodNodes(c.t.node)
  {
  }

  ghost function ConstsBytes(cs: seq<Const>, o: Options): seq<byte>
    requires GoodConsts(cs)
  {
    if cs == [] then [] else ConstBytes(cs[0], o) + ConstsBytes(cs[1..], o)
  }

  predicate IsNumber(v: Value) {
    v.Int? || v.Num?
  }

  function NumberBytes(v: Value): seq<byte>
    requires IsNumber(v)
  {
    match v
    case Int(k) => Uleb(Tagged(k, false))
    case Num(lo, hi) => Uleb(Tagged(lo, true)) + Uleb(hi)
  }

  function NumbersBytes(vs: seq<Value>): seq<byte>
    requires forall i :: 0 <= i < |vs| ==> IsNumber(vs[i])
  {
    if vs == [] then [] else NumberBytes(vs[0]) + NumbersBytes(vs[1..])
  }

  /** The flags that are kept: PROTO_CHILD, PROTO_VARARG, PROTO_FFI and PROTO_BITOP */
  function KeptFlags(flags: byte): byte {
    flags % 8 + flags / 128 * 128
  }

  predicate HasChildren(flags: byte) {
    flags % 2 == 1
  }

  function DebugHead(d: Debug): seq<byte> {
    match d
    case NoDebug => Uleb(0)
    case Debug(first, num, info) => Uleb(|info|) + Uleb(first) + Uleb(num)
  }

  function DebugInfo(d: Debug): seq<byte> {
    match d
    case NoDebug => []
    case Debug(_, _, info) => info
  }

  /** One prototype as the source keeps it, but for its children */
  ghost predicate GoodProto(pt: Proto) {
    && |pt.uv| % 2 == 0 && |pt.uv| / 2 < 256 && |pt.bc| % 4 == 0 && |pt.bc| < W32
    && |pt.kgc| < W32 && GoodConsts(pt.kgc)
    && |pt.knum| < W32 && (forall i :: 0 <= i < |pt.knum| ==> IsNumber(pt.knum[i]))
    && (pt.debug.Debug? ==> 0 < |pt.debug.info| < W32)
    && (!HasChildren(pt.flags) ==> forall i {:trigger pt.kgc[i]} :: 0 <= i < |pt.kgc| ==> !pt.kgc[i].KChild?)
  }

  function HeadBytes(pt: Proto, o: Options): seq<byte>
    requires |pt.uv| / 2 < 256
  {
    [KeptFlags(pt.flags), pt.numparams, pt.framesize, |pt.uv| / 2]
    + Uleb(|pt.kgc|) + Uleb(|pt.knum|) + Uleb(|pt.bc| / 4) + (if o.strip then [] else DebugHead(pt.debug))
  }

  ghost function BodyBytes(pt: Proto, o: Options): seq<byte>
    requires GoodProto(pt)
  {
    HeadBytes(pt, o) + pt.bc + pt.uv + ConstsBytes(pt.kgc, o) + NumbersBytes(pt.knum) + (if o.strip then [] else DebugInfo(pt.debug))
  }

  lemma BodyNotEmpty(pt: Proto, o: Options)
    requires GoodProto(pt)
    ensures |BodyBytes(pt, o)| > 0
  {
    assert |HeadBytes(pt, o)| >= 4;
  }

  /** A prototype of which all parts fit into their fields, together with its children */
  ghost predicate GoodTree(pt: Proto, o: Options)
    decreases pt, |pt.kgc| + 1
  {
    GoodProto(pt) && |BodyBytes(pt, o)| < W32 && GoodChildren(pt, o, |pt.kgc|)
  }

  ghost predicate GoodChildren(pt: Proto, o: Options, n: nat)
    requires n <= |pt.kgc|
    decreases pt, n
  {
    n == 0 || (GoodChildren(pt, o, n - 1) && (pt.kgc[n - 1].KChild? ==> GoodTree(pt.kgc[n - 1].pt, o)))
  }

  /** A prototype behind all its children, the children with the last constants first */
  ghost function TreeBytes(pt: Proto, o: Options): seq<byte>
    requires GoodTree(pt, o)
    decreases pt, |pt.kgc| + 1
  {
    ChildrenBytes(pt, o, |pt.kgc|) + Uleb(|BodyBytes(pt, o)|) + BodyBytes(pt, o)
  }

  ghost function ChildrenBytes(pt: Proto, o: Options, n: nat): seq<byte>
    requires n <= |pt.kgc| && GoodChildren(pt, o, n)
    decreases pt, n
  {
    if n == 0 then []
    else (if pt.kgc[n - 1].KChild? then TreeBytes(pt.kgc[n - 1].pt, o) else []) + ChildrenBytes(pt, o, n - 1)
  }

  // ------------------------------------------------------------------
  // The header of a dump

  const HEAD1: nat := 0x1b
  const HEAD2: nat := 0x4c
  const HEAD3: nat := 0x4a
  const VERSION: nat := 2

  /** BCDUMP_F_BE, _STRIP, _FFI, _FR2 and _BITOP */
  datatype Flags = Flags(be: bool, strip: bool, ffi: bool, fr2: bool, bitop: bool)

  function Bit(b: bool, weight: nat): nat {
    if b then weight else 0
  }

  function FlagByte(f: Flags): (r: byte) {
    Bit(f.be, 1) + Bit(f.strip, 2) + Bit(f.ffi, 4) + Bit(f.fr2, 8) + Bit(f.bitop, 16)
  }

  predicate IsFFI(pt: Proto) {
    pt.flags / 4 % 2 == 1
  }

  predicate IsBitop(pt: Proto) {
    pt.flags / 128 == 1
  }

  function HeaderBytes(pt: Proto, name: seq<byte>, o: Options, be: bool, fr2: bool): seq<byte> {
    [HEAD1, HEAD2, HEAD3, VERSION, FlagByte(Flags(be, o.strip, IsFFI(pt), fr2, IsBitop(pt)))]
    + if o.strip then [] else Uleb(|name|) + name
  }

  /** A whole dump */
  ghost function DumpBytes(pt: Proto, name: seq<byte>, o: Options, be: bool, fr2: bool): seq<byte>
    requires GoodTree(pt, o)
  {
    HeaderBytes(pt, name, o, be, fr2) + TreeBytes(pt, o) + [0]
  }
}
