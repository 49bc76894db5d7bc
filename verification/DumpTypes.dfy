/** What bytecode dumps hold: prototypes with their constants, and template tables (src/lj_bcdump.h). */
module DumpTypes {
  import opened DumpNumbers

  /** A constant in a table. A marker keeps the place of a key whose value is nil. */
  datatype Value = Nil | False | True | Int(k: word) | Num(lo: word, hi: word) | Str(s: seq<byte>) | Marker

  datatype Node = Node(key: Value, val: Value)

  /** The array part, and the nodes of the hash part; a node whose value is nil is dead. */
  datatype Table = Table(array_: seq<Value>, node: seq<Node>)

  datatype Const = KStr(s: seq<byte>) | KChild(pt: Proto) | KTab(t: Table) | KI64(lo: word, hi: word) | KU64(lo: word, hi: word)
                 | KComplex(re: (word, word), im: (word, word))

  /** Line numbers and names, as a block of memory */
  datatype Debug = NoDebug | Debug(firstline: word, numline: word, info: seq<byte>)

  /** The GC constants are in the order of their addresses; instructions and upvalues are blocks of memory. */
  datatype Proto = Proto(flags: byte, numparams: byte, framesize: byte, uv: seq<byte>, bc: seq<byte>,
                         kgc: seq<Const>, knum: seq<Value>, debug: Debug)

  // ------------------------------------------------------------------
  // The order of keys

  const T_NIL: nat := W32 - 1
  const T_FALSE: nat := W32 - 2
  const T_TRUE: nat := W32 - 3
  const T_STR: nat := W32 - 5
  const T_TAB: nat := W32 - 12
  const T_ISNUM: nat := W32 - 14

  /** itype: the upper 17 bits of the value with their sign, as an unsigned word */
  function Itype(v: Value): nat {
    match v
    case Nil => T_NIL
    case False => T_FALSE
    case True => T_TRUE
    case Str(_) => T_STR
    case Marker => T_TAB
    case Int(_) => T_ISNUM
    case Num(_, hi) => if hi < TOP then hi / 0x8000 else W32 - 0x2_0000 + hi / 0x8000
  }

  /** The bits of a number are not those of another type. */
  predicate IsValue(v: Value) {
    v.Num? ==> Itype(v) < T_ISNUM
  }

  function Bits(v: Value): nat {
    match v
    case Int(k) => k
    case Num(lo, hi) => hi * W32 + lo
    case _ => 0
  }

  /** lj_str_cmp(a, b) < 0 */
  predicate StrLess(a: seq<byte>, b: seq<byte>) {
    b != [] && (a == [] || a[0] < b[0] || (a[0] == b[0] && StrLess(a[1..], b[1..])))
  }

  /** bcwrite_ktabk_lt */
  predicate KeyLess(a: Value, b: Value) {
    if Itype(a) != Itype(b) then Itype(a) < Itype(b)
    else if a.Str? && b.Str? then StrLess(a.s, b.s)
    else Bits(a) < Bits(b)
  }

  lemma {:induction false} StrOrder(a: seq<byte>, b: seq<byte>)
    ensures !(StrLess(a, b) && StrLess(b, a)) && (a != b ==> StrLess(a, b) || StrLess(b, a)) && !StrLess(a, a)
  {
    if a != [] {
      StrOrder(a[1..], a[1..]);
      if b != [] {
        StrOrder(a[1..], b[1..]);
        if a[0] == b[0] && a[1..] == b[1..] {
          assert a == [a[0]] + a[1..] == b;
        }
      }
    }
  }

  lemma {:induction false} StrTransitive(a: seq<byte>, b: seq<byte>, c: seq<byte>)
    requires StrLess(a, b) && StrLess(b, c)
    ensures StrLess(a, c)
  {
    if a != [] && a[0] == b[0] == c[0] {
      StrTransitive(a[1..], b[1..], c[1..]);
    }
  }

  /** Two different keys are in one order or the other, but not in both. */
  lemma KeyOrder(a: Value, b: Value)
    requires IsValue(a) && IsValue(b)
    ensures !(KeyLess(a, b) && KeyLess(b, a)) && (a != b ==> KeyLess(a, b) || KeyLess(b, a)) && !KeyLess(a, a)
  {
    if a.Str? && b.Str? {
      StrOrder(a.s, b.s);
    }
    if a.Str? {
      StrOrder(a.s, a.s);
    }
  }

  lemma KeyTransitive(a: Value, b: Value, c: Value)
    requires IsValue(a) && IsValue(b) && IsValue(c) && KeyLess(a, b) && KeyLess(b, c)
    ensures KeyLess(a, c)
  {
    if Itype(a) == Itype(b) == Itype(c) && a.Str? {
      StrTransitive(a.s, b.s, c.s);
    }
  }
}
