/** What a bytecode dump means to its reader (src/lj_bcread.c): the value at a position, and the position behind it. */
module DumpParse {
  import opened DumpNumbers
  import opened DumpTypes
  import opened DumpFormat

  function WordAt(s: seq<byte>, p: nat): (r: Read<word>)
    ensures r.Got? ==> p < r.next <= |s|
  {
    ToWord(UlebAt(s, p))
  }

  /** A block of memory */
  function BlockAt(s: seq<byte>, p: nat, len: nat): (r: Read<seq<byte>>)
    ensures r.Got? ==> r.next == p + len <= |s| && |r.v| == len
  {
    if p + len > |s| then Fails else Got(s[p..p + len], p + len)
  }

  function ByteAt(s: seq<byte>, p: nat): (r: Read<byte>)
    ensures r.Got? ==> r.next == p + 1 <= |s|
  {
    if p >= |s| then Fails else Got(s[p], p + 1)
  }

  /** Two words, one behind the other */
  function PairAt(s: seq<byte>, p: nat): (r: Read<(word, word)>)
    ensures r.Got? ==> p < r.next <= |s|
  {
    match WordAt(s, p)
    case Fails => Fails
    case Got(lo, q) => match WordAt(s, q)
      case Fails => Fails
      case Got(hi, q') => Got((lo, hi), q')
  }

  /** A constant of a table; among the values of the hash part a nil is a marker. */
  function ValueAt(s: seq<byte>, p: nat, hashed: bool): (r: Read<Value>)
    ensures r.Got? ==> p < r.next <= |s|
  {
    match WordAt(s, p)
    case Fails => Fails
    case Got(tp, q) =>
      if tp >= KTAB_STR then (match BlockAt(s, q, tp - KTAB_STR) case Fails => Fails case Got(str, q') => Got(Str(str), q'))
      else if tp == KTAB_INT then (match WordAt(s, q) case Fails => Fails case Got(k, q') => Got(Int(k), q'))
      else if tp == KTAB_NUM then (match PairAt(s, q) case Fails => Fails case Got(n, q') => Got(Num(n.0, n.1), q'))
      else if tp == KTAB_NIL then Got(if hashed then Marker else Nil, q)
      else Got(if tp == KTAB_FALSE then False else True, q)
  }

  function ValuesAt(s: seq<byte>, p: nat, n: nat): (r: Read<seq<Value>>)
    ensures r.Got? ==> p <= r.next && |r.v| == n
    decreases n
  {
    if n == 0 then Got([], p)
    else match ValueAt(s, p, false)
      case Fails => Fails
      case Got(v, q) => match ValuesAt(s, q, n - 1)
        case Fails => Fails
        case Got(vs, q') => Got([v] + vs, q')
  }

  /** lj_tab_set, and the assignment to what it returns */
  function SetKey(t: Table, key: Value, val: Value): Table {
    if key.Int? && key.k < |t.array_| then Table(t.array_[key.k := val], t.node)
    else Table(t.array_, SetNode(t.node, key, val))
  }

  function SetNode(node: seq<Node>, key: Value, val: Value): seq<Node> {
    if node == [] then [Node(key, val)]
    else if node[0].key == key then [Node(key, val)] + node[1..]
    else [node[0]] + SetNode(node[1..], key, val)
  }

  /** Keys and values are put into the table; nil is no key. */
  function NodesAt(s: seq<byte>, p: nat, n: nat, t: Table): (r: Read<Table>)
    ensures r.Got? ==> p <= r.next
    decreases n
  {
    if n == 0 then Got(t, p)
    else match ValueAt(s, p, false)
      case Fails => Fails
      case Got(key, q) =>
        if key.Nil? then Fails
        else match ValueAt(s, q, true)
          case Fails => Fails
          case Got(val, q') => NodesAt(s, q', n - 1, SetKey(t, key, val))
  }

  function TableAt(s: seq<byte>, p: nat): (r: Read<Table>)
    ensures r.Got? ==> p <= r.next
  {
    match PairAt(s, p)
    case Fails => Fails
    case Got(sizes, q) => match ValuesAt(s, q, sizes.0)
      case Fails => Fails
      case Got(vs, q') => NodesAt(s, q', sizes.1, Table(vs, []))
  }

  /** A GC constant; a child is taken from the top of the stack. */
  function ConstAt(s: seq<byte>, p: nat, stack: seq<Proto>): (r: Read<(Const, seq<Proto>)>)
    ensures r.Got? ==> p <= r.next
  {
    match WordAt(s, p)
    case Fails => Fails
    case Got(tp, q) =>
      if tp >= KGC_STR then (match BlockAt(s, q, tp - KGC_STR) case Fails => Fails case Got(str, q') => Got((KStr(str), stack), q'))
      else if tp == KGC_TAB then (match TableAt(s, q) case Fails => Fails case Got(t, q') => Got((KTab(t), stack), q'))
      else if tp == KGC_CHILD then
        if stack == [] then Fails else Got((KChild(stack[|stack| - 1]), stack[..|stack| - 1]), q)
      else match PairAt(s, q)
        case Fails => Fails
        case Got(n, q') =>
          if tp == KGC_I64 then Got((KI64(n.0, n.1), stack), q')
          else if tp == KGC_U64 then Got((KU64(n.0, n.1), stack), q')
          else match PairAt(s, q')
            case Fails => Fails
            case Got(im, q'') => Got((KComplex(n, im), stack), q'')
  }

  function ConstsAt(s: seq<byte>, p: nat, n: nat, stack: seq<Proto>): (r: Read<(seq<Const>, seq<Proto>)>)
    ensures r.Got? ==> p <= r.next
    decreases n
  {
    if n == 0 then Got(([], stack), p)
    else match ConstAt(s, p, stack)
      case Fails => Fails
      case Got(c, q) => match ConstsAt(s, q, n - 1, c.1)
        case Fails => Fails
        case Got(cs, q') => Got(([c.0] + cs.0, cs.1), q')
  }

  /** A number constant: a word with a tag below it, and a second word if the tag is set */
  function NumberAt(s: seq<byte>, p: nat): (r: Read<Value>)
    ensures r.Got? ==> p <= r.next
  {
    match UlebAt(s, p)
    case Fails => Fails
    case Got(v, q) =>
      if v % 2 == 0 then Got(Int(v / 2 % W32), q)
      else match WordAt(s, q)
        case Fails => Fails
        case Got(hi, q') => Got(Num(v / 2 % W32, hi), q')
  }

  function NumbersAt(s: seq<byte>, p: nat, n: nat): (r: Read<seq<Value>>)
    ensures r.Got? ==> p <= r.next
    decreases n
  {
    if n == 0 then Got([], p)
    else match NumberAt(s, p)
      case Fails => Fails
      case Got(v, q) => match NumbersAt(s, q, n - 1)
        case Fails => Fails
        case Got(vs, q') => Got([v] + vs, q')
  }

  /** What the head of a prototype says */
  datatype Head = Head(flags: byte, numparams: byte, framesize: byte, sizeuv: byte, sizekgc: word, sizekn: word, nbc: word,
                       sizedbg: word, firstline: word, numline: word)

  /** The four bytes at the beginning of a head */
  function HeadBytesAt(s: seq<byte>, p: nat): (r: Read<Head>)
    ensures r.Got? ==> r.next == p + 4 <= |s|
  {
    if p + 4 > |s| then Fails else Got(Head(s[p], s[p + 1], s[p + 2], s[p + 3], 0, 0, 0, 0, 0, 0), p + 4)
  }

  function HeadAt(s: seq<byte>, p: nat, strip: bool): (r: Read<Head>)
    ensures r.Got? ==> p < r.next
  {
    match HeadBytesAt(s, p)
    case Fails => Fails
    case Got(h, q) => match PairAt(s, q)
      case Fails => Fails
      case Got(ks, q) => match WordAt(s, q)
        case Fails => Fails
        case Got(nbc, q) =>
          var h := h.(sizekgc := ks.0, sizekn := ks.1, nbc := nbc);
          if strip then Got(h, q)
          else match WordAt(s, q)
            case Fails => Fails
            case Got(sizedbg, q) =>
              if sizedbg == 0 then Got(h, q)
              else match PairAt(s, q)
                case Fails => Fails
                case Got(lines, q) => Got(h.(sizedbg := sizedbg, firstline := lines.0, numline := lines.1), q)
  }

  function DebugOf(h: Head, info: seq<byte>): Debug {
    if h.sizedbg == 0 then NoDebug else Debug(h.firstline, h.numline, info)
  }

  /** A prototype, and what is left of the stack */
  function ProtoAt(s: seq<byte>, p: nat, strip: bool, stack: seq<Proto>): (r: Read<(Proto, seq<Proto>)>)
    ensures r.Got? ==> p < r.next
  {
    match HeadAt(s, p, strip)
    case Fails => Fails
    case Got(h, q) => match BlockAt(s, q, 4 * h.nbc)
      case Fails => Fails
      case Got(bc, q) => match BlockAt(s, q, 2 * h.sizeuv)
        case Fails => Fails
        case Got(uv, q) => match ConstsAt(s, q, h.sizekgc, stack)
          case Fails => Fails
          case Got(kgc, q) => match NumbersAt(s, q, h.sizekn)
            case Fails => Fails
            case Got(knum, q) => match BlockAt(s, q, h.sizedbg)
              case Fails => Fails
              case Got(info, q) =>
                Got((Proto(h.flags, h.numparams, h.framesize, uv, bc, kgc.0, knum, DebugOf(h, info)), kgc.1), q)
  }

  /** The prototypes from `p` on, up to an empty one; each is pushed. The end must be reached with a stack of one. */
  function LoadAt(s: seq<byte>, p: nat, strip: bool, stack: seq<Proto>, endmark: bool): Read<Proto>
    decreases |s| - p
  {
    match WordAt(s, p)
    case Fails => Fails
    case Got(len, q) =>
      if len == 0 then (if (q != |s| && !endmark) || |stack| != 1 then Fails else Got(stack[0], q))
      else if q + len > |s| then Fails
      else match ProtoAt(s, q, strip, stack)
        case Fails => Fails
        case Got(pt, q') => if q' != q + len then Fails else LoadAt(s, q', strip, pt.1 + [pt.0], endmark)
  }

  /** The header behind its first byte: the flags, and the name of the chunk unless it was left out */
  function HeaderAt(s: seq<byte>, p: nat, fr2: bool): Read<(bool, seq<byte>)> {
    if p + 3 > |s| || s[p] != HEAD2 || s[p + 1] != HEAD3 || s[p + 2] != VERSION then Fails
    else match WordAt(s, p + 3)
      case Fails => Fails
      case Got(flags, q) =>
        if flags >= 32 || (flags / 8 % 2 == 1) != fr2 then Fails
        else if flags / 2 % 2 == 1 then Got((true, []), q)
        else match WordAt(s, q)
          case Fails => Fails
          case Got(len, q') => match BlockAt(s, q', len)
            case Fails => Fails
            case Got(name, q'') => Got((false, name), q'')
  }
}
