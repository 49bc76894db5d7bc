/**
 The numbers of bytecode dumps: ULEB128 (DWARF 5, section 7.6) of 32-bit words, and the
 variant of 33 bits whose low bit is a tag (src/lj_strfmt.c, src/lj_buf.c, src/lj_bcread.c, src/lj_bcwrite.c).
 */
module DumpNumbers {

  const W32: nat := 0x1_0000_0000

  type byte = x: nat | x < 256
  type word = x: nat | x < 0x1_0000_0000

  /** A value and the position behind it, or an error, like the end of the input */
  datatype Read<T> = Got(v: T, next: nat) | Fails

  /** The bytes `e` are at position `p`. */
  ghost predicate Holds(s: seq<byte>, p: nat, e: seq<byte>) {
    p + |e| <= |s| && s[p..p + |e|] == e
  }

  lemma HoldsBoth(s: seq<byte>, p: nat, a: seq<byte>, b: seq<byte>)
    ensures Holds(s, p, a + b) <==> Holds(s, p, a) && Holds(s, p + |a|, b)
  {
    if p + |a| + |b| <= |s| {
      assert s[p..p + |a + b|] == s[p..p + |a|] + s[p + |a|..p + |a + b|];
      assert (a + b)[..|a|] == a && (a + b)[|a|..] == b;
      assert s[p..p + |a + b|][..|a|] == s[p..p + |a|];
      assert s[p..p + |a + b|][|a|..] == s[p + |a|..p + |a + b|];
    }
  }

  // ------------------------------------------------------------------
  // ULEB128

  /** Seven bits a byte, the low ones first; all bytes but the last one are marked. */
  function Uleb(v: nat): (r: seq<byte>)
    ensures r != []
  {
    if v < 128 then [v] else [128 + v % 128] + Uleb(v / 128)
  }

  /** The value at `p`, however many bytes it has */
  function UlebAt(s: seq<byte>, p: nat): (r: Read<nat>)
    ensures r.Got? ==> p < r.next <= |s|
    decreases |s| - p
  {
    if p >= |s| then Fails
    else if s[p] < 128 then Got(s[p], p + 1)
    else match UlebAt(s, p + 1)
      case Fails => Fails
      case Got(v, next) => Got(s[p] - 128 + 128 * v, next)
  }

  /** What was written is what is read. */
  lemma {:induction false} UlebTrip(s: seq<byte>, p: nat, v: nat)
    requires Holds(s, p, Uleb(v))
    ensures UlebAt(s, p) == Got(v, p + |Uleb(v)|)
    decreases v
  {
    if v < 128 {
      assert s[p] == s[p..p + 1][0];
    } else {
      HoldsBoth(s, p, [128 + v % 128], Uleb(v / 128));
      assert s[p] == s[p..p + 1][0];
      UlebTrip(s, p + 1, v / 128);
    }
  }

  /** No value has two encodings of this kind, and none is the beginning of another one. */
  lemma UlebPrefixFree(v: nat, w: nat)
    ensures Uleb(v) <= Uleb(w) ==> v == w
  {
    if Uleb(v) <= Uleb(w) {
      assert Holds(Uleb(w), 0, Uleb(v)) && Holds(Uleb(w), 0, Uleb(w));
      UlebTrip(Uleb(w), 0, v);
      UlebTrip(Uleb(w), 0, w);
    }
  }

  /** lj_strfmt_wuleb128 */
  method WriteUleb(sb: seq<byte>, v0: word) returns (r: seq<byte>)
    ensures r == sb + Uleb(v0)
  {
    r := sb;
    var v: nat := v0;
    while v >= 0x80
      invariant r + Uleb(v) == sb + Uleb(v0)
    {
      ghost var before := r;
      r := r + [v % 0x80 + 0x80];
      assert before + Uleb(v) == before + ([128 + v % 128] + Uleb(v / 128));
      v := v / 0x80;
    }
    r := r + [v];
  }

  /** The unsigned word that remains of a value */
  function ToWord(r: Read<nat>): Read<word> {
    match r
    case Fails => Fails
    case Got(v, next) => Got(v % W32, next)
  }

  /** lj_buf_ruleb128; the bits that are shifted out are lost. */
  method ReadUleb(s: seq<byte>, p: nat) returns (r: Read<word>)
    ensures r == ToWord(UlebAt(s, p))
  {
    if p >= |s| {
      return Fails;
    }
    if s[p] < 0x80 {
      return Got(s[p], p + 1);
    }
    var rest, next := ReadTail(s, p + 1, 0x80);
    if next == 0 {
      return Fails;
    }
    match UlebAt(s, p + 1) {
      case Got(u, _) => WordSum(s[p] - 0x80, 0x80 * u);
      case Fails =>
    }
    return Got((s[p] - 0x80 + rest) % W32, next);
  }

  /** The loop over the further bytes of a value, the first of which weighs `unit`; zero if the input ends */
  method ReadTail(s: seq<byte>, p: nat, unit: nat) returns (v: word, next: nat)
    ensures match UlebAt(s, p)
            case Fails => next == 0
            case Got(u, n) => next == n && v == unit * u % W32
  {
    v := 0;
    next := p;
    var weight: nat := unit;
    ghost var total: nat := 0;
    while true
      invariant v == total % W32
      invariant match UlebAt(s, p)
                case Fails => UlebAt(s, next).Fails?
                case Got(u, n) => UlebAt(s, next).Got? && UlebAt(s, next).next == n && unit * u == total + weight * UlebAt(s, next).v
      decreases |s| - next
    {
      if next >= |s| {
        return 0, 0;
      }
      var b := s[next];
      next := next + 1;
      WordSum(total, weight * (b % 0x80));
      v := (v + weight * (b % 0x80)) % W32;
      total := total + weight * (b % 0x80);
      if b < 0x80 {
        return;
      }
      match UlebAt(s, next) {
        case Got(u, _) => Distribute(weight, b - 0x80, u);
        case Fails =>
      }
      weight := weight * 0x80;
    }
  }

  lemma Distribute(w: nat, b: nat, u: nat)
    ensures w * (b + 128 * u) == w * b + (w * 0x80) * u
  {
  }

  lemma WordSum(a: nat, b: nat)
    ensures (a % W32 + b) % W32 == (a + b) % W32 == (a + b % W32) % W32
  {
    assert a == W32 * (a / W32) + a % W32;
    assert b == W32 * (b / W32) + b % W32;
    assert a + b == W32 * (a / W32) + (a % W32 + b);
    assert a + b == W32 * (b / W32) + (a + b % W32);
    AddMultiple(a / W32, a % W32 + b);
    AddMultiple(b / W32, a + b % W32);
  }

  lemma {:induction false} AddMultiple(k: nat, x: nat)
    ensures (W32 * k + x) % W32 == x % W32
  {
    if k > 0 {
      AddMultiple(k - 1, x);
      assert W32 * k + x == W32 * (k - 1) + x + W32;
    }
  }

  // ------------------------------------------------------------------
  // A word with a tag below it

  const TOP: nat := 0x8000_0000
  const BIT28: nat := 0x1000_0000

  function Tagged(k: word, tag: bool): nat {
    2 * k + if tag then 1 else 0
  }

  /** What the value read stands for: the word above the tag */
  function AboveTag(r: Read<nat>): Read<word> {
    match r
    case Fails => Fails
    case Got(v, next) => Got(v / 2 % W32, next)
  }

  lemma UlebStep(a: nat, rest: nat)
    requires a < 128 && rest > 0
    ensures Uleb(a + 128 * rest) == [128 + a] + Uleb(rest)
  {
  }

  /** The encoding of a value of more than 28 bits: four bytes for the low ones, which do not depend on the others */
  lemma UlebHigh(low: nat) returns (bytes: seq<byte>)
    requires low < BIT28
    ensures forall e: nat :: e > 0 ==> Uleb(low + BIT28 * e) == bytes + Uleb(e)
  {
    hide Uleb;
    var a, r1 := low % 128, low / 128;
    var b, r2 := r1 % 128, r1 / 128;
    var c, d := r2 % 128, r2 / 128;
    bytes := [128 + a] + [128 + b] + [128 + c] + [128 + d];
    forall e: nat | e > 0 ensures Uleb(low + BIT28 * e) == bytes + Uleb(e) {
      UlebStep(d, e);
      UlebStep(c, d + 128 * e);
      UlebStep(b, c + 128 * (d + 128 * e));
      UlebStep(a, b + 128 * (c + 128 * (d + 128 * e)));
      assert bytes + Uleb(e) == [128 + a] + ([128 + b] + ([128 + c] + ([128 + d] + Uleb(e))));
    }
  }

  /** What is sent through the encoder for a word with its highest bit set */
  function Clipped(k: word): (r: word)
    requires k >= TOP
    ensures r % 2 == 0
  {
    var doubled := 2 * k - W32;
    if doubled < TOP then doubled + TOP else doubled
  }

  /** The clipped value differs from the real one only above its 28 low bits. */
  lemma ClippedParts(k: word, tag: bool) returns (low: nat, e: nat, ec: nat)
    requires k >= TOP
    ensures low < BIT28 && 8 <= ec < 16 && e < 128
    ensures Tagged(k, tag) == low + BIT28 * e
    ensures Clipped(k) + (if tag then 1 else 0) == low + BIT28 * ec
    ensures e == ec % 8 + k / 0x800_0000 / 8 % 4 * 8
  {
    var r := k % 0x800_0000;
    e := k / 0x800_0000;
    low := 2 * r + if tag then 1 else 0;
    ec := if e < 24 then e - 8 else e - 16;
  }

  /** bcwrite_knum: only 32 bits go through the encoder, then the last byte is corrected. */
  method WriteTagged(sb: seq<byte>, k: word, tag: bool) returns (r: seq<byte>)
    ensures r == sb + Uleb(Tagged(k, tag))
  {
    hide Uleb, Clipped;
    var bit := if tag then 1 else 0;
    if k < TOP {
      r := WriteUleb(sb, 2 * k + bit);
      return;
    }
    ghost var low, e, ec := ClippedParts(k, tag);
    ghost var bytes := UlebHigh(low);
    r := WriteUleb(sb, Clipped(k) + bit);
    UlebOne(e);
    UlebOne(ec);
    assert r == sb + (bytes + [ec]);
    r := r[|r| - 1 := r[|r| - 1] % 8 + k / 0x800_0000 / 8 % 4 * 8];
    assert r == sb + (bytes + [e]);
  }

  lemma UlebOne(v: nat)
    requires v < 128
    ensures Uleb(v) == [v]
  {
  }

  /** bcread_uleb128_33 */
  method ReadTagged(s: seq<byte>, p: nat) returns (r: Read<word>)
    ensures r == AboveTag(UlebAt(s, p))
  {
    if p >= |s| {
      return Fails;
    }
    var v := s[p] / 2;
    if v < 0x40 {
      return Got(v, p + 1);
    }
    var rest, next := ReadTail(s, p + 1, 0x40);
    if next == 0 {
      return Fails;
    }
    match UlebAt(s, p + 1) {
      case Got(u, _) =>
        WordSum(v % 0x40, 0x40 * u);
        assert (s[p] - 128 + 128 * u) / 2 == v % 0x40 + 0x40 * u;
      case Fails =>
    }
    return Got((v % 0x40 + rest) % W32, next);
  }

  /** The tag is the low bit of the first byte. */
  lemma TagOf(s: seq<byte>, p: nat)
    requires UlebAt(s, p).Got?
    ensures s[p] % 2 == UlebAt(s, p).v % 2
  {
  }

  /** A word and its tag are read as they were written. */
  lemma TaggedTrip(s: seq<byte>, p: nat, k: word, tag: bool)
    requires Holds(s, p, Uleb(Tagged(k, tag)))
    ensures AboveTag(UlebAt(s, p)) == Got(k, p + |Uleb(Tagged(k, tag))|)
    ensures p < |s| && (s[p] % 2 == 1 <==> tag)
  {
    UlebTrip(s, p, Tagged(k, tag));
    TagOf(s, p);
  }
}
