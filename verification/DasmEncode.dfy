/** The bytes that the third pass of DynASM (dynasm/dasm_x86.h) writes. */
module DasmEncode {
  import opened DasmItems
  import opened DasmLabels
  import opened DasmLayout
  import opened DasmLink
  import PowersOfTwo

  function Byte8(n: int): nat { n % 256 }

  /** The `w` low bytes of a word, least significant first. */
  function LittleEndian(n: int, w: nat): (r: seq<nat>)
    ensures |r| == w
    decreases w
  {
    if w == 0 then [] else [Byte8(n)] + LittleEndian(n / 256, w - 1)
  }

  function Fill(b: nat, n: nat): seq<nat> {
    seq(n, _ => b)
  }

  /** What is written for item `x`; a shrunk branch rewrites its opcode. */
  function Emit(out: seq<nat>, x: Item, shrink: nat, disp: int): seq<nat> {
    match x.act
    case Byte(b) => out + [b]
    case Esc(b) => out + [b]
    case ImmS => out + [Byte8(x.arg)]
    case ImmB => out + [Byte8(x.arg)]
    case ImmW => out + LittleEndian(x.arg, 2)
    case ImmD => out + LittleEndian(x.arg, 4)
    case Space(fill) => out + Fill(fill, if x.arg >= 0 then x.arg else 0)
    case Align(mask) => out + Fill(0x90, mask - Masked(|out| + mask, mask))
    case RelLG(_) => EmitBranch(out, shrink, disp)
    case RelPC => EmitBranch(out, shrink, disp)
    case _ => out
  }

  function EmitBranch(out: seq<nat>, shrink: nat, disp: int): seq<nat> {
    var n := |out|;
    if shrink == 0 then out + LittleEndian(disp, 4)
    else if shrink == 4 && n >= 2 then out[..n - 2] + [Byte8((out[n - 1] as int) - 0x10), Byte8(disp)]
    else if n >= 1 then out[..n - 1] + [0xeb, Byte8(disp)]
    else out
  }

  /** The displacement of item `g`. */
  function DispAt(a: Asm, prog: seq<Item>, shr: Shrinks, g: nat): int
    requires g < |prog| == |shr|
  {
    if prog[g].act.Rel?() && TargetOf(a, prog[g]) <= |prog| then Displacement(prog, shr, g, TargetOf(a, prog[g])) else 0
  }

  /** The code of the first `g` items. */
  function Code(a: Asm, prog: seq<Item>, shr: Shrinks, g: nat): seq<nat>
    requires g <= |prog| == |shr|
  {
    if g == 0 then [] else Emit(Code(a, prog, shr, g - 1), prog[g - 1], shr[g - 1], DispAt(a, prog, shr, g - 1))
  }

  predicate PlainByte(x: Item) {
    x.act.Byte? || x.act.Esc?
  }

  /** A shrunk branch directly follows its opcode. */
  ghost predicate OpcodeOk(prog: seq<Item>, shr: Shrinks, g: nat)
    requires g < |prog| == |shr|
  {
    prog[g].act.Rel?() && shr[g] > 0 ==>
      || (shr[g] == 3 && g >= 1 && PlainByte(prog[g - 1]) && prog[g - 1].act.b == 0xe9)
      || (shr[g] == 4 && g >= 2 && PlainByte(prog[g - 1]) && prog[g - 1].act.b / 16 == 8 && PlainByte(prog[g - 2]) && prog[g - 2].act.b == 0x0f)
  }

  ghost predicate Encodable(prog: seq<Item>, shr: Shrinks) {
    && SizesOk(prog) && ShrinksOk(prog, shr) && (forall g {:trigger OpcodeOk(prog, shr, g)} :: 0 <= g < |prog| ==> OpcodeOk(prog, shr, g))
    && (forall g {:trigger prog[g]} :: 0 <= g < |prog| && prog[g].act.Space? ==> prog[g].arg >= 0)
  }

  /** One item moves the code to its next offset. */
  lemma EmitLength(a: Asm, prog: seq<Item>, shr: Shrinks, g: nat, out: seq<nat>)
    requires Encodable(prog, shr) && g < |prog| && |out| == Final(prog, shr, g) && (g >= 1 && PlainByte(prog[g - 1]) ==> |out| >= 1)
    requires g >= 2 && PlainByte(prog[g - 1]) && PlainByte(prog[g - 2]) ==> |out| >= 2
    ensures |Emit(out, prog[g], shr[g], DispAt(a, prog, shr, g))| == Final(prog, shr, g + 1)
  {
    hide DispAt, LittleEndian, Masked;
    assert OpcodeOk(prog, shr, g);
  }

  lemma {:induction false} CodeLength(a: Asm, prog: seq<Item>, shr: Shrinks, g: nat)
    requires Encodable(prog, shr) && g <= |prog|
    ensures |Code(a, prog, shr, g)| == Final(prog, shr, g) >= 0
    ensures g >= 1 && PlainByte(prog[g - 1]) ==> Code(a, prog, shr, g) == Code(a, prog, shr, g - 1) + [prog[g - 1].act.b]
  {
    if g > 0 {
      CodeLength(a, prog, shr, g - 1);
      if g >= 2 {
        CodeLength(a, prog, shr, g - 2);
      }
      EmitLength(a, prog, shr, g - 1, Code(a, prog, shr, g - 1));
    }
  }

  lemma CodeStep(a: Asm, prog: seq<Item>, shr: Shrinks, g: nat)
    requires 0 < g <= |prog| == |shr|
    ensures Code(a, prog, shr, g) == Emit(Code(a, prog, shr, g - 1), prog[g - 1], shr[g - 1], DispAt(a, prog, shr, g - 1))
  {
  }

  /** No shrunk branch rewrites what is written before item `g`. */
  ghost predicate IsKept(prog: seq<Item>, shr: Shrinks, g: nat)
    requires |prog| == |shr|
  {
    && !(g < |prog| && prog[g].act.Rel?() && shr[g] > 0)
    && !(g + 1 < |prog| && prog[g + 1].act.Rel?() && shr[g + 1] == 4)
  }

  /** That is so everywhere but behind an opcode. */
  lemma KeptBehind(prog: seq<Item>, shr: Shrinks, g: nat)
    requires Encodable(prog, shr) && g < |prog| && !PlainByte(prog[g])
    ensures |prog| == |shr| && IsKept(prog, shr, g + 1)
  {
    if g + 1 < |prog| {
      assert OpcodeOk(prog, shr, g + 1);
    }
    if g + 2 < |prog| {
      assert OpcodeOk(prog, shr, g + 2);
    }
  }

  /** What is written stays, unless it is the opcode of a shrunk branch. */
  lemma {:induction false} CodeStays(a: Asm, prog: seq<Item>, shr: Shrinks, g: nat, h: nat)
    requires Encodable(prog, shr) && |prog| == |shr| && g <= h <= |prog| && IsKept(prog, shr, g)
    ensures |Code(a, prog, shr, g)| <= |Code(a, prog, shr, h)| && Code(a, prog, shr, h)[..|Code(a, prog, shr, g)|] == Code(a, prog, shr, g)
    decreases h
  {
    hide Emit, Final, Code, DispAt, OpcodeOk, Encodable;
    if g < h {
      CodeStays(a, prog, shr, g, h - 1);
      OpcodeAt(prog, shr, h - 1);
      CodeStep(a, prog, shr, h);
      var out, n := Code(a, prog, shr, h - 1), |Code(a, prog, shr, g)|;
      if prog[h - 1].act.Rel?() && shr[h - 1] > 0 {
        ShrunkAfter(prog, shr, g, h);
        CodeStays(a, prog, shr, g, h - 2);
        CodeLength(a, prog, shr, h - 1);
        if shr[h - 1] == 4 {
          CodeStays(a, prog, shr, g, h - 3);
          CodeLength(a, prog, shr, h - 2);
        }
        BranchKeeps(out, shr[h - 1], DispAt(a, prog, shr, h - 1), prog[h - 1], n);
      } else {
        EmitAppends(out, prog[h - 1], shr[h - 1], DispAt(a, prog, shr, h - 1), n);
      }
    }
  }

  /** The opcode of a shrunk branch does not end at a place where no opcode ends. */
  lemma ShrunkAfter(prog: seq<Item>, shr: Shrinks, g: nat, h: nat)
    requires g < h <= |prog| == |shr| && OpcodeOk(prog, shr, h - 1) && prog[h - 1].act.Rel?() && shr[h - 1] > 0
    requires IsKept(prog, shr, g)
    ensures g < h - 1 && PlainByte(prog[h - 2])
    ensures shr[h - 1] == 3 || (shr[h - 1] == 4 && g < h - 2 && PlainByte(prog[h - 3]))
  {
  }

  lemma BranchKeeps(out: seq<nat>, shrink: nat, disp: int, x: Item, n: nat)
    requires x.act.Rel?() && (shrink == 3 || shrink == 4) && n + (if shrink == 4 then 2 else 1) <= |out|
    ensures n <= |Emit(out, x, shrink, disp)| && Emit(out, x, shrink, disp)[..n] == out[..n]
  {
  }

  lemma EmitAppends(out: seq<nat>, x: Item, shrink: nat, disp: int, n: nat)
    requires n <= |out| && (x.act.Rel?() ==> shrink == 0)
    ensures n <= |Emit(out, x, shrink, disp)| && Emit(out, x, shrink, disp)[..n] == out[..n]
  {
  }

  /** The opcode of a branch */
  function OpcodeOf(prog: seq<Item>, g: nat): nat
    requires g < |prog|
  {
    if g >= 1 && PlainByte(prog[g - 1]) then prog[g - 1].act.b else 0
  }

  /** What a processor reads at the end of a branch: its opcode, and the displacement of the branch. */
  ghost predicate BranchAt(code: seq<nat>, end: nat, shrink: nat, opcode: nat, disp: int) {
    match shrink
    case 0 => 4 <= end <= |code| && code[end - 4..end] == LittleEndian(disp, 4)
    case 3 => 2 <= end <= |code| && code[end - 2] == 0xeb && code[end - 1] == Byte8(disp)
    case _ => 2 <= end <= |code| && 0x70 <= code[end - 2] < 0x80 && code[end - 2] % 16 == opcode % 16 && code[end - 1] == Byte8(disp)
  }

  /** The bytes of a branch behind its opcode. */
  lemma BranchBytes(out: seq<nat>, shrink: nat, opcode: nat, disp: int)
    requires shrink == 0 || (|out| >= 1 && out[|out| - 1] == opcode)
    requires shrink == 0 || shrink == 3 || (shrink == 4 && |out| >= 2 && opcode / 16 == 8)
    ensures BranchAt(EmitBranch(out, shrink, disp), |EmitBranch(out, shrink, disp)|, shrink, opcode, disp)
  {
  }

  lemma BranchInPrefix(code: seq<nat>, all: seq<nat>, shrink: nat, opcode: nat, disp: int)
    requires BranchAt(code, |code|, shrink, opcode, disp) && code <= all
    ensures BranchAt(all, |code|, shrink, opcode, disp)
  {
    assert shrink == 0 ==> all[|code| - 4..|code|] == code[|code| - 4..|code|];
  }

  /** In the final code, each branch has the displacement to its label; if it was shrunk, it has the short opcode. */
  lemma BranchLands(a: Asm, prog: seq<Item>, shr: Shrinks, g: nat)
    requires Encodable(prog, shr) && |prog| == |shr| && g < |prog| && prog[g].act.Rel?()
    ensures Final(prog, shr, g + 1) >= 0
    ensures BranchAt(Code(a, prog, shr, |prog|), Final(prog, shr, g + 1), shr[g],
                     OpcodeOf(prog, g), DispAt(a, prog, shr, g))
  {
    hide Encodable, BranchAt, Code, EmitBranch, IsKept;
    KeptBehind(prog, shr, g);
    CodeStays(a, prog, shr, g + 1, |prog|);
    CodeLength(a, prog, shr, g + 1);
    CodeLength(a, prog, shr, g);
    OpcodeAt(prog, shr, g);
    CodeOfBranch(a, prog, shr, g);
    var opcode := OpcodeOf(prog, g);
    if shr[g] == 4 {
      CodeLength(a, prog, shr, g - 1);
    }
    BranchBytes(Code(a, prog, shr, g), shr[g], opcode, DispAt(a, prog, shr, g));
    BranchInPrefix(Code(a, prog, shr, g + 1), Code(a, prog, shr, |prog|), shr[g], opcode, DispAt(a, prog, shr, g));
  }

  lemma CodeOfBranch(a: Asm, prog: seq<Item>, shr: Shrinks, g: nat)
    requires |prog| == |shr| && g < |prog| && prog[g].act.Rel?()
    ensures Code(a, prog, shr, g + 1) == EmitBranch(Code(a, prog, shr, g), shr[g], DispAt(a, prog, shr, g))
  {
  }

  lemma OpcodeAt(prog: seq<Item>, shr: Shrinks, g: nat)
    requires Encodable(prog, shr) && g < |prog|
    ensures |prog| == |shr| && OpcodeOk(prog, shr, g)
  {
  }

  // ------------------------------------------------------------------
  // Other items

  /** The number that these bytes mean, the first one counting least */
  function Unsigned(b: seq<nat>): nat {
    if b == [] then 0 else b[0] + 0x100 * Unsigned(b[1..])
  }

  /** The `w` bytes of a number, modulo `size`, which is 256 to the power of `w` */
  ghost predicate IsWord(b: seq<nat>, w: nat, size: nat, n: int)
    requires size > 0
  {
    |b| == w && (forall i :: 0 <= i < w ==> b[i] < 0x100) && Unsigned(b) == n % size
  }

  ghost predicate AllAre(b: seq<nat>, c: nat) {
    forall i :: 0 <= i < |b| ==> b[i] == c
  }

  /** What has to be in the code from one offset to the next, for an item other than a branch */
  ghost predicate IsWritten(b: seq<nat>, x: Item, to: nat) {
    match x.act
    case Byte(c) => b == [c]
    case Esc(c) => b == [c]
    case ImmS => IsWord(b, 1, 0x100, x.arg)
    case ImmB => IsWord(b, 1, 0x100, x.arg)
    case ImmW => IsWord(b, 2, 0x1_0000, x.arg)
    case ImmD => IsWord(b, 4, 0x1_0000_0000, x.arg)
    case Space(fill) => |b| == x.arg && AllAre(b, fill)
    case Align(mask) => |b| <= mask && to % (mask + 1) == 0 && AllAre(b, 0x90)
    case _ => b == []
  }

  lemma {:induction false} UnsignedOf(b: seq<nat>)
    ensures |b| == 1 ==> Unsigned(b) == b[0]
    ensures |b| == 2 ==> Unsigned(b) == b[0] + 0x100 * b[1]
    ensures |b| == 4 ==> Unsigned(b) == b[0] + 0x100 * b[1] + 0x1_0000 * b[2] + 0x100_0000 * b[3]
    decreases |b|
  {
    if |b| > 0 {
      UnsignedOf(b[1..]);
      if |b| > 3 {
        UnsignedOf(b[2..]);
        assert b[1..][1..] == b[2..];
      }
    }
  }

  lemma WordIsWritten(n: int)
    ensures IsWord([Byte8(n)], 1, 0x100, n) && IsWord(LittleEndian(n, 2), 2, 0x1_0000, n)
    ensures IsWord(LittleEndian(n, 4), 4, 0x1_0000_0000, n)
  {
    hide LittleEndian, Unsigned;
    var d := n / 0x100;
    NextByte(n, 2);
    NextByte(d, 1);
    NoBytes(d / 0x100);
    FourBytes(n);
    UnsignedOf([Byte8(n)]);
    UnsignedOf(LittleEndian(n, 2));
    UnsignedOf(LittleEndian(n, 4));
  }

  /** What is written for an item */
  lemma EmitIsWritten(out: seq<nat>, x: Item, shrink: nat, disp: int)
    requires !x.act.Rel?() && (x.act.Space? ==> x.arg >= 0)
    ensures var next := Emit(out, x, shrink, disp); out <= next && IsWritten(next[|out|..], x, |next|)
  {
    hide Masked, LittleEndian, IsWord, Fill;
    WordIsWritten(x.arg);
    FillIs(0x90, 0);
    if x.act.Align? {
      var pad := x.act.mask - Masked(|out| + x.act.mask, x.act.mask);
      AlignRounds(x, |out|);
      FillIs(0x90, pad);
      assert (out + Fill(0x90, pad))[|out|..] == Fill(0x90, pad);
    } else if x.act.Space? {
      FillIs(x.act.fill, x.arg);
      assert (out + Fill(x.act.fill, x.arg))[|out|..] == Fill(x.act.fill, x.arg);
    }
  }

  lemma FillIs(b: nat, n: nat)
    ensures |Fill(b, n)| == n && AllAre(Fill(b, n), b)
  {
  }

  /**
   Item `g` is in the code between its offset and the next one: a branch leads to its label, and all
   else has its bytes, except for a plain byte that is an opcode which a shrunk branch replaces.
   */
  ghost predicate Lands(a: Asm, prog: seq<Item>, shr: Shrinks, g: nat, code: seq<nat>)
    requires g < |prog| == |shr|
  {
    var from, to := Final(prog, shr, g), Final(prog, shr, g + 1);
    && 0 <= from <= to <= |code|
    && if prog[g].act.Rel?() then to == from + 4 - shr[g] && BranchAt(code, to, shr[g], OpcodeOf(prog, g), DispAt(a, prog, shr, g))
       else if PlainByte(prog[g]) && !IsKept(prog, shr, g + 1) then to == from + 1
       else IsWritten(code[from..to], prog[g], to)
  }

  lemma ItemLands(a: Asm, prog: seq<Item>, shr: Shrinks, g: nat)
    requires Encodable(prog, shr) && |prog| == |shr| && g < |prog|
    ensures Lands(a, prog, shr, g, Code(a, prog, shr, |prog|))
  {
    hide Encodable, Emit, Code, Final, DispAt, IsWritten, IsKept, BranchAt;
    CodeLength(a, prog, shr, g);
    CodeLength(a, prog, shr, g + 1);
    CodeLength(a, prog, shr, |prog|);
    FinalStep(prog, shr, g);
    if prog[g].act.Rel?() {
      BranchLands(a, prog, shr, g);
    } else if !PlainByte(prog[g]) || IsKept(prog, shr, g + 1) {
      if !PlainByte(prog[g]) {
        KeptBehind(prog, shr, g);
      }
      CodeStays(a, prog, shr, g + 1, |prog|);
      var here, next, code := Code(a, prog, shr, g), Code(a, prog, shr, g + 1), Code(a, prog, shr, |prog|);
      CodeStep(a, prog, shr, g + 1);
      EmitIsWritten(here, prog[g], shr[g], DispAt(a, prog, shr, g));
      assert code[..|next|] == next;
      assert code[|here|..|next|] == code[..|next|][|here|..];
    }
  }

  lemma FinalStep(prog: seq<Item>, shr: Shrinks, g: nat)
    requires Encodable(prog, shr) && g < |prog|
    ensures |prog| == |shr| && Final(prog, shr, g) <= Final(prog, shr, g + 1) <= Final(prog, shr, |prog|)
    ensures prog[g].act.Space? ==> prog[g].arg >= 0
    ensures prog[g].act.Rel?() ==> Final(prog, shr, g + 1) == Final(prog, shr, g) + 4 - shr[g]
    ensures PlainByte(prog[g]) ==> Final(prog, shr, g + 1) == Final(prog, shr, g) + 1
  {
    Shorter(prog, shr, g, g + 1);
    Shorter(prog, shr, g + 1, |prog|);
  }

  lemma AllLand(a: Asm, prog: seq<Item>, shr: Shrinks)
    requires Encodable(prog, shr) && |prog| == |shr|
    ensures forall g :: 0 <= g < |prog| ==> Lands(a, prog, shr, g, Code(a, prog, shr, |prog|))
  {
    hide Encodable, Lands;
    forall g | 0 <= g < |prog| ensures Lands(a, prog, shr, g, Code(a, prog, shr, |prog|)) {
      ItemLands(a, prog, shr, g);
    }
  }

  /** An immediate operand reads back as its argument, signed or unsigned, if it is in the range of its size. */
  lemma ImmediateReadsBack(b: seq<nat>, x: Item, to: nat)
    requires IsWritten(b, x, to)
    ensures x.act.ImmS? && -0x80 <= x.arg < 0x80 ==> |b| == 1 && Signed8(b[0]) == x.arg
    ensures x.act.ImmB? && 0 <= x.arg < 0x100 ==> |b| == 1 && b[0] == x.arg
    ensures x.act.ImmW? && 0 <= x.arg < 0x1_0000 ==> |b| == 2 && b[0] + 0x100 * b[1] == x.arg
    ensures x.act.ImmD? && -0x8000_0000 <= x.arg < 0x8000_0000 ==> |b| == 4 && Signed32(b) == x.arg
  {
    hide Unsigned;
    UnsignedOf(b);
  }

  /** The signed value of four bytes. */
  function Signed32(b: seq<nat>): int
    requires |b| == 4
  {
    var u := b[0] + 0x100 * b[1] + 0x1_0000 * b[2] + 0x100_0000 * b[3];
    if u < 0x8000_0000 then u else (u as int) - 0x1_0000_0000
  }

  function Signed8(b: nat): int {
    if b < 0x80 then b else (b as int) - 0x100
  }

  lemma FourBytes(n: int)
    ensures var d1 := n / 0x100; var d2 := d1 / 0x100; var d3 := d2 / 0x100;
            && LittleEndian(n, 4) == [Byte8(n), Byte8(d1), Byte8(d2), Byte8(d3)]
            && n == Byte8(n) + 0x100 * Byte8(d1) + 0x1_0000 * Byte8(d2) + 0x100_0000 * Byte8(d3) + 0x1_0000_0000 * (d3 / 0x100)
  {
    hide LittleEndian;
    var d1 := n / 0x100;
    var d2 := d1 / 0x100;
    var d3 := d2 / 0x100;
    NextByte(n, 4);
    NextByte(d1, 3);
    NextByte(d2, 2);
    NextByte(d3, 1);
    NoBytes(d3 / 0x100);
  }

  lemma NextByte(n: int, w: nat)
    requires w > 0
    ensures LittleEndian(n, w) == [Byte8(n)] + LittleEndian(n / 0x100, w - 1) && n == Byte8(n) + 0x100 * (n / 0x100)
  {
  }

  lemma NoBytes(n: int)
    ensures LittleEndian(n, 0) == []
  {
  }

  /** Reading a displacement back, unless the code is larger than two gigabytes. */
  lemma ReadsBack(disp: int)
    ensures -0x8000_0000 <= disp < 0x8000_0000 ==> Signed32(LittleEndian(disp, 4)) == disp
    ensures ByteSized(disp) ==> Signed8(Byte8(disp)) == disp
  {
    hide LittleEndian;
    FourBytes(disp);
    var d := disp / 0x100 / 0x100 / 0x100 / 0x100;
    assert -0x8000_0000 <= disp < 0x8000_0000 ==> d == 0 || d == -1;
  }

  // ------------------------------------------------------------------
  // The result of the second pass can be encoded

  /** The action before action `p` of a put is the item before. */
  lemma ItemBefore(list: seq<Action>, a: Asm, ofs: seq<int>, s: nat, k: nat)
    requires AllLaid(list, a, ofs) && s < |a.items| && k < |a.items[s]|
    requires !a.items[s][k].act.Begin? && a.items[s][k].p > a.items[s][k].start
    ensures k > 0 && Start(a.items, s) + k - 1 < |Program(a.items)|
    ensures var x, y := a.items[s][k], a.items[s][k - 1];
            !y.act.Begin? && y.start == x.start && y.p == x.p - 1 && y.p < |list| && list[y.p] == y.act
            && Program(a.items)[Start(a.items, s) + k - 1] == y
  {
    hide AllLaid, PutOk;
    LaidOut(list, a, ofs, s);
    if k > 0 {
      assert StepAt(a, s, k - 1) && ItemAt(list, a, s, k - 1) && ItemAt(list, a, s, k);
      NextAt(list, a, ofs, s, k - 1);
    }
  }

  lemma ShrunkHasOpcode(list: seq<Action>, a: Asm, ofs: seq<int>, buf: seq<seq<int>>, shr: Shrinks, s: nat, k: nat)
    requires Linked(list, a, ofs, buf, shr) && s < |a.items| && k < |a.items[s]|
    ensures Start(a.items, s) + k < |Program(a.items)| == |shr| && OpcodeOk(Program(a.items), shr, Start(a.items, s) + k)
  {
    hide AllLaid, Flat, Start, Word, Final, Estimate;
    NextAt(list, a, ofs, s, k);
    assert ItemLinked(list, a, buf, shr, s, k);
    var x, g := a.items[s][k], Start(a.items, s) + k;
    if x.act.Rel?() && shr[g] > 0 {
      LaidOut(list, a, ofs, s);
      assert ItemAt(list, a, s, k);
      assert BranchOk(list, x.start, x.p);
      ItemBefore(list, a, ofs, s, k);
      if shr[g] == 4 {
        ItemBefore(list, a, ofs, s, k - 1);
      }
    }
  }

  lemma LinkedEncodable(list: seq<Action>, a: Asm, ofs: seq<int>, buf: seq<seq<int>>, shr: Shrinks)
    requires Linked(list, a, ofs, buf, shr)
    ensures |shr| == |Program(a.items)| && Encodable(Program(a.items), shr)
  {
    hide AllLaid, Flat, Start, LinkedAt, OpcodeOk;
    var prog := Program(a.items);
    LaidSizes(list, a, ofs);
    forall g | 0 <= g < |prog| ensures OpcodeOk(prog, shr, g) && (prog[g].act.Space? ==> prog[g].arg >= 0) {
      var s, k := FindItem(a.items, |a.items|, g);
      ShrunkHasOpcode(list, a, ofs, buf, shr, s, k);
      NextAt(list, a, ofs, s, k);
      ItemFits(list, a, s, k);
    }
  }

  // ------------------------------------------------------------------
  // What the third pass finds in the buffers

  lemma BranchOperands(list: seq<Action>, a: Asm, ofs: seq<int>, buf: seq<seq<int>>, shr: Shrinks, s: nat, k: nat)
    requires Linked(list, a, ofs, buf, shr) && LabelsOk(a) && AllBound(a)
    requires s < |a.items| && k < |a.items[s]| && a.items[s][k].act.Rel?()
    ensures var g, prog, at := Start(a.items, s) + k, Program(a.items), Pos(s, a.items[s][k].idx);
            && g < |prog| == |shr| && TargetOf(a, prog[g]) < |prog| && prog[g] == a.items[s][k] && Word(buf, at) > 0
            && Word(buf, at + 1) == shr[g]
            && Word(buf, Word(buf, at)) - (Final(prog, shr, g) + 4 - shr[g]) == DispAt(a, prog, shr, g)
  {
    hide AllLaid, LabelsOk, AllBound, Binds, Word, Estimate, Flat, Start, Pos, Shrinkable, OpBefore;
    var x := a.items[s][k];
    NextAt(list, a, ofs, s, k);
    ReferenceLeads(list, a, ofs, s, k);
    var e := a.events[Binds(a.events, x.ev).j];
    assert ItemLinked(list, a, buf, shr, s, k) && ItemLinked(list, a, buf, shr, e.s, e.k);
    EventFacts(a, Binds(a.events, x.ev).j);
    PosPositiveOf(a, Binds(a.events, x.ev).j);
  }

  lemma OtherOperands(list: seq<Action>, a: Asm, ofs: seq<int>, buf: seq<seq<int>>, shr: Shrinks, s: nat, k: nat)
    requires Linked(list, a, ofs, buf, shr) && s < |a.items| && k < |a.items[s]|
    ensures var g, prog, x := Start(a.items, s) + k, Program(a.items), a.items[s][k];
            && g < |prog| == |shr| && prog[g] == x && OperandsOk(x.act) && ArgOk(x.act, x.arg)
            && (x.act.ImmS? || x.act.ImmB? || x.act.ImmW? || x.act.ImmD? || x.act.Space? ==> Word(buf, Pos(s, x.idx)) == x.arg)
            && (x.act.Begin? ==> Word(buf, Pos(s, x.idx)) == x.start)
  {
    hide AllLaid, Estimate, Flat, Start, Word, Pos, PutOk;
    NextAt(list, a, ofs, s, k);
    assert ItemLinked(list, a, buf, shr, s, k);
    var x := a.items[s][k];
    if Slots(x.act) > 0 {
      WordIs(a, s, x.idx);
    }
  }

  /** A definition of the label that a branch names: of its number, or of the local label, with 246 added for one further on */
  predicate NamesLabel(x: Item, y: Item) {
    match x.act
    case RelPC => y.act.LabelPC? && (y.arg == x.arg || (x.arg <= 0 && y.arg <= 0))
    case RelLG(n) => y.act == LabelLG(if n <= 246 then n else n - 246)
    case _ => false
  }

  /** A branch to a local label further on has the next definition as its target that was put behind it. */
  lemma ForwardTarget(list: seq<Action>, a: Asm, ofs: seq<int>, s: nat, k: nat)
    requires AllLaid(list, a, ofs) && LabelsOk(a) && AllBound(a) && s < |a.items| && k < |a.items[s]| && a.items[s][k].act.Rel?()
    ensures TargetOf(a, a.items[s][k]) < |Program(a.items)|
    ensures var x, y := a.items[s][k], Program(a.items)[TargetOf(a, a.items[s][k])];
            && NamesLabel(x, y)
            && (x.act.RelLG? && x.act.n > 246 ==>
                  && x.ev < y.ev
                  && forall s', k' {:trigger a.items[s'][k']} ::
                       0 <= s' < |a.items| && 0 <= k' < |a.items[s']| && NamesLabel(x, a.items[s'][k']) ==> !(x.ev < a.items[s'][k'].ev < y.ev))
  {
    hide AllLaid, LabelsOk, AllBound, Flat, Start, Word, Pos;
    ReferenceLeads(list, a, ofs, s, k);
    var x := a.items[s][k];
    var j := Binds(a.events, x.ev).j;
    var y := a.items[a.events[j].s][a.events[j].k];
    EventFacts(a, x.ev);
    EventFacts(a, j);
    ItemFacts(a, s, k);
    if x.act.RelLG? && x.act.n > 246 {
      ForwardBinds(a.events, x.ev);
      forall s', k' | 0 <= s' < |a.items| && 0 <= k' < |a.items[s']| && NamesLabel(x, a.items[s'][k'])
        ensures !(x.ev < a.items[s'][k'].ev < y.ev)
      {
        ItemFacts(a, s', k');
        EventFacts(a, a.items[s'][k'].ev);
      }
    }
  }

  /**
   The final code at work: a processor that adds the displacement of a branch to the address behind it
   reaches the label that the reference binds to, in whatever section that is.
   */
  lemma BranchReachesLabel(list: seq<Action>, a: Asm, ofs: seq<int>, buf: seq<seq<int>>, shr: Shrinks, s: nat, k: nat)
    requires Linked(list, a, ofs, buf, shr) && LabelsOk(a) && AllBound(a)
    requires s < |a.items| && k < |a.items[s]| && a.items[s][k].act.Rel?()
    ensures var prog, g, t := Program(a.items), Start(a.items, s) + k, TargetOf(a, a.items[s][k]);
            && g < |prog| == |shr| && t < |prog| && NamesLabel(a.items[s][k], prog[t])
            && var code, end := Code(a, prog, shr, |prog|), Final(prog, shr, g + 1);
               if shr[g] > 0 then 2 <= end <= |code| && end + Signed8(code[end - 1]) == Final(prog, shr, t)
               else 4 <= end <= |code| && (|code| < 0x8000_0000 ==> end + Signed32(code[end - 4..end]) == Final(prog, shr, t))
  {
    hide AllLaid, LabelsOk, AllBound, Binds, Encodable, Code, LinkedAt, OpcodeOk, LittleEndian, Final, Estimate, Flat, Start, Word;
    var prog, g, t := Program(a.items), Start(a.items, s) + k, TargetOf(a, a.items[s][k]);
    BranchOperands(list, a, ofs, buf, shr, s, k);
    ReferenceLeads(list, a, ofs, s, k);
    ForwardTarget(list, a, ofs, s, k);
    EventFacts(a, Binds(a.events, a.items[s][k].ev).j);
    LinkedEncodable(list, a, ofs, buf, shr);
    ShrunkIsShort(list, a, ofs, buf, shr, s, k);
    BranchLands(a, prog, shr, g);
    CodeLength(a, prog, shr, |prog|);
    CodeLength(a, prog, shr, t);
    CodeLength(a, prog, shr, g + 1);
    LaidSizes(list, a, ofs);
    FinalBounds(prog, shr, t);
    FinalBounds(prog, shr, g + 1);
    ReadsBack(DispAt(a, prog, shr, g));
  }

  lemma FinalBounds(prog: seq<Item>, shr: Shrinks, g: nat)
    requires SizesOk(prog) && ShrinksOk(prog, shr) && g <= |prog|
    ensures 0 <= Final(prog, shr, g) <= Final(prog, shr, |prog|)
  {
    Shorter(prog, shr, 0, g);
    Shorter(prog, shr, g, |prog|);
  }

  /** The padding loop of the third pass stops at the next multiple. */
  lemma Padding(n: nat, mask: nat, i: nat)
    requires i <= mask - Masked(n + mask, mask)
    ensures Masked(n + i, mask) == 0 <==> i == mask - Masked(n + mask, mask)
  {
    hide Masked;
    var m := mask + 1;
    var q, r := Quotient(n, m);
    Successor(q, m);
    if r == 0 {
      MaskedIs(n + mask, mask, q, mask);
      MaskedIs(n + i, mask, q, 0);
    } else {
      MaskedIs(n + mask, mask, q + 1, r - 1);
      if i < m - r {
        MaskedIs(n + i, mask, q, r + i);
      } else {
        MaskedIs(n + i, mask, q + 1, 0);
      }
    }
  }

  lemma MaskedIs(x: nat, mask: nat, q: nat, r: nat)
    requires x == q * (mask + 1) + r && r <= mask
    ensures Masked(x, mask) == r
  {
    PowersOfTwo.RemUnique(x, mask + 1, q, r);
  }

  lemma Quotient(n: nat, m: nat) returns (q: nat, r: nat)
    requires m > 0
    ensures n == q * m + r && r < m
  {
    q, r := n / m, n % m;
  }

  lemma Successor(q: nat, m: nat)
    ensures (q + 1) * m == q * m + m
  {
  }
}
