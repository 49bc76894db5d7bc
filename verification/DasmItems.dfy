/**
 DynASM for x86 (dynasm/dasm_x86.h): the actions of an action list, and what the
 three passes of the assembler make of them.  An item is one action as it was
 fed to the first pass; the items of all sections in order are the program.
 */
module DasmItems {
  import PowersOfTwo

  /** Positions are a section number and an index into its buffer. */
  const SECTION_SPAN: nat := 0x100_0000

  /** Forward references to local label n are encoded as n + 246. */
  const FORWARD_BASE: nat := 246

  /** One action of the list with its inline operand; `Begin` stands for the start of one dasm_put. */
  datatype Action =
    | Begin
    | Byte(b: nat) | Esc(b: nat)
    | ImmS | ImmB | ImmW | ImmD
    | Space(fill: nat)
    | RelLG(n: nat) | RelPC
    | LabelLG(n: nat) | LabelPC
    | Align(mask: nat)
    | Section(n: nat) | Stop
  {
    predicate Rel?() { RelLG? || RelPC? }

    predicate Label?() { LabelLG? || LabelPC? }

    predicate Last?() { Section? || Stop? }
  }

  /** A label array entry. */
  datatype Slot = LG(n: nat) | PC(n: nat)

  /**
   Action `p` of the put at `start`, with its argument, its first buffer index and the offset that the
   first pass estimates before it; `ev` counts the label references and definitions before it.
   */
  datatype Item = Item(act: Action, start: nat, p: nat, arg: int, idx: nat, raw: int, ev: nat)

  /** Buffer positions of an action */
  function Slots(a: Action): nat {
    match a
    case Begin => 1
    case Byte(_) => 0
    case Esc(_) => 0
    case RelLG(_) => 2
    case RelPC => 2
    case Section(_) => 0
    case Stop => 0
    case _ => 1
  }

  /** Whether the action takes an argument. */
  predicate TakesArg(a: Action) {
    a.ImmS? || a.ImmB? || a.ImmW? || a.ImmD? || a.Space? || a.RelPC? || a.LabelPC?
  }

  /** What the first pass adds to the offset: no pass needs more. */
  function MaxSize(x: Item): int {
    match x.act
    case Byte(_) => 1
    case Esc(_) => 1
    case ImmS => 1
    case ImmB => 1
    case ImmW => 2
    case ImmD => 4
    case Space(_) => x.arg
    case RelLG(_) => 4
    case RelPC => 4
    case Align(mask) => mask
    case _ => 0
  }

  /** The label that an action refers to or defines. */
  function SlotOf(a: Action, arg: int): Slot {
    match a
    case RelLG(n) => LG(if n <= FORWARD_BASE then n else n - FORWARD_BASE)
    case RelPC => PC(if arg >= 0 then arg else 0)
    case LabelLG(n) => LG(n)
    case LabelPC => PC(if arg >= 0 then arg else 0)
    case _ => LG(0)
  }

  /** The operand of an alignment is a power of two minus one. */
  predicate IsMask(mask: nat) {
    mask in {0, 1, 3, 7, 15, 31, 63, 127, 255}
  }

  /** `x & mask` */
  function Masked(x: int, mask: nat): (r: nat)
    ensures r <= mask
  {
    x % (mask + 1)
  }

  // ------------------------------------------------------------------
  // Final offsets

  /** The program with the bytes that the second pass takes off each branch. */
  type Shrinks = seq<nat>

  /** The offset behind item `x` that starts at `off`. */
  function Advance(x: Item, shrink: nat, off: int): int {
    match x.act
    case Align(mask) => off + mask - Masked(off + mask, mask)
    case RelLG(_) => off + 4 - shrink
    case RelPC => off + 4 - shrink
    case _ => off + MaxSize(x)
  }

  ghost predicate SizesOk(prog: seq<Item>) {
    forall g {:trigger prog[g]} :: 0 <= g < |prog| ==> MaxSize(prog[g]) >= 0
  }

  ghost predicate ShrinksOk(prog: seq<Item>, shr: Shrinks) {
    && |shr| == |prog|
    && forall g {:trigger shr[g]} :: 0 <= g < |prog| ==> shr[g] <= 4
  }

  /** The final offset of item `g`. */
  function Final(prog: seq<Item>, shr: Shrinks, g: nat): int
    requires g <= |prog| == |shr|
  {
    if g == 0 then 0 else Advance(prog[g - 1], shr[g - 1], Final(prog, shr, g - 1))
  }

  /** The offset of item `g` if nothing is shrunk, and all alignments are the largest. */
  function Estimate(prog: seq<Item>, g: nat): int
    requires g <= |prog|
  {
    if g == 0 then 0 else Estimate(prog, g - 1) + MaxSize(prog[g - 1])
  }

  lemma AdvanceBounds(x: Item, shrink: nat, off: int)
    requires MaxSize(x) >= 0 && shrink <= 4
    ensures off <= Advance(x, shrink, off) <= off + MaxSize(x)
  {
  }

  /** An alignment ends at the next multiple. */
  lemma AlignRounds(x: Item, off: int)
    requires x.act.Align? && off >= 0
    ensures var a := Advance(x, 0, off); a % (x.act.mask + 1) == 0 && off <= a < off + x.act.mask + 1
  {
    var m := x.act.mask + 1;
    var t := off + x.act.mask;
    PowersOfTwo.DivBounds(t, m);
    assert t % m == t - (t / m) * m;
    PowersOfTwo.Multiple((t / m) * m, m, t / m);
  }

  /** Distances can only get shorter. */
  lemma {:induction false} Shorter(prog: seq<Item>, shr: Shrinks, g: nat, h: nat)
    requires SizesOk(prog) && ShrinksOk(prog, shr) && g <= h <= |prog|
    ensures 0 <= Final(prog, shr, h) - Final(prog, shr, g) <= Estimate(prog, h) - Estimate(prog, g)
  {
    if g < h {
      Shorter(prog, shr, g, h - 1);
      AdvanceBounds(prog[h - 1], shr[h - 1], Final(prog, shr, h - 1));
    }
  }

  lemma {:induction false} FinalPrefix(prog: seq<Item>, shr: Shrinks, shr': Shrinks, g: nat)
    requires g <= |prog| == |shr| == |shr'| && forall h :: 0 <= h < g ==> shr'[h] == shr[h]
    ensures Final(prog, shr', g) == Final(prog, shr, g)
  {
    if g > 0 {
      FinalPrefix(prog, shr, shr', g - 1);
    }
  }

  // ------------------------------------------------------------------
  // Which branches can be shrunk

  /** The opcode that the second pass remembers: the last plain byte of the put. */
  function OpBefore(list: seq<Action>, start: nat, p: nat): nat
    requires p <= |list|
    decreases p
  {
    if p <= start then 0
    else if list[p - 1].Byte? || list[p - 1].Esc? then list[p - 1].b
    else OpBefore(list, start, p - 1)
  }

  /** jmp rel32 loses three bytes, jcc rel32 loses four. */
  function Shrinkable(op: nat): nat {
    if op == 0xe9 then 3 else if op / 16 == 8 then 4 else 0
  }

  predicate IsByte(a: Action, b: nat) {
    (a.Byte? || a.Esc?) && a.b == b
  }

  /** A branch that can be shrunk directly follows its opcode, as the preprocessor generates it. */
  ghost predicate BranchOk(list: seq<Action>, start: nat, p: nat)
    requires p < |list|
  {
    list[p].Rel?() ==>
      match Shrinkable(OpBefore(list, start, p))
      case 3 => p > start && IsByte(list[p - 1], 0xe9)
      case 4 => p > start + 1 && (list[p - 1].Byte? || list[p - 1].Esc?) && list[p - 1].b / 16 == 8 && IsByte(list[p - 2], 0x0f)
      case _ => true
  }

  /** The operands of an action are in their ranges. */
  predicate OperandsOk(a: Action) {
    match a
    case Byte(b) => b < 256
    case Esc(b) => b < 256
    case Space(fill) => fill < 256
    case Align(mask) => IsMask(mask)
    case RelLG(n) => n < 256
    case _ => true
  }

  /** The argument of an action is in its range, as DASM_CHECKS tests. */
  predicate ArgOk(a: Action, n: int) {
    match a
    case ImmS => -128 <= n < 128
    case ImmB => 0 <= n < 0x100
    case ImmW => 0 <= n < 0x1_0000
    case Space(_) => n >= 0
    case _ => true
  }

  /** The actions from `start` up to the first SECTION or STOP make one put; `p` is one of them. */
  ghost predicate InPut(list: seq<Action>, start: nat, p: nat) {
    start <= p < |list| && forall q :: start <= q < p ==> !list[q].Last?()
  }

  /** A well-formed put. */
  ghost predicate PutOk(list: seq<Action>, start: nat) {
    && (exists p: nat :: InPut(list, start, p) && list[p].Last?())
    && forall p: nat {:trigger InPut(list, start, p)} :: InPut(list, start, p) ==>
         OperandsOk(list[p]) && BranchOk(list, start, p) && !list[p].Begin?
  }
}
