/**
 The program that DynASM (dynasm/dasm_x86.h) has collected in its sections, as
 one list of items, and what the second and the third pass make of it.
 */
module DasmLink {
  import opened DasmItems
  import opened DasmLabels
  import opened DasmLayout

  // ------------------------------------------------------------------
  // All sections in order

  /** Where section `s` starts in the program. */
  function Start(items: seq<seq<Item>>, s: nat): nat
    requires s <= |items|
  {
    if s == 0 then 0 else Start(items, s - 1) + |items[s - 1]|
  }

  function Flat(items: seq<seq<Item>>, s: nat): (r: seq<Item>)
    requires s <= |items|
    ensures |r| == Start(items, s)
  {
    if s == 0 then [] else Flat(items, s - 1) + items[s - 1]
  }

  function Program(items: seq<seq<Item>>): seq<Item> {
    Flat(items, |items|)
  }

  lemma {:induction false} FlatAt(items: seq<seq<Item>>, n: nat, s: nat, k: nat)
    requires s < n <= |items| && k < |items[s]|
    ensures Start(items, s) + k < Start(items, s + 1) <= Start(items, n) && Flat(items, n)[Start(items, s) + k] == items[s][k]
  {
    if s < n - 1 {
      FlatAt(items, n - 1, s, k);
    }
  }

  lemma {:induction false} StartGrows(items: seq<seq<Item>>, s: nat, t: nat)
    requires s <= t <= |items|
    ensures Start(items, s) <= Start(items, t) && Flat(items, s) <= Flat(items, t)
  {
    if s < t {
      StartGrows(items, s, t - 1);
      assert Flat(items, t) == Flat(items, t - 1) + items[t - 1];
    }
  }

  /** The sum of the estimated sizes of sections `s` up to `t`. */
  function SumOfs(ofs: seq<int>, s: nat, t: nat): int
    requires s <= t <= |ofs|
  {
    if s == t then 0 else SumOfs(ofs, s, t - 1) + ofs[t - 1]
  }

  lemma {:induction false} SumSplit(ofs: seq<int>, s: nat, t: nat)
    requires s <= t <= |ofs|
    ensures SumOfs(ofs, 0, t) == SumOfs(ofs, 0, s) + SumOfs(ofs, s, t)
  {
    if s < t {
      SumSplit(ofs, s, t - 1);
    }
  }

  ghost predicate AllLaid(list: seq<Action>, a: Asm, ofs: seq<int>) {
    && |a.items| == |a.buf| == |ofs|
    && forall s: nat {:trigger a.items[s]} :: s < |a.items| ==>
         Layout(list, a, s) && EndsAt(a, s, ofs[s]) && Closed(a, s) && |a.buf[s]| < SECTION_SPAN
  }

  /** What the first pass wrote down as the offset of an item is its estimate in its section. */
  lemma {:induction false} EstimateIs(list: seq<Action>, a: Asm, ofs: seq<int>, s: nat, k: nat)
    requires AllLaid(list, a, ofs) && s < |a.items| && k < |a.items[s]|
    ensures Start(a.items, s) + k < |Program(a.items)| && Program(a.items)[Start(a.items, s) + k] == a.items[s][k]
    ensures Estimate(Program(a.items), Start(a.items, s) + k) == SumOfs(ofs, 0, s) + a.items[s][k].raw
    decreases s, k + 1
  {
    hide ItemAt;
    FlatAt(a.items, |a.items|, s, k);
    if k > 0 {
      EstimateIs(list, a, ofs, s, k - 1);
      assert StepAt(a, s, k - 1);
    } else {
      EstimateSection(list, a, ofs, s);
      assert Layout(list, a, s);
    }
  }

  lemma AllCounted(list: seq<Action>, a: Asm, ofs: seq<int>)
    requires AllLaid(list, a, ofs)
    ensures |a.items| == |a.buf| == |ofs|
  {
    hide Layout, EndsAt, Closed;
  }

  lemma {:induction false} EstimateSection(list: seq<Action>, a: Asm, ofs: seq<int>, s: nat)
    requires AllLaid(list, a, ofs) && s <= |a.items|
    ensures Start(a.items, s) <= |Program(a.items)|
    ensures Estimate(Program(a.items), Start(a.items, s)) == SumOfs(ofs, 0, s)
    decreases s, 0
  {
    hide Layout, AllLaid, Closed;
    AllCounted(list, a, ofs);
    StartGrows(a.items, s, |a.items|);
    if s > 0 {
      var t := s - 1;
      LaidOut(list, a, ofs, t);
      if a.items[t] == [] {
        EstimateSection(list, a, ofs, t);
      } else {
        EstimateIs(list, a, ofs, t, |a.items[t]| - 1);
      }
    }
  }

  // ------------------------------------------------------------------
  // Where references lead

  /** The place of event `i` in the program. */
  function PlaceOf(a: Asm, i: nat): nat {
    if i < |a.events| && a.events[i].s < |a.items| then Start(a.items, a.events[i].s) + a.events[i].k else 0
  }

  /** Every reference has a definition. */
  ghost predicate AllBound(a: Asm) {
    forall i: nat {:trigger Binds(a.events, i)} :: i < |a.events| && !a.events[i].def ==> Binds(a.events, i).Some?
  }

  /** No label has a chain of references left: then every reference is bound. */
  lemma NothingPending(a: Asm)
    requires LabelsOk(a) && forall slot :: HasSlot(a, slot) ==> Val(a, slot) <= 0
    ensures AllBound(a)
  {
    hide LabelsOk, EventOk, PosOf, Word, Binds, StateOf, Val, HasSlot, ChainOf;
    forall i: nat | i < |a.events| && !a.events[i].def ensures Binds(a.events, i).Some? {
      EventFacts(a, i);
      var slot := a.events[i].slot;
      EventHasSlot(a, i);
      SlotValue(a, slot);
      SlotFacts(a, slot);
      assert Binds(a.events, i).None? ==> Open(a, slot, i);
    }
  }

  lemma EventHasSlot(a: Asm, i: nat)
    requires i < |a.events| && EventOk(a, i)
    ensures HasSlot(a, a.events[i].slot)
  {
  }

  /** The label that the reference at place `g` leads to, as a place in the program. */
  function TargetOf(a: Asm, x: Item): nat {
    if x.ev < |a.events| && Binds(a.events, x.ev).Some? then PlaceOf(a, Binds(a.events, x.ev).j) else 0
  }

  /** A reference holds the position of its label, which is an item of the program. */
  lemma ReferenceLeads(list: seq<Action>, a: Asm, ofs: seq<int>, s: nat, k: nat)
    requires AllLaid(list, a, ofs) && LabelsOk(a) && AllBound(a) && s < |a.items| && k < |a.items[s]| && a.items[s][k].act.Rel?()
    ensures var x := a.items[s][k]; x.ev < |a.events| && Binds(a.events, x.ev).Some? && Binds(a.events, x.ev).j < |a.events|
    ensures var x := a.items[s][k]; var e := a.events[Binds(a.events, x.ev).j];
            && e.s < |a.items| && e.k < |a.items[e.s]| && a.items[e.s][e.k].act.Label?() && e.def && e.slot == SlotOf(x.act, x.arg)
            && Word(a.buf, Pos(s, x.idx)) == Pos(e.s, a.items[e.s][e.k].idx)
            && x.idx < SECTION_SPAN && a.items[e.s][e.k].idx < SECTION_SPAN
            && TargetOf(a, x) == Start(a.items, e.s) + e.k < |Program(a.items)|
            && Program(a.items)[TargetOf(a, x)] == a.items[e.s][e.k]
            && TargetOf(a, x) != Start(a.items, s) + k
  {
    hide AllLaid, Binds;
    var x := a.items[s][k];
    ItemFacts(a, s, k);
    EventFacts(a, x.ev);
    BindsInRange(a.events, x.ev);
    var j := Binds(a.events, x.ev).j;
    EventFacts(a, j);
    FlatAt(a.items, |a.items|, a.events[j].s, a.events[j].k);
    FlatAt(a.items, |a.items|, s, k);
  }

  lemma PosOrder(s: nat, i: nat, t: nat, j: nat)
    requires i < SECTION_SPAN && j < SECTION_SPAN
    ensures s < t ==> Pos(s, i) < Pos(t, j)
    ensures s == t ==> (Pos(s, i) < Pos(t, j) <==> i < j)
  {
  }

  /** Positions are ordered like places. */
  lemma PositionOrder(list: seq<Action>, a: Asm, ofs: seq<int>, s: nat, k: nat, t: nat, m: nat)
    requires AllLaid(list, a, ofs) && s < |a.items| && k < |a.items[s]| && t < |a.items| && m < |a.items[t]|
    requires Slots(a.items[s][k].act) > 0 && Slots(a.items[t][m].act) > 0
    requires a.items[s][k].idx < SECTION_SPAN && a.items[t][m].idx < SECTION_SPAN
    ensures Start(a.items, s) + k < Start(a.items, t) + m <==> Pos(s, a.items[s][k].idx) < Pos(t, a.items[t][m].idx)
    ensures s < t ==> Start(a.items, s) + k < Start(a.items, t) + m
  {
    hide Layout, EndsAt, Closed, Flat, Start, Pos;
    FlatAt(a.items, |a.items|, s, k);
    FlatAt(a.items, |a.items|, t, m);
    PosOrder(s, a.items[s][k].idx, t, a.items[t][m].idx);
    PosOrder(t, a.items[t][m].idx, s, a.items[s][k].idx);
    LaidOut(list, a, ofs, s);
    if s < t {
      StartGrows(a.items, s + 1, t);
    } else if t < s {
      StartGrows(a.items, t + 1, s);
    } else if k < m {
      IndexGrows(list, a, s, k, m);
    } else if m < k {
      IndexGrows(list, a, s, m, k);
    }
  }

  lemma LaidOut(list: seq<Action>, a: Asm, ofs: seq<int>, s: nat)
    requires AllLaid(list, a, ofs) && s < |a.items|
    ensures Layout(list, a, s) && EndsAt(a, s, ofs[s]) && Closed(a, s) && |a.items| == |a.buf| && |a.buf[s]| < SECTION_SPAN
  {
    hide Layout, EndsAt, Closed;
    assert a.items[s] == a.items[s];
  }

  // ------------------------------------------------------------------
  // Shrinking is safe

  /** The displacement that the branch at place `g` gets. */
  function Displacement(prog: seq<Item>, shr: Shrinks, g: nat, t: nat): int
    requires g < |prog| == |shr| && t <= |prog|
  {
    Final(prog, shr, t) - Final(prog, shr, g + 1)
  }

  ghost predicate ByteSized(d: int) {
    -128 <= d < 128
  }

  /** A forward branch that is short by the estimates is short in the end. */
  lemma ForwardShort(prog: seq<Item>, shr: Shrinks, g: nat, t: nat, lofs: int)
    requires SizesOk(prog) && ShrinksOk(prog, shr) && g < t < |prog| && lofs == Estimate(prog, t) - Estimate(prog, g + 1) && lofs <= 127
    ensures ByteSized(Displacement(prog, shr, g, t)) && Displacement(prog, shr, g, t) >= 0
  {
    Shorter(prog, shr, g + 1, t);
  }

  /** A backward branch that is short by the final offsets so far is short once it is shrunk. */
  lemma BackwardShort(prog: seq<Item>, shr: Shrinks, g: nat, t: nat, lofs: int)
    requires SizesOk(prog) && ShrinksOk(prog, shr) && t < g < |prog| && prog[g].act.Rel?()
    requires lofs == Final(prog, shr, t) - Final(prog, shr, g) - 4 && lofs + shr[g] >= -128
    ensures ByteSized(Displacement(prog, shr, g, t)) && Displacement(prog, shr, g, t) <= 0
  {
    Shorter(prog, shr, t, g);
    AdvanceBounds(prog[g], shr[g], Final(prog, shr, g));
  }

  // ------------------------------------------------------------------
  // The second pass

  /** By what a shrunk branch is known to be short, whatever is shrunk behind it. */
  ghost predicate ShortAt(prog: seq<Item>, shr: Shrinks, g: nat, t: nat)
    requires g < |prog| == |shr| && t < |prog|
  {
    if t > g then Estimate(prog, t) - Estimate(prog, g + 1) <= 127
    else Final(prog, shr, t) - Final(prog, shr, g) - 4 + shr[g] >= -128
  }

  /** The second pass has seen item `k` of section `s`. */
  ghost predicate LinkedAt(list: seq<Action>, a: Asm, buf: seq<seq<int>>, shr: Shrinks, s: nat, k: nat)
    requires s < |a.items| && k < |a.items[s]| && |shr| == |Program(a.items)| && Start(a.items, s) + k < |shr|
  {
    var x, g, prog := a.items[s][k], Start(a.items, s) + k, Program(a.items);
    var pos := Pos(s, x.idx);
    && (x.act.Label?() ==> Word(buf, pos) == Final(prog, shr, g))
    && (Slots(x.act) > 0 && !x.act.Label?() ==> Word(buf, pos) == Word(a.buf, pos))
    && (x.act.Rel?() ==> Word(buf, pos + 1) == shr[g] && BranchLinked(list, a, shr, x, g))
  }

  /** Branch `x` is shrunk by what its opcode allows, and only if it is short. */
  ghost predicate BranchLinked(list: seq<Action>, a: Asm, shr: Shrinks, x: Item, g: nat)
    requires |shr| == |Program(a.items)| && g < |shr|
  {
    && x.start <= x.p <= |list|
    && (shr[g] > 0 ==> shr[g] == Shrinkable(OpBefore(list, x.start, x.p))
                       && TargetOf(a, x) < |shr| && ShortAt(Program(a.items), shr, g, TargetOf(a, x)))
  }

  ghost predicate SameShape(buf: seq<seq<int>>, buf': seq<seq<int>>) {
    |buf'| == |buf| && forall s :: 0 <= s < |buf| ==> |buf'[s]| == |buf[s]|
  }

  /** The first position of item `k`, or the end of the section. */
  function PosAt(a: Asm, s: nat, k: nat): nat
    requires s < |a.items| && s < |a.buf|
  {
    Pos(s, if k < |a.items[s]| then a.items[s][k].idx else |a.buf[s]|)
  }

  /** The estimated offset before item `k`, or the size of the section. */
  function RawAt(a: Asm, ofs: seq<int>, s: nat, k: nat): int
    requires s < |a.items| && s < |ofs|
  {
    if k < |a.items[s]| then a.items[s][k].raw else ofs[s]
  }

  ghost predicate SeenAt(list: seq<Action>, a: Asm, buf: seq<seq<int>>, shr: Shrinks, g: nat, t: nat, m: nat)
    requires |shr| == |Program(a.items)|
  {
    t < |a.items| && m < |a.items[t]| && Start(a.items, t) + m < g && g <= |shr| ==> LinkedAt(list, a, buf, shr, t, m)
  }

  /** The second pass has come to item `k` of section `s`, and moves all that follows by `adj`. */
  ghost predicate Linking(list: seq<Action>, a: Asm, ofs: seq<int>, buf: seq<seq<int>>, shr: Shrinks, s: nat, k: nat, adj: int) {
    && AllLaid(list, a, ofs) && s < |a.items| && k <= |a.items[s]| && SameShape(a.buf, buf)
    && |shr| == |Program(a.items)| && ShrinksOk(Program(a.items), shr) && Start(a.items, s) + k <= |shr|
    && (forall t: nat, m: nat {:trigger SeenAt(list, a, buf, shr, Start(a.items, s) + k, t, m)} ::
          SeenAt(list, a, buf, shr, Start(a.items, s) + k, t, m))
    && (forall q: nat {:trigger Word(buf, q)} :: q >= PosAt(a, s, k) ==> Word(buf, q) == Word(a.buf, q))
    && Final(Program(a.items), shr, Start(a.items, s) + k) == RawAt(a, ofs, s, k) + adj
  }

  /** The next item of the same section, or its end. */
  lemma NextAt(list: seq<Action>, a: Asm, ofs: seq<int>, s: nat, k: nat)
    requires AllLaid(list, a, ofs) && s < |a.items| && k < |a.items[s]|
    ensures s < |a.buf| && s < |ofs| && ItemAt(list, a, s, k) && a.items[s][k].idx + Slots(a.items[s][k].act) <= |a.buf[s]| < SECTION_SPAN
    ensures PosAt(a, s, k + 1) == PosAt(a, s, k) + Slots(a.items[s][k].act) && PosAt(a, s, k) == Pos(s, a.items[s][k].idx)
    ensures RawAt(a, ofs, s, k + 1) == RawAt(a, ofs, s, k) + MaxSize(a.items[s][k])
    ensures Start(a.items, s) + k < |Program(a.items)| && Program(a.items)[Start(a.items, s) + k] == a.items[s][k]
  {
    hide ItemAt, AllLaid, Slots, MaxSize;
    LaidOut(list, a, ofs, s);
    AllCounted(list, a, ofs);
    FlatAt(a.items, |a.items|, s, k);
    assert ItemAt(list, a, s, k) && StepAt(a, s, k);
    ItemFits(list, a, s, k);
  }

  lemma ItemFits(list: seq<Action>, a: Asm, s: nat, k: nat)
    requires s < |a.items| && s < |a.buf| && k < |a.items[s]| && ItemAt(list, a, s, k)
    ensures a.items[s][k].idx + Slots(a.items[s][k].act) <= |a.buf[s]| && MaxSize(a.items[s][k]) >= 0
  {
  }

  /** The words of an item that comes before are at other positions. */
  lemma WordsApart(list: seq<Action>, a: Asm, ofs: seq<int>, s: nat, k: nat, t: nat, m: nat)
    requires AllLaid(list, a, ofs) && s < |a.items| && k < |a.items[s]| && t < |a.items| && m < |a.items[t]|
    requires Start(a.items, t) + m < Start(a.items, s) + k
    ensures Pos(t, a.items[t][m].idx) + Slots(a.items[t][m].act) <= Pos(s, a.items[s][k].idx)
  {
    hide ItemAt, AllLaid, Layout, EndsAt, Closed, Flat, Slots;
    NextAt(list, a, ofs, t, m);
    LaidOut(list, a, ofs, s);
    FlatAt(a.items, |a.items|, s, k);
    FlatAt(a.items, |a.items|, t, m);
    if s < t {
      StartGrows(a.items, s + 1, t);
    } else if s == t {
      IndexGrows(list, a, s, m, k);
    }
  }

  /** One step of the second pass. */
  lemma LinkStep(list: seq<Action>, a: Asm, ofs: seq<int>, buf: seq<seq<int>>, shr: Shrinks, s: nat, k: nat, adj: int,
                 buf': seq<seq<int>>, v: nat, adj': int)
    requires Linking(list, a, ofs, buf, shr, s, k, adj) && k < |a.items[s]| && v <= 4 && SameShape(buf, buf')
    requires forall q: nat {:trigger Word(buf', q)} ::
               q < PosAt(a, s, k) || q >= PosAt(a, s, k) + Slots(a.items[s][k].act) ==> Word(buf', q) == Word(buf, q)
    requires Start(a.items, s) + k < |Program(a.items)|
    requires var shr' := shr[Start(a.items, s) + k := v];
             LinkedAt(list, a, buf', shr', s, k)
             && Advance(a.items[s][k], v, Final(Program(a.items), shr, Start(a.items, s) + k)) == RawAt(a, ofs, s, k + 1) + adj'
    ensures Linking(list, a, ofs, buf', shr[Start(a.items, s) + k := v], s, k + 1, adj')
  {
    hide AllLaid, LinkedAt, Advance, Word, Slots;
    var g, prog := Start(a.items, s) + k, Program(a.items);
    var shr' := shr[g := v];
    NextAt(list, a, ofs, s, k);
    FinalPrefix(prog, shr, shr', g);
    var g1 := g + 1;
    forall t: nat, m: nat {:trigger SeenAt(list, a, buf', shr', g1, t, m)} ensures SeenAt(list, a, buf', shr', g1, t, m) {
      assert SeenAt(list, a, buf, shr, g, t, m);
      if t < |a.items| && m < |a.items[t]| && Start(a.items, t) + m < g {
        LinkedStays(list, a, ofs, buf, shr, s, k, buf', v, t, m);
      } else if t < |a.items| && m < |a.items[t]| && Start(a.items, t) + m == g {
        OnePlace(a.items, s, k, t, m);
      }
    }
    forall q: nat | q >= PosAt(a, s, k + 1) ensures Word(buf', q) == Word(a.buf, q) {
      assert Word(buf, q) == Word(a.buf, q);
    }
  }

  lemma OnePlace(items: seq<seq<Item>>, s: nat, k: nat, t: nat, m: nat)
    requires s < |items| && t < |items| && k < |items[s]| && m < |items[t]| && Start(items, s) + k == Start(items, t) + m
    ensures s == t && k == m
  {
    FlatAt(items, |items|, s, k);
    FlatAt(items, |items|, t, m);
    if s < t {
      StartGrows(items, s + 1, t);
    } else if t < s {
      StartGrows(items, t + 1, s);
    }
  }

  /** Shrinking a later branch does not change why this one is short. */
  lemma BranchStays(list: seq<Action>, a: Asm, shr: Shrinks, x: Item, h: nat, g: nat, v: nat)
    requires |shr| == |Program(a.items)| && h < g < |shr| && BranchLinked(list, a, shr, x, h)
    ensures BranchLinked(list, a, shr[g := v], x, h)
  {
    hide Estimate, Shrinkable, OpBefore, Final, Flat, TargetOf;
    var shr' := shr[g := v];
    FinalPrefix(Program(a.items), shr, shr', h);
    if shr[h] > 0 && TargetOf(a, x) <= h {
      FinalPrefix(Program(a.items), shr, shr', TargetOf(a, x));
    }
  }

  /** What the second pass has done for an item stays, as it goes on. */
  lemma LinkedStays(list: seq<Action>, a: Asm, ofs: seq<int>, buf: seq<seq<int>>, shr: Shrinks, s: nat, k: nat,
                    buf': seq<seq<int>>, v: nat, t: nat, m: nat)
    requires AllLaid(list, a, ofs) && s < |a.items| && k < |a.items[s]| && t < |a.items| && m < |a.items[t]|
    requires |shr| == |Program(a.items)| && Start(a.items, t) + m < Start(a.items, s) + k < |shr|
    requires forall q: nat {:trigger Word(buf', q)} :: q < PosAt(a, s, k) ==> Word(buf', q) == Word(buf, q)
    requires s < |a.buf| && LinkedAt(list, a, buf, shr, t, m)
    ensures LinkedAt(list, a, buf', shr[Start(a.items, s) + k := v], t, m)
  {
    hide AllLaid, Word, BranchLinked, Final, Flat, Start, Pos;
    var g, h := Start(a.items, s) + k, Start(a.items, t) + m;
    var x := a.items[t][m];
    WordsApart(list, a, ofs, s, k, t, m);
    FinalPrefix(Program(a.items), shr, shr[g := v], h);
    if x.act.Rel?() {
      BranchStays(list, a, shr, x, h, g, v);
    }
  }

  lemma LinkingStarts(list: seq<Action>, a: Asm, ofs: seq<int>)
    requires AllLaid(list, a, ofs) && |a.items| > 0
    ensures Linking(list, a, ofs, a.buf, seq(|Program(a.items)|, _ => 0), 0, 0, 0)
  {
    hide LinkedAt, Word, ItemAt;
    LaidOut(list, a, ofs, 0);
    StartGrows(a.items, 0, |a.items|);
  }

  /** The next section starts where this one ends. */
  lemma NextSection(list: seq<Action>, a: Asm, ofs: seq<int>, buf: seq<seq<int>>, shr: Shrinks, s: nat, adj: int)
    requires s < |a.items| && Linking(list, a, ofs, buf, shr, s, |a.items[s]|, adj) && s + 1 < |a.items|
    ensures s < |ofs| && Linking(list, a, ofs, buf, shr, s + 1, 0, adj + ofs[s])
  {
    hide LinkedAt, Word, ItemAt;
    LaidOut(list, a, ofs, s);
    LaidOut(list, a, ofs, s + 1);
    StartGrows(a.items, s + 1, |a.items|);
    var g := Start(a.items, s + 1);
    assert g == Start(a.items, s) + |a.items[s]|;
    forall q: nat | q >= PosAt(a, s + 1, 0) ensures Word(buf, q) == Word(a.buf, q) {
      assert q >= PosAt(a, s, |a.items[s]|);
    }
  }

  /** What the second pass computes to decide about a branch is the distance to its label. */
  lemma BranchDistance(list: seq<Action>, a: Asm, ofs: seq<int>, buf: seq<seq<int>>, shr: Shrinks, s: nat, k: nat, adj: int)
    returns (t: nat, m: nat)
    requires Linking(list, a, ofs, buf, shr, s, k, adj) && LabelsOk(a) && AllBound(a)
    requires k < |a.items[s]| && a.items[s][k].act.Rel?()
    ensures t < |a.items| && m < |a.items[t]| && s < |ofs| && t <= |ofs|
    ensures var x, lpos := a.items[s][k], Pos(t, a.items[t][m].idx);
            && Word(buf, Pos(s, x.idx)) == lpos > 0 && a.items[t][m].idx < SECTION_SPAN
            && Start(a.items, s) + k < |Program(a.items)| == |shr| && Start(a.items, t) + m < |Program(a.items)|
            && TargetOf(a, x) == Start(a.items, t) + m && lpos / SECTION_SPAN == t
            && Word(buf, Pos(s, x.idx) + 1) == x.raw + 4 && lpos != Pos(s, x.idx)
            && (if lpos > Pos(s, x.idx) then
                  TargetOf(a, x) > Start(a.items, s) + k && s <= t
                  && Word(buf, lpos) + SumOfs(ofs, s, t) - (x.raw + 4)
                     == Estimate(Program(a.items), TargetOf(a, x)) - Estimate(Program(a.items), Start(a.items, s) + k + 1)
                else
                  TargetOf(a, x) < Start(a.items, s) + k
                  && Word(buf, lpos) - adj - (x.raw + 4)
                     == Final(Program(a.items), shr, TargetOf(a, x)) - Final(Program(a.items), shr, Start(a.items, s) + k) - 4)
  {
    hide AllLaid, Binds, LabelsOk, AllBound, Flat, Start, Word, LinkedAt, Pos;
    var x := a.items[s][k];
    ReferenceLeads(list, a, ofs, s, k);
    var e := a.events[Binds(a.events, x.ev).j];
    t, m := e.s, e.k;
    NextAt(list, a, ofs, s, k);
    NextAt(list, a, ofs, t, m);
    PositionOrder(list, a, ofs, s, k, t, m);
    PositionOrder(list, a, ofs, t, m, s, k);
    PosParts(t, a.items[t][m].idx);
    WordIs(a, s, x.idx);
    WordIs(a, s, x.idx + 1);
    WordIs(a, t, a.items[t][m].idx);
    EventFacts(a, Binds(a.events, x.ev).j);
    PosPositiveOf(a, Binds(a.events, x.ev).j);
    BranchWords(list, a, ofs, s, k, t, m);
    assert Word(buf, Pos(s, x.idx) + 1) == Word(a.buf, Pos(s, x.idx) + 1);
    if TargetOf(a, x) > Start(a.items, s) + k {
      EstimateIs(list, a, ofs, s, k);
      EstimateIs(list, a, ofs, t, m);
      SumSplit(ofs, s, t);
      assert Word(buf, Pos(t, a.items[t][m].idx)) == Word(a.buf, Pos(t, a.items[t][m].idx));
    } else {
      assert SeenAt(list, a, buf, shr, Start(a.items, s) + k, t, m);
      LabelIsFinal(list, a, buf, shr, t, m);
    }
  }

  lemma LabelIsFinal(list: seq<Action>, a: Asm, buf: seq<seq<int>>, shr: Shrinks, t: nat, m: nat)
    requires t < |a.items| && m < |a.items[t]| && |shr| == |Program(a.items)| && Start(a.items, t) + m < |shr|
    requires LinkedAt(list, a, buf, shr, t, m) && a.items[t][m].act.Label?()
    ensures Word(buf, Pos(t, a.items[t][m].idx)) == Final(Program(a.items), shr, Start(a.items, t) + m)
  {
  }

  lemma BranchWords(list: seq<Action>, a: Asm, ofs: seq<int>, s: nat, k: nat, t: nat, m: nat)
    requires AllLaid(list, a, ofs) && s < |a.items| && k < |a.items[s]| && t < |a.items| && m < |a.items[t]|
    requires a.items[s][k].act.Rel?() && a.items[t][m].act.Label?()
    ensures s < |a.buf| && t < |a.buf| && a.items[s][k].idx + 1 < |a.buf[s]| && a.items[t][m].idx < |a.buf[t]|
    ensures a.buf[s][a.items[s][k].idx + 1] == a.items[s][k].raw + 4 && a.buf[t][a.items[t][m].idx] == a.items[t][m].raw
    ensures Slots(a.items[s][k].act) == 2 && Slots(a.items[t][m].act) == 1 && MaxSize(a.items[s][k]) == 4
    ensures s <= |ofs| && t <= |ofs|
  {
    hide Layout;
    NextAt(list, a, ofs, s, k);
    NextAt(list, a, ofs, t, m);
  }

  lemma PosPositiveOf(a: Asm, i: nat)
    requires i < |a.events| && EventOk(a, i)
    ensures PosOf(a, i) > 0 && PosOf(a, i) == Pos(a.events[i].s, a.items[a.events[i].s][a.events[i].k].idx)
  {
  }

  lemma WordIs(a: Asm, s: nat, i: nat)
    requires s < |a.buf| && i < |a.buf[s]| < SECTION_SPAN
    ensures Word(a.buf, Pos(s, i)) == a.buf[s][i] && Pos(s, i) + 1 == Pos(s, i + 1)
  {
    PosParts(s, i);
  }

  /** The test of dasm_link. */
  lemma ShortFrom(prog: seq<Item>, shr: Shrinks, g: nat, t: nat, v: nat, lofs: int)
    requires g < |prog| == |shr| && t < |prog| && t != g && -128 - (v as int) <= lofs <= 127
    requires t > g ==> lofs == Estimate(prog, t) - Estimate(prog, g + 1)
    requires t < g ==> lofs == Final(prog, shr, t) - Final(prog, shr, g) - 4
    ensures ShortAt(prog, shr[g := v], g, t)
  {
    if t < g {
      FinalPrefix(prog, shr, shr[g := v], t);
      FinalPrefix(prog, shr, shr[g := v], g);
    }
  }

  /** The step over a branch, with what was tested to shrink it. */
  lemma BranchStep(list: seq<Action>, a: Asm, ofs: seq<int>, buf: seq<seq<int>>, shr: Shrinks, s: nat, k: nat, adj: int, v: nat, t: nat)
    requires Linking(list, a, ofs, buf, shr, s, k, adj) && k < |a.items[s]| && a.items[s][k].act.Rel?() && s < |ofs|
    requires Start(a.items, s) + k < |Program(a.items)| && t == TargetOf(a, a.items[s][k]) < |Program(a.items)|
    requires a.items[s][k].start <= a.items[s][k].p <= |list|
    requires v > 0 ==> v == Shrinkable(OpBefore(list, a.items[s][k].start, a.items[s][k].p))
                       && ShortAt(Program(a.items), shr[Start(a.items, s) + k := v], Start(a.items, s) + k, t)
    ensures v <= 4 && Linking(list, a, ofs, SetWord(buf, Pos(s, a.items[s][k].idx) + 1, v), shr[Start(a.items, s) + k := v], s, k + 1, adj - v)
  {
    hide AllLaid, Linking, ShortAt, OpBefore, Estimate, Final, TargetOf, Flat, Start, ItemAt, Word, Pos;
    LinkingFacts(list, a, ofs, buf, shr, s, k, adj);
    var x, buf', shr' := a.items[s][k], SetWord(buf, Pos(s, a.items[s][k].idx) + 1, v), shr[Start(a.items, s) + k := v];
    NextAt(list, a, ofs, s, k);
    WordIs(a, s, x.idx);
    WordIs(a, s, x.idx + 1);
    PosParts(s, x.idx + 1);
    forall q: nat ensures Word(buf', q) == if q == Pos(s, x.idx) + 1 then v else Word(buf, q) {
      WordSet(buf, Pos(s, x.idx) + 1, v, q);
    }
    assert Word(buf, Pos(s, x.idx)) == Word(a.buf, Pos(s, x.idx));
    LinkStep(list, a, ofs, buf, shr, s, k, adj, buf', v, adj - v);
  }

  lemma LinkingFacts(list: seq<Action>, a: Asm, ofs: seq<int>, buf: seq<seq<int>>, shr: Shrinks, s: nat, k: nat, adj: int)
    requires Linking(list, a, ofs, buf, shr, s, k, adj)
    ensures AllLaid(list, a, ofs) && s < |a.items| && k <= |a.items[s]| && SameShape(a.buf, buf) && s < |a.buf| && s < |ofs|
    ensures |shr| == |Program(a.items)| && Start(a.items, s) + k <= |shr|
    ensures forall q: nat {:trigger Word(buf, q)} :: q >= PosAt(a, s, k) ==> Word(buf, q) == Word(a.buf, q)
    ensures Final(Program(a.items), shr, Start(a.items, s) + k) == RawAt(a, ofs, s, k) + adj
    ensures ShrinksOk(Program(a.items), shr)
  {
    hide Layout, EndsAt, Closed, LinkedAt, Word, Final;
  }

  lemma LabelStep(list: seq<Action>, a: Asm, ofs: seq<int>, buf: seq<seq<int>>, shr: Shrinks, s: nat, k: nat, adj: int)
    requires Linking(list, a, ofs, buf, shr, s, k, adj) && k < |a.items[s]| && a.items[s][k].act.Label?()
    ensures var pos := Pos(s, a.items[s][k].idx);
            Linking(list, a, ofs, SetWord(buf, pos, Word(buf, pos) + adj), shr, s, k + 1, adj)
  {
    hide AllLaid, Linking, Estimate, Final, Flat, Start, Word, Pos;
    LinkingFacts(list, a, ofs, buf, shr, s, k, adj);
    var x, pos := a.items[s][k], Pos(s, a.items[s][k].idx);
    var buf' := SetWord(buf, pos, Word(buf, pos) + adj);
    NextAt(list, a, ofs, s, k);
    WordIs(a, s, x.idx);
    PosParts(s, x.idx);
    forall q: nat ensures Word(buf', q) == if q == pos then Word(buf, pos) + adj else Word(buf, q) {
      WordSet(buf, pos, Word(buf, pos) + adj, q);
    }
    var g := Start(a.items, s) + k;
    assert Word(buf, pos) == Word(a.buf, pos);
    ShrinkOfOther(list, a, ofs, buf, shr, s, k, adj);
    assert shr[g := shr[g]] == shr;
    LinkStep(list, a, ofs, buf, shr, s, k, adj, buf', shr[g], adj);
  }

  lemma ShrinkOfOther(list: seq<Action>, a: Asm, ofs: seq<int>, buf: seq<seq<int>>, shr: Shrinks, s: nat, k: nat, adj: int)
    requires Linking(list, a, ofs, buf, shr, s, k, adj) && k < |a.items[s]| && Start(a.items, s) + k < |shr|
    ensures shr[Start(a.items, s) + k] <= 4
  {
    hide AllLaid, Word, Final, LinkedAt;
  }

  lemma OtherStep(list: seq<Action>, a: Asm, ofs: seq<int>, buf: seq<seq<int>>, shr: Shrinks, s: nat, k: nat, adj: int, adj': int)
    requires Linking(list, a, ofs, buf, shr, s, k, adj) && k < |a.items[s]| && !a.items[s][k].act.Rel?() && !a.items[s][k].act.Label?()
    requires Start(a.items, s) + k < |Program(a.items)| && s < |ofs|
    requires var x := a.items[s][k];
             adj' == if x.act.Align? then adj - Masked(x.raw + x.act.mask + adj, x.act.mask) else adj
    ensures Linking(list, a, ofs, buf, shr, s, k + 1, adj')
  {
    hide AllLaid, Linking, Estimate, Final, Flat, Start, Word, Pos;
    LinkingFacts(list, a, ofs, buf, shr, s, k, adj);
    var x, g := a.items[s][k], Start(a.items, s) + k;
    NextAt(list, a, ofs, s, k);
    assert Word(buf, Pos(s, x.idx)) == Word(a.buf, Pos(s, x.idx));
    ShrinkOfOther(list, a, ofs, buf, shr, s, k, adj);
    assert shr[g := shr[g]] == shr;
    LinkStep(list, a, ofs, buf, shr, s, k, adj, buf, shr[g], adj');
  }

  /** After the second pass, all is as it should be. */
  ghost predicate Linked(list: seq<Action>, a: Asm, ofs: seq<int>, buf: seq<seq<int>>, shr: Shrinks) {
    && AllLaid(list, a, ofs) && SameShape(a.buf, buf) && |shr| == |Program(a.items)| && ShrinksOk(Program(a.items), shr)
    && forall s: nat, k: nat {:trigger ItemLinked(list, a, buf, shr, s, k)} :: ItemLinked(list, a, buf, shr, s, k)
  }

  ghost predicate ItemLinked(list: seq<Action>, a: Asm, buf: seq<seq<int>>, shr: Shrinks, s: nat, k: nat)
    requires |shr| == |Program(a.items)|
  {
    s < |a.items| && k < |a.items[s]| ==> Start(a.items, s) + k < |shr| && LinkedAt(list, a, buf, shr, s, k)
  }

  lemma SeenIsLinked(list: seq<Action>, a: Asm, buf: seq<seq<int>>, shr: Shrinks, g: nat, t: nat, m: nat)
    requires |shr| == |Program(a.items)| && SeenAt(list, a, buf, shr, g, t, m)
    requires t < |a.items| && m < |a.items[t]| && Start(a.items, t) + m < g <= |shr|
    ensures LinkedAt(list, a, buf, shr, t, m)
  {
  }

  lemma LinkingSeen(list: seq<Action>, a: Asm, ofs: seq<int>, buf: seq<seq<int>>, shr: Shrinks, s: nat, k: nat, adj: int, t: nat, m: nat)
    requires Linking(list, a, ofs, buf, shr, s, k, adj)
    ensures SeenAt(list, a, buf, shr, Start(a.items, s) + k, t, m)
  {
  }

  lemma LinkingEnds(list: seq<Action>, a: Asm, ofs: seq<int>, buf: seq<seq<int>>, shr: Shrinks, s: nat, adj: int)
    requires s < |a.items| && Linking(list, a, ofs, buf, shr, s, |a.items[s]|, adj) && s + 1 == |a.items|
    ensures Linked(list, a, ofs, buf, shr) && s < |ofs| && Final(Program(a.items), shr, |shr|) == adj + ofs[s]
  {
    hide Word, ItemAt, AllLaid, SeenAt, Final, Estimate, LinkedAt, Flat, Slots;
    AllCounted(list, a, ofs);
    LastStart(a.items, s);
    var g := Start(a.items, s) + |a.items[s]|;
    forall t: nat, m: nat ensures ItemLinked(list, a, buf, shr, t, m) {
      if t < |a.items| && m < |a.items[t]| {
        FlatAt(a.items, |a.items|, t, m);
        LinkingSeen(list, a, ofs, buf, shr, s, |a.items[s]|, adj, t, m);
        SeenIsLinked(list, a, buf, shr, g, t, m);
      }
    }
  }

  lemma LastStart(items: seq<seq<Item>>, s: nat)
    requires s + 1 == |items|
    ensures Start(items, s) + |items[s]| == |Program(items)|
  {
  }

  lemma LaidSizes(list: seq<Action>, a: Asm, ofs: seq<int>)
    requires AllLaid(list, a, ofs)
    ensures SizesOk(Program(a.items))
  {
    hide AllLaid, MaxSize, Layout;
    forall g | 0 <= g < |Program(a.items)| ensures MaxSize(Program(a.items)[g]) >= 0 {
      var s, k := FindItem(a.items, |a.items|, g);
      NextAt(list, a, ofs, s, k);
      ItemFits(list, a, s, k);
    }
  }

  lemma {:induction false} FindItem(items: seq<seq<Item>>, n: nat, g: nat) returns (s: nat, k: nat)
    requires n <= |items| && g < |Flat(items, n)|
    ensures s < n && k < |items[s]| && g == Start(items, s) + k && Flat(items, n)[g] == items[s][k]
  {
    if g < Start(items, n - 1) {
      s, k := FindItem(items, n - 1, g);
    } else {
      s, k := n - 1, g - Start(items, n - 1);
    }
  }

  /** Every branch that is shrunk has a displacement of one byte in the end. */
  lemma ShrunkIsShort(list: seq<Action>, a: Asm, ofs: seq<int>, buf: seq<seq<int>>, shr: Shrinks, s: nat, k: nat)
    requires Linked(list, a, ofs, buf, shr) && LabelsOk(a) && AllBound(a)
    requires s < |a.items| && k < |a.items[s]| && a.items[s][k].act.Rel?()
    ensures var g, t, prog := Start(a.items, s) + k, TargetOf(a, a.items[s][k]), Program(a.items);
            && g < |prog| && t < |prog| && prog[t].act.Label?() && (shr[g] > 0 ==> ByteSized(Displacement(prog, shr, g, t)))
  {
    hide AllLaid, LabelsOk, AllBound, Binds, Word;
    var g, x, prog := Start(a.items, s) + k, a.items[s][k], Program(a.items);
    NextAt(list, a, ofs, s, k);
    assert ItemLinked(list, a, buf, shr, s, k);
    ReferenceLeads(list, a, ofs, s, k);
    LaidSizes(list, a, ofs);
    var t := TargetOf(a, x);
    if shr[g] > 0 && t > g {
      ForwardShort(prog, shr, g, t, Estimate(prog, t) - Estimate(prog, g + 1));
    } else if shr[g] > 0 {
      BackwardShort(prog, shr, g, t, Final(prog, shr, t) - Final(prog, shr, g) - 4);
    }
  }
}
