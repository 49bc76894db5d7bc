/**
 Label references of DynASM (dynasm/dasm_x86.h): which definition each reference
 binds to, and how the first pass threads the references without one through
 the action buffer.
 */
module DasmLabels {
  import opened DasmItems

  /** A reference to a label, or its definition, by item `k` of section `s`, in the order of the first pass. */
  datatype Event = Event(def: bool, fwd: bool, slot: Slot, s: nat, k: nat)

  datatype Found = None | Some(j: nat)

  /** What a label array entry means: zero, a chain of references, or the position of a definition. */
  datatype State = Fresh | Pending | Defined(j: nat)

  function StateOf(events: seq<Event>, slot: Slot): State {
    if events == [] then Fresh
    else
      var n := |events| - 1;
      var e, before := events[n], StateOf(events[..n], slot);
      if e.slot != slot then before
      else if e.def then Defined(n)
      else if e.fwd || !before.Defined? then Pending
      else before
  }

  /** The first definition from event `from` on. */
  function NextDef(events: seq<Event>, from: nat, slot: Slot): Found
    decreases |events| - from
  {
    if from >= |events| then None
    else if events[from].def && events[from].slot == slot then Some(from)
    else NextDef(events, from + 1, slot)
  }

  /** The definition that reference `i` binds to: the one in force, or else the next one. */
  function Binds(events: seq<Event>, i: nat): Found
    requires i < |events|
  {
    var e := events[i];
    var st := StateOf(events[..i], e.slot);
    if !e.fwd && st.Defined? then Some(st.j) else NextDef(events, i + 1, e.slot)
  }

  lemma {:induction false} DefinedIsDef(events: seq<Event>, slot: Slot)
    ensures var st := StateOf(events, slot);
            st.Defined? ==> st.j < |events| && events[st.j].def && events[st.j].slot == slot
                            && forall n :: st.j < n < |events| ==> !(events[n].def && events[n].slot == slot)
  {
    if events != [] {
      DefinedIsDef(events[..|events| - 1], slot);
    }
  }

  lemma {:induction false} NextDefIsDef(events: seq<Event>, from: nat, slot: Slot)
    ensures match NextDef(events, from, slot)
            case Some(j) => from <= j < |events| && events[j].def && events[j].slot == slot
                            && (forall n :: from <= n < j ==> !(events[n].def && events[n].slot == slot))
            case None => forall n :: from <= n < |events| ==> !(events[n].def && events[n].slot == slot)
    decreases |events| - from
  {
    if from < |events| && !(events[from].def && events[from].slot == slot) {
      NextDefIsDef(events, from + 1, slot);
    }
  }

  /** `j` is the latest definition of the label that event `i` refers to, of those before it. */
  ghost predicate IsLatest(events: seq<Event>, i: nat, j: nat) {
    && j < i < |events| && events[j].def && events[j].slot == events[i].slot
    && forall n {:trigger events[n]} :: j < n < i ==> !(events[n].def && events[n].slot == events[i].slot)
  }

  /** There is a forward reference to a label behind its definition `j`. */
  ghost predicate Shadowed(events: seq<Event>, j: nat, m: nat, slot: Slot) {
    m <= |events| && exists n {:trigger events[n]} :: j < n < m && !events[n].def && events[n].fwd && events[n].slot == slot
  }

  /** What is in force behind a definition: the definition, or a chain that a forward reference started. */
  lemma {:induction false} StateBehind(events: seq<Event>, j: nat, m: nat, slot: Slot)
    requires j < m <= |events| && events[j].def && events[j].slot == slot
    requires forall n {:trigger events[n]} :: j < n < m ==> !(events[n].def && events[n].slot == slot)
    ensures StateOf(events[..m], slot) == if Shadowed(events, j, m, slot) then Pending else Defined(j)
  {
    assert events[..m][..m - 1] == events[..m - 1];
    if m > j + 1 {
      StateBehind(events, j, m - 1, slot);
    }
  }

  /**
   A backward reference binds to the latest definition before it if and only if the label is
   in force, which DASM_CHECKS tests: no forward reference to the label is in between.
   */
  lemma BackwardBinds(events: seq<Event>, i: nat, j: nat)
    requires IsLatest(events, i, j) && !events[i].fwd
    ensures Binds(events, i) == Some(j) <==> StateOf(events[..i], events[i].slot).Defined?
    ensures StateOf(events[..i], events[i].slot).Defined? <==> !Shadowed(events, j, i, events[i].slot)
  {
    StateBehind(events, j, i, events[i].slot);
    NextDefIsDef(events, i + 1, events[i].slot);
  }

  /** A label is in force only if it was defined. */
  lemma InForceIsDefined(events: seq<Event>, i: nat)
    requires i < |events| && !events[i].fwd && StateOf(events[..i], events[i].slot).Defined?
    ensures Binds(events, i).Some? && IsLatest(events, i, Binds(events, i).j)
  {
    DefinedIsDef(events[..i], events[i].slot);
  }

  /** A forward reference binds to the next definition behind it. */
  lemma ForwardBinds(events: seq<Event>, i: nat)
    requires i < |events| && events[i].fwd
    ensures match Binds(events, i)
            case Some(j) => i < j < |events| && events[j].def && events[j].slot == events[i].slot
                            && (forall n :: i < n < j ==> !(events[n].def && events[n].slot == events[i].slot))
            case None => forall n :: i < n < |events| ==> !(events[n].def && events[n].slot == events[i].slot)
  {
    NextDefIsDef(events, i + 1, events[i].slot);
  }

  // One more event

  lemma {:induction false} NextDefAppend(events: seq<Event>, e: Event, from: nat, slot: Slot)
    requires from <= |events|
    ensures NextDef(events + [e], from, slot) ==
            (if NextDef(events, from, slot).Some? then NextDef(events, from, slot)
             else if e.def && e.slot == slot then Some(|events|) else None)
    decreases |events| - from
  {
    if from < |events| {
      assert (events + [e])[from] == events[from];
      NextDefAppend(events, e, from + 1, slot);
    } else {
      assert NextDef(events + [e], from + 1, slot) == None;
    }
  }

  /** A new definition binds exactly the references to it that were without one; nothing else binds. */
  lemma BindsAppend(events: seq<Event>, e: Event, i: nat)
    requires i < |events|
    ensures Binds(events + [e], i) ==
            (if Binds(events, i).Some? then Binds(events, i)
             else if e.def && e.slot == events[i].slot then Some(|events|) else None)
  {
    assert (events + [e])[..i] == events[..i];
    NextDefAppend(events, e, i + 1, events[i].slot);
  }

  lemma BindsLast(events: seq<Event>, e: Event)
    ensures Binds(events + [e], |events|) ==
            (var st := StateOf(events, e.slot); if !e.fwd && st.Defined? then Some(st.j) else None)
  {
    assert (events + [e])[..|events|] == events;
  }

  lemma StateAppend(events: seq<Event>, e: Event, slot: Slot)
    ensures var before := StateOf(events, slot);
            StateOf(events + [e], slot) ==
            (if e.slot != slot then before else if e.def then Defined(|events|)
             else if e.fwd || !before.Defined? then Pending else before)
  {
    assert (events + [e])[..|events|] == events;
  }

  // ------------------------------------------------------------------
  // Chains

  /** The label arrays, the buffers of all sections, and what was put into them. */
  datatype Asm = Asm(lg: seq<int>, pc: seq<int>, buf: seq<seq<int>>, items: seq<seq<Item>>,
                     chain: map<Slot, seq<nat>>, events: seq<Event>)

  function Val(a: Asm, slot: Slot): int {
    match slot
    case LG(n) => if n < |a.lg| then a.lg[n] else 0
    case PC(n) => if n < |a.pc| then a.pc[n] else 0
  }

  function WithVal(a: Asm, slot: Slot, v: int): Asm {
    match slot
    case LG(n) => if n < |a.lg| then a.(lg := a.lg[n := v]) else a
    case PC(n) => if n < |a.pc| then a.(pc := a.pc[n := v]) else a
  }

  predicate HasSlot(a: Asm, slot: Slot) {
    match slot
    case LG(n) => n < |a.lg|
    case PC(n) => n < |a.pc|
  }

  /** The buffer word at a position. */
  function Word(buf: seq<seq<int>>, pos: nat): int {
    var s, i := pos / SECTION_SPAN, pos % SECTION_SPAN;
    if s < |buf| && i < |buf[s]| then buf[s][i] else 0
  }

  function Pos(s: nat, idx: nat): nat {
    s * SECTION_SPAN + idx
  }

  lemma PosParts(s: nat, idx: nat)
    requires idx < SECTION_SPAN
    ensures Pos(s, idx) / SECTION_SPAN == s && Pos(s, idx) % SECTION_SPAN == idx
  {
  }

  /** Event `i` is the reference or definition by its item. */
  ghost predicate EventOk(a: Asm, i: nat)
    requires i < |a.events|
  {
    var e := a.events[i];
    && e.s < |a.items| && e.s < |a.buf| && e.k < |a.items[e.s]|
    && var x := a.items[e.s][e.k];
       && (if e.def then x.act.Label?() else x.act.Rel?()) && SlotOf(x.act, x.arg) == e.slot && x.ev == i && HasSlot(a, e.slot)
       && e.fwd == (x.act.RelLG? && x.act.n > FORWARD_BASE)
       && 0 < x.idx && x.idx + Slots(x.act) <= |a.buf[e.s]| < SECTION_SPAN
  }

  /** The position of the first word of event `i`. */
  function PosOf(a: Asm, i: nat): nat {
    if i < |a.events| && a.events[i].s < |a.items| && a.events[i].k < |a.items[a.events[i].s]|
    then Pos(a.events[i].s, a.items[a.events[i].s][a.events[i].k].idx) else 0
  }

  /** Each reference or definition is one event. */
  ghost predicate ItemEvent(a: Asm, s: nat, k: nat)
    requires s < |a.items| && k < |a.items[s]|
  {
    var x := a.items[s][k];
    x.act.Rel?() || x.act.Label?() ==> x.ev < |a.events| && a.events[x.ev].s == s && a.events[x.ev].k == k
  }

  function ChainOf(a: Asm, slot: Slot): seq<nat> {
    if slot in a.chain then a.chain[slot] else []
  }

  /** Reference `i` to `slot` is still without a definition. */
  ghost predicate Open(a: Asm, slot: Slot, i: nat) {
    i < |a.events| && !a.events[i].def && a.events[i].slot == slot && Binds(a.events, i).None?
  }

  /** A bound reference holds the position of its label. */
  ghost predicate BoundOk(a: Asm, i: nat)
    requires i < |a.events|
  {
    !a.events[i].def && Binds(a.events, i).Some? ==> Word(a.buf, PosOf(a, i)) == PosOf(a, Binds(a.events, i).j)
  }

  ghost predicate LinkOk(a: Asm, slot: Slot, n: nat) {
    n < |ChainOf(a, slot)| ==>
      var c := ChainOf(a, slot);
      Open(a, slot, c[n]) && Word(a.buf, PosOf(a, c[n])) == if n + 1 < |c| then PosOf(a, c[n + 1]) else 0
  }

  /** The open references to a label form one chain, and its array entry is right. */
  ghost predicate SlotOk(a: Asm, slot: Slot) {
    var c := ChainOf(a, slot);
    && (forall n, m :: 0 <= n < m < |c| ==> c[n] != c[m])
    && (forall n: nat {:trigger LinkOk(a, slot, n)} :: LinkOk(a, slot, n))
    && (forall i: nat {:trigger Open(a, slot, i)} :: Open(a, slot, i) ==> i in c)
    && match StateOf(a.events, slot)
       case Fresh => c == [] && Val(a, slot) == 0
       case Pending => HasSlot(a, slot) ==> c != [] && Val(a, slot) == PosOf(a, c[0])
       case Defined(j) => c == [] && (HasSlot(a, slot) ==> Val(a, slot) + PosOf(a, j) == 0)
  }

  /** Two events are at different positions. */
  ghost predicate EventsApart(a: Asm, i: nat, j: nat) {
    i < |a.events| && j < |a.events| && i != j ==> PosOf(a, i) != PosOf(a, j)
  }

  ghost predicate LabelsOk(a: Asm) {
    && (forall i: nat, j: nat {:trigger EventsApart(a, i, j)} :: EventsApart(a, i, j))
    && (forall i: nat {:trigger EventOk(a, i)} :: i < |a.events| ==> EventOk(a, i))
    && (forall i: nat {:trigger BoundOk(a, i)} :: i < |a.events| ==> BoundOk(a, i))
    && (forall s: nat, k: nat {:trigger ItemEvent(a, s, k)} :: s < |a.items| && k < |a.items[s]| ==> ItemEvent(a, s, k))
    && (forall slot {:trigger SlotOk(a, slot)} :: SlotOk(a, slot))
  }

  lemma EventFacts(a: Asm, i: nat)
    requires LabelsOk(a) && i < |a.events|
    ensures EventOk(a, i) && BoundOk(a, i)
  {
  }

  lemma SlotFacts(a: Asm, slot: Slot)
    requires LabelsOk(a)
    ensures SlotOk(a, slot)
  {
  }

  lemma ItemFacts(a: Asm, s: nat, k: nat)
    requires LabelsOk(a) && s < |a.items| && k < |a.items[s]|
    ensures ItemEvent(a, s, k)
  {
  }

  lemma ApartFacts(a: Asm, i: nat, j: nat)
    requires LabelsOk(a)
    ensures EventsApart(a, i, j)
  {
  }

  lemma LabelsFrom(a: Asm)
    requires forall i: nat, j: nat :: EventsApart(a, i, j)
    requires forall i: nat :: i < |a.events| ==> EventOk(a, i)
    requires forall i: nat :: i < |a.events| ==> BoundOk(a, i)
    requires forall s: nat, k: nat :: s < |a.items| && k < |a.items[s]| ==> ItemEvent(a, s, k)
    requires forall slot :: SlotOk(a, slot)
    ensures LabelsOk(a)
  {
  }

  // ------------------------------------------------------------------
  // The first pass appends an item and its words

  function Push(a: Asm, s: nat, x: Item, ws: seq<int>): Asm
    requires s < |a.items| && s < |a.buf|
  {
    a.(items := a.items[s := a.items[s] + [x]], buf := a.buf[s := a.buf[s] + ws])
  }

  /** The appended item keeps the buffer small enough for positions. */
  ghost predicate CanPush(a: Asm, s: nat, x: Item, ws: seq<int>) {
    && s < |a.items| && s < |a.buf| && x.idx == |a.buf[s]| && |ws| == Slots(x.act) && |a.buf[s]| + |ws| < SECTION_SPAN
  }

  /** Events stay where they are, and their words keep their values. */
  lemma PushEvent(a: Asm, s: nat, x: Item, ws: seq<int>, i: nat)
    requires LabelsOk(a) && CanPush(a, s, x, ws) && i < |a.events|
    ensures var a' := Push(a, s, x, ws); EventOk(a', i) && PosOf(a', i) == PosOf(a, i) && Word(a'.buf, PosOf(a, i)) == Word(a.buf, PosOf(a, i))
    ensures PosOf(a, i) > 0 && PosOf(a, i) != Pos(s, x.idx)
  {
    hide LabelsOk;
    EventFacts(a, i);
    var e := a.events[i];
    PosParts(e.s, a.items[e.s][e.k].idx);
    PosParts(s, x.idx);
  }

  /** An item that is no reference and no definition. */
  lemma PushPlain(a: Asm, s: nat, x: Item, ws: seq<int>)
    requires LabelsOk(a) && CanPush(a, s, x, ws) && !x.act.Rel?() && !x.act.Label?()
    ensures LabelsOk(Push(a, s, x, ws))
  {
    hide LabelsOk, EventOk, PosOf, Word, Binds, StateOf;
    var a' := Push(a, s, x, ws);
    forall i: nat | i < |a'.events| ensures EventOk(a', i) && BoundOk(a', i) {
      PushBound(a, s, x, ws, i);
    }
    forall i: nat, j: nat ensures EventsApart(a', i, j) {
      if i < |a.events| && j < |a.events| {
        PushEvent(a, s, x, ws, i);
        PushEvent(a, s, x, ws, j);
        ApartFacts(a, i, j);
      }
    }
    forall t: nat, k: nat | t < |a'.items| && k < |a'.items[t]| ensures ItemEvent(a', t, k) {
      if t != s || k < |a.items[s]| {
        ItemFacts(a, t, k);
        assert a'.items[t][k] == a.items[t][k];
      }
    }
    forall slot ensures SlotOk(a', slot) {
      PushSlot(a, s, x, ws, slot);
    }
    LabelsFrom(a');
  }

  lemma PushBound(a: Asm, s: nat, x: Item, ws: seq<int>, i: nat)
    requires LabelsOk(a) && CanPush(a, s, x, ws) && i < |a.events|
    ensures EventOk(Push(a, s, x, ws), i) && BoundOk(Push(a, s, x, ws), i)
  {
    hide LabelsOk, EventOk, PosOf, Word, Binds, StateOf;
    EventFacts(a, i);
    PushEvent(a, s, x, ws, i);
    if !a.events[i].def && Binds(a.events, i).Some? {
      BindsInRange(a.events, i);
      PushEvent(a, s, x, ws, Binds(a.events, i).j);
    }
  }

  lemma BindsInRange(events: seq<Event>, i: nat)
    requires i < |events| && Binds(events, i).Some?
    ensures var j := Binds(events, i).j; j < |events| && events[j].def && events[j].slot == events[i].slot
  {
    DefinedIsDef(events[..i], events[i].slot);
    NextDefIsDef(events, i + 1, events[i].slot);
  }

  /** The words of a slot are read at events only. */
  lemma PushSlot(a: Asm, s: nat, x: Item, ws: seq<int>, slot: Slot)
    requires LabelsOk(a) && CanPush(a, s, x, ws)
    ensures SlotOk(Push(a, s, x, ws), slot)
  {
    hide LabelsOk, EventOk, PosOf, Word, Binds, StateOf;
    var a', c := Push(a, s, x, ws), ChainOf(a, slot);
    SlotFacts(a, slot);
    forall n: nat ensures LinkOk(a', slot, n) {
      assert LinkOk(a, slot, n);
      if n < |c| {
        PushEvent(a, s, x, ws, c[n]);
        if n + 1 < |c| {
          assert LinkOk(a, slot, n + 1);
          PushEvent(a, s, x, ws, c[n + 1]);
        }
      }
    }
    forall i: nat | Open(a', slot, i) ensures i in c {
      assert Open(a, slot, i);
    }
    StateInRange(a, slot);
    assert LinkOk(a, slot, 0);
    if c != [] {
      PushEvent(a, s, x, ws, c[0]);
    }
    if StateOf(a.events, slot).Defined? {
      PushEvent(a, s, x, ws, StateOf(a.events, slot).j);
    }
  }

  lemma StateInRange(a: Asm, slot: Slot)
    ensures StateOf(a.events, slot).Defined? ==> StateOf(a.events, slot).j < |a.events|
  {
    DefinedIsDef(a.events, slot);
  }

  // ------------------------------------------------------------------
  // The first pass meets a reference

  /** The words and labels after a reference: bound to the definition in force, or first in the chain of its label. */
  function Referred(a: Asm, s: nat, x: Item, fwd: bool, w1: int): Asm
    requires s < |a.items| && s < |a.buf|
  {
    var slot := SlotOf(x.act, x.arg);
    var v := Val(a, slot);
    var bound := !fwd && v < 0;
    var w0 := if bound then -v else if v > 0 then v else 0;
    var b := Push(a, s, x, [w0, w1]).(events := a.events + [Event(false, fwd, slot, s, |a.items[s]|)]);
    if bound then b
    else WithVal(b, slot, Pos(s, x.idx)).(chain := a.chain[slot := [|a.events|] + ChainOf(a, slot)])
  }

  ghost predicate CanRefer(a: Asm, s: nat, x: Item, fwd: bool) {
    && LabelsOk(a) && CanPush(a, s, x, [0, 0]) && x.act.Rel?() && x.idx > 0 && x.ev == |a.events|
    && HasSlot(a, SlotOf(x.act, x.arg)) && fwd == (x.act.RelLG? && x.act.n > FORWARD_BASE)
  }

  /** What a reference leaves alone, and the words of the new event. */
  lemma ReferredFields(a: Asm, s: nat, x: Item, fwd: bool, w1: int)
    requires CanRefer(a, s, x, fwd)
    ensures var a', slot, v := Referred(a, s, x, fwd, w1), SlotOf(x.act, x.arg), Val(a, SlotOf(x.act, x.arg));
            && a'.events == a.events + [Event(false, fwd, slot, s, |a.items[s]|)]
            && a'.items == a.items[s := a.items[s] + [x]] && |a'.buf| == |a.buf|
            && EventOk(a', |a.events|) && PosOf(a', |a.events|) == Pos(s, x.idx) > 0
            && Word(a'.buf, Pos(s, x.idx)) == (if !fwd && v < 0 then -v else if v > 0 then v else 0)
            && ChainOf(a', slot) == (if !fwd && v < 0 then ChainOf(a, slot) else [|a.events|] + ChainOf(a, slot))
            && Val(a', slot) == (if !fwd && v < 0 then v else Pos(s, x.idx))
            && (forall l :: l != slot ==> ChainOf(a', l) == ChainOf(a, l) && Val(a', l) == Val(a, l))
            && (forall l :: HasSlot(a', l) <==> HasSlot(a, l))
  {
    hide LabelsOk;
    PosParts(s, x.idx);
  }

  lemma ReferredEvent(a: Asm, s: nat, x: Item, fwd: bool, w1: int, i: nat)
    requires CanRefer(a, s, x, fwd) && i < |a.events|
    ensures var a' := Referred(a, s, x, fwd, w1);
            EventOk(a', i) && PosOf(a', i) == PosOf(a, i) && Word(a'.buf, PosOf(a, i)) == Word(a.buf, PosOf(a, i))
    ensures PosOf(a, i) > 0 && PosOf(a, i) != Pos(s, x.idx) && a.events[i].k < |Referred(a, s, x, fwd, w1).items[a.events[i].s]|
  {
    hide LabelsOk;
    var slot, v := SlotOf(x.act, x.arg), Val(a, SlotOf(x.act, x.arg));
    PushEvent(a, s, x, [if !fwd && v < 0 then -v else if v > 0 then v else 0, w1], i);
    EventFacts(a, i);
  }

  lemma ReferredOk(a: Asm, s: nat, x: Item, fwd: bool, w1: int)
    requires CanRefer(a, s, x, fwd)
    ensures LabelsOk(Referred(a, s, x, fwd, w1))
  {
    hide LabelsOk, EventOk, PosOf, Word, Binds, StateOf, Referred, HasSlot, Val, ChainOf;
    var a', n := Referred(a, s, x, fwd, w1), |a.events|;
    ReferredFields(a, s, x, fwd, w1);
    forall i: nat | i < |a'.events| ensures EventOk(a', i) && BoundOk(a', i) {
      ReferredBound(a, s, x, fwd, w1, i);
    }
    forall i: nat, j: nat ensures EventsApart(a', i, j) {
      if i < n {
        ReferredEvent(a, s, x, fwd, w1, i);
      }
      if j < n {
        ReferredEvent(a, s, x, fwd, w1, j);
      }
      ApartFacts(a, i, j);
    }
    forall t: nat, k: nat | t < |a'.items| && k < |a'.items[t]| ensures ItemEvent(a', t, k) {
      if t != s || k < |a.items[s]| {
        ItemFacts(a, t, k);
        assert a'.items[t][k] == a.items[t][k];
      }
    }
    forall slot ensures SlotOk(a', slot) {
      if slot == SlotOf(x.act, x.arg) {
        ReferredSlot(a, s, x, fwd, w1);
      } else {
        ReferredOther(a, s, x, fwd, w1, slot);
      }
    }
    LabelsFrom(a');
  }

  lemma ReferredBound(a: Asm, s: nat, x: Item, fwd: bool, w1: int, i: nat)
    requires CanRefer(a, s, x, fwd) && i <= |a.events|
    ensures |Referred(a, s, x, fwd, w1).events| == |a.events| + 1
    ensures EventOk(Referred(a, s, x, fwd, w1), i) && BoundOk(Referred(a, s, x, fwd, w1), i)
  {
    hide LabelsOk, EventOk, PosOf, Word, Binds, StateOf, Referred, HasSlot, Val, ChainOf;
    var slot, e := SlotOf(x.act, x.arg), Event(false, fwd, SlotOf(x.act, x.arg), s, |a.items[s]|);
    ReferredFields(a, s, x, fwd, w1);
    if i < |a.events| {
      EventFacts(a, i);
      ReferredEvent(a, s, x, fwd, w1, i);
      BindsAppend(a.events, e, i);
      if !a.events[i].def && Binds(a.events, i).Some? {
        BindsInRange(a.events, i);
        ReferredEvent(a, s, x, fwd, w1, Binds(a.events, i).j);
      }
    } else {
      BindsLast(a.events, e);
      SlotFacts(a, slot);
      StateInRange(a, slot);
      if StateOf(a.events, slot).Defined? {
        ReferredEvent(a, s, x, fwd, w1, StateOf(a.events, slot).j);
      }
    }
  }

  /** The chains of other labels. */
  lemma ReferredOther(a: Asm, s: nat, x: Item, fwd: bool, w1: int, slot: Slot)
    requires CanRefer(a, s, x, fwd) && slot != SlotOf(x.act, x.arg)
    ensures SlotOk(Referred(a, s, x, fwd, w1), slot)
  {
    hide LabelsOk, EventOk, PosOf, Word, Binds, StateOf, Referred, HasSlot, Val, ChainOf;
    var a', c, e := Referred(a, s, x, fwd, w1), ChainOf(a, slot), Event(false, fwd, SlotOf(x.act, x.arg), s, |a.items[s]|);
    ReferredFields(a, s, x, fwd, w1);
    SlotFacts(a, slot);
    StateAppend(a.events, e, slot);
    forall n: nat ensures LinkOk(a', slot, n) {
      assert LinkOk(a, slot, n);
      if n < |c| {
        BindsAppend(a.events, e, c[n]);
        ReferredEvent(a, s, x, fwd, w1, c[n]);
        if n + 1 < |c| {
          assert LinkOk(a, slot, n + 1);
          ReferredEvent(a, s, x, fwd, w1, c[n + 1]);
        }
      }
    }
    forall i: nat | Open(a', slot, i) ensures i in c {
      assert i < |a.events|;
      BindsAppend(a.events, e, i);
      assert Open(a, slot, i);
    }
    SlotValue(a, slot);
    if c != [] {
      ReferredEvent(a, s, x, fwd, w1, c[0]);
    }
    if StateOf(a.events, slot).Defined? {
      ReferredEvent(a, s, x, fwd, w1, StateOf(a.events, slot).j);
    }
  }

  /** What a label array entry says. */
  lemma SlotValue(a: Asm, slot: Slot)
    requires LabelsOk(a)
    ensures ChainOf(a, slot) != [] ==> Open(a, slot, ChainOf(a, slot)[0])
    ensures StateOf(a.events, slot).Defined? ==> StateOf(a.events, slot).j < |a.events|
    ensures HasSlot(a, slot) ==>
              match StateOf(a.events, slot)
              case Fresh => Val(a, slot) == 0 && ChainOf(a, slot) == []
              case Pending => Val(a, slot) > 0 && ChainOf(a, slot) != [] && Val(a, slot) == PosOf(a, ChainOf(a, slot)[0])
              case Defined(j) => Val(a, slot) < 0 && ChainOf(a, slot) == [] && Val(a, slot) + PosOf(a, j) == 0
  {
    hide EventOk, Word, Binds, StateOf, HasSlot, Val, ChainOf;
    assert SlotOk(a, slot);
    StateInRange(a, slot);
    assert LinkOk(a, slot, 0);
    if ChainOf(a, slot) != [] {
      PosPositive(a, ChainOf(a, slot)[0]);
    }
    if StateOf(a.events, slot).Defined? {
      PosPositive(a, StateOf(a.events, slot).j);
    }
  }

  lemma PosPositive(a: Asm, i: nat)
    requires LabelsOk(a) && i < |a.events|
    ensures PosOf(a, i) > 0
  {
    assert EventOk(a, i);
  }

  /** One link of the chain of the label itself. */
  lemma ReferredLink(a: Asm, s: nat, x: Item, fwd: bool, w1: int, n: nat)
    requires CanRefer(a, s, x, fwd)
    ensures LinkOk(Referred(a, s, x, fwd, w1), SlotOf(x.act, x.arg), n)
  {
    hide LabelsOk, EventOk, PosOf, Word, Binds, StateOf, Referred, HasSlot, Val, ChainOf;
    var slot := SlotOf(x.act, x.arg);
    var a', c, e := Referred(a, s, x, fwd, w1), ChainOf(a, slot), Event(false, fwd, slot, s, |a.items[s]|);
    var c' := ChainOf(a', slot);
    ReferredFields(a, s, x, fwd, w1);
    SlotFacts(a, slot);
    SlotValue(a, slot);
    var m: int := if |c'| == |c| then n else n - 1;
    if n < |c'| && m >= 0 {
      assert c'[n] == c[m];
      assert LinkOk(a, slot, m);
      BindsAppend(a.events, e, c[m]);
      ReferredEvent(a, s, x, fwd, w1, c[m]);
      if m + 1 < |c| {
        assert LinkOk(a, slot, m + 1);
        ReferredEvent(a, s, x, fwd, w1, c[m + 1]);
      }
    } else {
      BindsLast(a.events, e);
      if c != [] {
        ReferredEvent(a, s, x, fwd, w1, c[0]);
      }
    }
  }

  /** The chain of the label itself. */
  lemma ReferredSlot(a: Asm, s: nat, x: Item, fwd: bool, w1: int)
    requires CanRefer(a, s, x, fwd)
    ensures SlotOk(Referred(a, s, x, fwd, w1), SlotOf(x.act, x.arg))
  {
    hide LabelsOk, EventOk, PosOf, Word, Binds, StateOf, Referred, HasSlot, Val, ChainOf;
    var slot := SlotOf(x.act, x.arg);
    var a', c, e, i0 := Referred(a, s, x, fwd, w1), ChainOf(a, slot), Event(false, fwd, slot, s, |a.items[s]|), |a.events|;
    var c' := ChainOf(a', slot);
    ReferredFields(a, s, x, fwd, w1);
    SlotFacts(a, slot);
    SlotValue(a, slot);
    StateAppend(a.events, e, slot);
    forall n: nat ensures LinkOk(a', slot, n) {
      ReferredLink(a, s, x, fwd, w1, n);
    }
    forall i: nat | Open(a', slot, i) ensures i in c' {
      if i < i0 {
        BindsAppend(a.events, e, i);
        assert Open(a, slot, i);
      } else {
        BindsLast(a.events, e);
      }
    }
    forall n | 0 <= n < |c| ensures c[n] < i0 {
      assert LinkOk(a, slot, n);
    }
    if StateOf(a.events, slot).Defined? {
      ReferredEvent(a, s, x, fwd, w1, StateOf(a.events, slot).j);
    }
  }

  // ------------------------------------------------------------------
  // The first pass meets a definition

  function SetWord(buf: seq<seq<int>>, pos: nat, v: int): (buf': seq<seq<int>>)
    ensures |buf'| == |buf| && forall s :: 0 <= s < |buf| ==> |buf'[s]| == |buf[s]|
  {
    var s, i := pos / SECTION_SPAN, pos % SECTION_SPAN;
    if s < |buf| && i < |buf[s]| then buf[s := buf[s][i := v]] else buf
  }

  /** The position is one of the buffers. */
  predicate InBuf(buf: seq<seq<int>>, pos: nat) {
    pos / SECTION_SPAN < |buf| && pos % SECTION_SPAN < |buf[pos / SECTION_SPAN]|
  }

  lemma WordSet(buf: seq<seq<int>>, pos: nat, v: int, q: nat)
    requires InBuf(buf, pos)
    ensures Word(SetWord(buf, pos, v), q) == if q == pos then v else Word(buf, q)
    ensures forall r :: InBuf(SetWord(buf, pos, v), r) <==> InBuf(buf, r)
  {
    if pos / SECTION_SPAN == q / SECTION_SPAN && pos % SECTION_SPAN == q % SECTION_SPAN {
      SamePos(pos, q);
    }
  }

  lemma SamePos(p: nat, q: nat)
    requires p / SECTION_SPAN == q / SECTION_SPAN && p % SECTION_SPAN == q % SECTION_SPAN
    ensures p == q
  {
  }

  /** All references of a chain get the position of their label. */
  function SetAll(a: Asm, c: seq<nat>, v: int): (buf: seq<seq<int>>)
    ensures |buf| == |a.buf| && forall s :: 0 <= s < |buf| ==> |buf[s]| == |a.buf[s]|
  {
    if c == [] then a.buf else SetWord(SetAll(a, c[..|c| - 1], v), PosOf(a, c[|c| - 1]), v)
  }

  lemma EventInBuf(a: Asm, i: nat)
    requires LabelsOk(a) && i < |a.events|
    ensures InBuf(a.buf, PosOf(a, i))
  {
    assert EventOk(a, i);
    var e := a.events[i];
    PosParts(e.s, a.items[e.s][e.k].idx);
  }

  lemma {:induction false} WordSetAll(a: Asm, c: seq<nat>, v: int, i: nat)
    requires LabelsOk(a) && i < |a.events| && forall n :: 0 <= n < |c| ==> c[n] < |a.events|
    ensures Word(SetAll(a, c, v), PosOf(a, i)) == if i in c then v else Word(a.buf, PosOf(a, i))
  {
    hide LabelsOk, Word, PosOf, SetWord, InBuf;
    if c != [] {
      var d, last := c[..|c| - 1], c[|c| - 1];
      assert c == d + [last];
      WordSetAll(a, d, v, i);
      EventInBuf(a, last);
      SameInBuf(a.buf, SetAll(a, d, v), PosOf(a, last));
      WordSet(SetAll(a, d, v), PosOf(a, last), v, PosOf(a, i));
      ApartFacts(a, i, last);
    }
  }

  lemma SameInBuf(buf: seq<seq<int>>, buf': seq<seq<int>>, pos: nat)
    requires |buf'| == |buf| && forall s :: 0 <= s < |buf| ==> |buf'[s]| == |buf[s]|
    ensures InBuf(buf', pos) <==> InBuf(buf, pos)
  {
  }

  /** The words and labels after a definition: all open references hold its position. */
  function Placed(a: Asm, s: nat, x: Item, raw: int): Asm
    requires s < |a.items| && s < |a.buf|
  {
    var slot, pos := SlotOf(x.act, x.arg), Pos(s, x.idx);
    var b := a.(buf := SetAll(a, ChainOf(a, slot), pos));
    var b1 := Push(b, s, x, [raw]).(events := a.events + [Event(true, false, slot, s, |a.items[s]|)]);
    WithVal(b1, slot, 0 - pos).(chain := a.chain[slot := []])
  }

  ghost predicate CanPlace(a: Asm, s: nat, x: Item) {
    && LabelsOk(a) && CanPush(a, s, x, [0]) && x.act.Label?() && x.idx > 0 && x.ev == |a.events| && HasSlot(a, SlotOf(x.act, x.arg))
  }

  lemma PlacedFields(a: Asm, s: nat, x: Item, raw: int)
    requires CanPlace(a, s, x)
    ensures var a', slot := Placed(a, s, x, raw), SlotOf(x.act, x.arg);
            && a'.events == a.events + [Event(true, false, slot, s, |a.items[s]|)]
            && a'.items == a.items[s := a.items[s] + [x]] && |a'.buf| == |a.buf|
            && EventOk(a', |a.events|) && PosOf(a', |a.events|) == Pos(s, x.idx) > 0
            && ChainOf(a', slot) == [] && Val(a', slot) + Pos(s, x.idx) == 0
            && (forall l :: l != slot ==> ChainOf(a', l) == ChainOf(a, l) && Val(a', l) == Val(a, l))
            && (forall l :: HasSlot(a', l) <==> HasSlot(a, l))
  {
    hide LabelsOk;
    PosParts(s, x.idx);
  }

  lemma ChainInRange(a: Asm, slot: Slot)
    requires LabelsOk(a)
    ensures forall n :: 0 <= n < |ChainOf(a, slot)| ==> Open(a, slot, ChainOf(a, slot)[n])
  {
    hide EventOk, PosOf, Word, Binds, StateOf, HasSlot, Val, ChainOf;
    assert SlotOk(a, slot);
    forall n | 0 <= n < |ChainOf(a, slot)| ensures Open(a, slot, ChainOf(a, slot)[n]) {
      assert LinkOk(a, slot, n);
    }
  }

  lemma PlacedEvent(a: Asm, s: nat, x: Item, raw: int, i: nat)
    requires CanPlace(a, s, x) && i < |a.events|
    ensures var a', c := Placed(a, s, x, raw), ChainOf(a, SlotOf(x.act, x.arg));
            && EventOk(a', i) && PosOf(a', i) == PosOf(a, i)
            && Word(a'.buf, PosOf(a, i)) == (if i in c then Pos(s, x.idx) else Word(a.buf, PosOf(a, i)))
    ensures PosOf(a, i) > 0 && PosOf(a, i) != Pos(s, x.idx) && a.events[i].k < |Placed(a, s, x, raw).items[a.events[i].s]|
  {
    hide LabelsOk, SetAll;
    var slot := SlotOf(x.act, x.arg);
    ChainInRange(a, slot);
    WordSetAll(a, ChainOf(a, slot), Pos(s, x.idx), i);
    EventFacts(a, i);
    var e := a.events[i];
    PosParts(e.s, a.items[e.s][e.k].idx);
    PosParts(s, x.idx);
  }

  lemma PlacedOk(a: Asm, s: nat, x: Item, raw: int)
    requires CanPlace(a, s, x)
    ensures LabelsOk(Placed(a, s, x, raw))
  {
    hide LabelsOk, EventOk, PosOf, Word, Binds, StateOf, Placed, HasSlot, Val, ChainOf;
    var a', n := Placed(a, s, x, raw), |a.events|;
    PlacedFields(a, s, x, raw);
    forall i: nat | i < |a'.events| ensures EventOk(a', i) && BoundOk(a', i) {
      PlacedBound(a, s, x, raw, i);
    }
    forall i: nat, j: nat ensures EventsApart(a', i, j) {
      if i < n {
        PlacedEvent(a, s, x, raw, i);
      }
      if j < n {
        PlacedEvent(a, s, x, raw, j);
      }
      ApartFacts(a, i, j);
    }
    forall t: nat, k: nat | t < |a'.items| && k < |a'.items[t]| ensures ItemEvent(a', t, k) {
      if t != s || k < |a.items[s]| {
        ItemFacts(a, t, k);
        assert a'.items[t][k] == a.items[t][k];
      }
    }
    forall slot ensures SlotOk(a', slot) {
      PlacedSlot(a, s, x, raw, slot);
    }
    LabelsFrom(a');
  }

  lemma PlacedBound(a: Asm, s: nat, x: Item, raw: int, i: nat)
    requires CanPlace(a, s, x) && i <= |a.events|
    ensures |Placed(a, s, x, raw).events| == |a.events| + 1
    ensures EventOk(Placed(a, s, x, raw), i) && BoundOk(Placed(a, s, x, raw), i)
  {
    hide LabelsOk, EventOk, PosOf, Word, Binds, StateOf, Placed, HasSlot, Val, ChainOf;
    var slot, e := SlotOf(x.act, x.arg), Event(true, false, SlotOf(x.act, x.arg), s, |a.items[s]|);
    PlacedFields(a, s, x, raw);
    if i < |a.events| {
      EventFacts(a, i);
      PlacedEvent(a, s, x, raw, i);
      BindsAppend(a.events, e, i);
      ChainInRange(a, slot);
      SlotFacts(a, slot);
      assert Open(a, slot, i) <==> i in ChainOf(a, slot);
      if !a.events[i].def && Binds(a.events, i).Some? {
        BindsInRange(a.events, i);
        PlacedEvent(a, s, x, raw, Binds(a.events, i).j);
      }
    }
  }

  lemma PlacedSlot(a: Asm, s: nat, x: Item, raw: int, slot: Slot)
    requires CanPlace(a, s, x)
    ensures SlotOk(Placed(a, s, x, raw), slot)
  {
    hide LabelsOk, EventOk, PosOf, Word, Binds, StateOf, Placed, HasSlot, Val, ChainOf;
    var l := SlotOf(x.act, x.arg);
    var a', c, e := Placed(a, s, x, raw), ChainOf(a, slot), Event(true, false, l, s, |a.items[s]|);
    PlacedFields(a, s, x, raw);
    SlotFacts(a, slot);
    SlotValue(a, slot);
    ChainInRange(a, l);
    StateAppend(a.events, e, slot);
    forall n: nat ensures LinkOk(a', slot, n) {
      assert LinkOk(a, slot, n);
      if slot != l && n < |c| {
        BindsAppend(a.events, e, c[n]);
        PlacedEvent(a, s, x, raw, c[n]);
        if n + 1 < |c| {
          assert LinkOk(a, slot, n + 1);
          PlacedEvent(a, s, x, raw, c[n + 1]);
        }
      }
    }
    forall i: nat | Open(a', slot, i) ensures i in ChainOf(a', slot) {
      assert i < |a.events|;
      BindsAppend(a.events, e, i);
      assert Open(a, slot, i);
    }
    if slot != l && c != [] {
      PlacedEvent(a, s, x, raw, c[0]);
    }
    if slot != l && StateOf(a.events, slot).Defined? {
      PlacedEvent(a, s, x, raw, StateOf(a.events, slot).j);
    }
  }
}
