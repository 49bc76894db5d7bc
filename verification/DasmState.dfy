/** The assembler state of DynASM for x86 (dynasm/dasm_x86.h), and its three passes. */
module DasmState {
  import opened DasmItems
  import opened DasmLabels
  import opened DasmLayout
  import opened DasmLink
  import opened DasmEncode

  datatype Status = StatusOk | RangeI | RangeSec | RangeLG | RangePC | UndefPC(pc: nat) | Phase

  /** The buffer words that the rest of a put takes */
  function SlotCount(list: seq<Action>, p: nat): nat
    decreases |list| - p
  {
    if p >= |list| || list[p].Last?() then 0 else Slots(list[p]) + SlotCount(list, p + 1)
  }

  /** The arguments that are not tested: sizes are not negative, and so are numbers of labels. */
  ghost predicate ArgsOk(list: seq<Action>, p: nat, args: seq<int>)
    decreases |list| - p
  {
    p < |list| && !list[p].Last?() ==>
      if TakesArg(list[p])
      then |args| > 0 && (list[p].Space? || list[p].RelPC? || list[p].LabelPC? ==> args[0] >= 0) && ArgsOk(list, p + 1, args[1..])
      else ArgsOk(list, p + 1, args)
  }

  // ------------------------------------------------------------------
  // What a put makes of its actions

  /** The put ends with action `q`. */
  ghost predicate EndsPut(list: seq<Action>, start: nat, q: nat) {
    InPut(list, start, q) && list[q].Last?()
  }

  /** The section in which the next put goes on */
  function SectionBehind(last: Action, section: nat): nat {
    if last.Section? then last.n else section
  }

  /** The argument of an action, of those that are left */
  function ArgOf(act: Action, args: seq<int>): int {
    if TakesArg(act) && args != [] then args[0] else 0
  }

  function ArgsBehind(act: Action, args: seq<int>): seq<int> {
    if TakesArg(act) && args != [] then args[1..] else args
  }

  predicate HasEvent(act: Action) {
    act.Rel?() || act.Label?()
  }

  /** The items for the actions from `p` on, where buffer index, offset and number of events are given */
  function Made(list: seq<Action>, start: nat, p: nat, args: seq<int>, idx: nat, raw: int, ev: nat): seq<Item>
    decreases |list| - p
  {
    if p >= |list| then []
    else
      var act, n := list[p], ArgOf(list[p], args);
      var x := Item(act, start, p, n, idx, raw, ev);
      [x] + if act.Last?() then []
            else Made(list, start, p + 1, ArgsBehind(act, args), idx + Slots(act), raw + MaxSize(x), if HasEvent(act) then ev + 1 else ev)
  }

  /** How many arguments the actions from `p` up to `q` take */
  function ArgsBetween(list: seq<Action>, p: nat, q: nat): nat
    requires p <= q <= |list|
    decreases q
  {
    if p == q then 0
    else ArgsBetween(list, p, q - 1)
         + match list[q - 1]
           case ImmS => 1
           case ImmB => 1
           case ImmW => 1
           case ImmD => 1
           case Space(_) => 1
           case RelPC => 1
           case LabelPC => 1
           case _ => 0
  }

  lemma {:induction false} ArgsFirst(list: seq<Action>, p: nat, q: nat)
    requires p < q <= |list|
    ensures ArgsBetween(list, p, q) == (if TakesArg(list[p]) then 1 else 0) + ArgsBetween(list, p + 1, q)
    decreases q
  {
    if p + 1 < q {
      ArgsFirst(list, p, q - 1);
    } else {
      assert ArgsBetween(list, p, p) == 0 && ArgsBetween(list, p + 1, p + 1) == 0;
    }
  }

  /** The first item, and those behind it */
  lemma MadeFirst(list: seq<Action>, start: nat, p: nat, args: seq<int>, idx: nat, raw: int, ev: nat) returns (idx': nat, raw': int, ev': nat)
    requires p < |list|
    ensures var made, act, n := Made(list, start, p, args, idx, raw, ev), list[p], ArgOf(list[p], args);
            && made != [] && made[0].act == act && made[0].p == p && made[0].start == start && made[0].arg == n
            && made[1..] == if act.Last?() then [] else Made(list, start, p + 1, ArgsBehind(act, args), idx', raw', ev')
  {
    hide MaxSize, Slots, HasEvent, ArgOf, ArgsBehind;
    var act := list[p];
    var x := Item(act, start, p, ArgOf(act, args), idx, raw, ev);
    idx', raw', ev' := idx + Slots(act), raw + MaxSize(x), if HasEvent(act) then ev + 1 else ev;
  }

  /** A put makes one item of each of its actions, in their order, and each takes its own argument. */
  lemma {:induction false} MadeIs(list: seq<Action>, start: nat, p: nat, args: seq<int>, idx: nat, raw: int, ev: nat, q: nat)
    requires ArgsOk(list, p, args) && p <= q < |list| && forall i :: p <= i < q ==> !list[i].Last?()
    ensures var made := Made(list, start, p, args, idx, raw, ev);
            && q - p < |made| && (list[q].Last?() ==> |made| == q - p + 1)
            && made[q - p].act == list[q] && made[q - p].p == q && made[q - p].start == start
            && (TakesArg(list[q]) ==> ArgsBetween(list, p, q) < |args| && made[q - p].arg == args[ArgsBetween(list, p, q)])
    decreases q - p
  {
    hide Made, ArgsBetween;
    var idx', raw', ev' := MadeFirst(list, start, p, args, idx, raw, ev);
    if p < q {
      MadeIs(list, start, p + 1, ArgsBehind(list[p], args), idx', raw', ev', q);
      ArgsFirst(list, p, q);
    } else {
      NoArgs(list, p);
    }
  }

  lemma NoArgs(list: seq<Action>, p: nat)
    requires p <= |list|
    ensures ArgsBetween(list, p, p) == 0
  {
  }

  /** A label reference or a definition, which is item `k` of section `s` */
  function EventOf(act: Action, n: int, s: nat, k: nat): Event {
    Event(act.Label?(), act.RelLG? && act.n > FORWARD_BASE, SlotOf(act, n), s, k)
  }

  /** The references and definitions among the actions from `p` on, the first of which makes item `k` */
  function MadeEvents(list: seq<Action>, p: nat, args: seq<int>, s: nat, k: nat): seq<Event>
    decreases |list| - p
  {
    if p >= |list| || list[p].Last?() then []
    else
      (if HasEvent(list[p]) then [EventOf(list[p], ArgOf(list[p], args), s, k)] else [])
      + MadeEvents(list, p + 1, ArgsBehind(list[p], args), s, k + 1)
  }

  /** A label, an immediate or a section of an action is in its range. */
  predicate InRange(act: Action, n: int, nlg: nat, npc: nat, nsec: nat) {
    match act
    case ImmS => -128 <= n < 128
    case ImmB => 0 <= n < 0x100
    case ImmW => 0 <= n < 0x1_0000
    case RelLG(l) => l <= FORWARD_BASE ==> l < nlg
    case RelPC => n < npc
    case LabelLG(l) => l < nlg
    case LabelPC => n < npc
    case Section(s) => s < nsec
    case _ => true
  }

  /** Just those immediates pass that their fields give back. */
  lemma TestedIsKept(n: int, nlg: nat, npc: nat, nsec: nat)
    ensures InRange(ImmS, n, nlg, npc, nsec) <==> Signed8(n % 0x100) == n
    ensures InRange(ImmB, n, nlg, npc, nsec) <==> n % 0x100 == n
    ensures InRange(ImmW, n, nlg, npc, nsec) <==> n % 0x1_0000 == n
  {
  }

  /** The test of a backward reference to a local label: there is a definition in force. */
  ghost predicate InForce(act: Action, events: seq<Event>) {
    act.RelLG? && act.n < 10 ==> StateOf(events, LG(act.n)).Defined?
  }

  /** All tests of a put from action `p` on */
  ghost predicate Passes(list: seq<Action>, p: nat, args: seq<int>, checks: bool, nlg: nat, npc: nat, nsec: nat, events: seq<Event>, s: nat, k: nat)
    decreases |list| - p
  {
    p < |list| ==>
      var act, n := list[p], ArgOf(list[p], args);
      && InRange(act, n, nlg, npc, nsec) && (checks ==> InForce(act, events))
      && (!act.Last?() ==> Passes(list, p + 1, ArgsBehind(act, args), checks, nlg, npc, nsec,
                                  if HasEvent(act) then events + [EventOf(act, n, s, k)] else events, s, k + 1))
  }

  /** The items, the next buffer index, the offset and the events during a put */
  datatype Progress = Progress(items: seq<seq<Item>>, idx: nat, o: int, events: seq<Event>)

  /** What is still to come from action `p` on completes what was made since `g0`. */
  ghost predicate Halfway(list: seq<Action>, start: nat, args: seq<int>, sec: nat, g0: Progress, p: nat, rest: seq<int>, g: Progress) {
    && sec < |g0.items| == |g.items| && g.items == g0.items[sec := g.items[sec]] && g0.events <= g.events
    && g0.items[sec] + Made(list, start, start, args, g0.idx, g0.o, |g0.events|) ==
       g.items[sec] + Made(list, start, p, rest, g.idx, g.o, |g.events|)
    && g0.events + MadeEvents(list, start, args, sec, |g0.items[sec]|) == g.events + MadeEvents(list, p, rest, sec, |g.items[sec]|)
  }

  /** The progress behind action `p` */
  function Further(list: seq<Action>, start: nat, sec: nat, p: nat, n: int, g: Progress): Progress
    requires p < |list| && sec < |g.items|
  {
    var act := list[p];
    var x := Item(act, start, p, n, g.idx, g.o, |g.events|);
    Progress(g.items[sec := g.items[sec] + [x]], g.idx + Slots(act), g.o + MaxSize(x),
             g.events + if HasEvent(act) then [EventOf(act, n, sec, |g.items[sec]|)] else [])
  }

  lemma MadeStep(list: seq<Action>, start: nat, sec: nat, p: nat, rest: seq<int>, g: Progress)
    requires p < |list| && !list[p].Last?() && sec < |g.items|
    ensures var n := ArgOf(list[p], rest);
            var h := Further(list, start, sec, p, n, g);
            Made(list, start, p, rest, g.idx, g.o, |g.events|) ==
            [Item(list[p], start, p, n, g.idx, g.o, |g.events|)] + Made(list, start, p + 1, ArgsBehind(list[p], rest), h.idx, h.o, |h.events|)
  {
    hide MaxSize, Slots, EventOf, HasEvent, ArgOf, ArgsBehind;
    var act, n := list[p], ArgOf(list[p], rest);
    var h := Further(list, start, sec, p, n, g);
    assert |h.events| == if HasEvent(act) then |g.events| + 1 else |g.events|;
  }

  lemma MadeEventsStep(list: seq<Action>, p: nat, rest: seq<int>, s: nat, k: nat)
    requires p < |list| && !list[p].Last?()
    ensures MadeEvents(list, p, rest, s, k) ==
            (if HasEvent(list[p]) then [EventOf(list[p], ArgOf(list[p], rest), s, k)] else [])
            + MadeEvents(list, p + 1, ArgsBehind(list[p], rest), s, k + 1)
  {
    hide EventOf;
  }

  lemma Regroup<T>(a: seq<T>, b: seq<T>, c: seq<T>)
    ensures a + (b + c) == (a + b) + c
  {
  }

  lemma HalfwayOn(list: seq<Action>, start: nat, args: seq<int>, sec: nat, g0: Progress, p: nat, rest: seq<int>, g: Progress)
    requires Halfway(list, start, args, sec, g0, p, rest, g) && p < |list| && !list[p].Last?()
    ensures Halfway(list, start, args, sec, g0, p + 1, ArgsBehind(list[p], rest), Further(list, start, sec, p, ArgOf(list[p], rest), g))
  {
    hide MaxSize, Slots, EventOf, Made, MadeEvents;
    var act, n := list[p], ArgOf(list[p], rest);
    var h := Further(list, start, sec, p, n, g);
    MadeStep(list, start, sec, p, rest, g);
    MadeEventsStep(list, p, rest, sec, |g.items[sec]|);
    Regroup(g.items[sec], [Item(act, start, p, n, g.idx, g.o, |g.events|)],
            Made(list, start, p + 1, ArgsBehind(act, rest), h.idx, h.o, |h.events|));
    Regroup(g.events, if HasEvent(act) then [EventOf(act, n, sec, |g.items[sec]|)] else [],
            MadeEvents(list, p + 1, ArgsBehind(act, rest), sec, |g.items[sec]| + 1));
  }

  lemma HalfwayEnd(list: seq<Action>, start: nat, args: seq<int>, sec: nat, g0: Progress, p: nat, rest: seq<int>, g: Progress, h: Progress)
    requires Halfway(list, start, args, sec, g0, p, rest, g) && p < |list| && list[p].Last?()
    requires h.events == g.events && h.items == Further(list, start, sec, p, 0, g).items
    ensures h.items == g0.items[sec := g0.items[sec] + Made(list, start, start, args, g0.idx, g0.o, |g0.events|)]
    ensures h.events == g0.events + MadeEvents(list, start, args, sec, |g0.items[sec]|)
  {
    hide MaxSize, Slots;
    assert Made(list, start, p, rest, g.idx, g.o, |g.events|) == [Item(list[p], start, p, 0, g.idx, g.o, |g.events|)];
    assert g.events + [] == g.events;
  }

  /** The tests of one action, and those of the others */
  lemma PassesOn(list: seq<Action>, start: nat, sec: nat, p: nat, rest: seq<int>, checks: bool, nlg: nat, npc: nat, nsec: nat, g: Progress)
    requires p < |list| && sec < |g.items|
    ensures var act, n := list[p], ArgOf(list[p], rest);
            var h := Further(list, start, sec, p, n, g);
            Passes(list, p, rest, checks, nlg, npc, nsec, g.events, sec, |g.items[sec]|) <==>
              && InRange(act, n, nlg, npc, nsec) && (checks ==> InForce(act, g.events))
              && (!act.Last?() ==> Passes(list, p + 1, ArgsBehind(act, rest), checks, nlg, npc, nsec, h.events, sec, |h.items[sec]|))
  {
    hide MaxSize, Slots, EventOf, InRange, InForce;
    assert g.events + [] == g.events;
  }

  lemma LastPasses(act: Action, n: int, nlg: nat, npc: nat, nsec: nat, events: seq<Event>)
    requires act.Last?()
    ensures InForce(act, events) && (InRange(act, n, nlg, npc, nsec) <==> act.Section? ==> act.n < nsec)
  {
  }

  lemma HalfwayStart(list: seq<Action>, start: nat, args: seq<int>, sec: nat, g: Progress)
    requires sec < |g.items|
    ensures Halfway(list, start, args, sec, g, start, args, g)
  {
  }

  class DasmState {
    const actionlist: seq<Action>
    /** DASM_CHECKS */
    const checks: bool
    var lglabels: seq<int>
    var pclabels: seq<int>
    var buf: seq<seq<int>>
    var ofs: seq<int>
    var section: nat
    var codesize: int
    var status: Status
    ghost var items: seq<seq<Item>>
    ghost var chain: map<Slot, seq<nat>>
    ghost var events: seq<Event>

    ghost function V(): Asm
      reads this
    {
      Asm(lglabels, pclabels, buf, items, chain, events)
    }

    ghost predicate SectionOk(s: nat)
      reads this
    {
      && s < |items| && s < |buf| && s < |ofs|
      && Layout(actionlist, V(), s) && EndsAt(V(), s, ofs[s]) && Closed(V(), s) && |buf[s]| < SECTION_SPAN
    }

    /** What holds between two calls of dasm_put. */
    ghost predicate Valid()
      reads this
    {
      && |buf| == |items| == |ofs| && section < |buf| && |lglabels| >= 10
      && LabelsOk(V()) && forall s: nat {:trigger SectionOk(s)} :: s < |buf| ==> SectionOk(s)
    }

    /** dasm_init, dasm_setupglobal, dasm_growpc and dasm_setup */
    constructor (actionlist: seq<Action>, checks: bool, maxsection: nat, maxgl: nat, maxpc: nat)
      requires maxsection > 0
      ensures Valid() && status.StatusOk? && events == [] && |buf| == maxsection && section == 0
      ensures forall s :: 0 <= s < maxsection ==> items[s] == [] && buf[s] == []
      ensures this.actionlist == actionlist && this.checks == checks && |lglabels| == 10 + maxgl && |pclabels| == maxpc
    {
      this.actionlist := actionlist;
      this.checks := checks;
      lglabels := seq(10 + maxgl, _ => 0);
      pclabels := seq(maxpc, _ => 0);
      buf := seq(maxsection, _ => []);
      ofs := seq(maxsection, _ => 0);
      section := 0;
      codesize := 0;
      status := StatusOk;
      items := seq(maxsection, _ => []);
      chain := map[];
      events := [];
    }

    // ----------------------------------------------------------------
    // dasm_put

    /** While a put is under way: the next action of section `sec` is action `p` of the put at `start`. */
    ghost predicate Putting(sec: nat, start: nat, p: nat, o: int)
      reads this
    {
      && |buf| == |items| == |ofs| && sec < |buf| && section < |buf| && |lglabels| >= 10
      && LabelsOk(V()) && PutOk(actionlist, start) && InPut(actionlist, start, p)
      && Layout(actionlist, V(), sec) && EndsAt(V(), sec, o) && items[sec] != []
      && (var y := items[sec][|items[sec]| - 1];
          !y.act.Last?() && y.start == start && p == if y.act.Begin? then start else y.p + 1)
      && (forall s: nat {:trigger SectionOk(s)} :: s < |buf| && s != sec ==> SectionOk(s))
      && |buf[sec]| + SlotCount(actionlist, p) < SECTION_SPAN
    }

    /** The item that action `p` makes. */
    ghost function NewItem(sec: nat, start: nat, p: nat, n: int, o: int): Item
      requires p < |actionlist| && sec < |buf|
      reads this
    {
      Item(actionlist[p], start, p, n, |buf[sec]|, o, |events|)
    }

    /** How far a put has come in section `sec` */
    ghost function Now(sec: nat, o: int): Progress
      requires sec < |buf|
      reads this
    {
      Progress(items, |buf[sec]|, o, events)
    }

    lemma NextAction(sec: nat, start: nat, p: nat, o: int)
      requires Putting(sec, start, p, o)
      ensures |lglabels| >= 10 && section < |buf| && InPut(actionlist, start, p)
      ensures p < |actionlist| && !actionlist[p].Begin? && OperandsOk(actionlist[p]) && |buf[sec]| > 0
      ensures !actionlist[p].Last?() ==> InPut(actionlist, start, p + 1)
      ensures !actionlist[p].Last?() ==> |buf[sec]| + Slots(actionlist[p]) + SlotCount(actionlist, p + 1) < SECTION_SPAN
    {
      hide LabelsOk, Layout;
      FirstWord(sec);
      if !actionlist[p].Last?() {
        var q: nat :| InPut(actionlist, start, q) && actionlist[q].Last?();
        assert InPut(actionlist, start, q);
      }
    }

    lemma FirstWord(sec: nat)
      requires sec < |items| && sec < |buf| && Layout(actionlist, V(), sec) && items[sec] != []
      ensures |buf[sec]| > 0
    {
      assert ItemAt(actionlist, V(), sec, 0);
    }

    /** An action without labels. */
    method PutPlain(sec: nat, ws: seq<int>, ghost start: nat, ghost p: nat, ghost n: int, ghost o: int, ghost o': int)
      requires Putting(sec, start, p, o) && !actionlist[p].Rel?() && !actionlist[p].Label?() && !actionlist[p].Last?()
      requires ArgOk(actionlist[p], n) && WordsOk(NewItem(sec, start, p, n, o), ws) && MaxSize(NewItem(sec, start, p, n, o)) >= 0
      requires o' == o + MaxSize(NewItem(sec, start, p, n, o))
      modifies this`buf, this`items
      ensures Putting(sec, start, p + 1, o') && |buf| == old(|buf|)
      ensures Now(sec, o') == Further(actionlist, start, sec, p, n, old(Now(sec, o)))
    {
      hide LabelsOk, Layout, PutOk;
      NextAction(sec, start, p, o);
      ghost var x, a := NewItem(sec, start, p, n, o), V();
      OthersBefore(sec);
      PushPlain(a, sec, x, ws);
      PushLayout(actionlist, a, sec, x, ws, o);
      buf := buf[sec := buf[sec] + ws];
      items := items[sec := items[sec] + [x]];
      assert V() == Push(a, sec, x, ws);
      OthersStay(a, sec);
    }

    lemma OthersBefore(sec: nat)
      requires |buf| == |items| == |ofs| && forall s: nat {:trigger SectionOk(s)} :: s < |buf| && s != sec ==> SectionOk(s)
      ensures forall s: nat :: s < |buf| && s != sec ==> Layout(actionlist, V(), s) && EndsAt(V(), s, ofs[s]) && Closed(V(), s)
      ensures forall s: nat :: s < |buf| && s != sec ==> |buf[s]| < SECTION_SPAN
    {
      hide Layout, EndsAt, Closed;
      forall s: nat | s < |buf| && s != sec
        ensures Layout(actionlist, V(), s) && EndsAt(V(), s, ofs[s]) && Closed(V(), s) && |buf[s]| < SECTION_SPAN
      {
        assert SectionOk(s);
      }
    }

    /** Another section with the same items and the same buffer is as good as before. */
    lemma OthersStay(a: Asm, sec: nat)
      requires |buf| == |items| == |ofs| == |a.buf| == |a.items|
      requires forall s: nat {:trigger items[s]} :: s < |items| && s != sec ==> items[s] == a.items[s] && buf[s] == a.buf[s]
      requires forall s: nat :: s < |buf| && s != sec ==> Layout(actionlist, a, s) && EndsAt(a, s, ofs[s]) && Closed(a, s)
      requires forall s: nat :: s < |buf| && s != sec ==> |buf[s]| < SECTION_SPAN
      ensures forall s: nat :: s < |buf| && s != sec ==> SectionOk(s)
    {
      hide Layout, EndsAt;
      forall s: nat | s < |buf| && s != sec ensures SectionOk(s) {
        SameLayout(a, s);
      }
    }

    lemma SameLayout(a: Asm, s: nat)
      requires s < |buf| && s < |items| && s < |a.buf| && s < |a.items| && items[s] == a.items[s] && buf[s] == a.buf[s]
      ensures Layout(actionlist, a, s) ==> Layout(actionlist, V(), s)
      ensures forall o :: EndsAt(a, s, o) ==> EndsAt(V(), s, o)
    {
      if Layout(actionlist, a, s) {
        LayoutFrame(actionlist, a, V(), s, 0);
      }
    }

    // Labels

    function Label(slot: Slot): int
      reads this
    {
      match slot
      case LG(n) => if n < |lglabels| then lglabels[n] else 0
      case PC(n) => if n < |pclabels| then pclabels[n] else 0
    }

    predicate Known(slot: Slot)
      reads this
    {
      match slot
      case LG(n) => n < |lglabels|
      case PC(n) => n < |pclabels|
    }

    method SetLabel(slot: Slot, v: int)
      requires Known(slot)
      modifies this`lglabels, this`pclabels
      ensures V() == WithVal(old(V()), slot, v) && |lglabels| == old(|lglabels|) && |pclabels| == old(|pclabels|)
    {
      match slot
      case LG(n) => lglabels := lglabels[n := v];
      case PC(n) => pclabels := pclabels[n := v];
    }

    /** The writes for a reference to a label. */
    method WriteRel(sec: nat, slot: Slot, fwd: bool, w1: int, ghost x: Item)
      requires sec < |buf| == |items| && slot == SlotOf(x.act, x.arg) && Known(slot) && x.idx == |buf[sec]| < SECTION_SPAN
      modifies this`buf, this`items, this`lglabels, this`pclabels, this`chain, this`events
      ensures V() == Referred(old(V()), sec, x, fwd, w1)
      ensures items == old(items[sec := items[sec] + [x]]) && events == old(events + [Event(false, fwd, slot, sec, |items[sec]|)])
      ensures |buf| == old(|buf|) && |buf[sec]| == old(|buf[sec]|) + 2 && forall s :: 0 <= s < |buf| && s != sec ==> buf[s] == old(buf)[s]
      ensures |lglabels| == old(|lglabels|) && |pclabels| == old(|pclabels|)
    {
      hide Val, WithVal;
      ghost var a := V();
      var v := Label(slot);
      var pos := Pos(sec, |buf[sec]|);
      LabelIsVal(slot);
      if !fwd && v < 0 {
        buf := buf[sec := buf[sec] + [-v, w1]];
      } else {
        buf := buf[sec := buf[sec] + [if v > 0 then v else 0, w1]];
        SetLabel(slot, pos);
        chain := chain[slot := [|events|] + ChainOf(a, slot)];
      }
      events := events + [Event(false, fwd, slot, sec, |items[sec]|)];
      items := items[sec := items[sec] + [x]];
      WithValCommutes(a, slot, pos);
    }

    /** REL_LG and REL_PC, once the label is known to exist */
    method PutRel(sec: nat, slot: Slot, fwd: bool, w1: int, ghost start: nat, ghost p: nat, ghost n: int, ghost o: int)
      requires Putting(sec, start, p, o) && actionlist[p].Rel?() && w1 == o + 4
      requires slot == SlotOf(actionlist[p], n) && Known(slot) && fwd == (actionlist[p].RelLG? && actionlist[p].n > FORWARD_BASE)
      modifies this`buf, this`items, this`lglabels, this`pclabels, this`chain, this`events
      ensures Putting(sec, start, p + 1, o + 4) && |buf| == old(|buf|)
      ensures Now(sec, o + 4) == Further(actionlist, start, sec, p, n, old(Now(sec, o)))
      ensures |lglabels| == old(|lglabels|) && |pclabels| == old(|pclabels|)
    {
      hide LabelsOk, Layout, PutOk, Val, WithVal;
      NextAction(sec, start, p, o);
      ghost var x, a := NewItem(sec, start, p, n, o), V();
      OthersBefore(sec);
      ReferredOk(a, sec, x, fwd, w1);
      ReferredLayout(actionlist, a, sec, x, fwd, w1, o);
      ReferredElsewhere(a, sec, x, fwd, w1);
      WriteRel(sec, slot, fwd, w1, x);
      OthersStay(a, sec);
    }

    /** `while (n > 0) { int *pb = DASM_POS2PTR(D, n); n = *pb; *pb = pos; }` */
    method Collapse(slot: Slot, pos: nat)
      requires LabelsOk(V()) && Known(slot)
      modifies this`buf
      ensures buf == SetAll(old(V()), ChainOf(old(V()), slot), pos)
    {
      hide LabelsOk, Word, PosOf, Binds, SetWord, SetAll, ChainOf;
      ghost var a := V();
      ghost var c := ChainOf(a, slot);
      LabelIsVal(slot);
      ChainStart(a, slot);
      var n := Label(slot);
      ghost var t := 0;
      NoneSet(a, c, pos);
      while n > 0
        invariant 0 <= t <= |c| && buf == SetAll(a, c[..t], pos) && V() == a.(buf := buf)
        invariant if t < |c| then n == PosOf(a, c[t]) > 0 else n <= 0
        decreases |c| - t
      {
        ChainStep(a, slot, t, pos);
        var pb := n;
        n := Word(buf, pb);
        buf := SetWord(buf, pb, pos);
        t := t + 1;
      }
      assert c[..t] == c;
    }

    /** The writes for the definition of a label. */
    method WriteLabel(sec: nat, slot: Slot, o: int, ghost x: Item)
      requires LabelsOk(V()) && sec < |buf| == |items| && slot == SlotOf(x.act, x.arg) && Known(slot) && x.idx == |buf[sec]| < SECTION_SPAN
      modifies this`buf, this`items, this`lglabels, this`pclabels, this`chain, this`events
      ensures V() == Placed(old(V()), sec, x, o)
      ensures items == old(items[sec := items[sec] + [x]]) && events == old(events + [Event(true, false, slot, sec, |items[sec]|)])
      ensures |buf| == old(|buf|) && |buf[sec]| == old(|buf[sec]|) + 1 && forall s :: 0 <= s < |buf| && s != sec ==> |buf[s]| == old(|buf[s]|)
      ensures |lglabels| == old(|lglabels|) && |pclabels| == old(|pclabels|)
    {
      hide LabelsOk, Val, WithVal, SetAll;
      ghost var a := V();
      var pos: int := Pos(sec, |buf[sec]|);
      Collapse(slot, pos);
      var v: int := -pos;
      SetLabel(slot, v);
      buf := buf[sec := buf[sec] + [o]];
      chain := chain[slot := []];
      events := events + [Event(true, false, slot, sec, |items[sec]|)];
      items := items[sec := items[sec] + [x]];
      WithValCommutes(a, slot, v);
    }

    /** LABEL_LG and LABEL_PC, once the label is known to exist */
    method PutLabel(sec: nat, slot: Slot, o: int, ghost start: nat, ghost p: nat, ghost n: int)
      requires Putting(sec, start, p, o) && actionlist[p].Label?() && slot == SlotOf(actionlist[p], n) && Known(slot)
      modifies this`buf, this`items, this`lglabels, this`pclabels, this`chain, this`events
      ensures Putting(sec, start, p + 1, o) && |buf| == old(|buf|)
      ensures Now(sec, o) == Further(actionlist, start, sec, p, n, old(Now(sec, o)))
      ensures |lglabels| == old(|lglabels|) && |pclabels| == old(|pclabels|)
    {
      hide LabelsOk, Layout, PutOk, Val, WithVal, SetAll, EndsAt, Closed;
      NextAction(sec, start, p, o);
      ghost var x, a := NewItem(sec, start, p, n, o), V();
      OthersBefore(sec);
      PlacedOk(a, sec, x, o);
      PlacedLayout(actionlist, a, sec, x, o);
      forall s: nat | s < |buf| && s != sec
        ensures Layout(actionlist, Placed(a, sec, x, o), s) && EndsAt(Placed(a, sec, x, o), s, ofs[s]) && Closed(Placed(a, sec, x, o), s)
      {
        PlacedElsewhere(actionlist, a, sec, x, o, s, ofs[s]);
      }
      WriteLabel(sec, slot, o, x);
      forall s: nat | s < |buf| && s != sec ensures SectionOk(s) {
      }
    }

    // The loop of dasm_put

    method BeginPut(start: nat)
      requires Valid() && PutOk(actionlist, start) && |buf[section]| + 1 + SlotCount(actionlist, start) < SECTION_SPAN
      modifies this`buf, this`items
      ensures section < old(|ofs|) && Putting(section, start, start, ofs[section])
      ensures |buf| == old(|buf|) && |buf[section]| == old(|buf[section]|) + 1
      ensures items == old(items[section := items[section] + [Item(Begin, start, start, 0, |buf[section]|, ofs[section], |events|)]])
    {
      hide LabelsOk, Layout, PutOk;
      var sec := section;
      ghost var x, a := Item(Begin, start, start, 0, |buf[sec]|, ofs[sec], |events|), V();
      assert SectionOk(sec);
      OthersBefore(sec);
      PutStarts(start);
      PushPlain(a, sec, x, [start]);
      PushLayout(actionlist, a, sec, x, [start], ofs[sec]);
      buf := buf[sec := buf[sec] + [start]];
      items := items[sec := items[sec] + [x]];
      assert V() == Push(a, sec, x, [start]);
      OthersStay(a, sec);
    }

    lemma PutStarts(start: nat)
      requires PutOk(actionlist, start)
      ensures InPut(actionlist, start, start)
    {
      var q: nat :| InPut(actionlist, start, q) && actionlist[q].Last?();
    }

    /** SECTION and STOP: the section gets its new offset. */
    method EndPut(sec: nat, o: int, next: nat, ghost start: nat, ghost p: nat)
      requires Putting(sec, start, p, o) && actionlist[p].Last?() && next < |buf|
      modifies this`ofs, this`items, this`section
      ensures Valid() && section == next
      ensures items == Further(actionlist, start, sec, p, 0, old(Now(sec, o))).items
    {
      hide LabelsOk, Layout, PutOk;
      NextAction(sec, start, p, o);
      ghost var x, a := NewItem(sec, start, p, 0, o), V();
      OthersBefore(sec);
      PushPlain(a, sec, x, []);
      PushLayout(actionlist, a, sec, x, [], o);
      assert buf[sec] + [] == buf[sec] && buf[sec := buf[sec]] == buf;
      items := items[sec := items[sec] + [x]];
      ofs := ofs[sec := o];
      section := next;
      assert V() == Push(a, sec, x, []);
      OthersStay(a, sec);
      assert SectionOk(sec);
    }

    lemma PlainWords(sec: nat, start: nat, p: nat, n: int, o: int)
      requires Putting(sec, start, p, o) && p < |actionlist|
      ensures var x, act := NewItem(sec, start, p, n, o), actionlist[p];
              && x.act == act && x.arg == n && x.raw == o
              && (act.Byte? || act.Esc? ==> WordsOk(x, []) && MaxSize(x) == 1)
              && (act.ImmS? || act.ImmB? ==> WordsOk(x, [n]) && MaxSize(x) == 1)
              && (act.ImmW? ==> WordsOk(x, [n]) && MaxSize(x) == 2)
              && (act.ImmD? ==> WordsOk(x, [n]) && MaxSize(x) == 4)
              && (act.Space? ==> WordsOk(x, [n]) && MaxSize(x) == n)
              && (act.Align? ==> WordsOk(x, [o + act.mask]) && MaxSize(x) == act.mask)
    {
    }

    /** An entry below zero is a definition in force. */
    lemma EntryInForce(act: Action)
      requires LabelsOk(V()) && |lglabels| >= 10
      ensures InForce(act, events) <==> (act.RelLG? && act.n < 10 ==> lglabels[act.n] < 0)
    {
      hide LabelsOk, StateOf;
      if act.RelLG? && act.n < 10 {
        SlotValue(V(), LG(act.n));
      }
    }

    /** An immediate, a label reference or a definition that is not in its range is an error. */
    method TestAction(action: Action, n: int) returns (ok: bool)
      requires LabelsOk(V()) && |lglabels| >= 10 && status.StatusOk? && !action.Last?()
      requires (action.RelPC? || action.LabelPC? ==> n >= 0) && (action.RelLG? ==> action.n < 256)
      modifies this`status
      ensures ok <==> InRange(action, n, |lglabels|, |pclabels|, |buf|) && (checks ==> InForce(action, events))
      ensures ok <==> status.StatusOk?
    {
      hide LabelsOk, StateOf;
      EntryInForce(action);
      match action {
        case ImmS => if !(-128 <= n < 128) { status := RangeI; }
        case ImmB => if !(0 <= n < 0x100) { status := RangeI; }
        case ImmW => if !(0 <= n < 0x1_0000) { status := RangeI; }
        case RelLG(l) =>
          if l <= FORWARD_BASE {
            if checks && l < 10 && lglabels[l] >= 0 {
              status := RangeLG;
            } else if l >= |lglabels| {
              status := RangeLG;
            }
          }
        case RelPC => if n >= |pclabels| { status := RangePC; }
        case LabelLG(l) => if l >= |lglabels| { status := RangeLG; }
        case LabelPC => if n >= |pclabels| { status := RangePC; }
        case _ =>
      }
      ok := status.StatusOk?;
    }

    /** An action that passed its tests, other than the last one */
    method PutAction(sec: nat, n: int, o: int, action: Action, ghost start: nat, ghost p: nat) returns (o': int)
      requires Putting(sec, start, p, o) && p < |actionlist| && action == actionlist[p] && !action.Last?() && !action.Begin?
      requires InRange(action, n, |lglabels|, |pclabels|, |buf|) && OperandsOk(action)
      requires action.Space? || action.RelPC? || action.LabelPC? ==> n >= 0
      modifies this`buf, this`items, this`lglabels, this`pclabels, this`chain, this`events
      ensures Putting(sec, start, p + 1, o') && |buf| == old(|buf|)
      ensures Now(sec, o') == Further(actionlist, start, sec, p, n, old(Now(sec, o)))
      ensures |lglabels| == old(|lglabels|) && |pclabels| == old(|pclabels|)
    {
      hide LabelsOk, Layout, PutOk, Putting, WordsOk, SectionOk, SlotCount;
      PlainWords(sec, start, p, n, o);
      PuttingLabels(sec, start, p, o);
      o' := o;
      match action {
        case Byte(_) =>
          o' := o + 1;
          PutPlain(sec, [], start, p, n, o, o');
        case Esc(_) =>
          o' := o + 1;
          PutPlain(sec, [], start, p, n, o, o');
        case ImmS =>
          o' := o + 1;
          PutPlain(sec, [n], start, p, n, o, o');
        case ImmB =>
          o' := o + 1;
          PutPlain(sec, [n], start, p, n, o, o');
        case ImmW =>
          o' := o + 2;
          PutPlain(sec, [n], start, p, n, o, o');
        case ImmD =>
          o' := o + 4;
          PutPlain(sec, [n], start, p, n, o, o');
        case Space(_) =>
          o' := o + n;
          PutPlain(sec, [n], start, p, n, o, o');
        case Align(mask) =>
          o' := o + mask;
          PutPlain(sec, [o + mask], start, p, n, o, o');
        case RelLG(l) =>
          o' := o + 4;
          PutRel(sec, LG(if l <= FORWARD_BASE then l else l - FORWARD_BASE), l > FORWARD_BASE, o', start, p, n, o);
        case RelPC =>
          o' := o + 4;
          PutRel(sec, PC(n), false, o', start, p, n, o);
        case LabelLG(l) => PutLabel(sec, LG(l), o, start, p, n);
        case LabelPC => PutLabel(sec, PC(n), o, start, p, n);
      }
    }

    lemma ValidSections()
      requires Valid()
      ensures section < |buf| == |items| == |ofs|
    {
    }

    lemma PuttingLabels(sec: nat, start: nat, p: nat, o: int)
      requires Putting(sec, start, p, o)
      ensures |lglabels| >= 10 && LabelsOk(V()) && section < |buf| && sec < |buf| == |items| == |ofs| && |lglabels| >= 10
    {
    }

    /**
     dasm_put, with the tests that DASM_CHECKS adds; if one fails, the state is not to be used any more.
     Without DASM_CHECKS, only backward references are not tested: all else would be beyond its array.
     */
    method Put(start: nat, args: seq<int>)
      requires Valid() && status.StatusOk? && PutOk(actionlist, start) && ArgsOk(actionlist, start, args)
      requires |buf[section]| + 1 + SlotCount(actionlist, start) < SECTION_SPAN
      modifies this
      ensures var sec := old(section);
              && sec < old(|items|) && sec < old(|buf|) && sec < old(|ofs|)
              && (status.StatusOk? <==> Passes(actionlist, start, args, checks, old(|lglabels|), old(|pclabels|), old(|buf|),
                                               old(events), sec, old(|items[sec]|) + 1))
      ensures status.StatusOk? ==>
                && Valid()
                && var sec, idx, o, ev := old(section), old(|buf[section]|), old(ofs[section]), old(|events|);
                && items == old(items)[sec := old(items[sec]) + [Item(Begin, start, start, 0, idx, o, ev)]
                                              + Made(actionlist, start, start, args, idx + 1, o, ev)]
                && events == old(events) + MadeEvents(actionlist, start, args, sec, old(|items[sec]|) + 1)
      ensures status.StatusOk? ==> exists q: nat :: EndsPut(actionlist, start, q) && section == SectionBehind(actionlist[q], old(section))
    {
      hide LabelsOk, Layout, PutOk, Putting, NewItem, WordsOk, MaxSize, SectionOk, SlotCount, InForce, InRange, Halfway, Made, MadeEvents, Passes, Valid, Further;
      ValidSections();
      var sec := section;
      var o, p, rest := ofs[sec], start, args;
      BeginPut(start);
      PuttingLabels(sec, start, p, o);
      ghost var g0 := Now(sec, o);
      HalfwayStart(actionlist, start, args, sec, g0);
      while true
        invariant Putting(sec, start, p, o) && status.StatusOk? && ArgsOk(actionlist, p, rest) && sec < |items|
        invariant |lglabels| == old(|lglabels|) && |pclabels| == old(|pclabels|) && |buf| == old(|buf|)
        invariant section == sec
        invariant Halfway(actionlist, start, args, sec, g0, p, rest, Now(sec, o))
        invariant Passes(actionlist, p, rest, checks, |lglabels|, |pclabels|, |buf|, events, sec, |items[sec]|) <==>
                  Passes(actionlist, start, args, checks, |lglabels|, |pclabels|, |buf|, old(events), sec, |g0.items[sec]|)
        decreases |actionlist| - p
      {
        NextAction(sec, start, p, o);
        PuttingLabels(sec, start, p, o);
        var action := actionlist[p];
        var n := if TakesArg(action) then rest[0] else 0;
        PassesOn(actionlist, start, sec, p, rest, checks, |lglabels|, |pclabels|, |buf|, Now(sec, o));
        if action.Last?() {
          LastPasses(action, n, |lglabels|, |pclabels|, |buf|, events);
          var next := if action.Section? then action.n else section;
          if next >= |buf| {
            status := RangeSec;
            return;
          }
          ghost var g := Now(sec, o);
          assert EndsPut(actionlist, start, p) && next == SectionBehind(action, sec);
          EndPut(sec, o, next, start, p);
          HalfwayEnd(actionlist, start, args, sec, g0, p, rest, g, Now(sec, o));
          return;
        }
        var ok := TestAction(action, n);
        if !ok {
          return;
        }
        HalfwayOn(actionlist, start, args, sec, g0, p, rest, Now(sec, o));
        o := PutAction(sec, n, o, action, start, p);
        rest := if TakesArg(action) then rest[1..] else rest;
        p := p + 1;
        PuttingLabels(sec, start, p, o);
      }
    }

    // ----------------------------------------------------------------
    // dasm_link

    lemma ValidIsLaid()
      requires Valid()
      ensures AllLaid(actionlist, V(), ofs) && LabelsOk(V()) && |items| == |buf| > 0
    {
      hide LabelsOk, Layout, EndsAt, Closed;
      forall s: nat | s < |items| ensures Layout(actionlist, V(), s) && EndsAt(V(), s, ofs[s]) && Closed(V(), s) && |buf[s]| < SECTION_SPAN {
        assert SectionOk(s);
      }
    }

    /** The second pass at action `p` of item `k`; `op` is the opcode byte that it remembers. */
    ghost predicate AtAction(a: Asm, shr: Shrinks, s: nat, k: nat, o: int, pos: nat, p: nat, op: nat)
      reads this
    {
      && Linking(actionlist, a, ofs, buf, shr, s, k, o) && k < |a.items[s]|
      && var x := a.items[s][k];
         !x.act.Begin? && pos == x.idx && p == x.p && x.start <= p < |actionlist| && actionlist[p] == x.act && op == OpBefore(actionlist, x.start, p)
    }

    /** The sum loop for a label in a later section. */
    method AddSections(lofs0: int, secnum: nat, lsec: nat) returns (lofs: int)
      requires secnum <= lsec <= |ofs|
      ensures lofs == lofs0 + SumOfs(ofs, secnum, lsec)
    {
      lofs := lofs0;
      var i := secnum;
      while i < lsec
        invariant secnum <= i <= lsec && lofs == lofs0 + SumOfs(ofs, secnum, i)
      {
        lofs := lofs + ofs[i];
        i := i + 1;
      }
    }

    /** The case of a branch in dasm_link: whether it is shrunk, and the new adjustment */
    method LinkBranch(s: nat, pos: nat, op: nat, o: int, ghost a: Asm, ghost shr: Shrinks, ghost k: nat, ghost p: nat)
      returns (o': int, ghost shr': Shrinks)
      requires AtAction(a, shr, s, k, o, pos, p, op) && LabelsOk(a) && AllBound(a) && actionlist[p].Rel?()
      modifies this`buf
      ensures Linking(actionlist, a, ofs, buf, shr', s, k + 1, o') && |buf| == old(|buf|)
    {
      hide LabelsOk, AllBound, Linking, Word, LinkedAt, Estimate, Final, Shrinkable, OpBefore, Flat, Start, TargetOf;
      LinkingFacts(actionlist, a, ofs, buf, shr, s, k, o);
      ghost var buf0, g := buf, Start(a.items, s) + k;
      ghost var t, m := BranchDistance(actionlist, a, ofs, buf, shr, s, k, o);
      ghost var target := TargetOf(a, a.items[s][k]);
      var at := Pos(s, pos);
      var shrink := Shrinkable(op);
      if shrink != 0 {
        var lpos := Word(buf, at);
        var lofs := Word(buf, lpos);
        if lpos > at {
          lofs := AddSections(lofs, s, lpos / SECTION_SPAN);
        } else {
          lofs := lofs - o;
        }
        lofs := lofs - Word(buf, at + 1);
        if -128 - (shrink as int) <= lofs <= 127 {
          o' := o - shrink;
          ShortFrom(Program(a.items), shr, g, target, shrink, lofs);
        } else {
          shrink := 0;
          o' := o;
        }
      } else {
        o' := o;
      }
      buf := SetWord(buf, at + 1, shrink);
      shr' := shr[g := shrink];
      BranchStep(actionlist, a, ofs, buf0, shr, s, k, o, shrink, target);
    }

    method LinkLabel(s: nat, pos: nat, o: int, ghost a: Asm, ghost shr: Shrinks, ghost k: nat, ghost p: nat, ghost op: nat)
      requires AtAction(a, shr, s, k, o, pos, p, op) && actionlist[p].Label?()
      modifies this`buf
      ensures Linking(actionlist, a, ofs, buf, shr, s, k + 1, o) && |buf| == old(|buf|)
    {
      hide Linking, Word, LinkedAt;
      LabelStep(actionlist, a, ofs, buf, shr, s, k, o);
      var at := Pos(s, pos);
      buf := SetWord(buf, at, Word(buf, at) + o);
    }

    /** All other actions leave the buffer alone. */
    lemma LinkOther(s: nat, o: int, a: Asm, shr: Shrinks, k: nat, o': int)
      requires Linking(actionlist, a, ofs, buf, shr, s, k, o) && k < |a.items[s]|
      requires !a.items[s][k].act.Rel?() && !a.items[s][k].act.Label?()
      requires Start(a.items, s) + k < |Program(a.items)| && s < |ofs|
      requires o' == if a.items[s][k].act.Align? then o - Masked(a.items[s][k].raw + a.items[s][k].act.mask + o, a.items[s][k].act.mask) else o
      ensures Linking(actionlist, a, ofs, buf, shr, s, k + 1, o')
    {
      OtherStep(actionlist, a, ofs, buf, shr, s, k, o, o');
    }

    /** One action of the second pass. */
    method LinkAction(s: nat, pos: nat, p: nat, op: nat, o: int, ghost a: Asm, ghost shr: Shrinks, ghost k: nat)
      returns (pos': nat, op': nat, o': int, ghost shr': Shrinks)
      requires AtAction(a, shr, s, k, o, pos, p, op) && LabelsOk(a) && AllBound(a) && !actionlist[p].Last?()
      modifies this`buf
      ensures k + 1 < |a.items[s]| && AtAction(a, shr', s, k + 1, o', pos', p + 1, op') && |buf| == old(|buf|)
    {
      hide LabelsOk, AllBound, Linking, Word, LinkedAt, Estimate, Final, OpBefore, Flat, Start, Masked;
      LinkingFacts(actionlist, a, ofs, buf, shr, s, k, o);
      NextAt(actionlist, a, ofs, s, k);
      NextAction2(a, s, k);
      var action := actionlist[p];
      shr' := shr;
      pos', op', o' := pos + Slots(action), op, o;
      match action {
        case RelLG(_) => o', shr' := LinkBranch(s, pos, op, o, a, shr, k, p);
        case RelPC => o', shr' := LinkBranch(s, pos, op, o, a, shr, k, p);
        case LabelLG(_) => LinkLabel(s, pos, o, a, shr, k, p, op);
        case LabelPC => LinkLabel(s, pos, o, a, shr, k, p, op);
        case Align(mask) =>
          WordIs(a, s, a.items[s][k].idx);
          assert Word(buf, Pos(s, pos)) == Word(a.buf, Pos(s, pos));
          o' := o - Masked(Word(buf, Pos(s, pos)) + o, mask);
          LinkOther(s, o, a, shr, k, o');
        case Byte(b) => op' := b; LinkOther(s, o, a, shr, k, o);
        case Esc(b) => op' := b; LinkOther(s, o, a, shr, k, o);
        case _ => LinkOther(s, o, a, shr, k, o);
      }
      NextOp(a, s, k);
      LinkingFacts(actionlist, a, ofs, buf, shr', s, k + 1, o');
    }

    /** The item behind an action that does not end its put. */
    lemma NextAction2(a: Asm, s: nat, k: nat)
      requires AllLaid(actionlist, a, ofs) && s < |a.items| && k < |a.items[s]| && !a.items[s][k].act.Last?()
      ensures k + 1 < |a.items[s]| && Follows(a.items[s][k], a.items[s][k + 1]) && s < |a.buf|
      ensures ItemAt(actionlist, a, s, k) && ItemAt(actionlist, a, s, k + 1)
    {
      hide AllLaid;
      LaidOut(actionlist, a, ofs, s);
      assert StepAt(a, s, k);
      assert ItemAt(actionlist, a, s, k) && (k + 1 < |a.items[s]| ==> ItemAt(actionlist, a, s, k + 1));
    }

    lemma NextOp(a: Asm, s: nat, k: nat)
      requires s < |a.items| && k + 1 < |a.items[s]| && Follows(a.items[s][k], a.items[s][k + 1]) && s < |a.buf|
      requires ItemAt(actionlist, a, s, k) && ItemAt(actionlist, a, s, k + 1) && !a.items[s][k].act.Last?()
      ensures var x, y := a.items[s][k], a.items[s][k + 1];
              && y.start == x.start && !y.act.Begin? && y.start <= y.p < |actionlist| && actionlist[y.p] == y.act
              && (x.act.Begin? ==> y.p == x.start && OpBefore(actionlist, y.start, y.p) == 0)
              && (!x.act.Begin? ==>
                    y.p == x.p + 1 && x.p < |actionlist|
                    && OpBefore(actionlist, y.start, y.p) == if x.act.Byte? || x.act.Esc? then x.act.b else OpBefore(actionlist, x.start, x.p))
    {
      hide PutOk;
    }

    /** dasm_link: the size of the code, and with it the branches that were shrunk */
    method Link() returns (st: Status, size: int, ghost shr: Shrinks)
      requires Valid() && status.StatusOk? && forall n :: 0 <= n < |lglabels| ==> lglabels[n] <= 0
      modifies this`buf, this`codesize
      ensures st.UndefPC? ==> st.pc < |pclabels| && pclabels[st.pc] > 0 && buf == old(buf)
      ensures st.StatusOk? || st.UndefPC?
      ensures st.StatusOk? ==> AllBound(old(V())) && Linked(actionlist, old(V()), ofs, buf, shr)
                               && size == codesize == Final(Program(items), shr, |shr|)
    {
      hide LabelsOk, AllBound, Linking, Word, LinkedAt, Estimate, Final, OpBefore, Flat, Start, Layout, EndsAt, Closed;
      st, size, shr := StatusOk, 0, [];
      ValidIsLaid();
      ghost var a := V();
      var pc := 0;
      while pc < |pclabels|
        invariant 0 <= pc <= |pclabels| && forall n :: 0 <= n < pc ==> pclabels[n] <= 0
      {
        if pclabels[pc] > 0 {
          return UndefPC(pc), 0, [];
        }
        pc := pc + 1;
      }
      NoChains();
      var o := 0;
      var s := 0;
      shr := seq(|Program(a.items)|, _ => 0);
      LinkingStarts(actionlist, a, ofs);
      while true
        invariant s < |buf| && |buf| == |a.items| == |ofs| && Linking(actionlist, a, ofs, buf, shr, s, 0, o)
        decreases |a.items| - s
      {
        o, shr := LinkSection(s, o, a, shr);
        LinkingFacts(actionlist, a, ofs, buf, shr, s, |a.items[s]|, o);
        if s + 1 == |buf| {
          LinkingEnds(actionlist, a, ofs, buf, shr, s, o);
        } else {
          NextSection(actionlist, a, ofs, buf, shr, s, o);
        }
        o := o + ofs[s];
        s := s + 1;
        if s == |buf| {
          break;
        }
      }
      codesize := o;
      size := o;
    }

    lemma NoChains()
      requires LabelsOk(V()) && (forall n :: 0 <= n < |lglabels| ==> lglabels[n] <= 0) && (forall n :: 0 <= n < |pclabels| ==> pclabels[n] <= 0)
      ensures AllBound(V())
    {
      hide LabelsOk, AllBound;
      NothingPending(V());
    }

    /** The loop over the puts of one section. */
    method LinkSection(s: nat, o0: int, ghost a: Asm, ghost shr0: Shrinks) returns (o: int, ghost shr: Shrinks)
      requires s < |buf| && Linking(actionlist, a, ofs, buf, shr0, s, 0, o0) && LabelsOk(a) && AllBound(a)
      modifies this`buf
      ensures Linking(actionlist, a, ofs, buf, shr, s, |a.items[s]|, o) && |buf| == old(|buf|)
    {
      hide LabelsOk, AllBound, Linking, Word, LinkedAt, Estimate, Final, OpBefore, Flat, Start, Layout, EndsAt, Closed, ItemAt, PutOk;
      o, shr := o0, shr0;
      LinkingFacts(actionlist, a, ofs, buf, shr, s, 0, o);
      var pos: nat := 0;
      var lastpos := |buf[s]|;
      ghost var k := 0;
      SectionStarts(a, s);
      while pos != lastpos
        invariant s < |buf| && s < |a.items| && k <= |a.items[s]| && |buf| == old(|buf|)
        invariant Linking(actionlist, a, ofs, buf, shr, s, k, o)
        invariant if k < |a.items[s]| then a.items[s][k].act.Begin? && pos == a.items[s][k].idx else pos == lastpos
        invariant lastpos == |buf[s]|
        decreases |a.items[s]| - k
      {
        BeginWord(a, s, k, shr, o);
        var p: nat := buf[s][pos];
        pos := pos + 1;
        LinkOther(s, o, a, shr, k, o);
        k := k + 1;
        var op: nat := 0;
        ghost var k0 := k;
        while !actionlist[p].Last?()
          invariant k0 <= k && s < |buf| && s < |a.items| && AtAction(a, shr, s, k, o, pos, p, op) && |buf| == old(|buf|)
          decreases |a.items[s]| - k
        {
          pos, op, o, shr := LinkAction(s, pos, p, op, o, a, shr, k);
          k := k + 1;
          p := p + 1;
        }
        LastOfPut(a, s, k, shr, o);
        LinkOther(s, o, a, shr, k, o);
        k := k + 1;
        LinkingFacts(actionlist, a, ofs, buf, shr, s, k, o);
      }
      AllSeen(a, s, k);
    }

    lemma SectionStarts(a: Asm, s: nat)
      requires AllLaid(actionlist, a, ofs) && s < |a.items|
      ensures s < |a.buf| && if a.items[s] == [] then |a.buf[s]| == 0 else a.items[s][0].act.Begin? && a.items[s][0].idx == 0
    {
      hide AllLaid;
      LaidOut(actionlist, a, ofs, s);
    }

    lemma BeginWord(a: Asm, s: nat, k: nat, shr: Shrinks, o: int)
      requires Linking(actionlist, a, ofs, buf, shr, s, k, o) && k < |a.items[s]| && a.items[s][k].act.Begin?
      ensures s < |buf| && a.items[s][k].idx < |buf[s]| && buf[s][a.items[s][k].idx] == a.items[s][k].start
      ensures Start(a.items, s) + k < |Program(a.items)| && s < |ofs|
      ensures k + 1 < |a.items[s]|
      ensures var y := a.items[s][k + 1];
              && y.start == a.items[s][k].start == y.p && !y.act.Begin? && y.p < |actionlist| && actionlist[y.p] == y.act
              && y.idx == a.items[s][k].idx + 1 && OpBefore(actionlist, y.start, y.p) == 0
    {
      hide Linking, Word, LinkedAt, AllLaid, Layout, Flat, Start, Final;
      LinkingFacts(actionlist, a, ofs, buf, shr, s, k, o);
      NextAt(actionlist, a, ofs, s, k);
      NextAction2(a, s, k);
      NextOp(a, s, k);
      WordIs(a, s, a.items[s][k].idx);
      BufWord(s, a.items[s][k].idx);
      assert Word(buf, Pos(s, a.items[s][k].idx)) == Word(a.buf, Pos(s, a.items[s][k].idx));
    }

    lemma BufWord(s: nat, i: nat)
      requires s < |buf| && i < |buf[s]| < SECTION_SPAN
      ensures Word(buf, Pos(s, i)) == buf[s][i]
    {
      PosParts(s, i);
    }

    lemma LastOfPut(a: Asm, s: nat, k: nat, shr: Shrinks, o: int)
      requires Linking(actionlist, a, ofs, buf, shr, s, k, o) && k < |a.items[s]| && a.items[s][k].act.Last?()
      ensures Start(a.items, s) + k < |Program(a.items)| && s < |ofs| && s < |a.buf| && |a.buf[s]| == |buf[s]|
      ensures k + 1 == |a.items[s]| ==> a.items[s][k].idx == |a.buf[s]|
      ensures k + 1 < |a.items[s]| ==> a.items[s][k + 1].act.Begin? && a.items[s][k + 1].idx == a.items[s][k].idx
    {
      hide Linking, Word, LinkedAt, AllLaid, Flat, Start, Final;
      LinkingFacts(actionlist, a, ofs, buf, shr, s, k, o);
      NextAt(actionlist, a, ofs, s, k);
      LaidOut(actionlist, a, ofs, s);
      assert StepAt(a, s, k);
    }

    /** Behind the last word there is no item. */
    lemma AllSeen(a: Asm, s: nat, k: nat)
      requires s < |a.items| && k <= |a.items[s]| && s < |buf| && AllLaid(actionlist, a, ofs) && |a.buf| == |buf| && |a.buf[s]| == |buf[s]|
      requires k < |a.items[s]| ==> a.items[s][k].act.Begin? && a.items[s][k].idx == |buf[s]|
      ensures k == |a.items[s]|
    {
      hide AllLaid;
      if k < |a.items[s]| {
        NextAt(actionlist, a, ofs, s, k);
      }
    }

    // ----------------------------------------------------------------
    // dasm_encode

    /** The third pass at item `k` of section `s`. */
    ghost predicate Encoding(a: Asm, shr: Shrinks, s: nat, k: nat, out: seq<nat>)
      reads this
    {
      && Linked(actionlist, a, ofs, buf, shr) && LabelsOk(a) && AllBound(a) && s < |a.items| && k <= |a.items[s]|
      && Start(a.items, s) + k <= |Program(a.items)| == |shr| && out == Code(a, Program(a.items), shr, Start(a.items, s) + k)
    }

    /** The bytes of a branch */
    method EncodeBranch(out0: seq<nat>, at: nat) returns (out: seq<nat>)
      requires Word(buf, at) >= 0 && Word(buf, at + 1) >= 0 && Word(buf, at + 1) <= 4
      requires Word(buf, at + 1) == 4 ==> |out0| >= 2
      requires Word(buf, at + 1) != 0 ==> |out0| >= 1
      ensures out == EmitBranch(out0, Word(buf, at + 1), Word(buf, Word(buf, at)) - (|out0| + 4 - Word(buf, at + 1)))
    {
      hide Word, LittleEndian;
      out := out0;
      var n := Word(buf, at);
      var shrink := Word(buf, at + 1);
      n := Word(buf, n) - (|out| + 4 - shrink);
      if shrink == 0 {
        out := out + LittleEndian(n, 4);
      } else {
        if shrink == 4 {
          var last: int := out[|out| - 1];
          out := out[..|out| - 1];
          out := out[|out| - 1 := Byte8(last - 0x10)];
        } else {
          out := out[|out| - 1 := 0xeb];
        }
        out := out + [Byte8(n)];
      }
    }

    method EncodeSpace(out0: seq<nat>, fill: nat, n0: int) returns (out: seq<nat>)
      requires n0 >= 0
      ensures out == out0 + Fill(fill, n0)
    {
      out := out0;
      var n := n0;
      while n != 0
        invariant 0 <= n <= n0 && out == out0 + Fill(fill, n0 - n)
        decreases n
      {
        n := n - 1;
        out := out + [fill];
      }
    }

    method EncodeAlign(out0: seq<nat>, mask: nat) returns (out: seq<nat>)
      ensures out == out0 + Fill(0x90, mask - Masked(|out0| + mask, mask))
    {
      out := out0;
      ghost var i := 0;
      ghost var pad := mask - Masked(|out0| + mask, mask);
      Padding(|out0|, mask, 0);
      while Masked(|out|, mask) != 0
        invariant 0 <= i <= pad && out == out0 + Fill(0x90, i)
        decreases pad - i
      {
        Padding(|out0|, mask, i);
        out := out + [0x90];
        i := i + 1;
      }
      Padding(|out0|, mask, i);
    }

    /** One action of the third pass. */
    method EncodeAction(s: nat, pos: nat, p: nat, out0: seq<nat>, ghost a: Asm, ghost shr: Shrinks, ghost k: nat)
      returns (pos': nat, out: seq<nat>)
      requires Encoding(a, shr, s, k, out0) && k < |a.items[s]| && p < |actionlist|
      requires a.items[s][k].act == actionlist[p] && pos == a.items[s][k].idx && !actionlist[p].Begin?
      ensures pos' == pos + Slots(actionlist[p]) && Encoding(a, shr, s, k + 1, out)
    {
      hide LabelsOk, AllBound, Linked, Word, Final, Flat, Start, OpBefore, TargetOf, LittleEndian, Masked, Code, Encodable, DispAt, IsMask;
      OtherOperands(actionlist, a, ofs, buf, shr, s, k);
      ghost var g, prog := Start(a.items, s) + k, Program(a.items);
      LinkedEncodable(actionlist, a, ofs, buf, shr);
      CodeSteps(a, prog, shr, g);
      var action := actionlist[p];
      var at := Pos(s, pos);
      pos' := pos + Slots(action);
      out := out0;
      match action {
        case Byte(b) => out := out + [b];
        case Esc(b) => out := out + [b];
        case ImmS => out := out + [Byte8(Word(buf, at))];
        case ImmB => out := out + [Byte8(Word(buf, at))];
        case ImmW => out := out + LittleEndian(Word(buf, at), 2);
        case ImmD => out := out + LittleEndian(Word(buf, at), 4);
        case Space(fill) => out := EncodeSpace(out, fill, Word(buf, at));
        case RelLG(_) =>
          BranchOperands(actionlist, a, ofs, buf, shr, s, k);
          out := EncodeBranch(out, at);
        case RelPC =>
          BranchOperands(actionlist, a, ofs, buf, shr, s, k);
          out := EncodeBranch(out, at);
        case Align(mask) => out := EncodeAlign(out, mask);
        case _ =>
      }
    }

    /** What one more item adds to the code. */
    lemma CodeSteps(a: Asm, prog: seq<Item>, shr: Shrinks, g: nat)
      requires Encodable(prog, shr) && |prog| == |shr| && g < |prog|
      ensures Code(a, prog, shr, g + 1) == Emit(Code(a, prog, shr, g), prog[g], shr[g], DispAt(a, prog, shr, g))
      ensures |Code(a, prog, shr, g)| == Final(prog, shr, g) && shr[g] <= 4
      ensures prog[g].act.Rel?() && shr[g] != 0 ==> |Code(a, prog, shr, g)| >= 1
      ensures prog[g].act.Rel?() && shr[g] == 4 ==> |Code(a, prog, shr, g)| >= 2
    {
      hide Emit, Final;
      CodeLength(a, prog, shr, g);
      OpcodeAt(prog, shr, g);
      if g >= 2 {
        CodeLength(a, prog, shr, g - 1);
      }
    }

    method EncodeSection(s: nat, out0: seq<nat>, ghost a: Asm, ghost shr: Shrinks) returns (out: seq<nat>)
      requires Encoding(a, shr, s, 0, out0) && s < |buf|
      ensures Encoding(a, shr, s, |a.items[s]|, out)
    {
      hide LabelsOk, AllBound, Linked, Word, Final, Flat, Start, OpBefore, ItemAt, Layout, EndsAt, Closed, PutOk, Code, Program;
      LinkedFacts(a, shr, s);
      out := out0;
      var b: nat := 0;
      ghost var k := 0;
      SectionStarts(a, s);
      while b != |buf[s]|
        invariant s < |buf| && s < |a.items| && k <= |a.items[s]| && Encoding(a, shr, s, k, out)
        invariant if k < |a.items[s]| then a.items[s][k].act.Begin? && b == a.items[s][k].idx else b == |buf[s]|
        decreases |a.items[s]| - k
      {
        EncodeBegin(a, shr, s, k);
        var p: nat := buf[s][b];
        b := b + 1;
        SkipItem(a, shr, s, k, out);
        k := k + 1;
        ghost var k0 := k;
        while !actionlist[p].Last?()
          invariant k0 <= k && s < |buf| && s < |a.items| && k < |a.items[s]| && Encoding(a, shr, s, k, out)
          invariant a.items[s][k].p == p && !a.items[s][k].act.Begin? && b == a.items[s][k].idx && p < |actionlist|
          invariant actionlist[p] == a.items[s][k].act
          decreases |a.items[s]| - k
        {
          NextAction2(a, s, k);
          NextOp(a, s, k);
          b, out := EncodeAction(s, b, p, out, a, shr, k);
          k := k + 1;
          p := p + 1;
        }
        EncodeLast(a, shr, s, k);
        SkipItem(a, shr, s, k, out);
        k := k + 1;
      }
      AllSeen(a, s, k);
    }

    lemma LinkedFacts(a: Asm, shr: Shrinks, s: nat)
      requires Linked(actionlist, a, ofs, buf, shr) && s < |a.items|
      ensures AllLaid(actionlist, a, ofs) && |a.buf| == |buf| == |a.items| == |ofs| && |a.buf[s]| == |buf[s]| && |shr| == |Program(a.items)|
      ensures Start(a.items, s) + |a.items[s]| <= |Program(a.items)|
    {
      hide Layout, EndsAt, Closed, LinkedAt, Final;
      AllCounted(actionlist, a, ofs);
      StartGrows(a.items, s + 1, |a.items|);
    }

    /** The start of a put, and its end, write nothing. */
    lemma SkipItem(a: Asm, shr: Shrinks, s: nat, k: nat, out: seq<nat>)
      requires Encoding(a, shr, s, k, out) && k < |a.items[s]| && (a.items[s][k].act.Begin? || a.items[s][k].act.Last?())
      ensures Encoding(a, shr, s, k + 1, out)
    {
      hide LabelsOk, AllBound, Linked, Word, Final, Flat, Start;
      OtherOperands(actionlist, a, ofs, buf, shr, s, k);
      LinkedEncodable(actionlist, a, ofs, buf, shr);
      CodeSteps(a, Program(a.items), shr, Start(a.items, s) + k);
    }

    lemma EncodeBegin(a: Asm, shr: Shrinks, s: nat, k: nat)
      requires Linked(actionlist, a, ofs, buf, shr) && s < |a.items| && k < |a.items[s]| && a.items[s][k].act.Begin?
      ensures s < |buf| && a.items[s][k].idx < |buf[s]| && buf[s][a.items[s][k].idx] == a.items[s][k].start
      ensures k + 1 < |a.items[s]|
      ensures var y := a.items[s][k + 1];
              && y.start == a.items[s][k].start == y.p && !y.act.Begin? && y.p < |actionlist| && actionlist[y.p] == y.act
              && y.idx == a.items[s][k].idx + 1
    {
      hide Linked, Word, AllLaid, Layout, Flat, Start, Final;
      LinkedFacts(a, shr, s);
      NextAt(actionlist, a, ofs, s, k);
      NextAction2(a, s, k);
      NextOp(a, s, k);
      OtherOperands(actionlist, a, ofs, buf, shr, s, k);
      BufWord(s, a.items[s][k].idx);
    }

    lemma EncodeLast(a: Asm, shr: Shrinks, s: nat, k: nat)
      requires Linked(actionlist, a, ofs, buf, shr) && s < |a.items| && k < |a.items[s]| && a.items[s][k].act.Last?()
      ensures s < |a.buf| && s < |buf| && |a.buf[s]| == |buf[s]|
      ensures k + 1 == |a.items[s]| ==> a.items[s][k].idx == |a.buf[s]|
      ensures k + 1 < |a.items[s]| ==> a.items[s][k + 1].act.Begin? && a.items[s][k + 1].idx == a.items[s][k].idx
    {
      hide Linked, Word, AllLaid, Flat, Start, Final;
      LinkedFacts(a, shr, s);
      NextAt(actionlist, a, ofs, s, k);
      LaidOut(actionlist, a, ofs, s);
      assert StepAt(a, s, k);
    }

    /** dasm_encode: the code has the size that the second pass has computed, so that there is never a phase error. */
    method Encode(ghost a: Asm, ghost shr: Shrinks) returns (st: Status, out: seq<nat>)
      requires Linked(actionlist, a, ofs, buf, shr) && LabelsOk(a) && AllBound(a) && |a.items| > 0
      requires codesize == Final(Program(a.items), shr, |shr|)
      ensures st.StatusOk? && |out| == codesize && out == Code(a, Program(a.items), shr, |shr|)
      ensures |shr| == |Program(a.items)| && forall g :: 0 <= g < |shr| ==> Lands(a, Program(a.items), shr, g, out)
    {
      hide LabelsOk, AllBound, Linked, Word, Final, Flat, Code, Layout, EndsAt, Closed, Lands;
      out := [];
      var s := 0;
      LinkedFacts(a, shr, 0);
      CodeStarts(a, Program(a.items), shr);
      while s < |buf|
        invariant 0 <= s <= |buf| == |a.items| && |shr| == |Program(a.items)|
        invariant Start(a.items, s) <= |shr| && out == Code(a, Program(a.items), shr, Start(a.items, s))
      {
        LinkedFacts(a, shr, s);
        out := EncodeSection(s, out, a, shr);
        s := s + 1;
      }
      LinkedEncodable(actionlist, a, ofs, buf, shr);
      CodeLength(a, Program(a.items), shr, |shr|);
      AllLand(a, Program(a.items), shr);
      st := if codesize == |out| then StatusOk else Phase;
    }

    lemma CodeStarts(a: Asm, prog: seq<Item>, shr: Shrinks)
      requires |prog| == |shr|
      ensures Code(a, prog, shr, 0) == [] && Start(a.items, 0) == 0
    {
    }

    /** dasm_getpclabel: after the second pass, the final offset of a label that is defined */
    method GetPcLabel(pc: nat, ghost a: Asm, ghost shr: Shrinks) returns (r: int)
      requires Linked(actionlist, a, ofs, buf, shr) && LabelsOk(a) && pclabels == a.pc
      ensures pc < |pclabels| && StateOf(a.events, PC(pc)).Defined? ==>
                PlaceOf(a, StateOf(a.events, PC(pc)).j) < |shr| && |shr| == |Program(a.items)|
                && r == Final(Program(a.items), shr, PlaceOf(a, StateOf(a.events, PC(pc)).j))
      ensures pc < |pclabels| && StateOf(a.events, PC(pc)).Pending? ==> r == -1
      ensures pc >= |pclabels| || StateOf(a.events, PC(pc)).Fresh? ==> r == -2
    {
      hide LabelsOk, Linked, Word, Final, Flat, StateOf, PlaceOf;
      if pc < |pclabels| {
        PcLabelValue(a, shr, pc);
        var pos := pclabels[pc];
        if pos < 0 {
          return Word(buf, -pos);
        }
        if pos > 0 {
          return -1;
        }
      }
      return -2;
    }

    lemma PcLabelValue(a: Asm, shr: Shrinks, pc: nat)
      requires Linked(actionlist, a, ofs, buf, shr) && LabelsOk(a) && pc < |a.pc|
      ensures match StateOf(a.events, PC(pc))
              case Fresh => a.pc[pc] == 0
              case Pending => a.pc[pc] > 0
              case Defined(j) =>
                a.pc[pc] < 0 && PlaceOf(a, j) < |shr| && |shr| == |Program(a.items)|
                && Word(buf, -a.pc[pc]) == Final(Program(a.items), shr, PlaceOf(a, j))
    {
      hide LabelsOk, Word, Final, Flat, StateOf, AllLaid, Start;
      SlotValue(a, PC(pc));
      DefinedIsDef(a.events, PC(pc));
      if StateOf(a.events, PC(pc)).Defined? {
        var j := StateOf(a.events, PC(pc)).j;
        var e := a.events[j];
        EventFacts(a, j);
        NextAt(actionlist, a, ofs, e.s, e.k);
        PosPositiveOf(a, j);
        assert ItemLinked(actionlist, a, buf, shr, e.s, e.k);
      }
    }

    lemma LabelIsVal(slot: Slot)
      ensures Label(slot) == Val(V(), slot) && (Known(slot) <==> HasSlot(V(), slot))
    {
    }
  }

  lemma WithValCommutes(a: Asm, slot: Slot, v: int)
    ensures forall b: Asm :: b.lg == a.lg && b.pc == a.pc ==>
              WithVal(b, slot, v) == b.(lg := WithVal(a, slot, v).lg, pc := WithVal(a, slot, v).pc) && |WithVal(b, slot, v).lg| == |a.lg|
  {
  }

  lemma ReferredElsewhere(a: Asm, s: nat, x: Item, fwd: bool, w1: int)
    requires CanRefer(a, s, x, fwd)
    ensures var a' := Referred(a, s, x, fwd, w1);
            |a'.items| == |a.items| && |a'.buf| == |a.buf| && |a'.lg| == |a.lg| && |a'.buf[s]| == |a.buf[s]| + 2
            && (forall t: nat {:trigger a'.items[t]} :: t < |a.items| && t != s ==> a'.items[t] == a.items[t])
            && (forall t: nat {:trigger a'.buf[t]} :: t < |a.buf| && t != s ==> a'.buf[t] == a.buf[t])
  {
    hide LabelsOk;
  }

  lemma ReferredLayout(list: seq<Action>, a: Asm, s: nat, x: Item, fwd: bool, w1: int, o: int)
    requires CanRefer(a, s, x, fwd) && Layout(list, a, s) && NextItem(list, a, s, x, o) && w1 == x.raw + 4
    ensures var a' := Referred(a, s, x, fwd, w1); Layout(list, a', s) && EndsAt(a', s, o + 4) && a'.items[s] == a.items[s] + [x]
  {
    hide LabelsOk, Layout, PutOk, InPut;
    var slot, v := SlotOf(x.act, x.arg), Val(a, SlotOf(x.act, x.arg));
    var w0 := if !fwd && v < 0 then -v else if v > 0 then v else 0;
    PushLayout(list, a, s, x, [w0, w1], o);
    LayoutFrame(list, Push(a, s, x, [w0, w1]), Referred(a, s, x, fwd, w1), s, o + 4);
  }

  lemma NoneSet(a: Asm, c: seq<nat>, v: int)
    ensures SetAll(a, c[..0], v) == a.buf
  {
  }

  lemma ChainStart(a: Asm, slot: Slot)
    requires LabelsOk(a) && HasSlot(a, slot)
    ensures var c := ChainOf(a, slot); if c != [] then Val(a, slot) == PosOf(a, c[0]) > 0 else Val(a, slot) <= 0
  {
    SlotValue(a, slot);
  }

  /** One turn of the loop: the word still leads on, and is replaced. */
  lemma ChainStep(a: Asm, slot: Slot, t: nat, v: int)
    requires LabelsOk(a) && t < |ChainOf(a, slot)|
    ensures var c := ChainOf(a, slot);
            && Word(SetAll(a, c[..t], v), PosOf(a, c[t])) == (if t + 1 < |c| then PosOf(a, c[t + 1]) else 0)
            && SetAll(a, c[..t + 1], v) == SetWord(SetAll(a, c[..t], v), PosOf(a, c[t]), v)
            && (t + 1 < |c| ==> PosOf(a, c[t + 1]) > 0)
  {
    hide LabelsOk, PosOf, Word, SetWord, Binds, ChainOf;
    var c := ChainOf(a, slot);
    SlotFacts(a, slot);
    ChainInRange(a, slot);
    assert LinkOk(a, slot, t);
    WordSetAll(a, c[..t], v, c[t]);
    assert c[..t + 1][..t] == c[..t];
    if t + 1 < |c| {
      PosPositive(a, c[t + 1]);
    }
  }

  lemma PlacedLayout(list: seq<Action>, a: Asm, s: nat, x: Item, o: int)
    requires CanPlace(a, s, x) && Layout(list, a, s) && NextItem(list, a, s, x, o)
    ensures var a' := Placed(a, s, x, o);
            && Layout(list, a', s) && EndsAt(a', s, o) && a'.items[s] == a.items[s] + [x]
            && |a'.items| == |a.items| && |a'.buf| == |a.buf| && |a'.lg| == |a.lg| && |a'.buf[s]| == |a.buf[s]| + 1
  {
    hide LabelsOk, Layout, PutOk, InPut, SetAll;
    var slot, pos := SlotOf(x.act, x.arg), Pos(s, x.idx);
    ChainInRange(a, slot);
    SetAllLayout(list, a, ChainOf(a, slot), pos, s, o);
    var b := a.(buf := SetAll(a, ChainOf(a, slot), pos));
    PushLayout(list, b, s, x, [o], o);
    LayoutFrame(list, Push(b, s, x, [o]), Placed(a, s, x, o), s, o);
  }

  lemma PlacedElsewhere(list: seq<Action>, a: Asm, s: nat, x: Item, o: int, t: nat, e: int)
    requires CanPlace(a, s, x) && t < |a.items| && t < |a.buf| && t != s && Layout(list, a, t) && EndsAt(a, t, e) && Closed(a, t)
    ensures var a' := Placed(a, s, x, o);
            |a'.items| == |a.items| && |a'.buf| == |a.buf| && Layout(list, a', t) && EndsAt(a', t, e) && Closed(a', t)
  {
    hide LabelsOk, Layout, PutOk, InPut, SetAll;
    var slot, pos := SlotOf(x.act, x.arg), Pos(s, x.idx);
    ChainInRange(a, slot);
    SetAllLayout(list, a, ChainOf(a, slot), pos, t, e);
    var b := a.(buf := SetAll(a, ChainOf(a, slot), pos));
    LayoutFrame(list, b, Placed(a, s, x, o), t, e);
  }

  // ------------------------------------------------------------------
  // A backward reference that binds forward

  /** `1: jmp >1; jmp <1; 1:` */
  const SHADOWING: seq<Action> := [LabelLG(1), Byte(0xe9), RelLG(247), Byte(0xe9), RelLG(1), LabelLG(1), Stop]

  const SHADOWED: seq<Event> := [Event(true, false, LG(1), 0, 1), Event(false, true, LG(1), 0, 3),
                                 Event(false, false, LG(1), 0, 5), Event(true, false, LG(1), 0, 6)]

  lemma ShadowingMade()
    ensures MadeEvents(SHADOWING, 0, [], 0, 1) == SHADOWED
  {
    assert MadeEvents(SHADOWING, 6, [], 0, 7) == [];
    assert MadeEvents(SHADOWING, 5, [], 0, 6) == [SHADOWED[3]];
    assert MadeEvents(SHADOWING, 4, [], 0, 5) == [SHADOWED[2]] + MadeEvents(SHADOWING, 5, [], 0, 6);
    assert MadeEvents(SHADOWING, 3, [], 0, 4) == MadeEvents(SHADOWING, 4, [], 0, 5);
    assert MadeEvents(SHADOWING, 2, [], 0, 3) == [SHADOWED[1]] + MadeEvents(SHADOWING, 3, [], 0, 4);
    assert MadeEvents(SHADOWING, 1, [], 0, 2) == MadeEvents(SHADOWING, 2, [], 0, 3);
    assert MadeEvents(SHADOWING, 0, [], 0, 1) == [SHADOWED[0]] + MadeEvents(SHADOWING, 1, [], 0, 2);
  }

  /** Event 2 refers back to event 0, but event 1 is in between. */
  lemma ShadowedBindsForward()
    ensures IsLatest(SHADOWED, 2, 0) && !SHADOWED[2].fwd && Shadowed(SHADOWED, 0, 2, LG(1)) && Binds(SHADOWED, 2) == Some(3)
  {
    assert SHADOWED[1].fwd;
    BackwardBinds(SHADOWED, 2, 0);
    assert NextDef(SHADOWED, 3, LG(1)) == Some(3);
  }

  /** The tests of an action without argument, and those of the others */
  lemma PassesNext(list: seq<Action>, p: nat, checks: bool, nlg: nat, npc: nat, nsec: nat, events: seq<Event>, s: nat, k: nat)
    requires p < |list| && !TakesArg(list[p])
    ensures Passes(list, p, [], checks, nlg, npc, nsec, events, s, k) <==>
              && InRange(list[p], 0, nlg, npc, nsec) && (checks ==> InForce(list[p], events))
              && (!list[p].Last?() ==> Passes(list, p + 1, [], checks, nlg, npc, nsec,
                                              if HasEvent(list[p]) then events + [EventOf(list[p], 0, s, k)] else events, s, k + 1))
  {
    hide InRange, InForce, EventOf;
  }

  lemma ShadowingPasses(checks: bool)
    ensures Passes(SHADOWING, 0, [], checks, 10, 0, 1, [], 0, 1) <==> !checks
  {
    hide StateOf, Passes;
    var es := SHADOWED;
    assert es[..3] + [es[3]] == es && es[..2] + [es[2]] == es[..3] && es[..1] + [es[1]] == es[..2] && [] + [es[0]] == es[..1];
    PassesNext(SHADOWING, 6, checks, 10, 0, 1, es, 0, 7);
    PassesNext(SHADOWING, 5, checks, 10, 0, 1, es[..3], 0, 6);
    ShadowedBindsForward();
    BackwardBinds(es, 2, 0);
    PassesNext(SHADOWING, 4, checks, 10, 0, 1, es[..2], 0, 5);
    PassesNext(SHADOWING, 3, checks, 10, 0, 1, es[..2], 0, 4);
    PassesNext(SHADOWING, 2, checks, 10, 0, 1, es[..1], 0, 3);
    PassesNext(SHADOWING, 1, checks, 10, 0, 1, es[..1], 0, 2);
    PassesNext(SHADOWING, 0, checks, 10, 0, 1, [], 0, 1);
  }

  lemma ShadowingIsPut()
    ensures PutOk(SHADOWING, 0) && ArgsOk(SHADOWING, 0, []) && SlotCount(SHADOWING, 0) <= 14
  {
    var list := SHADOWING;
    assert InPut(list, 0, 6) && list[6].Last?();
    assert SlotCount(list, 6) == 0 && SlotCount(list, 5) == 1 && SlotCount(list, 4) == 3 && SlotCount(list, 3) == 3;
    assert SlotCount(list, 2) == 5 && SlotCount(list, 1) == 5;
    assert ArgsOk(list, 6, []) && ArgsOk(list, 5, []) && ArgsOk(list, 4, []) && ArgsOk(list, 3, []) && ArgsOk(list, 2, []) && ArgsOk(list, 1, []);
  }

  /** DASM_CHECKS rejects this put; without it, the put succeeds, and its backward reference binds forward. */
  method PutShadowing(checks: bool) returns (d: DasmState)
    ensures d.status.StatusOk? <==> !checks
    ensures !checks ==> d.Valid() && d.events == SHADOWED
  {
    hide PutOk, ArgsOk, SlotCount, Passes, MadeEvents, Made;
    d := new DasmState(SHADOWING, checks, 1, 0, 0);
    ShadowingIsPut();
    ShadowingPasses(checks);
    ShadowingMade();
    d.Put(0, []);
    assert [] + SHADOWED == SHADOWED;
  }
}
