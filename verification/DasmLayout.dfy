/**
 The action buffers of DynASM (dynasm/dasm_x86.h): one run of words for each item,
 from which the later passes can follow the action list once more.
 */
module DasmLayout {
  import opened DasmItems
  import opened DasmLabels

  /** What the first pass has written for item `k` of section `s`; the first word of a reference is left to the chains. */
  ghost predicate ItemAt(list: seq<Action>, a: Asm, s: nat, k: nat)
    requires s < |a.items| && s < |a.buf| && k < |a.items[s]|
  {
    var x, b := a.items[s][k], a.buf[s];
    && MaxSize(x) >= 0 && x.idx + Slots(x.act) <= |b| && OperandsOk(x.act) && ArgOk(x.act, x.arg)
    && PutOk(list, x.start)
    && (if x.act.Begin? then x.p == x.start && b[x.idx] == x.start else InPut(list, x.start, x.p) && list[x.p] == x.act)
    && (TakesArg(x.act) && !x.act.RelPC? && !x.act.LabelPC? ==> b[x.idx] == x.arg)
    && (x.act.Align? ==> b[x.idx] == x.raw + x.act.mask)
    && (x.act.Label?() ==> b[x.idx] == x.raw)
    && (x.act.Rel?() ==> b[x.idx + 1] == x.raw + 4)
  }

  ghost predicate Follows(x: Item, y: Item) {
    && y.idx == x.idx + Slots(x.act) && y.raw == x.raw + MaxSize(x)
    && (if x.act.Last?() then y.act.Begin?
        else !y.act.Begin? && y.start == x.start && y.p == if x.act.Begin? then x.start else x.p + 1)
  }

  ghost predicate StepAt(a: Asm, s: nat, k: nat)
    requires s < |a.items| && k < |a.items[s]|
  {
    k + 1 < |a.items[s]| ==> Follows(a.items[s][k], a.items[s][k + 1])
  }

  /** All items of section `s` are laid out one after the other. */
  ghost predicate Layout(list: seq<Action>, a: Asm, s: nat)
    requires s < |a.items| && s < |a.buf|
  {
    && (a.items[s] != [] ==> a.items[s][0].act.Begin? && a.items[s][0].idx == 0 && a.items[s][0].raw == 0)
    && (forall k: nat {:trigger ItemAt(list, a, s, k)} :: k < |a.items[s]| ==> ItemAt(list, a, s, k))
    && (forall k: nat {:trigger StepAt(a, s, k)} :: k < |a.items[s]| ==> StepAt(a, s, k))
  }

  /** The items so far end at the end of the buffer and at offset `ofs`. */
  ghost predicate EndsAt(a: Asm, s: nat, ofs: int)
    requires s < |a.items| && s < |a.buf|
  {
    if a.items[s] == [] then a.buf[s] == [] && ofs == 0
    else
      var x := a.items[s][|a.items[s]| - 1];
      x.idx + Slots(x.act) == |a.buf[s]| && x.raw + MaxSize(x) == ofs
  }

  /** No put is under way in section `s`. */
  ghost predicate Closed(a: Asm, s: nat)
    requires s < |a.items|
  {
    a.items[s] != [] ==> a.items[s][|a.items[s]| - 1].act.Last?()
  }

  lemma {:induction false} IndexGrows(list: seq<Action>, a: Asm, s: nat, k: nat, m: nat)
    requires s < |a.items| && s < |a.buf| && Layout(list, a, s) && k < m < |a.items[s]|
    ensures a.items[s][k].idx + Slots(a.items[s][k].act) <= a.items[s][m].idx
    decreases m
  {
    assert StepAt(a, s, m - 1);
    if k < m - 1 {
      IndexGrows(list, a, s, k, m - 1);
    }
  }

  /** A new item that follows the last one. */
  ghost predicate NextItem(list: seq<Action>, a: Asm, s: nat, x: Item, ofs: int)
    requires s < |a.items| && s < |a.buf|
  {
    && EndsAt(a, s, ofs) && x.idx == |a.buf[s]| && x.raw == ofs && MaxSize(x) >= 0 && OperandsOk(x.act) && ArgOk(x.act, x.arg) && PutOk(list, x.start)
    && (if x.act.Begin? then x.p == x.start else InPut(list, x.start, x.p) && list[x.p] == x.act)
    && (if a.items[s] == [] || a.items[s][|a.items[s]| - 1].act.Last?() then x.act.Begin?
        else var y := a.items[s][|a.items[s]| - 1];
             !x.act.Begin? && x.start == y.start && x.p == if y.act.Begin? then y.start else y.p + 1)
  }

  /** The words of item `x`, but for the first word of a reference. */
  ghost predicate WordsOk(x: Item, ws: seq<int>) {
    && |ws| == Slots(x.act)
    && (x.act.Begin? ==> ws[0] == x.start)
    && (TakesArg(x.act) && !x.act.RelPC? && !x.act.LabelPC? ==> ws[0] == x.arg)
    && (x.act.Align? ==> ws[0] == x.raw + x.act.mask)
    && (x.act.Label?() ==> ws[0] == x.raw)
    && (x.act.Rel?() ==> ws[1] == x.raw + 4)
  }

  lemma PushLayout(list: seq<Action>, a: Asm, s: nat, x: Item, ws: seq<int>, ofs: int)
    requires s < |a.items| && s < |a.buf| && Layout(list, a, s) && NextItem(list, a, s, x, ofs) && WordsOk(x, ws)
    ensures Layout(list, Push(a, s, x, ws), s) && EndsAt(Push(a, s, x, ws), s, ofs + MaxSize(x))
  {
    hide PutOk, InPut, OperandsOk;
    var a' := Push(a, s, x, ws);
    forall k: nat | k < |a'.items[s]| ensures ItemAt(list, a', s, k) {
      if k < |a.items[s]| {
        assert ItemAt(list, a, s, k);
        assert a'.items[s][k] == a.items[s][k];
      }
    }
    forall k: nat | k < |a'.items[s]| ensures StepAt(a', s, k) {
      if k < |a.items[s]| {
        assert StepAt(a, s, k);
      }
    }
  }

  /** The layout depends only on the items and the words that it names. */
  lemma LayoutFrame(list: seq<Action>, a: Asm, a': Asm, s: nat, ofs: int)
    requires s < |a.items| && s < |a.buf| && s < |a'.items| && s < |a'.buf| && Layout(list, a, s)
    requires a'.items[s] == a.items[s] && |a'.buf[s]| == |a.buf[s]|
    requires forall k: nat {:trigger ItemAt(list, a, s, k)} :: k < |a.items[s]| ==>
               var x := a.items[s][k];
               (Slots(x.act) > 0 && !x.act.Rel?() && x.idx < |a.buf[s]| ==> a'.buf[s][x.idx] == a.buf[s][x.idx])
               && (x.act.Rel?() && x.idx + 1 < |a.buf[s]| ==> a'.buf[s][x.idx + 1] == a.buf[s][x.idx + 1])
    ensures Layout(list, a', s) && (EndsAt(a, s, ofs) ==> EndsAt(a', s, ofs)) && (Closed(a, s) ==> Closed(a', s))
  {
    hide PutOk, InPut, OperandsOk;
    forall k: nat | k < |a'.items[s]| ensures ItemAt(list, a', s, k) {
      assert ItemAt(list, a, s, k);
    }
    forall k: nat | k < |a'.items[s]| ensures StepAt(a', s, k) {
      assert StepAt(a, s, k);
    }
  }

  /** Setting the first words of references leaves the layout alone. */
  lemma {:induction false} SetAllLayout(list: seq<Action>, a: Asm, c: seq<nat>, v: int, s: nat, ofs: int)
    requires LabelsOk(a) && s < |a.items| && s < |a.buf| && Layout(list, a, s)
    requires forall n :: 0 <= n < |c| ==> c[n] < |a.events| && !a.events[c[n]].def
    ensures Layout(list, a.(buf := SetAll(a, c, v)), s)
    ensures EndsAt(a, s, ofs) ==> EndsAt(a.(buf := SetAll(a, c, v)), s, ofs)
  {
    hide LabelsOk, Layout, PosOf, SetWord, InBuf;
    if c != [] {
      var d, last := c[..|c| - 1], c[|c| - 1];
      SetAllLayout(list, a, d, v, s, ofs);
      SetOneLayout(list, a, a.(buf := SetAll(a, d, v)), last, v, s, ofs);
    } else {
      assert a.(buf := SetAll(a, c, v)) == a;
    }
  }

  lemma SetOneLayout(list: seq<Action>, a: Asm, b: Asm, i: nat, v: int, s: nat, ofs: int)
    requires LabelsOk(a) && s < |b.items| && s < |b.buf| && Layout(list, b, s) && i < |a.events| && !a.events[i].def
    requires b == a.(buf := b.buf) && |b.buf| == |a.buf| && forall t :: 0 <= t < |b.buf| ==> |b.buf[t]| == |a.buf[t]|
    ensures var b' := b.(buf := SetWord(b.buf, PosOf(a, i), v)); Layout(list, b', s) && (EndsAt(b, s, ofs) ==> EndsAt(b', s, ofs))
  {
    hide LabelsOk, Layout;
    EventFacts(a, i);
    var e := a.events[i];
    var y := a.items[e.s][e.k];
    PosParts(e.s, y.idx);
    var b' := b.(buf := SetWord(b.buf, PosOf(a, i), v));
    forall k: nat | k < |b.items[s]|
      ensures var x := b.items[s][k];
              (Slots(x.act) > 0 && !x.act.Rel?() && x.idx < |b.buf[s]| ==> b'.buf[s][x.idx] == b.buf[s][x.idx])
              && (x.act.Rel?() && x.idx + 1 < |b.buf[s]| ==> b'.buf[s][x.idx + 1] == b.buf[s][x.idx + 1])
    {
      if s == e.s {
        if k < e.k {
          IndexGrows(list, b, s, k, e.k);
        } else if e.k < k {
          IndexGrows(list, b, s, e.k, k);
        }
      }
    }
    LayoutFrame(list, b, b', s, ofs);
  }
}
