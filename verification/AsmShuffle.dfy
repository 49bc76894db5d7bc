/**
 Matching the registers of a side trace with those of its parent (the end of asm_head_side
 in src/lj_asm.c). Code is generated backwards: what is emitted last is executed first.
 */
module AsmShuffle {

  /** A move between two registers, of the same class */
  datatype Move = Move(dst: nat, src: nat)

  const RID_MAX_GPR: nat := 16
  const RID_MAX: nat := 32

  predicate SameClass(a: nat, b: nat) {
    a < RID_MAX && b < RID_MAX && (a < RID_MAX_GPR <==> b < RID_MAX_GPR)
  }

  type Registers = r: seq<int> | |r| == RID_MAX witness seq(RID_MAX, i => 0)

  predicate IsCode(code: seq<Move>) {
    forall i :: 0 <= i < |code| ==> SameClass(code[i].dst, code[i].src)
  }

  /** What the registers hold behind the code that was emitted. */
  function Exec(code: seq<Move>, r: Registers): Registers
    requires IsCode(code)
    decreases |code|
  {
    if code == [] then r
    else
      var m := code[|code| - 1];
      Exec(code[..|code| - 1], r[m.dst := r[m.src]])
  }

  /** The free registers; the registers of the parent whose value is still to be moved; the registers that may be used for
      other purposes; the reference for each register of the parent, the register of each reference, the reference in
      each register */
  datatype State = State(free: set<nat>, live: set<nat>, allow: set<nat>, sloadins: map<nat, nat>, reg: map<nat, nat>, cost: map<nat, nat>)

  /** The target of a live register of the parent */
  predicate HasTarget(st: State, rp: nat) {
    && rp in st.sloadins && st.sloadins[rp] in st.reg
    && var r := st.reg[st.sloadins[rp]];
    && SameClass(rp, r) && r !in st.free && r in st.cost && st.cost[r] == st.sloadins[rp]
  }

  function Target(st: State, rp: nat): nat
    requires HasTarget(st, rp)
  {
    st.reg[st.sloadins[rp]]
  }

  ghost predicate AllTargets(st: State) {
    forall rp {:trigger HasTarget(st, rp)} :: rp in st.live ==> HasTarget(st, rp)
  }

  /** No two live registers have the same target. */
  ghost predicate OwnTargets(st: State)
    requires AllTargets(st)
  {
    forall a, b {:trigger Target(st, a), Target(st, b)} ::
      a in st.live && b in st.live && a != b ==>
        HasTarget(st, a) && HasTarget(st, b) && st.sloadins[a] != st.sloadins[b] && Target(st, a) != Target(st, b)
  }

  ghost predicate IsTarget(st: State, r: nat)
    requires AllTargets(st)
  {
    exists rp :: rp in st.live && Target(st, rp) == r
  }

  /** Each live register has its own target, and live registers that are allocated are targets. */
  ghost predicate Ok(st: State) {
    AllTargets(st) && OwnTargets(st) && forall r: nat {:trigger IsTarget(st, r)} :: r in st.live && r !in st.free ==> IsTarget(st, r)
  }

  /** Registers that hold what they have to, like the stack pointer: nothing is moved into them. */
  ghost predicate Settled(st: State, r: nat) {
    && r < RID_MAX && r !in st.allow && r !in st.live
    && forall rp {:trigger HasTarget(st, rp)} :: rp in st.live && HasTarget(st, rp) ==> Target(st, rp) != r
  }

  /** The value that belongs into `target` is in register `r` before the code that was emitted. */
  ghost predicate Carries(code: seq<Move>, r: nat, target: nat)
    requires IsCode(code)
  {
    r < RID_MAX && target < RID_MAX && forall before: Registers :: Exec(code, before)[target] == before[r]
  }

  // ------------------------------------------------------------------
  // The two kinds of steps

  /** A free live register is moved to its target. */
  function Coalesced(st: State, rp: nat): State
    requires HasTarget(st, rp)
  {
    st.(free := st.free + {Target(st, rp)}, live := st.live - {rp}, allow := st.allow - {rp})
  }

  /** ra_rename: the reference in register `down` moves to `up`. */
  function Renamed(st: State, down: nat, up: nat): State
    requires down in st.cost
  {
    var ref := st.cost[down];
    st.(free := st.free + {down} - {up}, reg := st.reg[ref := up], cost := st.cost[up := ref][down := 0])
  }

  lemma CoalesceOk(st: State, rp: nat)
    requires Ok(st) && rp in st.live && rp in st.free && HasTarget(st, rp)
    ensures Ok(Coalesced(st, rp))
    ensures forall q :: q in st.live && q != rp ==> HasTarget(st, q) && Target(Coalesced(st, rp), q) == Target(st, q) != Target(st, rp)
  {
    hide SameClass;
    var next := Coalesced(st, rp);
    forall q | q in st.live ensures HasTarget(st, q) && (q != rp ==> Target(st, q) != Target(st, rp)) {
    }
    forall q | q in next.live ensures HasTarget(next, q) && Target(next, q) == Target(st, q) {
    }
    forall r: nat | r in next.live && r !in next.free ensures IsTarget(next, r) {
      assert IsTarget(st, r);
      var q :| q in st.live && Target(st, q) == r;
      assert q in next.live && Target(next, q) == r;
    }
  }

  /** What is settled stays so when a register is coalesced, and the register itself is settled. */
  lemma CoalesceSettles(st: State, rp: nat, r: nat)
    requires Ok(st) && rp in st.live && rp in st.free && HasTarget(st, rp) && (r == rp || Settled(st, r))
    ensures Settled(Coalesced(st, rp), r) && (r != rp ==> r != Target(st, rp))
  {
    hide SameClass;
    var next := Coalesced(st, rp);
    forall q | q in next.live && HasTarget(next, q) ensures Target(next, q) != r {
      assert HasTarget(st, q) && Target(next, q) == Target(st, q);
    }
    ClassTrans(rp, Target(st, rp));
  }

  /** The register that a cycle occupies is freed, for a register that is of no use to anyone. */
  lemma RenameOk(st: State, down: nat, up: nat)
    requires Ok(st) && HasTarget(st, down) && down in st.live && down !in st.free
    requires up in st.free && up !in st.live && SameClass(down, up)
    ensures down in st.cost && Ok(Renamed(st, down, up))
    ensures forall q :: q in st.live ==>
              HasTarget(st, q) && Target(Renamed(st, down, up), q) == if Target(st, q) == down then up else Target(st, q)
  {
    hide SameClass;
    ClassTrans(down, up);
    assert IsTarget(st, down);
    var rp :| rp in st.live && Target(st, rp) == down;
    assert HasTarget(st, rp);
    var next := Renamed(st, down, up);
    forall q | q in st.live
      ensures HasTarget(st, q) && HasTarget(next, q) && Target(next, q) == (if q == rp then up else Target(st, q))
      ensures q != rp ==> Target(st, q) != down
    {
      assert HasTarget(st, q);
      if q == rp {
        SameClasses(rp, down, up);
      } else {
        assert Target(st, q) != Target(st, rp);
      }
    }
    forall r: nat | r in next.live && r !in next.free ensures IsTarget(next, r) {
      assert IsTarget(st, r);
      var q :| q in st.live && Target(st, q) == r;
      assert Target(next, q) == r;
    }
  }

  lemma ClassTrans(a: nat, b: nat)
    requires SameClass(a, b)
    ensures a < RID_MAX && b < RID_MAX
  {
  }

  lemma SameClasses(a: nat, b: nat, c: nat)
    requires SameClass(a, b) && SameClass(b, c)
    ensures SameClass(a, c)
  {
  }

  lemma MoveCarries(code: seq<Move>, m: Move, r: nat, target: nat)
    requires IsCode(code) && SameClass(m.dst, m.src) && Carries(code, r, target)
    ensures IsCode(code + [m]) && Carries(code + [m], if r == m.dst then m.src else r, target)
  {
    assert (code + [m])[..|code|] == code;
    forall before: Registers ensures Exec(code + [m], before)[target] == before[if r == m.dst then m.src else r] {
      var then_: Registers := before[m.dst := before[m.src]];
      assert Exec(code, then_)[target] == then_[r];
    }
  }

  // ------------------------------------------------------------------
  // What holds all the time

  /** What the code emitted so far does, if the registers `all` of the parent belong into `target`, and `settled` stay as they are */
  ghost predicate Moves(st: State, code: seq<Move>, target: map<nat, nat>, settled: set<nat>) {
    && Ok(st) && IsCode(code) && st.live <= target.Keys
    && (forall rp {:trigger target[rp]} :: rp in target && rp in st.live ==> HasTarget(st, rp) && Carries(code, Target(st, rp), target[rp]))
    && (forall rp {:trigger target[rp]} :: rp in target && rp !in st.live ==> Settled(st, rp) && Carries(code, rp, target[rp]))
    && (forall r {:trigger r in settled} :: r in settled ==> Settled(st, r) && Carries(code, r, r))
  }

  lemma MovesStart(st: State, target: map<nat, nat>, settled: set<nat>)
    requires Ok(st) && target.Keys == st.live && forall rp {:trigger target[rp]} :: rp in target ==> HasTarget(st, rp) && target[rp] == Target(st, rp)
    requires forall r {:trigger r in settled} :: r in settled ==> Settled(st, r)
    ensures Moves(st, [], target, settled)
  {
    forall r: nat | r < RID_MAX ensures Carries([], r, r) {
    }
  }

  lemma MovesCoalesce(st: State, code: seq<Move>, target: map<nat, nat>, settled: set<nat>, rp: nat)
    requires Moves(st, code, target, settled) && rp in st.live && rp in st.free && HasTarget(st, rp)
    ensures Moves(Coalesced(st, rp), code + [Move(Target(st, rp), rp)], target, settled)
  {
    hide Ok, Carries, SameClass, Settled;
    var m, next := Move(Target(st, rp), rp), Coalesced(st, rp);
    ClassTurned(rp, Target(st, rp));
    IsCodeMore(code, m);
    CoalesceOk(st, rp);
    forall q | q in target && q in next.live ensures HasTarget(next, q) && Carries(code + [m], Target(next, q), target[q]) {
      OkTarget(next, q);
      MoveCarries(code, m, Target(st, q), target[q]);
    }
    forall q | q in target && q !in next.live ensures Settled(next, q) && Carries(code + [m], q, target[q]) {
      CoalesceSettles(st, rp, q);
      MoveCarries(code, m, if q == rp then Target(st, rp) else q, target[q]);
    }
    forall r | r in settled ensures Settled(next, r) && Carries(code + [m], r, r) {
      SettledNotLive(st, rp, r);
      CoalesceSettles(st, rp, r);
      MoveCarries(code, m, r, r);
    }
  }

  lemma MovesRename(st: State, code: seq<Move>, target: map<nat, nat>, settled: set<nat>, down: nat, up: nat)
    requires Moves(st, code, target, settled) && HasTarget(st, down) && down in st.live && down !in st.free
    requires up in st.free && up !in st.live && up in st.allow && SameClass(down, up)
    ensures down in st.cost && Moves(Renamed(st, down, up), code + [Move(down, up)], target, settled)
  {
    hide Ok, Carries, SameClass, Settled;
    var m := Move(down, up);
    RenameOk(st, down, up);
    var next := Renamed(st, down, up);
    IsCodeMore(code, m);
    forall q | q in target && q in next.live ensures HasTarget(next, q) && Carries(code + [m], Target(next, q), target[q]) {
      OkTarget(next, q);
      MoveCarries(code, m, Target(st, q), target[q]);
    }
    forall q | q in target && q !in next.live ensures Settled(next, q) && Carries(code + [m], q, target[q]) {
      RenameSettles(st, down, up, q);
      MoveCarries(code, m, q, target[q]);
    }
    forall r | r in settled ensures Settled(next, r) && Carries(code + [m], r, r) {
      RenameSettles(st, down, up, r);
      MoveCarries(code, m, r, r);
    }
  }

  lemma ClassTurned(a: nat, b: nat)
    requires SameClass(a, b)
    ensures SameClass(b, a)
  {
  }

  lemma IsCodeMore(code: seq<Move>, m: Move)
    requires IsCode(code) && SameClass(m.dst, m.src)
    ensures IsCode(code + [m])
  {
  }

  lemma OkTarget(st: State, rp: nat)
    requires Ok(st) && rp in st.live
    ensures HasTarget(st, rp)
  {
  }

  lemma SettledNotLive(st: State, rp: nat, r: nat)
    requires Settled(st, r) && rp in st.live
    ensures r != rp
  {
  }

  lemma RenameSettles(st: State, down: nat, up: nat, r: nat)
    requires Ok(st) && Settled(st, r) && HasTarget(st, down) && down in st.live && down !in st.free
    requires up in st.free && up !in st.live && up in st.allow && SameClass(down, up)
    ensures down in st.cost && Settled(Renamed(st, down, up), r) && r != down
  {
    hide SameClass;
    RenameOk(st, down, up);
    var next := Renamed(st, down, up);
    forall q | q in next.live && HasTarget(next, q) ensures Target(next, q) != r {
      assert HasTarget(st, q);
    }
  }

  // ------------------------------------------------------------------
  // Temporary registers

  /** A register of this class that is used by nobody, or only because it was taken as a temporary one */
  ghost predicate HasTemp(st: State, gpr: bool) {
    AllTargets(st) && exists t: nat :: IsTemp(st, t, gpr)
  }

  ghost predicate IsTemp(st: State, t: nat, gpr: bool)
    requires AllTargets(st)
  {
    t < RID_MAX && (t < RID_MAX_GPR <==> gpr) && t in st.allow && t !in st.live && (t in st.free || IsTarget(st, t))
  }

  /** The registers of one class */
  function OfClass(s: set<nat>, gpr: bool): set<nat> {
    set r | r in s && r < RID_MAX && (r < RID_MAX_GPR <==> gpr)
  }

  ghost predicate Injective(f: map<nat, nat>) {
    forall a, b {:trigger f[a], f[b]} :: a in f && b in f && a != b ==> f[a] != f[b]
  }

  lemma {:induction false} ImageSize(s: set<nat>, f: map<nat, nat>)
    requires s <= f.Keys && Injective(f)
    ensures |set x | x in s :: f[x]| == |s|
    decreases s
  {
    if s != {} {
      var x :| x in s;
      ImageSize(s - {x}, f);
      assert (set y | y in s :: f[y]) == (set y | y in s - {x} :: f[y]) + {f[x]};
    }
  }

  lemma {:induction false} SubsetOfSameSize(a: set<nat>, b: set<nat>)
    requires a <= b && |a| == |b|
    ensures a == b
  {
    if a != {} {
      var x :| x in a;
      SubsetOfSameSize(a - {x}, b - {x});
    } else {
      assert |b| == 0;
    }
  }

  /** A map that reaches all its keys reaches nothing else. */
  lemma OntoItself(f: map<nat, nat>, x: nat)
    requires x in f && Injective(f) && f.Keys <= set a | a in f.Keys :: f[a]
    ensures f[x] in f
  {
    var image := set a | a in f.Keys :: f[a];
    ImageSize(f.Keys, f);
    SubsetOfSameSize(f.Keys, image);
    assert f[x] in image;
  }

  /** The live registers of a class with their targets */
  ghost function TargetMap(st: State, gpr: bool): map<nat, nat> {
    map rp | rp in OfClass(st.live, gpr) && HasTarget(st, rp) :: Target(st, rp)
  }

  /** If all live registers are occupied, only they are. */
  lemma OnlyLiveTargets(st: State, gpr: bool, t: nat)
    requires Ok(st) && st.free !! st.live && IsTarget(st, t) && t < RID_MAX && (t < RID_MAX_GPR <==> gpr)
    ensures t in st.live
  {
    hide Ok, IsTarget, TargetMap;
    var f := TargetMap(st, gpr);
    TargetsDiffer(st, gpr);
    var image := set a | a in f.Keys :: f[a];
    forall r | r in f.Keys ensures r in image {
      InTargetMap(st, gpr, r);
      var a := Occupant(st, r);
      ToTargetMap(st, gpr, a);
    }
    var x := TargetOf(st, t);
    ToTargetMap(st, gpr, x);
    OntoItself(f, x);
    InTargetMap(st, gpr, t);
  }

  lemma TargetsDiffer(st: State, gpr: bool)
    requires Ok(st)
    ensures Injective(TargetMap(st, gpr))
  {
    hide Ok;
    var f := TargetMap(st, gpr);
    forall a, b | a in f && b in f && a != b ensures f[a] != f[b] {
      DifferentTargets(st, a, b);
    }
  }

  lemma InTargetMap(st: State, gpr: bool, r: nat)
    requires r in TargetMap(st, gpr)
    ensures r in st.live && r < RID_MAX && (r < RID_MAX_GPR <==> gpr)
  {
  }

  lemma ToTargetMap(st: State, gpr: bool, rp: nat)
    requires rp in st.live && HasTarget(st, rp) && (Target(st, rp) < RID_MAX_GPR <==> gpr)
    ensures rp in TargetMap(st, gpr) && TargetMap(st, gpr)[rp] == Target(st, rp)
  {
  }

  lemma DifferentTargets(st: State, a: nat, b: nat)
    requires Ok(st) && a in st.live && b in st.live && a != b && HasTarget(st, a) && HasTarget(st, b)
    ensures Target(st, a) != Target(st, b)
  {
  }

  lemma TargetOf(st: State, t: nat) returns (rp: nat)
    requires Ok(st) && IsTarget(st, t)
    ensures rp in st.live && HasTarget(st, rp) && Target(st, rp) == t
  {
    rp :| rp in st.live && Target(st, rp) == t;
    OkTarget(st, rp);
  }

  lemma Occupant(st: State, r: nat) returns (rp: nat)
    requires Ok(st) && r in st.live && r !in st.free
    ensures rp in st.live && HasTarget(st, rp) && Target(st, rp) == r
  {
    assert IsTarget(st, r);
    rp := TargetOf(st, r);
  }

  /** Coalescing takes no temporary register away, and provides none that was not there. */
  lemma TempCoalesce(st: State, rp: nat, gpr: bool)
    requires Ok(st) && rp in st.live && rp in st.free && HasTarget(st, rp)
    ensures HasTemp(Coalesced(st, rp), gpr) <==> HasTemp(st, gpr)
  {
    hide SameClass;
    CoalesceOk(st, rp);
    var next := Coalesced(st, rp);
    if HasTemp(st, gpr) {
      var t: nat :| IsTemp(st, t, gpr);
      if t !in next.free {
        var q :| q in st.live && Target(st, q) == t;
        assert Target(next, q) == t;
      }
      assert IsTemp(next, t, gpr);
    }
    if HasTemp(next, gpr) {
      var t: nat :| IsTemp(next, t, gpr);
      if t !in st.free {
        var q := if t == Target(st, rp) then rp else TargetIn(next, t);
        assert Target(st, q) == t;
      }
      assert IsTemp(st, t, gpr);
    }
  }

  ghost function TargetIn(st: State, t: nat): nat
    requires AllTargets(st) && IsTarget(st, t)
  {
    var rp :| rp in st.live && Target(st, rp) == t;
    rp
  }

  lemma TempRename(st: State, down: nat, up: nat, gpr: bool)
    requires Ok(st) && HasTarget(st, down) && down in st.live && down !in st.free
    requires up in st.free && up !in st.live && SameClass(down, up)
    ensures down in st.cost && (HasTemp(Renamed(st, down, up), gpr) <==> HasTemp(st, gpr))
  {
    hide SameClass;
    RenameOk(st, down, up);
    var next := Renamed(st, down, up);
    if HasTemp(st, gpr) {
      var t: nat :| IsTemp(st, t, gpr);
      if t == up {
        OkOccupied(st, down);
        assert Target(next, TargetIn(st, down)) == t;
      } else if t !in next.free {
        assert Target(next, TargetIn(st, t)) == t;
      }
      assert IsTemp(next, t, gpr);
    }
    if HasTemp(next, gpr) {
      var t: nat :| IsTemp(next, t, gpr);
      if t !in st.free {
        assert Target(st, TargetIn(next, t)) == t;
      }
      assert IsTemp(st, t, gpr);
    }
  }

  lemma OkOccupied(st: State, r: nat)
    requires Ok(st) && r in st.live && r !in st.free
    ensures IsTarget(st, r)
  {
  }

  // ------------------------------------------------------------------
  // Cycles

  ghost predicate OccupiedBy(st: State, c: set<nat>, r: nat) {
    exists q :: q in c && HasTarget(st, q) && Target(st, q) == r
  }

  /** Live registers of one class, each of which is the target of one of them: cycles of moves */
  ghost predicate IsCycles(st: State, c: set<nat>, gpr: bool) {
    && c != {} && c <= OfClass(st.live, gpr) && c !! st.free
    && forall r {:trigger OccupiedBy(st, c, r)} :: r in c ==> OccupiedBy(st, c, r)
  }

  ghost predicate HasCycle(st: State, gpr: bool) {
    exists c: set<nat> :: IsCycles(st, c, gpr)
  }

  /** Coalescing leaves the cycles. */
  lemma CycleCoalesce(st: State, rp: nat, gpr: bool)
    requires Ok(st) && rp in st.live && rp in st.free && HasTarget(st, rp)
    ensures HasCycle(Coalesced(st, rp), gpr) <==> HasCycle(st, gpr)
  {
    hide SameClass, Ok, IsCycles, HasTarget;
    var next := Coalesced(st, rp);
    CoalesceOk(st, rp);
    if HasCycle(st, gpr) {
      var c: set<nat> :| IsCycles(st, c, gpr);
      CyclesCoalesced(st, rp, c, gpr);
    }
    if HasCycle(next, gpr) {
      var c: set<nat> :| IsCycles(next, c, gpr);
      CyclesBefore(st, rp, c, gpr);
    }
  }

  lemma CyclesCoalesced(st: State, rp: nat, c: set<nat>, gpr: bool)
    requires Ok(st) && rp in st.live && rp in st.free && HasTarget(st, rp) && IsCycles(st, c, gpr)
    ensures IsCycles(Coalesced(st, rp), c, gpr)
  {
    hide SameClass;
    var next := Coalesced(st, rp);
    CoalesceOk(st, rp);
    forall q | q in c ensures HasTarget(next, q) && Target(next, q) == Target(st, q) != Target(st, rp) {
      assert q in st.live && q != rp;
      OkTarget(next, q);
    }
    CyclesStay(st, next, c, gpr);
    forall r | r in c ensures r != Target(st, rp) {
      assert OccupiedBy(st, c, r);
    }
  }

  lemma CyclesBefore(st: State, rp: nat, c: set<nat>, gpr: bool)
    requires Ok(st) && rp in st.live && rp in st.free && HasTarget(st, rp) && IsCycles(Coalesced(st, rp), c, gpr)
    ensures IsCycles(st, c, gpr)
  {
    hide SameClass;
    var next := Coalesced(st, rp);
    CoalesceOk(st, rp);
    forall q | q in c ensures HasTarget(st, q) && Target(next, q) == Target(st, q) {
      assert q in next.live;
      OkTarget(st, q);
    }
    CyclesStay(next, st, c, gpr);
  }

  lemma CyclesStay(st: State, next: State, c: set<nat>, gpr: bool)
    requires IsCycles(st, c, gpr)
    requires forall q :: q in c && HasTarget(st, q) && q !in st.free ==> HasTarget(next, q) && Target(next, q) == Target(st, q)
    ensures forall r :: r in c ==> OccupiedBy(next, c, r)
  {
    hide SameClass;
    forall r | r in c ensures OccupiedBy(next, c, r) {
      assert OccupiedBy(st, c, r);
      var q :| q in c && HasTarget(st, q) && Target(st, q) == r;
      assert q !in st.free;
      assert HasTarget(next, q) && Target(next, q) == r;
    }
  }

  /** Renaming in one class leaves the cycles of the other one. */
  lemma CycleRename(st: State, down: nat, up: nat, gpr: bool)
    requires Ok(st) && HasTarget(st, down) && down in st.live && down !in st.free && (down < RID_MAX_GPR <==> !gpr)
    requires up in st.free && up !in st.live && SameClass(down, up)
    ensures down in st.cost && (HasCycle(Renamed(st, down, up), gpr) <==> HasCycle(st, gpr))
  {
    hide SameClass, AllTargets, OwnTargets;
    RenameOk(st, down, up);
    var next := Renamed(st, down, up);
    CyclesRenamed(st, next, down, up, gpr);
    forall q | q in st.live ensures HasTarget(next, q) {
      OkTarget(next, q);
    }
    if HasCycle(st, gpr) {
      var c: set<nat> :| IsCycles(st, c, gpr);
      CyclesStay(st, next, c, gpr);
      assert IsCycles(next, c, gpr);
    }
    if HasCycle(next, gpr) {
      var c: set<nat> :| IsCycles(next, c, gpr);
      CyclesStay(next, st, c, gpr);
      assert IsCycles(st, c, gpr);
    }
  }

  lemma CyclesRenamed(st: State, next: State, down: nat, up: nat, gpr: bool)
    requires Ok(st) && Ok(next) && HasTarget(st, down) && (down < RID_MAX_GPR <==> !gpr) && SameClass(down, up) && down in st.cost
    requires next == Renamed(st, down, up)
    requires forall q :: q in st.live ==>
               HasTarget(st, q) && Target(next, q) == if Target(st, q) == down then up else Target(st, q)
    ensures forall q :: q in OfClass(st.live, gpr) ==> HasTarget(st, q) && HasTarget(next, q) && Target(next, q) == Target(st, q)
  {
    forall q | q in OfClass(st.live, gpr) ensures HasTarget(st, q) && HasTarget(next, q) && Target(next, q) == Target(st, q) {
      OkTarget(next, q);
      assert HasTarget(st, q);
    }
  }

  /** Live registers that all are occupied form cycles. */
  lemma AllCycles(st: State, gpr: bool)
    requires Ok(st) && st.free * st.live == {} && OfClass(st.live, gpr) != {}
    ensures HasCycle(st, gpr)
  {
    hide Ok, IsTarget;
    var c := OfClass(st.live, gpr);
    forall r | r in c ensures r !in st.free && OccupiedBy(st, c, r) {
      assert r !in st.free * st.live;
      var q := Occupant(st, r);
      assert q in c;
    }
    assert IsCycles(st, c, gpr);
  }

  lemma NoCycle(st: State, gpr: bool)
    requires st.live == {}
    ensures !HasCycle(st, gpr)
  {
    assert OfClass(st.live, gpr) == {};
  }

  lemma OkInside(st: State, rp: nat)
    requires Ok(st) && rp in st.live
    ensures HasTarget(st, rp) && rp < RID_MAX
  {
  }

  lemma MovesOk(st: State, code: seq<Move>, target: map<nat, nat>, settled: set<nat>)
    requires Moves(st, code, target, settled)
    ensures Ok(st) && IsCode(code)
  {
  }

  /** If a temporary register was provided for a class, there is one to break a cycle with. */
  lemma TempIsFree(st: State, gpr: bool)
    requires Ok(st) && st.free !! st.live && HasTemp(st, gpr)
    ensures OfClass(st.free * st.allow - st.live, gpr) != {}
  {
    var t: nat :| IsTemp(st, t, gpr);
    if t !in st.free {
      OnlyLiveTargets(st, gpr, t);
    }
    assert t in OfClass(st.free * st.allow - st.live, gpr);
  }

  lemma HasTempOf(st: State, gpr: bool)
    requires Ok(st) && OfClass(st.free * st.allow - st.live, gpr) != {}
    ensures HasTemp(st, gpr)
  {
    var t :| t in OfClass(st.free * st.allow - st.live, gpr);
    assert IsTemp(st, t, gpr);
  }

  /** Each class of registers with a cycle has a temporary register. */
  ghost predicate NeverStuck(st: State) {
    (HasCycle(st, true) ==> HasTemp(st, true)) && (HasCycle(st, false) ==> HasTemp(st, false))
  }

  /** Where there is a temporary register there still is one, and where there is none the cycles are still the same. */
  ghost predicate SameCycles(st: State, next: State) {
    SameInClass(st, next, true) && SameInClass(st, next, false)
  }

  ghost predicate SameInClass(st: State, next: State, gpr: bool) {
    (HasTemp(st, gpr) <==> HasTemp(next, gpr)) && (!HasTemp(st, gpr) ==> (HasCycle(st, gpr) <==> HasCycle(next, gpr)))
  }

  /** The part of the assembler state that the shuffle works on */
  class Assembler {
    var freeset: set<nat>
    var reg: map<nat, nat>
    var cost: map<nat, nat>
    /** The moves, in the order of their emission */
    var code: seq<Move>

    ghost function V(live: set<nat>, allow: set<nat>, sloadins: map<nat, nat>): State
      reads this
    {
      State(freeset, live, allow, sloadins, reg, cost)
    }

    /** rset_pickbot */
    method PickBottom(s: set<nat>) returns (r: nat)
      requires s != {} && forall x :: x in s ==> x < RID_MAX
      ensures r in s && forall x :: x in s ==> r <= x
    {
      r := 0;
      ghost var some :| some in s;
      while r !in s
        invariant r <= some && forall x :: x in s ==> r <= x
        decreases RID_MAX - r
      {
        r := r + 1;
      }
    }

    /** ra_rename */
    method RaRename(down: nat, up: nat)
      requires down in cost
      modifies `freeset, `reg, `cost, `code
      ensures forall live, allow, sloadins {:trigger V(live, allow, sloadins)} ::
                V(live, allow, sloadins) == Renamed(old(V(live, allow, sloadins)), down, up)
      ensures code == old(code) + [Move(down, up)]
    {
      var ref := cost[down];
      cost := cost[up := ref];
      reg := reg[ref := up];
      cost := cost[down := 0];
      freeset := freeset + {down};
      freeset := freeset - {up};
      code := code + [Move(down, up)];
    }

    /** The inner loop: live registers that are free are moved to their targets. */
    method CoalesceFree(live0: set<nat>, allow0: set<nat>, sloadins: map<nat, nat>, ghost target: map<nat, nat>, ghost settled: set<nat>)
      returns (live: set<nat>, allow: set<nat>)
      requires Moves(V(live0, allow0, sloadins), code, target, settled)
      modifies `freeset, `code
      ensures Moves(V(live, allow, sloadins), code, target, settled)
      ensures live <= live0 && freeset !! live
      ensures live0 * old(freeset) != {} ==> live < live0
      ensures SameCycles(old(V(live0, allow0, sloadins)), V(live, allow, sloadins))
    {
      hide Moves, Ok, HasTarget, HasTemp, HasCycle, SameClass;
      live, allow := live0, allow0;
      while freeset * live != {}
        invariant Moves(V(live, allow, sloadins), code, target, settled)
        invariant live <= live0 && (live == live0 ==> freeset == old(freeset))
        invariant SameCycles(old(V(live0, allow0, sloadins)), V(live, allow, sloadins))
        decreases live
      {
        ghost var st := V(live, allow, sloadins);
        MovesOk(st, code, target, settled);
        forall x | x in freeset * live ensures x < RID_MAX {
          OkInside(st, x);
        }
        var rp := PickBottom(freeset * live);
        OkInside(st, rp);
        MovesCoalesce(st, code, target, settled, rp);
        forall gpr ensures SameInClass(st, Coalesced(st, rp), gpr) {
          TempCoalesce(st, rp, gpr);
          CycleCoalesce(st, rp, gpr);
        }
        assert SameCycles(st, Coalesced(st, rp));
        TargetParts(st, rp);
        live := live - {rp};
        allow := allow - {rp};
        var r := reg[sloadins[rp]];
        freeset := freeset + {r};
        code := code + [Move(r, rp)];
        assert V(live, allow, sloadins) == Coalesced(st, rp);
      }
      assert forall x :: x in freeset && x in live ==> x in freeset * live;
    }

    /** A cycle in one class of registers is broken, if there is one: one target is renamed to a temporary register. */
    method BreakCycle(live: set<nat>, allow: set<nat>, sloadins: map<nat, nat>, gpr: bool, ghost target: map<nat, nat>, ghost settled: set<nat>)
      returns (ok: bool)
      requires Moves(V(live, allow, sloadins), code, target, settled)
      requires freeset * OfClass(live, gpr) == {}
      modifies `freeset, `reg, `cost, `code
      ensures if OfClass(live, gpr) == {} then ok else ok <==> OfClass(old(freeset) * allow - live, gpr) != {}
      ensures ok ==> Moves(V(live, allow, sloadins), code, target, settled)
      ensures ok && OfClass(live, gpr) != {} ==> freeset * live != {}
      ensures ok && OfClass(live, gpr) == {} ==> freeset == old(freeset)
      ensures freeset * OfClass(live, !gpr) == old(freeset) * OfClass(live, !gpr)
      ensures OfClass(freeset * allow - live, !gpr) == OfClass(old(freeset) * allow - live, !gpr)
      ensures ok ==> SameCycles(old(V(live, allow, sloadins)), V(live, allow, sloadins))
    {
      hide Moves, Ok, HasTarget, HasTemp, HasCycle;
      var work := OfClass(live, gpr);
      if work != {} {
        var tmpset := OfClass(freeset * allow - live, gpr);
        if tmpset == {} {
          return false;
        }
        ghost var st := V(live, allow, sloadins);
        MovesOk(st, code, target, settled);
        var down := PickBottom(work);
        var up := PickBottom(tmpset);
        OkInside(st, down);
        assert down !in freeset * work;
        MovesRename(st, code, target, settled, down, up);
        forall g ensures SameInClass(st, Renamed(st, down, up), g) {
          TempRename(st, down, up, g);
          if g == gpr {
            HasTempOf(st, g);
          } else {
            CycleRename(st, down, up, g);
          }
        }
        RaRename(down, up);
        assert V(live, allow, sloadins) == Renamed(st, down, up);
        assert down in freeset * live;
      }
      return true;
    }

    /**
     The shuffle at the end of asm_head_side. Unless it gives up, the moves put the value of
     every register of the parent into its target, and leave alone all registers that already
     hold what they have to. It gives up if and only if there is a cycle in a class of
     registers that has no temporary register, not even among the targets outside of cycles.
     */
    method Shuffle(live0: set<nat>, allow0: set<nat>, sloadins: map<nat, nat>) returns (ok: bool)
      requires Ok(V(live0, allow0, sloadins)) && code == []
      modifies `freeset, `reg, `cost, `code
      ensures ok ==> IsCode(code) && forall rp :: rp in live0 ==>
                old(HasTarget(V(live0, allow0, sloadins), rp)) && Carries(code, rp, old(Target(V(live0, allow0, sloadins), rp)))
      ensures ok ==> forall r: nat :: old(Settled(V(live0, allow0, sloadins), r)) ==> Carries(code, r, r)
      ensures ok <==> NeverStuck(old(V(live0, allow0, sloadins)))
    {
      hide Moves, Ok, HasTarget, HasTemp, HasCycle, Carries, Settled, SameClass;
      var live, allow := live0, allow0;
      ghost var st0 := V(live0, allow0, sloadins);
      forall rp | rp in live0 ensures HasTarget(st0, rp) {
        OkTarget(st0, rp);
      }
      ghost var target := map rp | rp in live0 :: Target(st0, rp);
      ghost var settled := set r | 0 <= r < RID_MAX && Settled(st0, r);
      MovesStart(st0, target, settled);
      ok := true;
      while true
        invariant live <= live0 && Moves(V(live, allow, sloadins), code, target, settled)
        invariant SameCycles(st0, V(live, allow, sloadins))
        decreases live, if freeset * live == {} then 1 else 0
      {
        live, allow := CoalesceFree(live, allow, sloadins, target, settled);
        if live == {} {
          break;
        }
        ghost var st := V(live, allow, sloadins);
        MovesOk(st, code, target, settled);
        ghost var some :| some in live;
        OkInside(st, some);
        assert some in OfClass(live, some < RID_MAX_GPR);
        forall gpr ensures HasTemp(st, gpr) <==> OfClass(freeset * allow - live, gpr) != {} {
          if HasTemp(st, gpr) {
            TempIsFree(st, gpr);
          } else if OfClass(freeset * allow - live, gpr) != {} {
            HasTempOf(st, gpr);
          }
        }
        forall gpr | OfClass(live, gpr) != {} ensures HasCycle(st, gpr) {
          AllCycles(st, gpr);
        }
        assert freeset * OfClass(live, true) == {} && freeset * OfClass(live, false) == {};
        ok := BreakCycle(live, allow, sloadins, true, target, settled);
        if !ok {
          assert HasCycle(st0, true) && !HasTemp(st0, true);
          return;
        }
        ok := BreakCycle(live, allow, sloadins, false, target, settled);
        if !ok {
          assert HasCycle(st0, false) && !HasTemp(st0, false);
          return;
        }
      }
      forall gpr ensures !HasCycle(V(live, allow, sloadins), gpr) {
        NoCycle(V(live, allow, sloadins), gpr);
      }
      MovesDone(V(live, allow, sloadins), code, target, settled);
      SettledInside(st0);
      forall r: nat | Settled(st0, r) ensures Carries(code, r, r) {
        assert r in settled;
      }
    }
  }

  lemma MovesDone(st: State, code: seq<Move>, target: map<nat, nat>, settled: set<nat>)
    requires Moves(st, code, target, settled) && st.live == {}
    ensures IsCode(code)
    ensures forall rp {:trigger rp in target} :: rp in target ==> Carries(code, rp, target[rp])
    ensures forall r {:trigger r in settled} :: r in settled ==> Carries(code, r, r)
  {
    hide Ok, Carries, Settled;
  }

  lemma SettledInside(st: State)
    ensures forall r: nat :: Settled(st, r) ==> r < RID_MAX
  {
  }

  lemma TargetParts(st: State, rp: nat)
    requires HasTarget(st, rp)
    ensures rp in st.sloadins && st.sloadins[rp] in st.reg && Target(st, rp) == st.reg[st.sloadins[rp]]
  {
  }
}
