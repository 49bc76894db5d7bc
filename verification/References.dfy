/**
 The references of the auxiliary library (luaL_ref and luaL_unref in
 src/lib_aux.c): slots of a table, where the free slots form a list that is
 threaded through the table itself, starting at slot zero.
 */
module References {
  datatype Value = Number(n: int) | Object(id: nat)

  /** The slots that are not nil */
  type Table = map<int, Value>

  datatype Slot = Nil | Some(v: Value)

  const FREELIST_REF: int := 0
  const LUA_REFNIL: int := -1

  function RawGet(t: Table, i: int): Slot {
    if i in t then Some(t[i]) else Nil
  }

  function RawSet(t: Table, i: int, s: Slot): Table {
    if s.Some? then t[i := s.v] else t - {i}
  }

  /** lua_tointeger: zero, if it is no number */
  function ToInteger(s: Slot): int {
    if s.Some? && s.v.Number? then s.v.n else 0
  }

  /** What lua_objlen may answer */
  predicate Border(t: Table, n: nat) {
    (n == 0 || n in t) && n + 1 !in t
  }

  /** There is one. */
  lemma {:induction false} BorderExists(t: Table, n: nat) returns (m: nat)
    requires forall i: nat :: 0 < i <= n ==> i in t
    ensures Border(t, m)
    decreases |t| - n
  {
    if n + 1 in t {
      CountUpTo(t, n);
      m := BorderExists(t, n + 1);
    } else {
      m := n;
    }
  }

  /** A table in which slots 1 to `n` are not nil, and slot `n + 1` is not, has more than `n` slots. */
  lemma {:induction false} CountUpTo(t: Table, n: nat)
    requires forall i: nat :: 0 < i <= n + 1 ==> i in t
    ensures n < |t|
    decreases n
  {
    var rest := t - {n + 1};
    assert t.Keys == rest.Keys + {n + 1};
    if n > 0 {
      CountUpTo(rest, n - 1);
    }
  }

  // ------------------------------------------------------------------
  // Tables of references

  /** The free slot at position `k` of the list holds the next one, and the last holds nil. */
  ghost predicate LinkOk(t: Table, free: seq<nat>, k: nat) {
    k < |free| ==> RawGet(t, free[k]) == NextOf(free, k)
  }

  function NextOf(free: seq<nat>, k: nat): Slot {
    if k + 1 < |free| then Some(Number(free[k + 1])) else Nil
  }

  /** Slot `i` is either a live reference with its value, or free. */
  ghost predicate SlotOk(t: Table, live: map<nat, Value>, free: seq<nat>, n: nat, i: nat) {
    && (i in live <==> 0 < i <= n && i !in free)
    && (i in live ==> RawGet(t, i) == Some(live[i]))
    && (i in free ==> 0 < i <= n)
    && (i > n ==> i !in t)
  }

  ghost predicate RefsOk(t: Table, live: map<nat, Value>, free: seq<nat>, n: nat) {
    && RawGet(t, FREELIST_REF) == (if free == [] then Nil else Some(Number(free[0])))
    && (forall j, k :: 0 <= j < k < |free| ==> free[j] != free[k])
    && (forall k: nat {:trigger LinkOk(t, free, k)} :: LinkOk(t, free, k))
    && (forall i: nat {:trigger SlotOk(t, live, free, n, i)} :: SlotOk(t, live, free, n, i))
  }

  lemma SlotFacts(t: Table, live: map<nat, Value>, free: seq<nat>, n: nat, i: nat)
    requires RefsOk(t, live, free, n)
    ensures SlotOk(t, live, free, n, i)
  {
  }

  lemma LinkFacts(t: Table, live: map<nat, Value>, free: seq<nat>, n: nat, k: nat)
    requires RefsOk(t, live, free, n)
    ensures LinkOk(t, free, k)
  {
  }

  /** Without free slots there is no hole, so that the length of the table is known. */
  lemma FullTable(t: Table, live: map<nat, Value>, n: nat, len: nat)
    requires RefsOk(t, live, [], n)
    ensures Border(t, len) <==> len == n
  {
    SlotFacts(t, live, [], n, len);
    SlotFacts(t, live, [], n, len + 1);
    SlotFacts(t, live, [], n, n);
    SlotFacts(t, live, [], n, n + 1);
  }

  /** Only the last free slot is a hole: the one that was given up when no other was free. */
  lemma OneHole(t: Table, live: map<nat, Value>, free: seq<nat>, n: nat, i: nat)
    requires RefsOk(t, live, free, n) && 0 < i <= n
    ensures i !in t <==> free != [] && i == free[|free| - 1]
  {
    SlotFacts(t, live, free, n, i);
    if i in free {
      var k :| 0 <= k < |free| && free[k] == i;
      LinkFacts(t, live, free, n, k);
    }
  }

  // ------------------------------------------------------------------
  // luaL_ref

  lemma ReuseOk(t: Table, live: map<nat, Value>, free: seq<nat>, n: nat, v: Value)
    requires RefsOk(t, live, free, n) && free != []
    ensures ToInteger(RawGet(t, FREELIST_REF)) == free[0] != 0 && free[0] !in live
    ensures RefsOk(RawSet(RawSet(t, FREELIST_REF, RawGet(t, free[0])), free[0], Some(v)), live[free[0] := v], free[1..], n)
  {
    var ref := free[0];
    var t' := RawSet(RawSet(t, FREELIST_REF, RawGet(t, ref)), ref, Some(v));
    var live', free' := live[ref := v], free[1..];
    SlotFacts(t, live, free, n, ref);
    LinkFacts(t, live, free, n, 0);
    forall k: nat ensures LinkOk(t', free', k) {
      LinkFacts(t, live, free, n, k + 1);
      if k + 1 < |free| {
        SlotFacts(t, live, free, n, free[k + 1]);
      }
    }
    forall i: nat ensures SlotOk(t', live', free', n, i) {
      SlotFacts(t, live, free, n, i);
      InTail(free, i);
    }
  }

  lemma InTail(free: seq<nat>, i: nat)
    requires free != [] && forall j, k :: 0 <= j < k < |free| ==> free[j] != free[k]
    ensures i in free[1..] <==> i in free && i != free[0]
  {
    if i in free && i != free[0] {
      var k :| 0 <= k < |free| && free[k] == i;
      assert free[1..][k - 1] == i;
    }
  }

  lemma AppendOk(t: Table, live: map<nat, Value>, n: nat, v: Value)
    requires RefsOk(t, live, [], n)
    ensures n + 1 !in live && RefsOk(RawSet(t, n + 1, Some(v)), live[n + 1 := v], [], n + 1)
  {
    var t', live', m := RawSet(t, n + 1, Some(v)), live[n + 1 := v], n + 1;
    SlotFacts(t, live, [], n, m);
    forall i: nat ensures SlotOk(t', live', [], m, i) {
      SlotFacts(t, live, [], n, i);
    }
  }

  // ------------------------------------------------------------------
  // luaL_unref

  function Unreferenced(t: Table, ref: int): Table {
    RawSet(RawSet(t, ref, RawGet(t, FREELIST_REF)), FREELIST_REF, Some(Number(ref)))
  }

  lemma UnrefOk(t: Table, live: map<nat, Value>, free: seq<nat>, n: nat, ref: nat)
    requires RefsOk(t, live, free, n) && ref in live
    ensures RefsOk(Unreferenced(t, ref), live - {ref}, [ref] + free, n)
  {
    var t', free' := Unreferenced(t, ref), [ref] + free;
    SlotFacts(t, live, free, n, ref);
    forall k: nat ensures LinkOk(t', free', k) {
      if 0 < k < |free'| {
        LinkFacts(t, live, free, n, k - 1);
        SlotFacts(t, live, free, n, free[k - 1]);
      }
    }
    forall i: nat ensures SlotOk(t', live - {ref}, free', n, i) {
      SlotFacts(t, live, free, n, i);
    }
  }

  /** If a free slot is given up again, the list of free slots goes round. */
  lemma {:induction false} FreeAgain(t: Table, live: map<nat, Value>, free: seq<nat>, n: nat, ref: nat,
                                     live': map<nat, Value>, free': seq<nat>, n': nat, k: nat)
    requires RefsOk(t, live, free, n) && ref in free && RefsOk(Unreferenced(t, ref), live', free', n')
    requires k < |free| && forall j :: 0 <= j < k ==> free[j] != ref
    ensures k + 1 < |free'| && free'[0] == ref && free'[k + 1] == free[k]
  {
    var t' := Unreferenced(t, ref);
    SlotFacts(t, live, free, n, ref);
    if k == 0 {
      LinkFacts(t', live', free', n', 0);
    } else {
      FreeAgain(t, live, free, n, ref, live', free', n', k - 1);
      LinkFacts(t, live, free, n, k - 1);
      LinkFacts(t', live', free', n', k);
      SlotFacts(t, live, free, n, free[k - 1]);
    }
  }

  /** Giving up a slot keeps the table in order if and only if the slot is a live reference. */
  lemma OnlyLiveMayGo(t: Table, live: map<nat, Value>, free: seq<nat>, n: nat, ref: nat)
    requires RefsOk(t, live, free, n) && 0 < ref <= n
    ensures (exists l, f, m :: RefsOk(Unreferenced(t, ref), l, f, m)) <==> ref in live
  {
    SlotFacts(t, live, free, n, ref);
    if ref in live {
      UnrefOk(t, live, free, n, ref);
    } else if l, f, m :| RefsOk(Unreferenced(t, ref), l, f, m) {
      var k := FirstAt(free, ref);
      FreeAgain(t, live, free, n, ref, l, f, m, k);
    }
  }

  lemma {:induction false} FirstAt(free: seq<nat>, ref: nat) returns (k: nat)
    requires ref in free
    ensures k < |free| && free[k] == ref && forall j :: 0 <= j < k ==> free[j] != ref
  {
    if free[0] == ref {
      k := 0;
    } else {
      k := FirstAt(free[1..], ref);
      k := k + 1;
    }
  }

  class References {
    var t: Table
    ghost var live: map<nat, Value>
    ghost var free: seq<nat>
    ghost var n: nat

    ghost predicate Valid()
      reads this
    {
      RefsOk(t, live, free, n)
    }

    /** An empty table */
    constructor ()
      ensures Valid() && live == map[]
    {
      t := map[];
      live, free, n := map[], [], 0;
    }

    /** lua_objlen: any border */
    method ObjLen() returns (len: nat)
      ensures Border(t, len)
    {
      ghost var m := BorderExists(t, 0);
      len :| Border(t, len);
    }

    /** luaL_ref: a reference that is not in use */
    method Ref(s: Slot) returns (ref: int)
      requires Valid()
      modifies this
      ensures Valid()
      ensures s.Nil? ==> ref == LUA_REFNIL && live == old(live) && t == old(t)
      ensures s.Some? ==> ref > 0 && ref !in old(live) && live == old(live)[ref := s.v] && RawGet(t, ref) == s
    {
      hide RefsOk, Border;
      if s.Nil? {
        return LUA_REFNIL;
      }
      ref := ToInteger(RawGet(t, FREELIST_REF));
      HeadOfList();
      if ref != 0 {
        ReuseOk(t, live, free, n, s.v);
        t := RawSet(t, FREELIST_REF, RawGet(t, ref));
        free := free[1..];
      } else {
        var len := ObjLen();
        FullTable(t, live, n, len);
        AppendOk(t, live, n, s.v);
        ref := len + 1;
        n := n + 1;
      }
      t := RawSet(t, ref, s);
      live := live[ref := s.v];
    }

    lemma HeadOfList()
      requires Valid()
      ensures ToInteger(RawGet(t, FREELIST_REF)) == if free == [] then 0 else free[0]
      ensures free != [] ==> free[0] > 0
    {
      if free != [] {
        SlotFacts(t, live, free, n, free[0]);
      }
    }

    /** luaL_unref */
    method Unref(ref: int)
      requires Valid() && (ref >= 0 ==> ref in live)
      modifies this
      ensures Valid() && live == if ref >= 0 then old(live) - {ref} else old(live)
    {
      hide RefsOk;
      if ref >= 0 {
        UnrefOk(t, live, free, n, ref);
        t := RawSet(t, ref, RawGet(t, FREELIST_REF));
        t := RawSet(t, FREELIST_REF, Some(Number(ref)));
        live := live - {ref};
        free := [ref] + free;
      }
    }

    /** lua_rawgeti on a live reference */
    method Get(ref: int) returns (s: Slot)
      requires Valid()
      ensures ref in live ==> s == Some(live[ref])
    {
      s := RawGet(t, ref);
      if ref in live {
        SlotFacts(t, live, free, n, ref);
      }
    }
  }
}
