/**
 The search for a printed pattern finds the preferred one of its matches, and raises no error if
 the captures of the pattern are in order and the pattern is not too long.
 */
module PatternSearch {
  import opened PatternItems
  import opened PatternSets
  import opened PatternSpec
  import opened PatternMatch
  import opened PatternMeaning
  import opened PatternFind
  import opened PatternSyntax

  // ------------------------------------------------------------------
  // From the rest of a pattern to the pattern

  /** What a search has to return: the best match with its captures, or nothing if there is none */
  ghost predicate IsResult(src: seq<nat>, nodes: seq<Node>, s: nat, caps: seq<Cap>, all: seq<Outcome>, ends: seq<nat>) {
    match HeadOf(all)
    case NoMatch => NoneFit(src, nodes, s, caps)
    case Match(e) =>
      IsBest(src, nodes, s, caps, ends) && e == EndOf(s, ends) && CapsOf(all, caps) == CapsAlong(src, nodes, s, caps, ends)
    case Error(_) => true
  }

  /** No end that the first part prefers to `m` leaves a match for the rest. */
  ghost predicate NoneBefore(src: seq<nat>, nodes: seq<Node>, s: nat, caps: seq<Cap>, m: nat)
    requires nodes != []
  {
    forall n: nat :: Takes(src, nodes[0], s, caps, n) && Prefers(nodes[0], n, m) ==>
      NoneFit(src, nodes[1..], n, CapsThen(src, nodes[0], s, caps, n))
  }

  lemma BestOfFirst(src: seq<nat>, nodes: seq<Node>, s: nat, caps: seq<Cap>, m: nat, rest: seq<nat>)
    requires nodes != [] && Takes(src, nodes[0], s, caps, m) && NoneBefore(src, nodes, s, caps, m)
    requires IsBest(src, nodes[1..], m, CapsThen(src, nodes[0], s, caps, m), rest)
    ensures var ends := [m] + rest;
            && IsBest(src, nodes, s, caps, ends) && EndOf(s, ends) == EndOf(m, rest)
            && CapsAlong(src, nodes, s, caps, ends) == CapsAlong(src, nodes[1..], m, CapsThen(src, nodes[0], s, caps, m), rest)
  {
    hide Takes, CapsThen, NoneBefore;
    var ends := [m] + rest;
    assert ends[1..] == rest;
    forall o: seq<nat> | Fits(src, nodes, s, caps, o) && o != ends ensures Better(nodes, ends, o) {
      NotBefore(src, nodes, s, caps, m, o);
      if o[0] == m {
        assert o == [m] + o[1..];
        assert Better(nodes[1..], ends[1..], o[1..]);
      }
    }
  }

  lemma NotBefore(src: seq<nat>, nodes: seq<Node>, s: nat, caps: seq<Cap>, m: nat, o: seq<nat>)
    requires nodes != [] && NoneBefore(src, nodes, s, caps, m) && Fits(src, nodes, s, caps, o)
    ensures !Prefers(nodes[0], o[0], m)
  {
    hide Takes, CapsThen;
    assert !NoneFit(src, nodes[1..], o[0], CapsThen(src, nodes[0], s, caps, o[0]));
  }

  lemma NoneOfFirst(src: seq<nat>, nodes: seq<Node>, s: nat, caps: seq<Cap>)
    requires nodes != []
    requires forall n: nat :: Takes(src, nodes[0], s, caps, n) ==>
               NoneFit(src, nodes[1..], n, CapsThen(src, nodes[0], s, caps, n))
    ensures NoneFit(src, nodes, s, caps)
  {
    hide Takes, CapsThen;
    forall o: seq<nat> ensures !Fits(src, nodes, s, caps, o) {
      if Fits(src, nodes, s, caps, o) {
        assert NoneFit(src, nodes[1..], o[0], CapsThen(src, nodes[0], s, caps, o[0]));
      }
    }
  }

  /** A part that can end at one place only */
  lemma OnlyOne(src: seq<nat>, nodes: seq<Node>, s: nat, caps: seq<Cap>, m: nat, all: seq<Outcome>, rest: seq<nat>)
    requires nodes != [] && Takes(src, nodes[0], s, caps, m) && forall n: nat :: Takes(src, nodes[0], s, caps, n) ==> n == m
    requires IsResult(src, nodes[1..], m, CapsThen(src, nodes[0], s, caps, m), all, rest)
    ensures !HeadOf(all).NoMatch? ==> IsResult(src, nodes, s, caps, all, [m] + rest)
    ensures HeadOf(all).NoMatch? ==> NoneFit(src, nodes, s, caps)
  {
    hide Takes, CapsThen, IsBest, NoneFit, Fits;
    if HeadOf(all).Match? {
      BestOfFirst(src, nodes, s, caps, m, rest);
    } else if HeadOf(all).NoMatch? {
      NoneOfFirst(src, nodes, s, caps);
    }
  }

  // ------------------------------------------------------------------
  // Repetitions

  /** The rest matches behind one of the ends from `lo` to `hi`, and behind none that is tried before it. */
  ghost predicate IsChosen(src: seq<nat>, rest: seq<Node>, lo: nat, hi: int, few: bool, caps: seq<Cap>, all: seq<Outcome>,
                           m: nat, ends: seq<nat>) {
    match HeadOf(all)
    case NoMatch => forall n: nat :: lo <= n <= hi ==> NoneFit(src, rest, n, caps)
    case Match(_) =>
      && lo <= m <= hi && IsResult(src, rest, m, caps, all, ends)
      && forall n: nat :: (if few then lo <= n < m else m < n <= hi) ==> NoneFit(src, rest, n, caps)
    case Error(_) => true
  }

  lemma {:induction false} GreedyChooses(t: Task, d: nat, p: nat, s: nat, i: nat, caps: seq<Cap>, rest: seq<Node>)
    returns (m: nat, ends: seq<nat>)
    requires p <= |t.pat| && s + i <= |t.src| && Printed(t, p, rest) && CapsOk(caps, s)
    ensures IsChosen(t.src, rest, s, s + i, false, caps, Greedy(t, d, p, s, i, caps), m, ends)
    decreases |t.pat| - p, 2, i
  {
    hide Nested, Greedy, NoneFit, IsBest, Fits, CapsAlong, Printed;
    GreedyStep(t, d, p, s, i, caps);
    CapsOkLater(caps, s, s + i);
    m := s + i;
    ends := NestedIsBest(t, d, p, s + i, caps, rest);
    if HeadOf(Nested(t, d, p, s + i, caps)).NoMatch? && i > 0 {
      m, ends := GreedyChooses(t, d, p, s, i - 1, caps, rest);
    }
  }

  lemma {:induction false} LazyChooses(t: Task, d: nat, p: nat, s: nat, n: nat, caps: seq<Cap>, rest: seq<Node>)
    returns (m: nat, ends: seq<nat>)
    requires p <= |t.pat| && s + n <= |t.src| && Printed(t, p, rest) && CapsOk(caps, s)
    ensures IsChosen(t.src, rest, s, s + n, true, caps, Lazy(t, d, p, s, n, caps), m, ends)
    decreases |t.pat| - p, 2, n
  {
    hide Nested, Lazy, NoneFit, IsBest, Fits, CapsAlong, Printed;
    LazyStep(t, d, p, s, n, caps);
    m := s;
    ends := NestedIsBest(t, d, p, s, caps, rest);
    if HeadOf(Nested(t, d, p, s, caps)).NoMatch? && n > 0 {
      CapsOkLater(caps, s, s + 1);
      m, ends := LazyChooses(t, d, p, s + 1, n - 1, caps, rest);
    }
  }

  /** The item takes just the ends from `lo` to `hi`. */
  lemma Chosen(src: seq<nat>, nodes: seq<Node>, s: nat, caps: seq<Cap>, lo: nat, hi: int, all: seq<Outcome>, m: nat, ends: seq<nat>)
    requires nodes != [] && nodes[0].Repeat?
    requires forall n: nat :: Takes(src, nodes[0], s, caps, n) <==> lo <= n <= hi
    requires IsChosen(src, nodes[1..], lo, hi, nodes[0].rep == Few, caps, all, m, ends)
    ensures !HeadOf(all).NoMatch? ==> IsResult(src, nodes, s, caps, all, [m] + ends)
    ensures HeadOf(all).NoMatch? ==> NoneFit(src, nodes, s, caps)
  {
    hide Takes, NoneFit, IsBest, Fits, CapsAlong;
    forall n: nat | Takes(src, nodes[0], s, caps, n) ensures CapsThen(src, nodes[0], s, caps, n) == caps {
    }
    if HeadOf(all).Match? {
      BestOfFirst(src, nodes, s, caps, m, ends);
    } else if HeadOf(all).NoMatch? {
      NoneOfFirst(src, nodes, s, caps);
    }
  }

  function Least(rep: Rep): nat {
    if rep == Once || rep == Some then 1 else 0
  }

  function Most(rep: Rep, run: nat): nat {
    if (rep == Once || rep == Maybe) && run > 0 then 1 else run
  }

  /** The ends that a repeated item can take */
  lemma RepeatTakes(t: Task, p: nat, x: Item, rep: Rep, s: nat, caps: seq<Cap>)
    requires Reads(t.pat, p, PrintItem(x)) && ItemOk(x) && s <= |t.src|
    ensures var ep := p + |PrintItem(x)|;
            forall n: nat :: Takes(t.src, Repeat(x, rep), s, caps, n) <==> s + Least(rep) <= n <= s + Most(rep, Run(t, s, p, ep))
  {
    hide Reads, ItemOk, Accepts, SingleMatch, Run, ClassEnd, IsPlain;
    var ep := p + |PrintItem(x)|;
    ItemMeans(t.pat, p, x);
    RunIsLongest(t, s, p, ep);
    forall n: nat ensures Takes(t.src, Repeat(x, rep), s, caps, n) <==> AllMatch(t, s, n, p, ep) && Often(rep, n - s) {
    }
  }

  lemma {:induction false} NestedIsBest(t: Task, d: nat, p: nat, s: nat, caps: seq<Cap>, nodes: seq<Node>) returns (ends: seq<nat>)
    requires p <= |t.pat| && s <= |t.src| && Printed(t, p, nodes) && CapsOk(caps, s)
    ensures IsResult(t.src, nodes, s, caps, Nested(t, d, p, s, caps), ends)
    decreases |t.pat| - p, 1, 0
  {
    hide All, IsBest, NoneFit, CapsAlong, Printed;
    ends := [];
    if d + 1 <= LJ_MAX_XLEVEL {
      ends := AllIsBest(t, d + 1, p, s, caps, nodes);
    }
  }

  /** The search for a printed pattern gives the best of its matches. */
  lemma {:induction false} AllIsBest(t: Task, d: nat, p: nat, s: nat, caps: seq<Cap>, nodes: seq<Node>) returns (ends: seq<nat>)
    requires p <= |t.pat| && s <= |t.src| && Printed(t, p, nodes) && CapsOk(caps, s)
    ensures IsResult(t.src, nodes, s, caps, All(t, d, p, s, caps), ends)
    decreases |t.pat| - p, 0, 2
  {
    hide All, IsBest, NoneFit, CapsAlong, Printed, Takes, CapsThen, Fits, CapsOk;
    PrintedHead(t, p, nodes);
    if nodes == [] {
      EmptyIsBest(t, d, p, s, caps);
      return [];
    }
    match nodes[0]
    case Repeat(_, _) => ends := RepeatIsBest(t, d, p, s, caps, nodes);
    case Group => ends := CaptureIsBest(t, d, p, s, caps, nodes);
    case Here => ends := CaptureIsBest(t, d, p, s, caps, nodes);
    case EndGroup => ends := CaptureIsBest(t, d, p, s, caps, nodes);
    case _ => ends := SingleIsBest(t, d, p, s, caps, nodes);
  }

  lemma EmptyIsBest(t: Task, d: nat, p: nat, s: nat, caps: seq<Cap>)
    requires p <= |t.pat| && s <= |t.src| && At(t.pat, p) == 0
    ensures IsResult(t.src, [], s, caps, All(t, d, p, s, caps), [])
  {
  }

  lemma {:induction false} CaptureIsBest(t: Task, d: nat, p: nat, s: nat, caps: seq<Cap>, nodes: seq<Node>) returns (ends: seq<nat>)
    requires p <= |t.pat| && s <= |t.src| && Printed(t, p, nodes) && CapsOk(caps, s)
    requires nodes != [] && (nodes[0].Group? || nodes[0].Here? || nodes[0].EndGroup?)
    ensures IsResult(t.src, nodes, s, caps, All(t, d, p, s, caps), ends)
    decreases |t.pat| - p, 0, 0
  {
    hide All, Nested, Printed, Takes, CapsThen, IsBest, NoneFit, Fits, CapsAlong;
    var x, rest := nodes[0], nodes[1..];
    var q := p + |PrintNode(x)|;
    PrintedNext(t, p, nodes);
    CaptureSearch(t, d, p, s, caps, nodes);
    ends := [];
    if Takes(t.src, x, s, caps, s) {
      ends := NestedIsBest(t, d, q, s, CapsThen(t.src, x, s, caps, s), rest);
      OnlyOne(t.src, nodes, s, caps, s, All(t, d, p, s, caps), ends);
      ends := [s] + ends;
    }
  }

  /** Such a part ends where it starts, and the search goes on behind it, with the captures that it leaves. */
  ghost predicate CaptureGoesOn(t: Task, d: nat, p: nat, s: nat, caps: seq<Cap>, x: Node)
    requires p <= |t.pat| && s <= |t.src|
  {
    var q := p + |PrintNode(x)|;
    && (forall n: nat :: Takes(t.src, x, s, caps, n) ==> n == s)
    && if Takes(t.src, x, s, caps, s) then
         && q <= |t.pat| && All(t, d, p, s, caps) == Nested(t, d, q, s, CapsThen(t.src, x, s, caps, s))
         && CapsOk(CapsThen(t.src, x, s, caps, s), s)
       else HeadOf(All(t, d, p, s, caps)).Error?
  }

  lemma CaptureSearch(t: Task, d: nat, p: nat, s: nat, caps: seq<Cap>, nodes: seq<Node>)
    requires p <= |t.pat| && s <= |t.src| && Printed(t, p, nodes) && CapsOk(caps, s)
    requires nodes != [] && (nodes[0].Group? || nodes[0].Here? || nodes[0].EndGroup?)
    ensures CaptureGoesOn(t, d, p, s, caps, nodes[0])
  {
    hide Reads, All, Nested, Takes, CapsThen, CapsOk;
    var x, rest := nodes[0], nodes[1..];
    PrintedNext(t, p, nodes);
    PrintedHead(t, p + |PrintNode(x)|, rest);
    ReadsAt(t.pat, p, PrintNode(x), 0);
    if x.EndGroup? {
      CloseSearch(t, d, p, s, caps);
    } else {
      if x.Here? {
        ReadsAt(t.pat, p, PrintNode(x), 1);
      }
      OpenSearch(t, d, p, s, caps, x);
    }
  }

  lemma OpenSearch(t: Task, d: nat, p: nat, s: nat, caps: seq<Cap>, x: Node)
    requires p < |t.pat| && s <= |t.src| && CapsOk(caps, s) && (x.Group? || x.Here?)
    requires At(t.pat, p) == '(' as nat && (At(t.pat, p + 1) == ')' as nat <==> x.Here?)
    ensures CaptureGoesOn(t, d, p, s, caps, x)
  {
    hide Nested, Greedy, Lazy, Run, ClassEnd, BalanceEnd, MatchBracket, SingleMatch, Repeats;
  }

  lemma CloseSearch(t: Task, d: nat, p: nat, s: nat, caps: seq<Cap>)
    requires p < |t.pat| && s <= |t.src| && CapsOk(caps, s) && At(t.pat, p) == ')' as nat
    ensures CaptureGoesOn(t, d, p, s, caps, EndGroup)
  {
    hide Nested, Greedy, Lazy, Run, ClassEnd, BalanceEnd, MatchBracket, SingleMatch, Repeats;
    assert forall l: nat :: IsLastOpen(caps, l) <==> l == LastOpen(caps, |caps|) < |caps|;
  }

  /** A repeated item and its repetition */
  lemma RepeatReads(t: Task, p: nat, nodes: seq<Node>)
    requires Printed(t, p, nodes) && nodes != [] && nodes[0].Repeat?
    ensures var x, rep := nodes[0].x, nodes[0].rep;
            var ep := p + |PrintItem(x)|;
            var next := if rep == Once then ep else ep + 1;
            && Reads(t.pat, p, PrintItem(x)) && ItemOk(x)
            && (if rep == Once then !IsOp(At(t.pat, ep)) else PrintRep(rep) == [At(t.pat, ep)])
            && next <= |t.pat| && Printed(t, next, nodes[1..])
  {
    hide Reads, PrintItem, ItemOk, Printed;
    var x, rep := nodes[0].x, nodes[0].rep;
    PrintedNext(t, p, nodes);
    PrintedHead(t, p + |PrintNode(nodes[0])|, nodes[1..]);
    ReadsSplit(t.pat, p, PrintItem(x), PrintRep(rep));
    if rep != Once {
      ReadsAt(t.pat, p + |PrintItem(x)|, PrintRep(rep), 0);
    }
  }

  lemma {:induction false} RepeatIsBest(t: Task, d: nat, p: nat, s: nat, caps: seq<Cap>, nodes: seq<Node>) returns (ends: seq<nat>)
    requires p <= |t.pat| && s <= |t.src| && Printed(t, p, nodes) && CapsOk(caps, s) && nodes != [] && nodes[0].Repeat?
    ensures IsResult(t.src, nodes, s, caps, All(t, d, p, s, caps), ends)
    decreases |t.pat| - p, 0, 1
  {
    hide All, Run, ClassEnd, SingleMatch, IsPlain, Printed, Reads, IsBest, NoneFit, Fits, CapsAlong, Takes, Accepts, CapsOk, ItemOk, PrintItem;
    var x, rep := nodes[0].x, nodes[0].rep;
    var ep := p + |PrintItem(x)|;
    RepeatReads(t, p, nodes);
    RepeatTakes(t, p, x, rep, s, caps);
    var m, rest := RepeatChooses(t, d, p, s, caps, nodes);
    Chosen(t.src, nodes, s, caps, s + Least(rep), s + Most(rep, Run(t, s, p, ep)), All(t, d, p, s, caps), m, rest);
    ends := [m] + rest;
  }

  lemma {:induction false} RepeatChooses(t: Task, d: nat, p: nat, s: nat, caps: seq<Cap>, nodes: seq<Node>)
    returns (m: nat, ends: seq<nat>)
    requires p <= |t.pat| && s <= |t.src| && Printed(t, p, nodes) && CapsOk(caps, s) && nodes != [] && nodes[0].Repeat?
    ensures var x, rep := nodes[0].x, nodes[0].rep;
            var hi := s + Most(rep, Run(t, s, p, p + |PrintItem(x)|));
            IsChosen(t.src, nodes[1..], s + Least(rep), hi, rep == Few, caps, All(t, d, p, s, caps), m, ends)
    decreases |t.pat| - p, 0, 0
  {
    hide All, Nested, Greedy, Lazy, Run, ClassEnd, SingleMatch, IsPlain, Printed, Reads, IsBest, NoneFit, Fits, CapsAlong, Accepts, CapsOk,
         ItemOk, PrintItem;
    var x, rep, rest := nodes[0].x, nodes[0].rep, nodes[1..];
    var ep := p + |PrintItem(x)|;
    RepeatReads(t, p, nodes);
    ItemMeans(t.pat, p, x);
    AllPlain(t, d, p, s, caps);
    RunStep(t, s, p, ep);
    var one := s < |t.src| && SingleMatch(t.src[s], t.pat, p, ep);
    m, ends := s + 1, [];
    if one {
      CapsOkLater(caps, s, s + 1);
    }
    match rep
    case Once =>
      if one {
        ends := AllIsBest(t, d, ep, s + 1, caps, rest);
      }
    case Maybe => m, ends := MaybeChooses(t, d, ep + 1, s, one, caps, rest);
    case Many => m, ends := GreedyChooses(t, d, ep + 1, s, Run(t, s, p, ep), caps, rest);
    case Some =>
      if one {
        m, ends := GreedyChooses(t, d, ep + 1, s + 1, Run(t, s + 1, p, ep), caps, rest);
      }
    case Few => m, ends := LazyChooses(t, d, ep + 1, s, Run(t, s, p, ep), caps, rest);
  }

  lemma {:induction false} MaybeChooses(t: Task, d: nat, p: nat, s: nat, one: bool, caps: seq<Cap>, rest: seq<Node>)
    returns (m: nat, ends: seq<nat>)
    requires p <= |t.pat| && s <= |t.src| && Printed(t, p, rest) && CapsOk(caps, s) && (one ==> s < |t.src|)
    ensures var all := (if one then Nested(t, d, p, s + 1, caps) else []) + All(t, d, p, s, caps);
            IsChosen(t.src, rest, s, if one then s + 1 else s, false, caps, all, m, ends)
    decreases |t.pat| - p, 1, 1
  {
    hide All, Nested, NoneFit, IsBest, Fits, CapsAlong, Printed;
    var first := if one then Nested(t, d, p, s + 1, caps) else [];
    var second := All(t, d, p, s, caps);
    m, ends := s + 1, [];
    if one {
      CapsOkLater(caps, s, s + 1);
      ends := NestedIsBest(t, d, p, s + 1, caps, rest);
    }
    if first == [] {
      assert first + second == second;
      m := s;
      ends := AllIsBest(t, d, p, s, caps, rest);
    } else {
      assert (first + second)[0] == first[0];
    }
  }

  // ------------------------------------------------------------------
  // Captures again, balanced strings, frontiers and the end

  predicate IsSingle(x: Node) {
    x.Back? || x.Balance? || x.Frontier? || x.AtEnd?
  }

  lemma {:induction false} SingleIsBest(t: Task, d: nat, p: nat, s: nat, caps: seq<Cap>, nodes: seq<Node>) returns (ends: seq<nat>)
    requires p <= |t.pat| && s <= |t.src| && Printed(t, p, nodes) && CapsOk(caps, s)
    requires nodes != [] && IsSingle(nodes[0])
    ensures IsResult(t.src, nodes, s, caps, All(t, d, p, s, caps), ends)
    decreases |t.pat| - p, 0, 0
  {
    hide All, Reads, Printed, IsBest, NoneFit, Fits, CapsAlong, Takes, CapsOk;
    var x, rest := nodes[0], nodes[1..];
    var q := p + |PrintNode(x)|;
    PrintedNext(t, p, nodes);
    var m, taken := SingleEnd(t, d, p, s, caps, nodes);
    ends := [];
    if taken {
      CapsOkLater(caps, s, m);
      ends := AllIsBest(t, d, q, m, caps, rest);
      OnlyOne(t.src, nodes, s, caps, m, All(t, d, q, m, caps), ends);
      ends := [m] + ends;
    } else if HeadOf(All(t, d, p, s, caps)).NoMatch? {
      NoneOfFirst(t.src, nodes, s, caps);
    }
  }

  /** Capture `i`, counted from one, exists and is not open. */
  predicate IsFinished(caps: seq<Cap>, i: nat) {
    1 <= i <= |caps| && !caps[i - 1].len.Unfinished?
  }

  /** Such a part ends at `m` only, or nowhere, and the search goes on there. */
  ghost predicate OneEnd(t: Task, d: nat, p: nat, s: nat, caps: seq<Cap>, x: Node, m: nat, taken: bool)
    requires p <= |t.pat| && s <= |t.src| && IsSingle(x)
  {
    var q := p + |PrintNode(x)|;
    var all := All(t, d, p, s, caps);
    && (forall n: nat :: Takes(t.src, x, s, caps, n) ==> taken && n == m)
    && (!taken ==> all == [] || (x.Back? && !IsFinished(caps, x.i) && all == [Raise(CaptureIndex)]))
    && (taken ==> s <= m <= |t.src| && Takes(t.src, x, s, caps, m) && q <= |t.pat| && all == All(t, d, q, m, caps))
  }

  lemma SingleEnd(t: Task, d: nat, p: nat, s: nat, caps: seq<Cap>, nodes: seq<Node>) returns (m: nat, taken: bool)
    requires p <= |t.pat| && s <= |t.src| && Printed(t, p, nodes) && nodes != [] && IsSingle(nodes[0])
    ensures OneEnd(t, d, p, s, caps, nodes[0], m, taken)
  {
    hide Reads, Printed, OneEnd;
    var x := nodes[0];
    PrintedNext(t, p, nodes);
    m := s;
    match x {
      case Back(_) => m, taken := BackTakes(t, d, p, s, caps, x);
      case Balance(_, _) => m, taken := BalanceTakes(t, d, p, s, caps, x);
      case Frontier(_, _) => taken := FrontierTakes(t, d, p, s, caps, x);
      case AtEnd => taken := EndTakes(t, d, p, s, caps, nodes);
    }
  }

  lemma BackTakes(t: Task, d: nat, p: nat, s: nat, caps: seq<Cap>, x: Node) returns (m: nat, taken: bool)
    requires p <= |t.pat| && s <= |t.src| && Reads(t.pat, p, PrintNode(x)) && NodeOk(x) && x.Back?
    ensures OneEnd(t, d, p, s, caps, x, m, taken)
  {
    hide Reads, All, Repeats, Takes;
    ReadsAt(t.pat, p, PrintNode(x), 0);
    ReadsAt(t.pat, p, PrintNode(x), 1);
    BackSearch(t, d, p, s, caps, x.i);
    taken := x.i <= |caps| && Repeats(t, s, caps[x.i - 1]);
    if x.i <= |caps| {
      BackIs(t, s, caps, x.i);
    } else {
      NoSuchCapture(t.src, s, caps, x.i);
    }
    m := if taken then s + caps[x.i - 1].len.n else s;
  }

  lemma BackSearch(t: Task, d: nat, p: nat, s: nat, caps: seq<Cap>, i: nat)
    requires p + 2 <= |t.pat| && s <= |t.src| && 1 <= i <= 9 && At(t.pat, p) == L_ESC && At(t.pat, p + 1) == '0' as nat + i
    ensures All(t, d, p, s, caps) ==
            if !IsFinished(caps, i) then [Raise(CaptureIndex)]
            else if !Repeats(t, s, caps[i - 1]) then [] else All(t, d, p + 2, s + caps[i - 1].len.n, caps)
  {
    hide BalanceEnd, MatchBracket, ClassEnd, Nested, Greedy, Lazy, Run, SingleMatch, Repeats;
    RepeatsInside(t, s, if i <= |caps| then caps[i - 1] else Cap(0, Position));
  }

  lemma BackIs(t: Task, s: nat, caps: seq<Cap>, i: nat)
    requires s <= |t.src| && 1 <= i <= |caps|
    ensures Repeats(t, s, caps[i - 1]) ==> caps[i - 1].len.Closed? && s + caps[i - 1].len.n <= |t.src|
    ensures forall n: nat :: Takes(t.src, Back(i), s, caps, n) <==> Repeats(t, s, caps[i - 1]) && n == s + caps[i - 1].len.n
  {
  }

  lemma NoSuchCapture(src: seq<nat>, s: nat, caps: seq<Cap>, i: nat)
    requires i > |caps|
    ensures forall n: nat :: !Takes(src, Back(i), s, caps, n)
  {
  }

  lemma BalanceTakes(t: Task, d: nat, p: nat, s: nat, caps: seq<Cap>, x: Node) returns (m: nat, taken: bool)
    requires p <= |t.pat| && s <= |t.src| && Reads(t.pat, p, PrintNode(x)) && NodeOk(x) && x.Balance?
    ensures OneEnd(t, d, p, s, caps, x, m, taken)
  {
    hide Reads, BalanceEnd, Balanced, MatchBracket, ClassEnd, Nested, Greedy, Lazy, Run, SingleMatch;
    ReadsAt(t.pat, p, PrintNode(x), 0);
    ReadsAt(t.pat, p, PrintNode(x), 1);
    ReadsAt(t.pat, p, PrintNode(x), 2);
    ReadsAt(t.pat, p, PrintNode(x), 3);
    BalanceIsBalanced(t.src, s, x.b, x.e);
    BalancedInside(t.src, s, x.b, x.e);
    m := if s < |t.src| then BalanceEnd(t.src, s + 1, x.b, x.e, 1) else 0;
    taken := Balanced(t.src, s, m, x.b, x.e);
  }

  lemma FrontierTakes(t: Task, d: nat, p: nat, s: nat, caps: seq<Cap>, x: Node) returns (taken: bool)
    requires p <= |t.pat| && s <= |t.src| && Reads(t.pat, p, PrintNode(x)) && NodeOk(x) && x.Frontier?
    ensures OneEnd(t, d, p, s, caps, x, s, taken)
  {
    hide Reads, BalanceEnd, MatchBracket, ClassEnd, Nested, Greedy, Lazy, Run, SingleMatch, SetHolds, SetOk, PrintElems;
    ReadsAt(t.pat, p, PrintNode(x), 0);
    ReadsAt(t.pat, p, PrintNode(x), 1);
    ReadsSplit(t.pat, p, ['%' as nat, 'f' as nat], PrintSet(x.neg, x.xs));
    ReadsAt(t.pat, p + 2, PrintSet(x.neg, x.xs), 0);
    SetMeans(t.pat, p + 2, x.neg, x.xs, if s == 0 then 0 else t.src[s - 1]);
    SetMeans(t.pat, p + 2, x.neg, x.xs, At(t.src, s));
    taken := Takes(t.src, x, s, caps, s);
  }

  lemma EndTakes(t: Task, d: nat, p: nat, s: nat, caps: seq<Cap>, nodes: seq<Node>) returns (taken: bool)
    requires p <= |t.pat| && s <= |t.src| && Printed(t, p, nodes) && nodes != [] && nodes[0].AtEnd?
    ensures OneEnd(t, d, p, s, caps, nodes[0], s, taken)
  {
    hide Reads, BalanceEnd, MatchBracket, ClassEnd, Nested, Greedy, Lazy, Run, SingleMatch;
    PrintedNext(t, p, nodes);
    assert |nodes| == 1;
    ReadsAt(t.pat, p, PrintNode(nodes[0]), 0);
    PrintedHead(t, p + 1, nodes[1..]);
    taken := s == |t.src|;
  }

  // ------------------------------------------------------------------
  // Errors

  ghost predicate IsLastTrue(open: seq<bool>, l: nat) {
    l < |open| && open[l] && forall i :: l < i < |open| ==> !open[i]
  }

  /** The captures are in order, if these are open before: each bracket has its partner, and `Back` means a closed one. */
  ghost predicate Scoped(nodes: seq<Node>, open: seq<bool>)
    decreases |nodes|
  {
    if nodes == [] then forall i :: 0 <= i < |open| ==> !open[i]
    else match nodes[0]
      case Group => |open| < 32 && Scoped(nodes[1..], open + [true])
      case Here => |open| < 32 && Scoped(nodes[1..], open + [false])
      case EndGroup => exists l: nat :: IsLastTrue(open, l) && Scoped(nodes[1..], open[l := false])
      case Back(i) => 1 <= i <= |open| && !open[i - 1] && Scoped(nodes[1..], open)
      case _ => Scoped(nodes[1..], open)
  }

  ghost predicate HasShape(caps: seq<Cap>, open: seq<bool>) {
    |caps| == |open| && forall i :: 0 <= i < |caps| ==> (caps[i].len.Unfinished? <==> open[i])
  }

  /** The captures are in order, after those that there are. */
  ghost predicate InOrder(nodes: seq<Node>, caps: seq<Cap>) {
    exists open: seq<bool> :: HasShape(caps, open) && Scoped(nodes, open)
  }

  /** The search raises no error, except for going too deep, and leaves no capture open. */
  ghost predicate Orderly(all: seq<Outcome>) {
    forall i :: 0 <= i < |all| ==>
      match all[i]
      case Raise(e) => e == TooComplex
      case Found(_, caps) => forall k :: 0 <= k < |caps| ==> !caps[k].len.Unfinished?
  }

  lemma NothingOrderly()
    ensures Orderly([])
  {
  }

  lemma OrderlyBoth(a: seq<Outcome>, b: seq<Outcome>)
    requires Orderly(a) && Orderly(b)
    ensures Orderly(a + b)
  {
  }

  lemma {:induction false} GreedyOrderly(t: Task, d: nat, p: nat, s: nat, i: nat, caps: seq<Cap>, rest: seq<Node>)
    requires p <= |t.pat| && s + i <= |t.src| && Printed(t, p, rest) && CapsOk(caps, s) && InOrder(rest, caps)
    ensures Orderly(Greedy(t, d, p, s, i, caps))
    decreases |t.pat| - p, 2, i
  {
    hide Nested, Orderly, Printed, InOrder;
    CapsOkLater(caps, s, s + i);
    NestedOrderly(t, d, p, s + i, caps, rest);
    if i > 0 {
      GreedyOrderly(t, d, p, s, i - 1, caps, rest);
      OrderlyBoth(Nested(t, d, p, s + i, caps), Greedy(t, d, p, s, i - 1, caps));
    } else {
      assert Greedy(t, d, p, s, i, caps) == Nested(t, d, p, s, caps);
    }
  }

  lemma {:induction false} LazyOrderly(t: Task, d: nat, p: nat, s: nat, n: nat, caps: seq<Cap>, rest: seq<Node>)
    requires p <= |t.pat| && s + n <= |t.src| && Printed(t, p, rest) && CapsOk(caps, s) && InOrder(rest, caps)
    ensures Orderly(Lazy(t, d, p, s, n, caps))
    decreases |t.pat| - p, 2, n
  {
    hide Nested, Orderly, Printed, InOrder;
    NestedOrderly(t, d, p, s, caps, rest);
    if n > 0 {
      CapsOkLater(caps, s, s + 1);
      LazyOrderly(t, d, p, s + 1, n - 1, caps, rest);
      OrderlyBoth(Nested(t, d, p, s, caps), Lazy(t, d, p, s + 1, n - 1, caps));
    } else {
      assert Lazy(t, d, p, s, n, caps) == Nested(t, d, p, s, caps);
    }
  }

  lemma {:induction false} NestedOrderly(t: Task, d: nat, p: nat, s: nat, caps: seq<Cap>, nodes: seq<Node>)
    requires p <= |t.pat| && s <= |t.src| && Printed(t, p, nodes) && CapsOk(caps, s) && InOrder(nodes, caps)
    ensures Orderly(Nested(t, d, p, s, caps))
    decreases |t.pat| - p, 1, 0
  {
    hide All, Printed, InOrder;
    if d + 1 <= LJ_MAX_XLEVEL {
      AllOrderly(t, d + 1, p, s, caps, nodes);
    }
  }

  /** The search for a pattern whose captures are in order raises no error, except for going too deep. */
  lemma {:induction false} AllOrderly(t: Task, d: nat, p: nat, s: nat, caps: seq<Cap>, nodes: seq<Node>)
    requires p <= |t.pat| && s <= |t.src| && Printed(t, p, nodes) && CapsOk(caps, s) && InOrder(nodes, caps)
    ensures Orderly(All(t, d, p, s, caps))
    decreases |t.pat| - p, 0, 1
  {
    hide All, Nested, Printed, Takes, CapsThen, InOrder;
    PrintedHead(t, p, nodes);
    if nodes == [] {
      EmptyOrderly(t, d, p, s, caps);
      return;
    }
    var x, rest := nodes[0], nodes[1..];
    var q := p + |PrintNode(x)|;
    PrintedNext(t, p, nodes);
    if x.Repeat? {
      InOrderNext(t.src, nodes, s, caps, s);
      RepeatOrderly(t, d, p, s, caps, nodes);
    } else if x.Group? || x.Here? || x.EndGroup? {
      CaptureSearch(t, d, p, s, caps, nodes);
      InOrderNext(t.src, nodes, s, caps, s);
      NestedOrderly(t, d, q, s, CapsThen(t.src, x, s, caps, s), rest);
    } else {
      var m, taken := SingleEnd(t, d, p, s, caps, nodes);
      InOrderNext(t.src, nodes, s, caps, m);
      if taken {
        CapsOkLater(caps, s, m);
        AllOrderly(t, d, q, m, caps, rest);
      }
    }
  }

  lemma {:induction false} RepeatOrderly(t: Task, d: nat, p: nat, s: nat, caps: seq<Cap>, nodes: seq<Node>)
    requires p <= |t.pat| && s <= |t.src| && Printed(t, p, nodes) && CapsOk(caps, s)
    requires nodes != [] && nodes[0].Repeat? && InOrder(nodes[1..], caps)
    ensures Orderly(All(t, d, p, s, caps))
    decreases |t.pat| - p, 0, 0
  {
    hide All, Nested, Greedy, Lazy, Run, ClassEnd, SingleMatch, IsPlain, Printed, Reads, Accepts, CapsOk, ItemOk, PrintItem, InOrder, Orderly;
    var x, rep, rest := nodes[0].x, nodes[0].rep, nodes[1..];
    var ep := p + |PrintItem(x)|;
    RepeatReads(t, p, nodes);
    ItemMeans(t.pat, p, x);
    AllPlain(t, d, p, s, caps);
    var one := s < |t.src| && SingleMatch(t.src[s], t.pat, p, ep);
    NothingOrderly();
    if one {
      CapsOkLater(caps, s, s + 1);
    }
    match rep
    case Once =>
      if one {
        AllOrderly(t, d, ep, s + 1, caps, rest);
      }
    case Maybe =>
      AllOrderly(t, d, ep + 1, s, caps, rest);
      if one {
        NestedOrderly(t, d, ep + 1, s + 1, caps, rest);
      }
      OrderlyBoth(if one then Nested(t, d, ep + 1, s + 1, caps) else [], All(t, d, ep + 1, s, caps));
    case Many => GreedyOrderly(t, d, ep + 1, s, Run(t, s, p, ep), caps, rest);
    case Some =>
      if one {
        GreedyOrderly(t, d, ep + 1, s + 1, Run(t, s + 1, p, ep), caps, rest);
      }
    case Few => LazyOrderly(t, d, ep + 1, s, Run(t, s, p, ep), caps, rest);
  }

  lemma EmptyOrderly(t: Task, d: nat, p: nat, s: nat, caps: seq<Cap>)
    requires p <= |t.pat| && s <= |t.src| && At(t.pat, p) == 0 && InOrder([], caps)
    ensures Orderly(All(t, d, p, s, caps))
  {
  }

  /** Behind a part that a match has, the captures are in order. */
  lemma InOrderNext(src: seq<nat>, nodes: seq<Node>, s: nat, caps: seq<Cap>, m: nat)
    requires nodes != [] && InOrder(nodes, caps) && CapsOk(caps, s) && s <= |src|
    ensures var x := nodes[0];
            match x
            case Back(i) => IsFinished(caps, i) && InOrder(nodes[1..], caps)
            case Group => Takes(src, x, s, caps, s) && InOrder(nodes[1..], CapsThen(src, x, s, caps, s))
            case Here => Takes(src, x, s, caps, s) && InOrder(nodes[1..], CapsThen(src, x, s, caps, s))
            case EndGroup => Takes(src, x, s, caps, s) && InOrder(nodes[1..], CapsThen(src, x, s, caps, s))
            case _ => InOrder(nodes[1..], caps)
  {
    var x, rest := nodes[0], nodes[1..];
    var open: seq<bool> :| HasShape(caps, open) && Scoped(nodes, open);
    match x
    case Group =>
      assert HasShape(caps + [Cap(s, Unfinished)], open + [true]);
    case Here =>
      assert HasShape(caps + [Cap(s, Position)], open + [false]);
    case EndGroup =>
      var l: nat :| IsLastTrue(open, l) && Scoped(rest, open[l := false]);
      assert IsLastOpen(caps, l);
      assert HasShape(CapsThen(src, x, s, caps, s), open[l := false]);
    case _ =>
  }

  // ------------------------------------------------------------------
  // Finding a printed pattern

  lemma PatternIsPrinted(src: seq<nat>, anchor: bool, nodes: seq<Node>)
    requires Ok(nodes)
    ensures var t, p := Task(src, PrintPattern(anchor, nodes)), if anchor then 1 else 0;
            p <= |t.pat| && Printed(t, p, nodes) && (IsAnchored(t.pat) <==> anchor)
  {
    hide Ok;
    var t := Task(src, PrintPattern(anchor, nodes));
    if anchor {
      assert t.pat[1..] == Print(nodes);
    } else {
      assert t.pat[0..] == Print(nodes);
      PrintedHead(t, 0, nodes);
    }
  }

  /** The leftmost match from `st` on, or at `st` if the pattern is anchored; no error if captures and length allow it. */
  ghost predicate IsLeftmost(src: seq<nat>, nodes: seq<Node>, st: nat, anchor: bool, hit: Hit, ends: seq<nat>) {
    match hit
    case Nothing => forall q: nat :: st <= q <= (if anchor then st else |src|) ==> NoneFit(src, nodes, q, [])
    case Hit(start, end, caps) =>
      && st <= start <= |src| && (anchor ==> start == st)
      && IsBest(src, nodes, start, [], ends) && end == EndOf(start, ends) && caps == CapsAlong(src, nodes, start, [], ends)
      && forall q: nat :: st <= q < start ==> NoneFit(src, nodes, q, [])
    case Failure(_) => !(Scoped(nodes, []) && |Print(nodes)| < 200)
  }

  /** The search finds the best match at the first position that has one. */
  lemma {:induction false} LeftmostPrinted(t: Task, p: nat, nodes: seq<Node>, s: nat, anchor: bool) returns (ends: seq<nat>)
    requires p <= |t.pat| && s <= |t.src| && Printed(t, p, nodes)
    ensures IsLeftmost(t.src, nodes, s, anchor, Leftmost(t, p, s, anchor), ends)
    decreases |t.src| - s
  {
    hide Nested, Printed, Scoped, IsBest, NoneFit, Fits, CapsAlong;
    ends := NestedIsBest(t, 0, p, s, [], nodes);
    var r := HeadOf(Tries(t, p, s));
    if r.NoMatch? && s < |t.src| && !anchor {
      ends := LeftmostPrinted(t, p, nodes, s + 1, anchor);
    } else if r.Error? && Scoped(nodes, []) && |Print(nodes)| < 200 {
      NoError(t, p, nodes, s);
      assert false;
    }
  }

  lemma NoError(t: Task, p: nat, nodes: seq<Node>, s: nat)
    requires p <= |t.pat| && s <= |t.src| && Printed(t, p, nodes) && Scoped(nodes, []) && |Print(nodes)| < 200
    ensures !HeadOf(Tries(t, p, s)).Error?
    ensures forall c :: c in CapsOf(Tries(t, p, s), []) ==> !c.len.Unfinished?
  {
    hide Nested, Ok;
    assert HasShape([], []);
    NestedOrderly(t, 0, p, s, [], nodes);
    NestedNotTooDeep(t, 0, p, s, []);
    var all := Tries(t, p, s);
    assert all != [] ==> all[0] in all;
  }

  /** The values that are returned with a match: the texts and positions of all captures, or the text of the match */
  ghost predicate Shows(src: seq<nat>, caps: seq<Cap>, whole: bool, start: nat, end: nat, vs: seq<Value>) {
    if caps == [] && whole then start <= end <= |src| && vs == [Text(src[start..end])]
    else
      && |vs| == |caps|
      && forall k :: 0 <= k < |caps| ==>
           match caps[k].len
           case Closed(n) => caps[k].init + n <= |src| && vs[k] == Text(src[caps[k].init..caps[k].init + n])
           case Position => vs[k] == Index(caps[k].init + 1)
           case Unfinished => false
  }

  lemma ValuesShow(src: seq<nat>, caps: seq<Cap>, whole: bool, s: nat, e: nat)
    requires s <= e <= |src| && CapsOk(caps, |src|)
    ensures var r := MatchValues(src, caps, whole, s, e);
            && (r.Values? ==> Shows(src, caps, whole, s, e, r.vs))
            && (r.Failed? ==> exists k :: 0 <= k < |caps| && caps[k].len.Unfinished?)
  {
    hide Captures;
    if caps == [] && whole {
      OneText(src, s, e);
    } else {
      CapturesAre(src, caps, 0, s, e);
    }
  }

  lemma OneText(src: seq<nat>, s: nat, e: nat)
    requires s <= e <= |src|
    ensures Captures(src, [], 0, 1, s, e) == Values([Text(src[s..e])])
  {
    assert Captures(src, [], 1, 1, s, e) == Values([]);
    assert [Text(src[s..e])] + [] == [Text(src[s..e])];
  }

  /** The best match at `start` ends at `end`, and has these values. */
  ghost predicate IsMatch(src: seq<nat>, nodes: seq<Node>, start: nat, end: nat, whole: bool, vs: seq<Value>) {
    exists ends: seq<nat> ::
      && IsBest(src, nodes, start, [], ends) && end == EndOf(start, ends)
      && Shows(src, CapsAlong(src, nodes, start, [], ends), whole, start, end, vs)
  }

  /** What string.find and string.match have to return for a pattern with these parts */
  ghost predicate IsFound(src: seq<nat>, nodes: seq<Node>, st: nat, anchor: bool, find: bool, r: FindResult) {
    match r
    case NotFound => forall q: nat :: st <= q <= (if anchor then st else |src|) ==> NoneFit(src, nodes, q, [])
    case FoundAt(first, last, vs) =>
      && st < first && (anchor ==> first == st + 1)
      && (forall q: nat :: st <= q < first - 1 ==> NoneFit(src, nodes, q, []))
      && IsMatch(src, nodes, first - 1, last, !find, vs)
    case FindError(_) => !(Scoped(nodes, []) && |Print(nodes)| < 200)
  }

  /** What is found of a printed pattern: the best match at the first position, with its captures */
  lemma FindPrinted(src: seq<nat>, nodes: seq<Node>, anchor: bool, st: nat, find: bool)
    requires Ok(nodes) && st <= |src|
    ensures var t, p := Task(src, PrintPattern(anchor, nodes)), if anchor then 1 else 0;
            && p <= |t.pat| && (IsAnchored(t.pat) <==> anchor)
            && var hit := Leftmost(t, p, st, anchor);
            && (hit.Hit? ==> hit.start <= hit.end <= |src| && CapsOk(hit.caps, |src|))
            && IsFound(src, nodes, st, anchor, find, ResultOf(src, hit, find))
  {
    hide Ok, Leftmost, Printed, IsBest, NoneFit, Fits, CapsAlong, MatchValues, Shows, CapsOk, Scoped;
    var t, p := Task(src, PrintPattern(anchor, nodes)), if anchor then 1 else 0;
    PatternIsPrinted(src, anchor, nodes);
    LeftmostInside(t, p, st, anchor);
    var hit := Leftmost(t, p, st, anchor);
    var ends := LeftmostPrinted(t, p, nodes, st, anchor);
    if hit.Hit? {
      ValuesShow(src, hit.caps, !find, hit.start, hit.end);
      LeftmostTries(t, p, st, anchor);
      if Scoped(nodes, []) && |Print(nodes)| < 200 {
        NoError(t, p, nodes, hit.start);
      }
    }
  }

  lemma {:induction false} LeftmostTries(t: Task, p: nat, s: nat, anchor: bool)
    requires p <= |t.pat| && s <= |t.src|
    ensures var hit := Leftmost(t, p, s, anchor);
            hit.Hit? ==> hit.start <= |t.src| && hit.caps == CapsOf(Tries(t, p, hit.start), [])
    decreases |t.src| - s
  {
    hide Tries;
    if s < |t.src| {
      LeftmostTries(t, p, s + 1, anchor);
    }
  }
}
