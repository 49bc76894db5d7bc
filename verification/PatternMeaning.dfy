/**
 The meaning of a pattern without an order of search: which parts of a subject it
 can match, and with which captures. The search of PatternSpec finds exactly these.
 */
module PatternMeaning {
  import opened PatternItems
  import opened PatternSpec
  import opened PatternMatch

  /** `l` is the capture that was opened last, of those that are open. */
  ghost predicate IsLastOpen(caps: seq<Cap>, l: nat) {
    l < |caps| && caps[l].len.Unfinished? && forall i :: l < i < |caps| ==> !caps[i].len.Unfinished?
  }

  /** From `s` to `r` the subject is balanced, and no shorter part from `s` on is. */
  ghost predicate Balanced(src: seq<nat>, s: nat, r: nat, b: nat, e: nat) {
    s < r <= |src| && src[s] == b && FirstClosed(src, s + 1, r, b, e)
  }

  /** At `r`, for the first time, one more is closed than is opened from `s` on. */
  ghost predicate FirstClosed(src: seq<nat>, s: nat, r: nat, b: nat, e: nat)
    requires s <= r <= |src|
  {
    1 + Depth(src[s..r], b, e) == 0 && forall q :: s <= q < r ==> 1 + Depth(src[s..q], b, e) > 0
  }

  /** All characters from `s` to `m` match the item at `p`. */
  ghost predicate AllMatch(t: Task, s: nat, m: nat, p: nat, ep: nat) {
    s <= m <= |t.src| && forall i :: s <= i < m ==> SingleMatch(t.src[i], t.pat, p, ep)
  }

  /** How often an item may match that this character follows */
  ghost predicate Times(op: nat, n: nat) {
    if op == '*' as nat || op == '-' as nat then true
    else if op == '+' as nat then n >= 1
    else if op == '?' as nat then n <= 1
    else n == 1
  }

  predicate IsOp(op: nat) {
    op in {'?' as nat, '*' as nat, '+' as nat, '-' as nat}
  }

  /** From item `p` on, the pattern can match from `s` to `e`, and turn `caps` into `out`. */
  ghost predicate Derives(t: Task, p: nat, s: nat, caps: seq<Cap>, e: nat, out: seq<Cap>)
    requires p <= |t.pat| && s <= |t.src|
    decreases |t.pat| - p
  {
    var c, c1 := At(t.pat, p), At(t.pat, p + 1);
    if c == 0 then e == s && out == caps
    else if c == '(' as nat then
      && |caps| < LUA_MAXCAPTURES
      && if c1 == ')' as nat then Derives(t, p + 2, s, caps + [Cap(s, Position)], e, out)
         else Derives(t, p + 1, s, caps + [Cap(s, Unfinished)], e, out)
    else if c == ')' as nat then
      exists l: nat :: IsLastOpen(caps, l) && Derives(t, p + 1, s, caps[l := Close(caps[l], s)], e, out)
    else if c == L_ESC && c1 == 'b' as nat then
      var b, d := At(t.pat, p + 2), At(t.pat, p + 3);
      b != 0 && d != 0 && exists r: nat :: Balanced(t.src, s, r, b, d) && Derives(t, p + 4, r, caps, e, out)
    else if c == L_ESC && c1 == 'f' as nat then
      At(t.pat, p + 2) == '[' as nat && ClassEnd(t.pat, p + 2).Ends? &&
      var ep := ClassEnd(t.pat, p + 2).at;
      && !MatchBracket(if s == 0 then 0 else t.src[s - 1], t.pat, p + 2, ep - 1)
      && MatchBracket(At(t.src, s), t.pat, p + 2, ep - 1)
      && Derives(t, ep, s, caps, e, out)
    else if c == L_ESC && IsDigit(c1) then
      var l: int := c1 - '1' as nat;
      0 <= l < |caps| && Repeats(t, s, caps[l]) && Derives(t, p + 2, s + caps[l].len.n, caps, e, out)
    else if c == '$' as nat && c1 == 0 then s == |t.src| && e == s && out == caps
    else
      ClassEnd(t.pat, p).Ends? &&
      var ep := ClassEnd(t.pat, p).at;
      var op := At(t.pat, ep);
      exists m: nat ::
        AllMatch(t, s, m, p, ep) && Times(op, m - s) && Derives(t, if IsOp(op) then ep + 1 else ep, m, caps, e, out)
  }

  // ------------------------------------------------------------------
  // The search finds what can be matched

  /** `all` holds just what can be matched, and all of it if the search did not go too deep. */
  ghost predicate Finds(all: seq<Outcome>, o: Outcome, derives: bool) {
    && (o in all ==> derives)
    && (derives ==> o in all || Raise(TooComplex) in all)
  }

  lemma {:induction false} NestedFinds(t: Task, d: nat, p: nat, s: nat, caps: seq<Cap>, e: nat, out: seq<Cap>)
    requires p <= |t.pat| && s <= |t.src|
    ensures Finds(Nested(t, d, p, s, caps), Found(e, out), Derives(t, p, s, caps, e, out))
    decreases |t.pat| - p, 1, 0
  {
    hide All, Derives;
    if d + 1 <= LJ_MAX_XLEVEL {
      AllFinds(t, d + 1, p, s, caps, e, out);
    }
  }

  /** Repetitions to `s`, or fewer, but from `s0` on */
  ghost predicate DerivesFrom(t: Task, p: nat, s0: nat, s: nat, caps: seq<Cap>, e: nat, out: seq<Cap>)
    requires p <= |t.pat| && s <= |t.src|
  {
    exists m: nat :: s0 <= m <= s && Derives(t, p, m, caps, e, out)
  }

  lemma {:induction false} GreedyFinds(t: Task, d: nat, p: nat, s: nat, i: nat, caps: seq<Cap>, e: nat, out: seq<Cap>)
    requires p <= |t.pat| && s + i <= |t.src|
    ensures Finds(Greedy(t, d, p, s, i, caps), Found(e, out), DerivesFrom(t, p, s, s + i, caps, e, out))
    decreases |t.pat| - p, 2, i
  {
    hide Derives, Nested;
    GreedyStep(t, d, p, s, i, caps);
    NestedFinds(t, d, p, s + i, caps, e, out);
    if i > 0 {
      GreedyFinds(t, d, p, s, i - 1, caps, e, out);
    }
  }

  lemma {:induction false} LazyFinds(t: Task, d: nat, p: nat, s: nat, n: nat, caps: seq<Cap>, e: nat, out: seq<Cap>)
    requires p <= |t.pat| && s + n <= |t.src|
    ensures Finds(Lazy(t, d, p, s, n, caps), Found(e, out), DerivesFrom(t, p, s, s + n, caps, e, out))
    decreases |t.pat| - p, 2, n
  {
    hide Derives, Nested;
    LazyStep(t, d, p, s, n, caps);
    NestedFinds(t, d, p, s, caps, e, out);
    if n > 0 {
      LazyFinds(t, d, p, s + 1, n - 1, caps, e, out);
    }
  }

  /** The search finds exactly the matches that the pattern means, unless it goes too deep. */
  lemma {:induction false} AllFinds(t: Task, d: nat, p: nat, s: nat, caps: seq<Cap>, e: nat, out: seq<Cap>)
    requires p <= |t.pat| && s <= |t.src|
    ensures Finds(All(t, d, p, s, caps), Found(e, out), Derives(t, p, s, caps, e, out))
    decreases |t.pat| - p, 0, 1
  {
    var c, c1 := At(t.pat, p), At(t.pat, p + 1);
    if c == 0 || (c == '$' as nat && c1 == 0) {
    } else if IsPlain(t.pat, p) {
      PlainFinds(t, d, p, s, caps, e, out);
    } else if c == L_ESC {
      EscapeFinds(t, d, p, s, caps, e, out);
    } else {
      CaptureFinds(t, d, p, s, caps, e, out);
    }
  }

  lemma {:induction false} CaptureFinds(t: Task, d: nat, p: nat, s: nat, caps: seq<Cap>, e: nat, out: seq<Cap>)
    requires p <= |t.pat| && s <= |t.src| && (At(t.pat, p) == '(' as nat || At(t.pat, p) == ')' as nat)
    ensures Finds(All(t, d, p, s, caps), Found(e, out), Derives(t, p, s, caps, e, out))
    decreases |t.pat| - p, 0, 0
  {
    hide Nested;
    var l := LastOpen(caps, |caps|);
    if At(t.pat, p) == ')' as nat {
      assert forall k: nat :: IsLastOpen(caps, k) <==> k == l < |caps|;
      if l < |caps| {
        NestedFinds(t, d, p + 1, s, caps[l := Close(caps[l], s)], e, out);
      }
    } else if At(t.pat, p + 1) == ')' as nat {
      NestedFinds(t, d, p + 2, s, caps + [Cap(s, Position)], e, out);
    } else {
      NestedFinds(t, d, p + 1, s, caps + [Cap(s, Unfinished)], e, out);
    }
  }

  lemma {:induction false} EscapeFinds(t: Task, d: nat, p: nat, s: nat, caps: seq<Cap>, e: nat, out: seq<Cap>)
    requires p <= |t.pat| && s <= |t.src| && At(t.pat, p) == L_ESC
    requires At(t.pat, p + 1) == 'b' as nat || At(t.pat, p + 1) == 'f' as nat || IsDigit(At(t.pat, p + 1))
    ensures Finds(All(t, d, p, s, caps), Found(e, out), Derives(t, p, s, caps, e, out))
    decreases |t.pat| - p, 0, 0
  {
    hide Nested, Greedy, Lazy, MatchBracket, ClassEnd, BalanceEnd, Balanced, Run, SingleMatch, AllMatch;
    var c1, b, g := At(t.pat, p + 1), At(t.pat, p + 2), At(t.pat, p + 3);
    if c1 == 'b' as nat {
      if b != 0 && g != 0 {
        BalanceIsBalanced(t.src, s, b, g);
        if s < |t.src| && t.src[s] == b && BalanceEnd(t.src, s + 1, b, g, 1) != 0 {
          assert Balanced(t.src, s, BalanceEnd(t.src, s + 1, b, g, 1), b, g);
          AllFinds(t, d, p + 4, BalanceEnd(t.src, s + 1, b, g, 1), caps, e, out);
        }
      }
    } else if c1 == 'f' as nat {
      if b == '[' as nat && ClassEnd(t.pat, p + 2).Ends? {
        AllFinds(t, d, ClassEnd(t.pat, p + 2).at, s, caps, e, out);
      }
    } else {
      var l: int := c1 - '1' as nat;
      if 0 <= l < |caps| && Repeats(t, s, caps[l]) {
        AllFinds(t, d, p + 2, s + caps[l].len.n, caps, e, out);
      }
    }
  }

  lemma BalanceIsBalanced(src: seq<nat>, s: nat, b: nat, e: nat)
    requires s <= |src|
    ensures forall r: nat {:trigger Balanced(src, s, r, b, e)} ::
              Balanced(src, s, r, b, e) <==> s < |src| && src[s] == b && r == BalanceEnd(src, s + 1, b, e, 1) != 0
  {
    hide BalanceEnd;
    if s < |src| {
      assert src[s + 1..s + 1] == [];
      BalanceIsFirst(src, s + 1, s + 1, b, e, 1);
    }
  }

  lemma {:induction false} PlainFinds(t: Task, d: nat, p: nat, s: nat, caps: seq<Cap>, e: nat, out: seq<Cap>)
    requires p < |t.pat| && s <= |t.src| && IsPlain(t.pat, p)
    ensures Finds(All(t, d, p, s, caps), Found(e, out), Derives(t, p, s, caps, e, out))
    decreases |t.pat| - p, 0, 0
  {
    hide All, Nested, Greedy, Lazy, Run, ClassEnd, SingleMatch, Derives, IsPlain;
    AllPlain(t, d, p, s, caps);
    DerivesPlain(t, p, s, caps, e, out);
    match ClassEnd(t.pat, p)
    case Malformed(_) =>
    case Ends(ep) =>
      var m := s < |t.src| && SingleMatch(t.src[s], t.pat, p, ep);
      var op := At(t.pat, ep);
      if op == '?' as nat {
        AllFinds(t, d, ep + 1, s, caps, e, out);
        if m {
          NestedFinds(t, d, ep + 1, s + 1, caps, e, out);
        }
      } else if op == '*' as nat {
        GreedyFinds(t, d, ep + 1, s, Run(t, s, p, ep), caps, e, out);
      } else if op == '+' as nat {
        if m {
          GreedyFinds(t, d, ep + 1, s + 1, Run(t, s + 1, p, ep), caps, e, out);
        }
      } else if op == '-' as nat {
        LazyFinds(t, d, ep + 1, s, Run(t, s, p, ep), caps, e, out);
      } else if m {
        AllFinds(t, d, ep, s + 1, caps, e, out);
      }
  }

  /** How a repeated item is matched, in terms of the longest run of characters that match it */
  lemma DerivesPlain(t: Task, p: nat, s: nat, caps: seq<Cap>, e: nat, out: seq<Cap>)
    requires p < |t.pat| && s <= |t.src| && IsPlain(t.pat, p)
    ensures Derives(t, p, s, caps, e, out) <==>
            match ClassEnd(t.pat, p)
            case Malformed(_) => false
            case Ends(ep) =>
              var m := s < |t.src| && SingleMatch(t.src[s], t.pat, p, ep);
              var op := At(t.pat, ep);
              if op == '?' as nat then Derives(t, ep + 1, s, caps, e, out) || (m && Derives(t, ep + 1, s + 1, caps, e, out))
              else if op == '+' as nat then m && DerivesFrom(t, ep + 1, s + 1, s + 1 + Run(t, s + 1, p, ep), caps, e, out)
              else if IsOp(op) then DerivesFrom(t, ep + 1, s, s + Run(t, s, p, ep), caps, e, out)
              else m && Derives(t, ep, s + 1, caps, e, out)
  {
    hide SingleMatch, ClassEnd;
    match ClassEnd(t.pat, p)
    case Malformed(_) =>
    case Ends(ep) =>
      RunIsLongest(t, s, p, ep);
      var op := At(t.pat, ep);
      var next := if IsOp(op) then ep + 1 else ep;
      assert Derives(t, p, s, caps, e, out) <==>
        exists m: nat :: AllMatch(t, s, m, p, ep) && Times(op, m - s) && Derives(t, next, m, caps, e, out);
      assert AllMatch(t, s, s, p, ep);
      assert s < |t.src| ==> (AllMatch(t, s, s + 1, p, ep) <==> SingleMatch(t.src[s], t.pat, p, ep));
      if s < |t.src| && SingleMatch(t.src[s], t.pat, p, ep) {
        RunIsLongest(t, s + 1, p, ep);
        RunStep(t, s, p, ep);
      }
  }

  lemma RunIsLongest(t: Task, s: nat, p: nat, ep: nat)
    requires s <= |t.src|
    ensures forall m: nat :: AllMatch(t, s, m, p, ep) <==> s <= m <= s + Run(t, s, p, ep)
  {
    hide SingleMatch;
  }

  // ------------------------------------------------------------------
  // What this says of the result of a search

  ghost predicate CanMatch(t: Task, p: nat, s: nat, caps: seq<Cap>)
    requires p <= |t.pat| && s <= |t.src|
  {
    exists e: nat, out: seq<Cap> :: Derives(t, p, s, caps, e, out)
  }

  /** A search without a result means that there is no match; a match is one that the pattern means. */
  lemma FirstIsMeant(t: Task, d: nat, p: nat, s: nat, caps: seq<Cap>)
    requires p <= |t.pat| && s <= |t.src|
    ensures var all := Nested(t, d, p, s, caps);
            match HeadOf(all)
            case NoMatch => !CanMatch(t, p, s, caps)
            case Match(e) => Derives(t, p, s, caps, e, CapsOf(all, caps))
            case Error(_) => true
  {
    hide Nested, Derives;
    var all := Nested(t, d, p, s, caps);
    if HeadOf(all).NoMatch? {
      forall e: nat, out: seq<Cap> ensures !Derives(t, p, s, caps, e, out) {
        NestedFinds(t, d, p, s, caps, e, out);
      }
    } else if HeadOf(all).Match? {
      assert all[0] == Found(all[0].end, all[0].caps);
      NestedFinds(t, d, p, s, caps, all[0].end, all[0].caps);
    }
  }

  /** A greedy repetition takes as many characters as leave a match for the rest. */
  lemma {:induction false} GreedyTakesMost(t: Task, d: nat, p: nat, s: nat, i: nat, caps: seq<Cap>)
    requires p <= |t.pat| && s + i <= |t.src|
    ensures var all := Greedy(t, d, p, s, i, caps);
            HeadOf(all).Match? ==>
              exists m: nat ::
                && s <= m <= s + i && Derives(t, p, m, caps, HeadOf(all).end, CapsOf(all, caps))
                && forall m': nat :: m < m' <= s + i ==> !CanMatch(t, p, m', caps)
    decreases i
  {
    hide Nested, Derives, CanMatch, Greedy;
    GreedyStep(t, d, p, s, i, caps);
    FirstIsMeant(t, d, p, s + i, caps);
    if i > 0 {
      GreedyTakesMost(t, d, p, s, i - 1, caps);
    }
  }

  /** A lazy repetition takes as few. */
  lemma {:induction false} LazyTakesLeast(t: Task, d: nat, p: nat, s: nat, n: nat, caps: seq<Cap>)
    requires p <= |t.pat| && s + n <= |t.src|
    ensures var all := Lazy(t, d, p, s, n, caps);
            HeadOf(all).Match? ==>
              exists m: nat ::
                && s <= m <= s + n && Derives(t, p, m, caps, HeadOf(all).end, CapsOf(all, caps))
                && forall m': nat :: s <= m' < m ==> !CanMatch(t, p, m', caps)
    decreases n
  {
    hide Nested, Derives, CanMatch, Lazy;
    LazyStep(t, d, p, s, n, caps);
    FirstIsMeant(t, d, p, s, caps);
    if n > 0 {
      LazyTakesLeast(t, d, p, s + 1, n - 1, caps);
    }
  }

  /** Matches end within the subject, at or behind their start, and their captures lie before the end. */
  lemma {:induction false} DerivesInside(t: Task, p: nat, s: nat, caps: seq<Cap>, e: nat, out: seq<Cap>)
    requires p <= |t.pat| && s <= |t.src| && CapsOk(caps, s) && |caps| <= LUA_MAXCAPTURES
    requires Derives(t, p, s, caps, e, out)
    ensures s <= e <= |t.src| && CapsOk(out, e) && |caps| <= |out| <= LUA_MAXCAPTURES
    decreases |t.pat| - p
  {
    hide MatchBracket, ClassEnd, Balanced, SingleMatch, MatchClass;
    var c, c1 := At(t.pat, p), At(t.pat, p + 1);
    if c == 0 || (c == '$' as nat && c1 == 0) {
    } else if c == '(' as nat {
      if c1 == ')' as nat {
        DerivesInside(t, p + 2, s, caps + [Cap(s, Position)], e, out);
      } else {
        DerivesInside(t, p + 1, s, caps + [Cap(s, Unfinished)], e, out);
      }
    } else if c == ')' as nat {
      var l: nat :| IsLastOpen(caps, l) && Derives(t, p + 1, s, caps[l := Close(caps[l], s)], e, out);
      DerivesInside(t, p + 1, s, caps[l := Close(caps[l], s)], e, out);
    } else if c == L_ESC && c1 == 'b' as nat {
      var b, g := At(t.pat, p + 2), At(t.pat, p + 3);
      BalancedInside(t.src, s, b, g);
      var r: nat :| Balanced(t.src, s, r, b, g) && r <= |t.src| && Derives(t, p + 4, r, caps, e, out);
      DerivesInside(t, p + 4, r, caps, e, out);
    } else if c == L_ESC && c1 == 'f' as nat {
      DerivesInside(t, ClassEnd(t.pat, p + 2).at, s, caps, e, out);
    } else if c == L_ESC && IsDigit(c1) {
      DerivesInside(t, p + 2, s + caps[c1 - '1' as nat].len.n, caps, e, out);
    } else {
      var ep := ClassEnd(t.pat, p).at;
      var op := At(t.pat, ep);
      var next := if IsOp(op) then ep + 1 else ep;
      var m: nat :| AllMatch(t, s, m, p, ep) && Times(op, m - s) && Derives(t, next, m, caps, e, out);
      DerivesInside(t, next, m, caps, e, out);
    }
  }

  lemma BalancedInside(src: seq<nat>, s: nat, b: nat, e: nat)
    ensures forall r: nat :: Balanced(src, s, r, b, e) ==> s < r <= |src|
  {
  }

  // ------------------------------------------------------------------
  // When a search can go too deep

  /** Matches are nested at most as deep as the pattern is long. */
  lemma {:induction false} NotTooDeep(t: Task, d: nat, p: nat, s: nat, caps: seq<Cap>)
    requires p <= |t.pat| && s <= |t.src| && d + (|t.pat| - p) <= LJ_MAX_XLEVEL
    ensures Raise(TooComplex) !in All(t, d, p, s, caps)
    decreases |t.pat| - p, 0, 1
  {
    hide Nested, Greedy, Lazy, Run, SingleMatch, MatchBracket, BalanceEnd, MatchClass;
    var c, c1 := At(t.pat, p), At(t.pat, p + 1);
    if c == 0 || (c == '$' as nat && c1 == 0) {
    } else if c == '(' as nat {
      if c1 == ')' as nat {
        NestedNotTooDeep(t, d, p + 2, s, caps + [Cap(s, Position)]);
      } else {
        NestedNotTooDeep(t, d, p + 1, s, caps + [Cap(s, Unfinished)]);
      }
    } else if c == ')' as nat {
      var l := LastOpen(caps, |caps|);
      if l < |caps| {
        NestedNotTooDeep(t, d, p + 1, s, caps[l := Close(caps[l], s)]);
      }
    } else if c == L_ESC && c1 == 'b' as nat {
      if At(t.pat, p + 2) != 0 && At(t.pat, p + 3) != 0 && s < |t.src| {
        var r := BalanceEnd(t.src, s + 1, At(t.pat, p + 2), At(t.pat, p + 3), 1);
        NotTooDeep(t, d, p + 4, r, caps);
      }
    } else if c == L_ESC && c1 == 'f' as nat {
      if At(t.pat, p + 2) == '[' as nat && ClassEnd(t.pat, p + 2).Ends? {
        NotTooDeep(t, d, ClassEnd(t.pat, p + 2).at, s, caps);
      }
    } else if c == L_ESC && IsDigit(c1) {
      var l: int := c1 - '1' as nat;
      if 0 <= l < |caps| && Repeats(t, s, caps[l]) {
        NotTooDeep(t, d, p + 2, s + caps[l].len.n, caps);
      }
    } else {
      PlainNotTooDeep(t, d, p, s, caps);
    }
  }

  lemma {:induction false} PlainNotTooDeep(t: Task, d: nat, p: nat, s: nat, caps: seq<Cap>)
    requires p < |t.pat| && s <= |t.src| && IsPlain(t.pat, p) && d + (|t.pat| - p) <= LJ_MAX_XLEVEL
    ensures Raise(TooComplex) !in All(t, d, p, s, caps)
    decreases |t.pat| - p, 0, 0
  {
    hide All, Nested, Greedy, Lazy, Run, ClassEnd, SingleMatch, IsPlain;
    AllPlain(t, d, p, s, caps);
    match ClassEnd(t.pat, p)
    case Malformed(_) =>
    case Ends(ep) =>
      var op := At(t.pat, ep);
      if op == '?' as nat {
        NotTooDeep(t, d, ep + 1, s, caps);
        if s < |t.src| {
          NestedNotTooDeep(t, d, ep + 1, s + 1, caps);
        }
      } else if op == '*' as nat {
        GreedyNotTooDeep(t, d, ep + 1, s, Run(t, s, p, ep), caps);
      } else if op == '+' as nat {
        if s < |t.src| {
          GreedyNotTooDeep(t, d, ep + 1, s + 1, Run(t, s + 1, p, ep), caps);
        }
      } else if op == '-' as nat {
        LazyNotTooDeep(t, d, ep + 1, s, Run(t, s, p, ep), caps);
      } else if s < |t.src| {
        NotTooDeep(t, d, ep, s + 1, caps);
      }
  }

  lemma {:induction false} NestedNotTooDeep(t: Task, d: nat, p: nat, s: nat, caps: seq<Cap>)
    requires p <= |t.pat| && s <= |t.src| && d + 1 + (|t.pat| - p) <= LJ_MAX_XLEVEL
    ensures Raise(TooComplex) !in Nested(t, d, p, s, caps)
    decreases |t.pat| - p, 1, 0
  {
    hide All;
    NotTooDeep(t, d + 1, p, s, caps);
  }

  lemma {:induction false} GreedyNotTooDeep(t: Task, d: nat, p: nat, s: nat, i: nat, caps: seq<Cap>)
    requires p <= |t.pat| && s + i <= |t.src| && d + 1 + (|t.pat| - p) <= LJ_MAX_XLEVEL
    ensures Raise(TooComplex) !in Greedy(t, d, p, s, i, caps)
    decreases |t.pat| - p, 2, i
  {
    hide Nested;
    NestedNotTooDeep(t, d, p, s + i, caps);
    if i > 0 {
      GreedyNotTooDeep(t, d, p, s, i - 1, caps);
    }
  }

  lemma {:induction false} LazyNotTooDeep(t: Task, d: nat, p: nat, s: nat, n: nat, caps: seq<Cap>)
    requires p <= |t.pat| && s + n <= |t.src| && d + 1 + (|t.pat| - p) <= LJ_MAX_XLEVEL
    ensures Raise(TooComplex) !in Lazy(t, d, p, s, n, caps)
    decreases |t.pat| - p, 2, n
  {
    hide Nested;
    NestedNotTooDeep(t, d, p, s, caps);
    if n > 0 {
      LazyNotTooDeep(t, d, p, s + 1, n - 1, caps);
    }
  }
}
