/**
 The backtracking matcher of src/lib_string.c, whose captures are one stack that
 is undone where a match fails; it finds the most preferred result.
 */
module PatternMatch {
  import opened PatternItems
  import opened PatternSpec

  datatype Result = NoMatch | Match(end: nat) | Error(e: Error)

  /** The most preferred result. */
  function HeadOf(all: seq<Outcome>): Result {
    if all == [] then NoMatch
    else match all[0]
      case Found(end, _) => Match(end)
      case Raise(e) => Error(e)
  }

  /** The captures that belong to a result. */
  function CapsOf(all: seq<Outcome>, before: seq<Cap>): seq<Cap> {
    if all != [] && all[0].Found? then all[0].caps else before
  }

  /** Captures lie before `s`. */
  ghost predicate CapsOk(caps: seq<Cap>, s: nat) {
    forall i {:trigger caps[i]} :: 0 <= i < |caps| ==> caps[i].init + (if caps[i].len.Closed? then caps[i].len.n else 0) <= s
  }

  class MatchState {
    const src: seq<nat>
    const pat: seq<nat>
    const capture: array<Cap>
    var level: nat
    var depth: nat

    constructor (src: seq<nat>, pat: seq<nat>)
      ensures Valid() && this.src == src && this.pat == pat && level == depth == 0 && fresh(capture)
    {
      this.src := src;
      this.pat := pat;
      level, depth := 0, 0;
      capture := new Cap[LUA_MAXCAPTURES](_ => Cap(0, Unfinished));
    }

    ghost predicate Valid()
      reads this
    {
      level <= LUA_MAXCAPTURES == capture.Length
    }

    ghost function Caps(): seq<Cap>
      requires Valid()
      reads this, capture
    {
      capture[..level]
    }

    function T(): Task {
      Task(src, pat)
    }

    /** The outcome of a search for the results `all`: the first one, or everything is as before. */
    twostate predicate Outcomes(r: Result, all: seq<Outcome>)
      requires old(Valid())
      reads this, capture
    {
      && Valid() && r == HeadOf(all)
      && (!r.Error? ==> depth == old(depth) && Caps() == CapsOf(all, old(Caps())))
    }

    /** A search starts anew, without captures. */
    method Start(s: nat, p: nat) returns (res: Result)
      requires Valid() && s <= |src| && p <= |pat|
      modifies this, capture
      ensures Valid() && res == HeadOf(Nested(T(), 0, p, s, []))
      ensures !res.Error? ==> Caps() == CapsOf(Nested(T(), 0, p, s, []), [])
    {
      level, depth := 0, 0;
      assert Caps() == [];
      res := DoMatch(s, p);
    }

    /** check_capture */
    method CheckCapture(l0: nat) returns (r: Place)
      requires Valid()
      ensures var l: int := l0 - '1' as nat;
              r == if l < 0 || l >= level || capture[l].len.Unfinished? then Malformed(CaptureIndex) else Ends(l)
    {
      var l: int := l0 - '1' as nat;
      if l < 0 || l >= level || capture[l].len.Unfinished? {
        return Malformed(CaptureIndex);
      }
      return Ends(l);
    }

    /** capture_to_close; the number of captures stands for the error. */
    method CaptureToClose() returns (r: nat)
      requires Valid()
      ensures r == LastOpen(Caps(), level)
    {
      var l := level;
      while l > 0
        invariant 0 <= l <= level && LastOpen(Caps(), level) == LastOpen(Caps(), l)
      {
        l := l - 1;
        if capture[l].len.Unfinished? {
          return l;
        }
      }
      return level;
    }

    /** classend */
    method ClassEndAt(p0: nat) returns (r: Place)
      requires p0 < |pat|
      ensures r == ClassEnd(pat, p0)
    {
      var p := p0 + 1;
      if pat[p0] == L_ESC {
        if At(pat, p) == 0 {
          return Malformed(EndsWithEscape);
        }
        return Ends(p + 1);
      }
      if pat[p0] != '[' as nat {
        return Ends(p);
      }
      if At(pat, p) == '^' as nat {
        p := p + 1;
      }
      while true
        invariant p <= |pat| && SetEnd(pat, p) == ClassEnd(pat, p0)
        decreases |pat| - p
      {
        if At(pat, p) == 0 {
          return Malformed(MissingBracket);
        }
        p := p + 1;
        if At(pat, p - 1) == L_ESC && At(pat, p) != 0 {
          p := p + 1;
        }
        if At(pat, p) == ']' as nat {
          return Ends(p + 1);
        }
      }
    }

    /** matchbracketclass */
    method MatchBracketClass(c: nat, p0: nat, ec: nat) returns (r: bool)
      ensures r == MatchBracket(c, pat, p0, ec)
    {
      var sig := true;
      var p := p0;
      if At(pat, p + 1) == '^' as nat {
        sig := false;
        p := p + 1;
      }
      p := p + 1;
      while p < ec
        invariant InSet(c, pat, SetStart(pat, p0), ec) == InSet(c, pat, p, ec)
        decreases ec - p
      {
        if At(pat, p) == L_ESC {
          p := p + 1;
          if MatchClass(c, At(pat, p)) {
            return sig;
          }
        } else if At(pat, p + 1) == '-' as nat && p + 2 < ec {
          p := p + 2;
          if At(pat, p - 2) <= c <= At(pat, p) {
            return sig;
          }
        } else if At(pat, p) == c {
          return sig;
        }
        p := p + 1;
      }
      return !sig;
    }

    /** singlematch */
    method SingleMatchAt(c: nat, p: nat, ep: nat) returns (r: bool)
      requires ep > 0
      ensures r == SingleMatch(c, pat, p, ep)
    {
      if At(pat, p) == '.' as nat {
        return true;
      } else if At(pat, p) == L_ESC {
        return MatchClass(c, At(pat, p + 1));
      } else if At(pat, p) == '[' as nat {
        r := MatchBracketClass(c, p, ep - 1);
      } else {
        return At(pat, p) == c;
      }
    }

    /** matchbalance, behind its test of the pattern; zero if there is no match */
    method MatchBalance(s0: nat, p: nat) returns (r: nat)
      requires s0 <= |src| && At(pat, p) != 0
      ensures r == if s0 == |src| || src[s0] != At(pat, p) then 0 else BalanceEnd(src, s0 + 1, At(pat, p), At(pat, p + 1), 1)
    {
      if At(src, s0) != At(pat, p) {
        return 0;
      }
      var b, e, cont := At(pat, p), At(pat, p + 1), 1;
      var s := s0 + 1;
      while s < |src|
        invariant s0 < s <= |src| && cont > 0
        invariant BalanceEnd(src, s, b, e, cont) == BalanceEnd(src, s0 + 1, b, e, 1)
      {
        if src[s] == e {
          cont := cont - 1;
          if cont == 0 {
            return s + 1;
          }
        } else if src[s] == b {
          cont := cont + 1;
        }
        s := s + 1;
      }
      return 0;
    }

    /** match_capture on a capture that exists; its text must follow at `s` */
    method MatchCapture(s: nat, l: nat) returns (r: Result)
      requires Valid() && l < level && s <= |src| && CapsOk(Caps(), s)
      ensures r == if Repeats(T(), s, capture[l]) then Match(s + capture[l].len.n) else NoMatch
    {
      assert Caps()[l] == capture[l];
      if capture[l].len.Closed? && |src| - s >= capture[l].len.n {
        var len, init := capture[l].len.n, capture[l].init;
        if src[init..init + len] == src[s..s + len] {
          return Match(s + len);
        }
      }
      return NoMatch;
    }

    /** start_capture */
    method StartCapture(s: nat, p: nat, what: Len) returns (res: Result)
      requires Valid() && s <= |src| && p <= |pat| && CapsOk(Caps(), s) && level < LUA_MAXCAPTURES && !what.Closed?
      modifies this, capture
      ensures Outcomes(res, old(Nested(T(), depth, p, s, Caps() + [Cap(s, what)])))
      decreases |pat| - p, 2, 0
    {
      ghost var before := Caps();
      capture[level] := Cap(s, what);
      level := level + 1;
      assert Caps() == before + [Cap(s, what)];
      res := DoMatch(s, p);
      if res.NoMatch? {
        level := level - 1;
        assert Caps() == (before + [Cap(s, what)])[..level];
      }
    }

    /** end_capture of the open capture `l` */
    method EndCapture(s: nat, p: nat, l: nat) returns (res: Result)
      requires Valid() && s <= |src| && p <= |pat| && CapsOk(Caps(), s) && l < level && capture[l].len.Unfinished?
      modifies this, capture
      ensures Outcomes(res, old(Nested(T(), depth, p, s, Caps()[l := Close(capture[l], s)])))
      decreases |pat| - p, 2, 0
    {
      ghost var before := Caps();
      assert before[l] == capture[l];
      capture[l] := Cap(capture[l].init, Closed(s - capture[l].init));
      assert Caps() == before[l := Close(before[l], s)];
      res := DoMatch(s, p);
      if res.NoMatch? {
        assert Caps()[l] == capture[l];
        capture[l] := Cap(capture[l].init, Unfinished);
        assert Caps() == before;
      }
    }

    /** max_expand */
    method MaxExpand(s: nat, p: nat, ep: nat) returns (res: Result)
      requires Valid() && s <= |src| && p < ep < |pat| && CapsOk(Caps(), s)
      modifies this, capture
      ensures Outcomes(res, old(Greedy(T(), depth, ep + 1, s, Run(T(), s, p, ep), Caps())))
      decreases |pat| - ep, 0, 0
    {
      hide Nested, SingleMatch, CapsOk;
      ghost var caps := Caps();
      var i: int := CountRun(s, p, ep);
      ghost var all := Greedy(T(), depth, ep + 1, s, i, caps);
      while i >= 0
        invariant -1 <= i && s + i <= |src| && Valid() && Caps() == caps && depth == old(depth)
        invariant HeadOf(all) == HeadOf(if i >= 0 then Greedy(T(), depth, ep + 1, s, i, caps) else [])
        invariant CapsOf(all, caps) == CapsOf(if i >= 0 then Greedy(T(), depth, ep + 1, s, i, caps) else [], caps)
        decreases i
      {
        CapsOkLater(caps, s, s + i);
        ghost var now := Nested(T(), depth, ep + 1, s + i, caps);
        GreedyStep(T(), depth, ep + 1, s, i, caps);
        res := DoMatch(s + i, ep + 1);
        if !res.NoMatch? {
          return;
        }
        i := i - 1;
      }
      return NoMatch;
    }

    /** The first loop of max_expand */
    method CountRun(s: nat, p: nat, ep: nat) returns (i: nat)
      requires s <= |src| && ep > 0
      ensures i == Run(T(), s, p, ep)
    {
      i := 0;
      while s + i < |src|
        invariant s + i <= |src| && Run(T(), s, p, ep) == i + Run(T(), s + i, p, ep)
      {
        var m := SingleMatchAt(src[s + i], p, ep);
        if !m {
          break;
        }
        i := i + 1;
      }
    }

    /** min_expand */
    method MinExpand(s0: nat, p: nat, ep: nat) returns (res: Result)
      requires Valid() && s0 <= |src| && p < ep < |pat| && CapsOk(Caps(), s0)
      modifies this, capture
      ensures Outcomes(res, old(Lazy(T(), depth, ep + 1, s0, Run(T(), s0, p, ep), Caps())))
      decreases |pat| - ep, 0, 0
    {
      hide Nested, SingleMatch, CapsOk, Lazy, Run;
      var s := s0;
      ghost var n := Run(T(), s, p, ep);
      ghost var all, caps := Lazy(T(), depth, ep + 1, s, n, Caps()), Caps();
      while true
        invariant s0 <= s <= |src| && n == Run(T(), s, p, ep) && Valid() && Caps() == caps && depth == old(depth)
        invariant SameFirst(all, Lazy(T(), depth, ep + 1, s, n, caps), caps)
        decreases |src| - s
      {
        CapsOkLater(caps, s0, s);
        LazyStep(T(), depth, ep + 1, s, n, caps);
        RunStep(T(), s, p, ep);
        res := DoMatch(s, ep + 1);
        if !res.NoMatch? {
          return;
        }
        var m := false;
        if s < |src| {
          m := SingleMatchAt(src[s], p, ep);
        }
        if m {
          s := s + 1;
          n := n - 1;
        } else {
          return NoMatch;
        }
      }
    }

    /** match */
    method DoMatch(s0: nat, p0: nat) returns (res: Result)
      requires Valid() && s0 <= |src| && p0 <= |pat| && CapsOk(Caps(), s0)
      modifies this, capture
      ensures Outcomes(res, old(Nested(T(), depth, p0, s0, Caps())))
      decreases |pat| - p0, 1, 0
    {
      hide All, CapsOk;
      ghost var caps := Caps();
      depth := depth + 1;
      if depth > LJ_MAX_XLEVEL {
        return Error(TooComplex);
      }
      ghost var all := All(T(), depth, p0, s0, caps);
      var step := Goto(s0, p0);
      while step.Goto?
        invariant
          if step.Goto? then
            && s0 <= step.s <= |src| && p0 <= step.p <= |pat|
            && Valid() && Caps() == caps && depth == old(depth) + 1
            && SameFirst(all, All(T(), depth, step.p, step.s, caps), caps)
          else
            && Valid() && step.res == HeadOf(all)
            && (!step.res.Error? ==> depth == old(depth) + 1 && Caps() == CapsOf(all, caps))
        decreases if step.Goto? then |pat| - step.p + 1 else 0
      {
        CapsOkLater(caps, s0, step.s);
        step := Item(step.s, step.p);
      }
      res := step.res;
      if !res.Error? {
        depth := depth - 1;
      }
    }

    /** One round of match: the result, or where it goes on. */
    twostate predicate Stepped(step: Step, p: nat, s: nat, all: seq<Outcome>)
      requires old(Valid())
      reads this, capture
    {
      if step.Done? then Outcomes(step.res, all)
      else
        && s <= step.s <= |src| && p < step.p <= |pat|
        && Valid() && Caps() == old(Caps()) && depth == old(depth)
        && SameFirst(all, All(T(), depth, step.p, step.s, Caps()), Caps())
    }

    /** The switch of match */
    method Item(s: nat, p: nat) returns (step: Step)
      requires Valid() && s <= |src| && p <= |pat| && CapsOk(Caps(), s)
      modifies this, capture
      ensures Stepped(step, p, s, old(All(T(), depth, p, s, Caps())))
      decreases |pat| - p, 0, 1
    {
      hide SingleMatch, CapsOk, MatchClass, ClassEnd, Run;
      var c := At(pat, p);
      if c == 0 {
        return Done(Match(s));
      } else if c == '(' as nat || c == ')' as nat {
        step := CaptureItem(s, p);
      } else if c == L_ESC && (At(pat, p + 1) == 'b' as nat || At(pat, p + 1) == 'f' as nat || IsDigit(At(pat, p + 1))) {
        step := EscapeItem(s, p);
      } else if c == '$' as nat && At(pat, p + 1) == 0 {
        return Done(if s == |src| then Match(s) else NoMatch);
      } else {
        step := PlainItem(s, p);
      }
    }

    /** The start or the end of a capture */
    method CaptureItem(s: nat, p: nat) returns (step: Step)
      requires Valid() && s <= |src| && p <= |pat| && CapsOk(Caps(), s)
      requires At(pat, p) == '(' as nat || At(pat, p) == ')' as nat
      modifies this, capture
      ensures Stepped(step, p, s, old(All(T(), depth, p, s, Caps())))
      decreases |pat| - p, 0, 0
    {
      hide CapsOk, Nested;
      var res;
      if At(pat, p) == '(' as nat {
        if level >= LUA_MAXCAPTURES {
          return Done(Error(TooManyCaptures));
        }
        if At(pat, p + 1) == ')' as nat {
          res := StartCapture(s, p + 2, Position);
        } else {
          res := StartCapture(s, p + 1, Unfinished);
        }
      } else {
        var l := CaptureToClose();
        if l >= level {
          return Done(Error(CapturePattern));
        }
        assert Caps()[l] == capture[l];
        res := EndCapture(s, p + 1, l);
      }
      return Done(res);
    }

    /** A balanced string, a frontier, or what was captured before */
    method EscapeItem(s: nat, p: nat) returns (step: Step)
      requires Valid() && s <= |src| && p <= |pat| && CapsOk(Caps(), s)
      requires At(pat, p) == L_ESC && (At(pat, p + 1) == 'b' as nat || At(pat, p + 1) == 'f' as nat || IsDigit(At(pat, p + 1)))
      ensures Stepped(step, p, s, old(All(T(), depth, p, s, Caps())))
    {
      hide CapsOk, MatchBracket, BalanceEnd, ClassEnd, Nested, Greedy, Lazy, SingleMatch, Run, LastOpen, Repeats;
      var c1 := At(pat, p + 1);
      if c1 == 'b' as nat {
        if At(pat, p + 2) == 0 || At(pat, p + 3) == 0 {
          return Done(Error(Unbalanced));
        }
        var r := MatchBalance(s, p + 2);
        return if r == 0 then Done(NoMatch) else Goto(r, p + 4);
      } else if c1 == 'f' as nat {
        if At(pat, p + 2) != '[' as nat {
          return Done(Error(FrontierBracket));
        }
        var place := ClassEndAt(p + 2);
        if place.Malformed? {
          return Done(Error(place.e));
        }
        var ep := place.at;
        var previous := if s == 0 then 0 else src[s - 1];
        var m1 := MatchBracketClass(previous, p + 2, ep - 1);
        var m2 := MatchBracketClass(At(src, s), p + 2, ep - 1);
        return if m1 || !m2 then Done(NoMatch) else Goto(s, ep);
      } else {
        var place := CheckCapture(c1);
        if place.Malformed? {
          return Done(Error(place.e));
        }
        assert Caps()[place.at] == capture[place.at];
        RepeatsInside(T(), s, Caps()[place.at]);
        var res := MatchCapture(s, place.at);
        return if res.NoMatch? then Done(NoMatch) else Goto(res.end, p + 2);
      }
    }

    /** An item for one character, which may be repeated */
    method PlainItem(s: nat, p: nat) returns (step: Step)
      requires Valid() && s <= |src| && p < |pat| && CapsOk(Caps(), s) && IsPlain(pat, p)
      modifies this, capture
      ensures Stepped(step, p, s, old(All(T(), depth, p, s, Caps())))
      decreases |pat| - p, 0, 0
    {
      hide CapsOk, ClassEnd, SingleMatch, All, Run, IsPlain;
      ghost var caps := Caps();
      AllPlain(T(), depth, p, s, caps);
      var place := ClassEndAt(p);
      if place.Malformed? {
        return Done(Error(place.e));
      }
      var ep := place.at;
      var m := false;
      if s < |src| {
        m := SingleMatchAt(src[s], p, ep);
      }
      var op := At(pat, ep);
      if op == '?' as nat {
        if m {
          CapsOkLater(caps, s, s + 1);
          var res := DoMatch(s + 1, ep + 1);
          if !res.NoMatch? {
            return Done(res);
          }
        }
        return Goto(s, ep + 1);
      } else if op == '*' as nat {
        var res := MaxExpand(s, p, ep);
        return Done(res);
      } else if op == '+' as nat {
        if m {
          CapsOkLater(caps, s, s + 1);
          var res := MaxExpand(s + 1, p, ep);
          return Done(res);
        }
        return Done(NoMatch);
      } else if op == '-' as nat {
        var res := MinExpand(s, p, ep);
        return Done(res);
      } else {
        return if m then Goto(s + 1, ep) else Done(NoMatch);
      }
    }
  }

  /** A match goes on, or is done. */
  datatype Step = Goto(s: nat, p: nat) | Done(res: Result)

  ghost predicate SameFirst(a: seq<Outcome>, b: seq<Outcome>, caps: seq<Cap>) {
    HeadOf(a) == HeadOf(b) && CapsOf(a, caps) == CapsOf(b, caps)
  }

  lemma CapsOkLater(caps: seq<Cap>, s: nat, s': nat)
    requires CapsOk(caps, s) && s <= s'
    ensures CapsOk(caps, s')
  {
  }

  lemma RepeatsInside(t: Task, s: nat, c: Cap)
    ensures Repeats(t, s, c) ==> c.len.Closed? && s + c.len.n <= |t.src|
  {
  }

  lemma RunStep(t: Task, s: nat, p: nat, ep: nat)
    requires s <= |t.src|
    ensures if s < |t.src| && SingleMatch(t.src[s], t.pat, p, ep) then Run(t, s, p, ep) == 1 + Run(t, s + 1, p, ep) else Run(t, s, p, ep) == 0
  {
    hide SingleMatch;
  }

  lemma GreedyStep(t: Task, d: nat, p: nat, s: nat, i: nat, caps: seq<Cap>)
    requires p <= |t.pat| && s + i <= |t.src|
    ensures var now := Nested(t, d, p, s + i, caps);
            var later := if i == 0 then [] else Greedy(t, d, p, s, i - 1, caps);
            && Greedy(t, d, p, s, i, caps) == now + later
            && (HeadOf(now).NoMatch? ==> SameFirst(Greedy(t, d, p, s, i, caps), later, caps))
            && (!HeadOf(now).NoMatch? ==> SameFirst(Greedy(t, d, p, s, i, caps), now, caps))
  {
    hide Nested;
  }

  lemma LazyStep(t: Task, d: nat, p: nat, s: nat, n: nat, caps: seq<Cap>)
    requires p <= |t.pat| && s + n <= |t.src|
    ensures var now := Nested(t, d, p, s, caps);
            var later := if n == 0 then [] else Lazy(t, d, p, s + 1, n - 1, caps);
            && Lazy(t, d, p, s, n, caps) == now + later
            && (HeadOf(now).NoMatch? ==> SameFirst(Lazy(t, d, p, s, n, caps), later, caps))
            && (!HeadOf(now).NoMatch? ==> SameFirst(Lazy(t, d, p, s, n, caps), now, caps))
  {
    hide Nested;
  }

  /** The item at `p` is one for a single character. */
  predicate IsPlain(pat: seq<nat>, p: nat) {
    var c, c1 := At(pat, p), At(pat, p + 1);
    && c != 0 && c != '(' as nat && c != ')' as nat
    && !(c == L_ESC && (c1 == 'b' as nat || c1 == 'f' as nat || IsDigit(c1)))
    && !(c == '$' as nat && c1 == 0)
  }

  /** The results of such an item */
  lemma AllPlain(t: Task, d: nat, p: nat, s: nat, caps: seq<Cap>)
    requires p < |t.pat| && s <= |t.src| && IsPlain(t.pat, p)
    ensures var all := All(t, d, p, s, caps);
            match ClassEnd(t.pat, p)
            case Malformed(e) => all == [Raise(e)]
            case Ends(ep) =>
              var m := s < |t.src| && SingleMatch(t.src[s], t.pat, p, ep);
              var op := At(t.pat, ep);
              && (op == '?' as nat ==> all == (if m then Nested(t, d, ep + 1, s + 1, caps) else []) + All(t, d, ep + 1, s, caps))
              && (op == '*' as nat ==> all == Greedy(t, d, ep + 1, s, Run(t, s, p, ep), caps))
              && (op == '+' as nat ==> all == if m then Greedy(t, d, ep + 1, s + 1, Run(t, s + 1, p, ep), caps) else [])
              && (op == '-' as nat ==> all == Lazy(t, d, ep + 1, s, Run(t, s, p, ep), caps))
              && (op !in {'?' as nat, '*' as nat, '+' as nat, '-' as nat} ==> all == if m then All(t, d, ep, s + 1, caps) else [])
  {
    hide Nested, Greedy, Lazy, Run, ClassEnd, SingleMatch;
  }
}
