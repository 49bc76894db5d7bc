/**
 string.gmatch and string.gsub of src/lib_string.c, which go from one match to the
 next: both see the same matches.
 */
module PatternSubst {
  import opened PatternItems
  import opened PatternSpec
  import opened PatternMatch
  import opened PatternMeaning
  import opened PatternFind

  // ------------------------------------------------------------------
  // string.gmatch

  /** Where the search for the next match starts; an empty match is passed. */
  function After(start: nat, end: nat): nat {
    if end == start then end + 1 else end
  }

  /** All matches from `s` on; an error ends them. */
  function Hits(t: Task, p: nat, s: nat): (r: seq<Hit>)
    requires p <= |t.pat|
    ensures forall i :: 0 <= i < |r| ==> !r[i].Nothing?
    decreases |t.src| + 1 - s
  {
    if s > |t.src| then []
    else
      LeftmostInside(t, p, s, false);
      match Leftmost(t, p, s, false)
      case Nothing => []
      case Failure(e) => [Failure(e)]
      case Hit(start, end, caps) => [Hit(start, end, caps)] + Hits(t, p, After(start, end))
  }

  /** Matches start at ever greater positions, do not overlap, and there are at most as many as positions. */
  lemma {:induction false} HitsIncrease(t: Task, p: nat, s: nat)
    requires p <= |t.pat|
    ensures var hits := Hits(t, p, s);
            && (s <= |t.src| ==> |hits| <= |t.src| + 1 - s) && (s > |t.src| ==> hits == [])
            && (forall i :: 0 <= i < |hits| && hits[i].Hit? ==>
                  && s <= hits[i].start <= hits[i].end <= |t.src| && CapsOk(hits[i].caps, |t.src|)
                  && Derives(t, p, hits[i].start, [], hits[i].end, hits[i].caps))
            && forall i, j :: 0 <= i < j < |hits| && hits[j].Hit? ==>
                 hits[i].Hit? && hits[i].start < hits[j].start && hits[i].end <= hits[j].start
    decreases |t.src| + 1 - s
  {
    hide Leftmost, Derives, CapsOk;
    if s <= |t.src| {
      LeftmostInside(t, p, s, false);
      LeftmostIsMeant(t, p, s, false);
      var hit := Leftmost(t, p, s, false);
      if hit.Hit? {
        HitsIncrease(t, p, After(hit.start, hit.end));
      }
    }
  }

  /** `q` is in one of the matches, or behind an error. */
  ghost predicate Covered(hits: seq<Hit>, q: nat) {
    exists i :: 0 <= i < |hits| && InHit(hits[i], q)
  }

  predicate InHit(hit: Hit, q: nat) {
    match hit
    case Hit(start, end, _) => q == start || start < q < end
    case Failure(_) => true
    case Nothing => false
  }

  /** Every position where the pattern can match is in a match, or behind an error. */
  lemma {:induction false} HitsMissNothing(t: Task, p: nat, s: nat, q: nat)
    requires p <= |t.pat| && s <= q <= |t.src| && CanMatch(t, p, q, [])
    ensures Covered(Hits(t, p, s), q)
    decreases |t.src| + 1 - s
  {
    hide Leftmost, Derives, CapsOk, CanMatch;
    LeftmostInside(t, p, s, false);
    LeftmostIsMeant(t, p, s, false);
    var hit := Leftmost(t, p, s, false);
    var hits := Hits(t, p, s);
    if hit.Hit? {
      assert hits[0] == hit;
      if q >= After(hit.start, hit.end) {
        var later := Hits(t, p, After(hit.start, hit.end));
        HitsMissNothing(t, p, After(hit.start, hit.end), q);
        var i :| 0 <= i < |later| && InHit(later[i], q);
        assert hits[i + 1] == later[i];
      }
    } else if hit.Failure? {
      assert hits[0] == hit;
    } else {
      assert false;
    }
  }

  datatype Step = Exhausted | Yields(vs: seq<Value>) | Raises(e: Error)

  function StepOf(src: seq<nat>, hit: Hit): Step
    requires hit.Hit? ==> hit.start <= hit.end <= |src| && CapsOk(hit.caps, |src|)
  {
    match hit
    case Nothing => Exhausted
    case Failure(e) => Raises(e)
    case Hit(start, end, caps) =>
      match MatchValues(src, caps, true, start, end)
      case Failed(e) => Raises(e)
      case Values(vs) => Yields(vs)
  }

  lemma FirstHitInside(t: Task, p: nat, s: nat)
    requires p <= |t.pat|
    ensures var hits := Hits(t, p, s);
            hits != [] && hits[0].Hit? ==> hits[0].start <= hits[0].end <= |t.src| && CapsOk(hits[0].caps, |t.src|)
  {
    HitsIncrease(t, p, s);
  }

  /** The iterator that string.gmatch returns */
  class GMatch {
    const src: seq<nat>
    const pat: seq<nat>
    var pos: nat

    constructor (src: seq<nat>, pat: seq<nat>)
      ensures this.src == src && this.pat == pat && pos == 0
    {
      this.src := src;
      this.pat := pat;
      pos := 0;
    }

    /** string_gmatch_aux: yields the next match, of those that are left. */
    method Next() returns (r: Step)
      modifies this
      ensures var t := Task(src, pat);
              var hits := Hits(t, 0, old(pos));
              if hits == [] then r == Exhausted && pos == old(pos)
              else
                && (hits[0].Hit? ==> hits[0].start <= hits[0].end <= |src| && CapsOk(hits[0].caps, |src|))
                && r == StepOf(src, hits[0])
                && Hits(t, 0, pos) == (if hits[0].Failure? then hits else hits[1..])
                && (hits[0].Hit? ==> pos > old(pos))
    {
      hide Nested, CapsOk, MatchValues;
      var ms := new MatchState(src, pat);
      ghost var t := Task(src, pat);
      FirstHitInside(t, 0, pos);
      if pos <= |src| {
        LeftmostInside(t, 0, pos, false);
      }
      var s := pos;
      while s <= |src|
        invariant pos == old(pos) <= s
        invariant ms.Valid() && ms.src == src && ms.pat == pat && fresh(ms) && fresh(ms.capture)
        invariant s <= |src| ==> Leftmost(t, 0, pos, false) == Leftmost(t, 0, s, false)
        invariant pos <= |src| < s ==> Leftmost(t, 0, pos, false) == Nothing
        decreases |src| + 1 - s
      {
        var q := ms.Start(s, 0);
        if q.Error? {
          return Raises(q.e);
        }
        if q.Match? {
          pos := q.end;
          if q.end == s {
            pos := pos + 1;
          }
          var vs := PushCaptures(ms, true, s, q.end);
          return if vs.Failed? then Raises(vs.e) else Yields(vs.vs);
        }
        s := s + 1;
      }
      return Exhausted;
    }
  }

  // ------------------------------------------------------------------
  // The replacement string

  datatype Piece = Piece(t: seq<nat>) | Bad(e: Error)

  function Joined(b: seq<nat>, r: Piece): Piece {
    match r
    case Bad(e) => Bad(e)
    case Piece(t) => Piece(b + t)
  }

  function Decimal(n: nat): (r: seq<nat>)
    ensures r != [] && forall i :: 0 <= i < |r| ==> IsDigit(r[i])
  {
    if n < 10 then ['0' as nat + n] else Decimal(n / 10) + ['0' as nat + n % 10]
  }

  function AsText(v: Value): seq<nat> {
    match v
    case Text(t) => t
    case Index(i) => Decimal(i)
  }

  /** What the replacement string stands for, from its character `i` on; %0 is the whole match, %1 to %9 are captures. */
  function Replacement(src: seq<nat>, caps: seq<Cap>, repl: seq<nat>, i: nat, s: nat, e: nat): Piece
    requires s <= e <= |src| && CapsOk(caps, |src|)
    decreases |repl| - i
  {
    if i >= |repl| then Piece([])
    else if repl[i] != L_ESC then Joined([repl[i]], Replacement(src, caps, repl, i + 1, s, e))
    else
      var c := At(repl, i + 1);
      if !IsDigit(c) then Joined([c], Replacement(src, caps, repl, i + 2, s, e))
      else if c == '0' as nat then Joined(src[s..e], Replacement(src, caps, repl, i + 2, s, e))
      else match OneCapture(src, caps, c - '1' as nat, s, e)
        case Failed(e) => Bad(e)
        case Values(vs) => Joined(AsText(vs[0]), Replacement(src, caps, repl, i + 2, s, e))
  }

  /** add_s */
  method AddS(ms: MatchState, repl: seq<nat>, s: nat, e: nat) returns (r: Piece)
    requires ms.Valid() && s <= e <= |ms.src| && CapsOk(ms.Caps(), |ms.src|)
    ensures r == Replacement(ms.src, ms.Caps(), repl, 0, s, e)
  {
    hide CapsOk, OneCapture;
    var b: seq<nat> := [];
    var i: nat := 0;
    ghost var caps := ms.Caps();
    while i < |repl|
      invariant Replacement(ms.src, caps, repl, 0, s, e) == Joined(b, Replacement(ms.src, caps, repl, i, s, e))
      decreases |repl| - i
    {
      JoinedTwice(b, [repl[i]], Replacement(ms.src, caps, repl, i + 1, s, e));
      if repl[i] != L_ESC {
        b := b + [repl[i]];
      } else {
        i := i + 1;
        var c := At(repl, i);
        JoinedTwice(b, [c], Replacement(ms.src, caps, repl, i + 1, s, e));
        JoinedTwice(b, ms.src[s..e], Replacement(ms.src, caps, repl, i + 1, s, e));
        if !IsDigit(c) {
          b := b + [c];
        } else if c == '0' as nat {
          b := b + ms.src[s..e];
        } else {
          var v := PushOneCapture(ms, c - '1' as nat, s, e);
          if v.Failed? {
            return Bad(v.e);
          }
          JoinedTwice(b, AsText(v.vs[0]), Replacement(ms.src, caps, repl, i + 1, s, e));
          b := b + AsText(v.vs[0]);
        }
      }
      i := i + 1;
    }
    return Piece(b);
  }

  lemma JoinedTwice(a: seq<nat>, b: seq<nat>, r: Piece)
    ensures Joined(a, Joined(b, r)) == Joined(a + b, r)
  {
    if r.Piece? {
      assert a + (b + r.t) == (a + b) + r.t;
    }
  }

  // ------------------------------------------------------------------
  // string.gsub

  datatype Subst = Subst(out: seq<nat>, n: nat) | SubstError(e: Error)

  function Onto(b: seq<nat>, n: nat, r: Subst): Subst {
    match r
    case SubstError(e) => SubstError(e)
    case Subst(out, m) => Subst(b + out, n + m)
  }

  lemma OntoTwice(a: seq<nat>, m: nat, b: seq<nat>, n: nat, r: Subst)
    ensures Onto(a, m, Onto(b, n, r)) == Onto(a + b, m + n, r)
  {
    if r.Subst? {
      assert a + (b + r.out) == (a + b) + r.out;
    }
  }

  lemma TriesInside(t: Task, p: nat, s: nat)
    requires p <= |t.pat| && s <= |t.src|
    ensures var tries := Tries(t, p, s);
            HeadOf(tries).Match? ==> s <= HeadOf(tries).end <= |t.src| && CapsOk(CapsOf(tries, []), |t.src|)
  {
    FirstIsMeant(t, 0, p, s, []);
    if HeadOf(Tries(t, p, s)).Match? {
      DerivesInside(t, p, s, [], HeadOf(Tries(t, p, s)).end, CapsOf(Tries(t, p, s), []));
    }
  }

  /** One round: what is added to the result, and where it goes on, unless it is the last one. */
  datatype Round = Stops(e: Error) | Adds(x: seq<nat>, n: nat, next: nat) | Finishes(x: seq<nat>, n: nat)

  function RoundAt(t: Task, p: nat, repl: seq<nat>, s: nat): (r: Round)
    requires p <= |t.pat| && s <= |t.src|
    ensures r.Adds? ==> s < r.next <= |t.src| && r.n <= 1
    ensures r.Finishes? ==> s == |t.src| && r.n <= 1
  {
    TriesInside(t, p, s);
    match HeadOf(Tries(t, p, s))
    case Error(e) => Stops(e)
    case NoMatch => if s == |t.src| then Finishes([], 0) else Adds([t.src[s]], 0, s + 1)
    case Match(e) =>
      match Replacement(t.src, CapsOf(Tries(t, p, s), []), repl, 0, s, e)
      case Bad(e) => Stops(e)
      case Piece(x) =>
        if e > s then Adds(x, 1, e)
        else if s == |t.src| then Finishes(x, 1)
        else Adds(x + [t.src[s]], 1, s + 1)
  }

  /** From `s` on, at most `max` matches are replaced; an anchored pattern is tried only once. */
  function SubstFrom(t: Task, p: nat, repl: seq<nat>, s: nat, max: int, anchor: bool): Subst
    requires p <= |t.pat| && s <= |t.src|
    decreases |t.src| - s
  {
    if max <= 0 then Subst(t.src[s..], 0)
    else match RoundAt(t, p, repl, s)
      case Stops(e) => SubstError(e)
      case Finishes(x, n) => Subst(x, n)
      case Adds(x, n, next) =>
        Onto(x, n, if anchor then Subst(t.src[next..], 0) else SubstFrom(t, p, repl, next, max - n, anchor))
  }

  /** The body of the loop of string_gsub */
  method GsubRound(ms: MatchState, p: nat, repl: seq<nat>, s: nat) returns (r: Round)
    requires ms.Valid() && s <= |ms.src| && p <= |ms.pat|
    modifies ms, ms.capture
    ensures ms.Valid() && r == RoundAt(ms.T(), p, repl, s)
  {
    hide Nested, Replacement, CapsOk;
    TriesInside(ms.T(), p, s);
    var e := ms.Start(s, p);
    if e.Error? {
      return Stops(e.e);
    }
    var x := Piece([]);
    if e.Match? {
      x := AddS(ms, repl, s, e.end);
      if x.Bad? {
        return Stops(x.e);
      }
    }
    var n := if e.Match? then 1 else 0;
    if e.Match? && e.end > s {
      return Adds(x.t, n, e.end);
    } else if s < |ms.src| {
      return Adds(x.t + [ms.src[s]], n, s + 1);
    } else {
      return Finishes(x.t, n);
    }
  }

  /** string.gsub with a string as the replacement */
  method Gsub(src: seq<nat>, pat: seq<nat>, repl: seq<nat>, maxS: int) returns (r: Subst)
    ensures r == SubstFrom(Task(src, pat), if IsAnchored(pat) then 1 else 0, repl, 0, maxS, IsAnchored(pat))
  {
    hide RoundAt;
    var anchor := At(pat, 0) == '^' as nat;
    var p := if anchor then 1 else 0;
    var s, n, b := 0, 0, [];
    ghost var t := Task(src, pat);
    var ms := new MatchState(src, pat);
    while n < maxS
      invariant s <= |src| && n >= 0
      invariant ms.Valid() && ms.src == src && ms.pat == pat && fresh(ms) && fresh(ms.capture)
      invariant SubstFrom(t, p, repl, 0, maxS, anchor) == Onto(b, n, SubstFrom(t, p, repl, s, maxS - n, anchor))
      decreases |src| - s
    {
      var round := GsubRound(ms, p, repl, s);
      match round {
        case Stops(e) => return SubstError(e);
        case Finishes(x, k) => return Subst(b + x, n + k);
        case Adds(x, k, next) =>
          if anchor {
            return Subst(b + x + src[next..], n + k);
          }
          OntoTwice(b, n, x, k, SubstFrom(t, p, repl, next, maxS - n - k, anchor));
          b, n, s := b + x, n + k, next;
      }
    }
    return Subst(b + src[s..], n);
  }

  // ------------------------------------------------------------------
  // What gsub does

  /** No more replacements than asked for, than there are positions, or than one if the pattern is anchored */
  lemma {:induction false} SubstBounds(t: Task, p: nat, repl: seq<nat>, s: nat, max: int, anchor: bool)
    requires p <= |t.pat| && s <= |t.src|
    ensures var r := SubstFrom(t, p, repl, s, max, anchor);
            r.Subst? ==> r.n <= |t.src| + 1 - s && (r.n <= max || r.n == 0) && (anchor ==> r.n <= 1)
    decreases |t.src| - s
  {
    hide RoundAt;
    var round := RoundAt(t, p, repl, s);
    if max > 0 && round.Adds? && !anchor {
      SubstBounds(t, p, repl, round.next, max - round.n, anchor);
    }
  }

  /** The limit that is used by default, the length plus one, is no limit. */
  lemma {:induction false} DefaultIsNoLimit(t: Task, p: nat, repl: seq<nat>, s: nat, max: int, anchor: bool)
    requires p <= |t.pat| && s <= |t.src| && max >= |t.src| + 1 - s
    ensures SubstFrom(t, p, repl, s, max, anchor) == SubstFrom(t, p, repl, s, |t.src| + 1 - s, anchor)
    decreases |t.src| - s
  {
    hide RoundAt;
    var round := RoundAt(t, p, repl, s);
    if round.Adds? && !anchor {
      DefaultIsNoLimit(t, p, repl, round.next, max - round.n, anchor);
      DefaultIsNoLimit(t, p, repl, round.next, |t.src| + 1 - s - round.n, anchor);
    }
  }

  /** Whether the search raises an error somewhere from `s` on */
  ghost predicate Fails(t: Task, p: nat, s: nat, e: Error)
    requires p <= |t.pat|
  {
    exists q: nat :: s <= q <= |t.src| && HeadOf(Tries(t, p, q)) == Error(e)
  }

  const WHOLE: seq<nat> := [L_ESC, '0' as nat]

  lemma WholeIsWhole(src: seq<nat>, caps: seq<Cap>, s: nat, e: nat)
    requires s <= e <= |src| && CapsOk(caps, |src|)
    ensures Replacement(src, caps, WHOLE, 0, s, e) == Piece(src[s..e])
  {
    hide CapsOk;
    assert Replacement(src, caps, WHOLE, 2, s, e) == Piece([]);
    assert src[s..e] + [] == src[s..e];
  }

  /** Replacing each match by itself gives the subject, and fails only where the search does. */
  lemma {:induction false} IdentitySubst(t: Task, p: nat, s: nat, max: int, anchor: bool)
    requires p <= |t.pat| && s <= |t.src|
    ensures match SubstFrom(t, p, WHOLE, s, max, anchor)
            case Subst(out, n) => out == t.src[s..] && n <= |t.src| + 1 - s
            case SubstError(e) => Fails(t, p, s, e)
    decreases |t.src| - s
  {
    hide RoundAt, Tries, HeadOf;
    SubstBounds(t, p, WHOLE, s, max, anchor);
    IdentityRound(t, p, s);
    var round := RoundAt(t, p, WHOLE, s);
    if max > 0 && round.Adds? {
      assert t.src[s..] == t.src[s..round.next] + t.src[round.next..];
      if !anchor {
        IdentitySubst(t, p, round.next, max - round.n, anchor);
      }
    }
  }

  lemma IdentityRound(t: Task, p: nat, s: nat)
    requires p <= |t.pat| && s <= |t.src|
    ensures match RoundAt(t, p, WHOLE, s)
            case Stops(e) => HeadOf(Tries(t, p, s)) == Error(e)
            case Adds(x, _, next) => x == t.src[s..next]
            case Finishes(x, _) => x == [] && s == |t.src|
  {
    hide Tries, CapsOk, Replacement;
    TriesInside(t, p, s);
    if HeadOf(Tries(t, p, s)).Match? {
      var e := HeadOf(Tries(t, p, s)).end;
      WholeIsWhole(t.src, CapsOf(Tries(t, p, s), []), s, e);
    }
  }

  // ------------------------------------------------------------------
  // gsub replaces the matches that gmatch yields

  ghost predicate AllHits(t: Task, s: nat, hits: seq<Hit>)
    decreases |hits|
  {
    && s <= |t.src|
    && (hits != [] ==>
          && hits[0].Hit? && s <= hits[0].start <= hits[0].end <= |t.src| && CapsOk(hits[0].caps, |t.src|)
          && AllHits(t, hits[0].end, hits[1..]))
  }

  /** The subject from `s` on, with these matches replaced */
  ghost function Splice(t: Task, s: nat, hits: seq<Hit>, repl: seq<nat>): Piece
    requires AllHits(t, s, hits)
    decreases |hits|
  {
    if hits == [] then Piece(t.src[s..])
    else
      var h := hits[0];
      match Replacement(t.src, h.caps, repl, 0, h.start, h.end)
      case Bad(e) => Bad(e)
      case Piece(x) => Joined(t.src[s..h.start] + x, Splice(t, h.end, hits[1..], repl))
  }

  function Taken(hits: seq<Hit>, max: int): seq<Hit> {
    if max <= 0 then [] else if max < |hits| then hits[..max] else hits
  }

  /** Looking for matches from further on leaves the text before it in place. */
  lemma SpliceLater(t: Task, s: nat, next: nat, hits: seq<Hit>, repl: seq<nat>)
    requires s <= next && AllHits(t, next, hits)
    ensures AllHits(t, s, hits) && Splice(t, s, hits, repl) == Joined(t.src[s..next], Splice(t, next, hits, repl))
  {
    hide CapsOk, Replacement;
    if hits == [] {
      assert t.src[s..] == t.src[s..next] + t.src[next..];
    } else {
      var h := hits[0];
      assert t.src[s..h.start] == t.src[s..next] + t.src[next..h.start];
      match Replacement(t.src, h.caps, repl, 0, h.start, h.end)
      case Bad(_) =>
      case Piece(x) =>
        assert t.src[s..h.start] + x == t.src[s..next] + (t.src[next..h.start] + x);
        JoinedTwice(t.src[s..next], t.src[next..h.start] + x, Splice(t, h.end, hits[1..], repl));
    }
  }

  lemma SpliceNone(t: Task, s: nat, repl: seq<nat>)
    requires s <= |t.src|
    ensures AllHits(t, s, []) && Splice(t, s, [], repl) == Piece(t.src[s..])
  {
  }

  /** A match at `s` is replaced, and the text up to `next` follows. */
  lemma SpliceFirst(t: Task, s: nat, h: Hit, next: nat, rest: seq<Hit>, repl: seq<nat>)
    requires h.Hit? && h.start == s <= h.end <= next && CapsOk(h.caps, |t.src|) && AllHits(t, next, rest)
    ensures AllHits(t, s, [h] + rest)
    ensures var x := Replacement(t.src, h.caps, repl, 0, s, h.end);
            x.Piece? ==> Splice(t, s, [h] + rest, repl) == Joined(x.t + t.src[h.end..next], Splice(t, next, rest, repl))
  {
    hide CapsOk, Replacement;
    SpliceLater(t, h.end, next, rest, repl);
    assert ([h] + rest)[1..] == rest;
    var r := Replacement(t.src, h.caps, repl, 0, s, h.end);
    if r.Piece? {
      assert t.src[s..s] + r.t == r.t;
      JoinedTwice(r.t, t.src[h.end..next], Splice(t, next, rest, repl));
    }
  }

  /** A round passes no match, or replaces the next one. */
  lemma RoundHits(t: Task, p: nat, repl: seq<nat>, s: nat)
    requires p <= |t.pat| && s <= |t.src|
    ensures var hits, round := Hits(t, p, s), RoundAt(t, p, repl, s);
            if round.Stops? then true
            else if round.n == 0 then
              if round.Finishes? then hits == [] && round.x == [] && s == |t.src|
              else round.next == s + 1 && round.x == [t.src[s]] && hits == Hits(t, p, s + 1)
            else
              && hits != [] && hits[0].Hit? && hits[0].start == s <= hits[0].end <= |t.src| && CapsOk(hits[0].caps, |t.src|)
              && var x := Replacement(t.src, hits[0].caps, repl, 0, s, hits[0].end);
              && x.Piece?
              && if round.Finishes? then s == |t.src| && hits == [hits[0]] && round.x == x.t
                 else hits[0].end <= round.next && hits[1..] == Hits(t, p, round.next) && round.x == x.t + t.src[hits[0].end..round.next]
  {
    hide Tries, CapsOk, Replacement;
    TriesInside(t, p, s);
    LeftmostInside(t, p, s, false);
    var hits, round := Hits(t, p, s), RoundAt(t, p, repl, s);
    if !round.Stops? && HeadOf(Tries(t, p, s)).Match? {
      var h := Leftmost(t, p, s, false);
      assert hits == [h] + Hits(t, p, After(s, h.end));
      assert hits[1..] == Hits(t, p, After(s, h.end));
      assert round.Adds? ==> t.src[h.end..round.next] == if h.end > s then [] else [t.src[s]];
    }
  }

  /** Without an anchor, gsub replaces the first `max` matches of gmatch, and leaves all else as it is. */
  lemma {:induction false} SubstReplacesHits(t: Task, p: nat, repl: seq<nat>, s: nat, max: int)
    requires p <= |t.pat| && s <= |t.src|
    ensures var r, taken := SubstFrom(t, p, repl, s, max, false), Taken(Hits(t, p, s), max);
            r.Subst? ==> r.n == |taken| && AllHits(t, s, taken) && Splice(t, s, taken, repl) == Piece(r.out)
    decreases |t.src| - s
  {
    hide RoundAt, Leftmost, CapsOk, Replacement, Hits, Splice, AllHits;
    var round := RoundAt(t, p, repl, s);
    var hits := Hits(t, p, s);
    var taken := Taken(hits, max);
    SpliceNone(t, s, repl);
    if max > 0 {
      RoundHits(t, p, repl, s);
      if round.Adds? {
        var rest := Taken(Hits(t, p, round.next), max - round.n);
        SubstReplacesHits(t, p, repl, round.next, max - round.n);
        var r := SubstFrom(t, p, repl, round.next, max - round.n, false);
        if r.Subst? {
          if round.n == 0 {
            SpliceLater(t, s, round.next, rest, repl);
            assert t.src[s..round.next] == round.x;
          } else {
            SpliceFirst(t, s, hits[0], round.next, rest, repl);
            assert hits == [hits[0]] + hits[1..];
            assert taken == [hits[0]] + rest;
          }
        }
      } else if round.Finishes? && round.n > 0 {
        SpliceFirst(t, s, hits[0], s, [], repl);
        assert taken == [hits[0]] + [];
        assert round.x + t.src[s..s] + t.src[s..] == round.x;
      }
    }
  }

  /** The search fails here, or the replacement does. */
  ghost predicate Spoils(t: Task, h: Hit, repl: seq<nat>, e: Error) {
    match h
    case Failure(f) => f == e
    case Hit(start, end, caps) =>
      start <= end <= |t.src| && CapsOk(caps, |t.src|) && Replacement(t.src, caps, repl, 0, start, end) == Bad(e)
    case Nothing => false
  }

  lemma RoundStops(t: Task, p: nat, repl: seq<nat>, s: nat)
    requires p <= |t.pat| && s <= |t.src| && RoundAt(t, p, repl, s).Stops?
    ensures var hits := Hits(t, p, s);
            hits != [] && Spoils(t, hits[0], repl, RoundAt(t, p, repl, s).e)
  {
    hide Tries, CapsOk, Replacement;
    TriesInside(t, p, s);
  }

  /** Without an anchor, gsub fails only at one of the first `max` matches of gmatch. */
  lemma {:induction false} SubstErrors(t: Task, p: nat, repl: seq<nat>, s: nat, max: int)
    requires p <= |t.pat| && s <= |t.src|
    ensures match SubstFrom(t, p, repl, s, max, false)
            case Subst(_, _) => true
            case SubstError(e) => exists h :: h in Taken(Hits(t, p, s), max) && Spoils(t, h, repl, e)
    decreases |t.src| - s
  {
    hide RoundAt, Hits, Spoils;
    var round, hits := RoundAt(t, p, repl, s), Hits(t, p, s);
    if max > 0 && round.Stops? {
      RoundStops(t, p, repl, s);
      assert hits[0] in Taken(hits, max);
    } else if max > 0 && round.Adds? {
      SubstErrors(t, p, repl, round.next, max - round.n);
      RoundTaken(t, p, repl, s, max);
      var later := SubstFrom(t, p, repl, round.next, max - round.n, false);
      assert SubstFrom(t, p, repl, s, max, false) == Onto(round.x, round.n, later);
      if later.SubstError? {
        var h :| h in Taken(Hits(t, p, round.next), max - round.n) && Spoils(t, h, repl, later.e);
        assert h in Taken(hits, max);
      }
    }
  }

  /** The matches that are left after a round are among those before it. */
  lemma RoundTaken(t: Task, p: nat, repl: seq<nat>, s: nat, max: int)
    requires p <= |t.pat| && s <= |t.src| && max > 0 && RoundAt(t, p, repl, s).Adds?
    ensures var round := RoundAt(t, p, repl, s);
            forall h :: h in Taken(Hits(t, p, round.next), max - round.n) ==> h in Taken(Hits(t, p, s), max)
  {
    hide RoundAt, Hits;
    RoundHits(t, p, repl, s);
    var round, hits := RoundAt(t, p, repl, s), Hits(t, p, s);
    if round.n > 0 {
      var rest := Taken(hits[1..], max - 1);
      forall h | h in rest ensures h in Taken(hits, max) {
        var i :| 0 <= i < |rest| && rest[i] == h;
        assert Taken(hits, max)[i + 1] == h;
      }
    }
  }

  /** With an anchor, gsub replaces the match at the start, if there is one, and leaves all else as it is. */
  lemma SubstAnchored(t: Task, p: nat, repl: seq<nat>, s: nat, max: int)
    requires p <= |t.pat| && s <= |t.src| && max > 0
    ensures var h, r := Leftmost(t, p, s, true), SubstFrom(t, p, repl, s, max, true);
            match r
            case SubstError(e) => Spoils(t, h, repl, e)
            case Subst(out, n) =>
              if n == 0 then h.Nothing? && out == t.src[s..]
              else n == 1 && AllHits(t, s, [h]) && Splice(t, s, [h], repl) == Piece(out)
  {
    hide Tries, CapsOk, Replacement, Splice, AllHits;
    TriesInside(t, p, s);
    var h, round := Leftmost(t, p, s, true), RoundAt(t, p, repl, s);
    if h.Hit? && round.Adds? {
      SpliceNone(t, round.next, repl);
      SpliceFirst(t, s, h, round.next, [], repl);
      assert [h] + [] == [h];
      assert t.src[h.end..round.next] == if h.end > s then [] else [t.src[s]];
    } else if h.Hit? && round.Finishes? {
      SpliceNone(t, s, repl);
      SpliceFirst(t, s, h, s, [], repl);
      assert [h] + [] == [h];
      assert round.x + t.src[s..s] + t.src[s..] == round.x;
    } else if round.Adds? {
      assert t.src[s..] == [t.src[s]] + t.src[s + 1..];
    }
  }
}
