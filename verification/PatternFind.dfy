/**
 string.find, string.match and string.gmatch of src/lib_string.c: the search for the
 leftmost match, and what a match returns.
 */
module PatternFind {
  import opened PatternItems
  import opened PatternSpec
  import opened PatternMatch
  import opened PatternMeaning

  /** What a script sees of a capture */
  datatype Value = Text(t: seq<nat>) | Index(i: nat)

  datatype Values = Values(vs: seq<Value>) | Failed(e: Error)

  datatype Hit = Nothing | Hit(start: nat, end: nat, caps: seq<Cap>) | Failure(e: Error)

  /** The results at one position; captures and depth start anew. */
  function Tries(t: Task, p: nat, s: nat): seq<Outcome>
    requires p <= |t.pat| && s <= |t.src|
  {
    Nested(t, 0, p, s, [])
  }

  /** The first result from `s` on, or at `s` if the pattern is anchored */
  function Leftmost(t: Task, p: nat, s: nat, anchor: bool): (r: Hit)
    requires p <= |t.pat| && s <= |t.src|
    decreases |t.src| - s
  {
    match HeadOf(Tries(t, p, s))
    case Match(e) => Hit(s, e, CapsOf(Tries(t, p, s), []))
    case Error(e) => Failure(e)
    case NoMatch => if s == |t.src| || anchor then Nothing else Leftmost(t, p, s + 1, anchor)
  }

  /** The match found is the leftmost one that the pattern means; nothing is found if there is none. */
  lemma {:induction false} LeftmostIsMeant(t: Task, p: nat, s: nat, anchor: bool)
    requires p <= |t.pat| && s <= |t.src|
    ensures match Leftmost(t, p, s, anchor)
            case Hit(start, end, caps) =>
              && s <= start <= end <= |t.src| && (anchor ==> start == s)
              && Derives(t, p, start, [], end, caps) && CapsOk(caps, end) && |caps| <= LUA_MAXCAPTURES
              && forall q: nat :: s <= q < start ==> !CanMatch(t, p, q, [])
            case Nothing => forall q: nat :: s <= q <= (if anchor then s else |t.src|) ==> !CanMatch(t, p, q, [])
            case Failure(_) => true
    decreases |t.src| - s
  {
    hide Nested, Derives, CanMatch;
    FirstIsMeant(t, 0, p, s, []);
    if HeadOf(Tries(t, p, s)).Match? {
      DerivesInside(t, p, s, [], HeadOf(Tries(t, p, s)).end, CapsOf(Tries(t, p, s), []));
    } else if HeadOf(Tries(t, p, s)).NoMatch? && s < |t.src| && !anchor {
      LeftmostIsMeant(t, p, s + 1, anchor);
    }
  }

  // ------------------------------------------------------------------
  // Captures as values

  /** push_onecapture: capture `i` of a match from `s` to `e`; the whole match if there are no captures */
  function OneCapture(src: seq<nat>, caps: seq<Cap>, i: int, s: nat, e: nat): (r: Values)
    requires s <= e <= |src| && CapsOk(caps, |src|) && i >= 0
    ensures r.Values? ==> |r.vs| == 1
  {
    if i >= |caps| then (if i == 0 then Values([Text(src[s..e])]) else Failed(CaptureIndex))
    else match caps[i].len
      case Unfinished => Failed(UnfinishedCapture)
      case Position => Values([Index(caps[i].init + 1)])
      case Closed(n) => Values([Text(src[caps[i].init..caps[i].init + n])])
  }

  /** push_captures from capture `i` on, `n` in all */
  function Captures(src: seq<nat>, caps: seq<Cap>, i: nat, n: nat, s: nat, e: nat): Values
    requires s <= e <= |src| && CapsOk(caps, |src|) && i <= n
    decreases n - i
  {
    if i == n then Values([])
    else match OneCapture(src, caps, i, s, e)
      case Failed(e) => Failed(e)
      case Values(v) => Behind(v, Captures(src, caps, i + 1, n, s, e))
  }

  function Behind(vs: seq<Value>, r: Values): Values {
    match r
    case Failed(e) => Failed(e)
    case Values(ws) => Values(vs + ws)
  }

  /** What string.match and gmatch return for a match; string.find has the whole match as positions. */
  function MatchValues(src: seq<nat>, caps: seq<Cap>, whole: bool, s: nat, e: nat): Values
    requires s <= e <= |src| && CapsOk(caps, |src|)
  {
    Captures(src, caps, 0, if whole && caps == [] then 1 else |caps|, s, e)
  }

  /** The value of a capture that was closed */
  function ValueOf(src: seq<nat>, c: Cap): Value
    requires CapsOk([c], |src|)
  {
    assert [c][0] == c;
    match c.len
    case Closed(n) => Text(src[c.init..c.init + n])
    case _ => Index(c.init + 1)
  }

  /** All captures are returned, in their order, unless one of them was never closed. */
  lemma {:induction false} CapturesAre(src: seq<nat>, caps: seq<Cap>, i: nat, s: nat, e: nat)
    requires s <= e <= |src| && CapsOk(caps, |src|) && i <= |caps|
    ensures var r := Captures(src, caps, i, |caps|, s, e);
            if exists k :: i <= k < |caps| && caps[k].len.Unfinished? then r == Failed(UnfinishedCapture)
            else
              && r.Values? && |r.vs| == |caps| - i
              && forall k :: i <= k < |caps| ==> CapsOk([caps[k]], |src|) && r.vs[k - i] == ValueOf(src, caps[k])
    decreases |caps| - i
  {
    if i < |caps| {
      CapturesAre(src, caps, i + 1, s, e);
      var later := Captures(src, caps, i + 1, |caps|, s, e);
      if caps[i].len.Unfinished? {
      } else if later.Values? {
        var r := Captures(src, caps, i, |caps|, s, e);
        assert r.vs == [ValueOf(src, caps[i])] + later.vs;
        forall k | i < k < |caps| ensures CapsOk([caps[k]], |src|) && r.vs[k - i] == ValueOf(src, caps[k]) {
          assert r.vs[k - i] == later.vs[k - (i + 1)];
        }
      }
    }
  }

  /** push_onecapture */
  method PushOneCapture(ms: MatchState, i: int, s: nat, e: nat) returns (r: Values)
    requires ms.Valid() && s <= e <= |ms.src| && CapsOk(ms.Caps(), |ms.src|) && i >= 0
    ensures r == OneCapture(ms.src, ms.Caps(), i, s, e)
  {
    if i >= ms.level {
      return if i == 0 then Values([Text(ms.src[s..e])]) else Failed(CaptureIndex);
    }
    assert ms.Caps()[i] == ms.capture[i];
    var c := ms.capture[i];
    match c.len {
      case Unfinished => return Failed(UnfinishedCapture);
      case Position => return Values([Index(c.init + 1)]);
      case Closed(n) => return Values([Text(ms.src[c.init..c.init + n])]);
    }
  }

  /** push_captures; `whole` says whether there is a text for a match without captures. */
  method PushCaptures(ms: MatchState, whole: bool, s: nat, e: nat) returns (r: Values)
    requires ms.Valid() && s <= e <= |ms.src| && CapsOk(ms.Caps(), |ms.src|)
    ensures r == MatchValues(ms.src, ms.Caps(), whole, s, e)
  {
    var nlevels := if ms.level == 0 && whole then 1 else ms.level;
    var vs: seq<Value> := [];
    for i := 0 to nlevels
      invariant MatchValues(ms.src, ms.Caps(), whole, s, e) == Behind(vs, Captures(ms.src, ms.Caps(), i, nlevels, s, e))
    {
      r := PushOneCapture(ms, i, s, e);
      if r.Failed? {
        return;
      }
      vs := vs + r.vs;
    }
    return Values(vs);
  }

  // ------------------------------------------------------------------
  // string.find and string.match

  /** Where the search starts, as a script gives it: from one on, or from the end with a minus */
  function StartOf(init: int, len: nat): (st: nat)
    ensures st <= len
    ensures 0 < init <= len ==> st == init - 1
    ensures init < 0 && -init <= len ==> st == len + init
    ensures init > len ==> st == len
    ensures init == 0 || -init > len ==> st == 0
  {
    var start := if init < 0 then init + len else init - 1;
    var start := if start < 0 then 0 else start;
    if start > len then len else start
  }

  /** A fixed string at `q` */
  predicate Occurs(src: seq<nat>, pat: seq<nat>, q: nat) {
    q + |pat| <= |src| && src[q..q + |pat|] == pat
  }

  /** lj_str_find: the first occurrence from `st` on */
  method FindFixed(src: seq<nat>, pat: seq<nat>, st: nat) returns (found: bool, q: nat)
    requires st <= |src|
    ensures found ==> st <= q && Occurs(src, pat, q) && forall r: nat :: st <= r < q ==> !Occurs(src, pat, r)
    ensures !found ==> forall r: nat :: st <= r ==> !Occurs(src, pat, r)
  {
    q := st;
    if |pat| <= |src| - st {
      if |pat| == 0 {
        return true, st;
      }
      var s, slen := st, |src| - st - (|pat| - 1);
      while slen > 0
        invariant st <= s && 0 <= slen && s + slen + |pat| - 1 == |src|
        invariant forall r: nat :: st <= r < s ==> !Occurs(src, pat, r)
      {
        // memchr
        q := s;
        while q < s + slen && src[q] != pat[0]
          invariant s <= q <= s + slen && forall r: nat :: s <= r < q ==> src[r] != pat[0]
        {
          q := q + 1;
        }
        forall r: nat | s <= r < q ensures !Occurs(src, pat, r) {
          assert r + |pat| <= |src| ==> src[r..r + |pat|][0] == src[r];
        }
        if q == s + slen {
          break;
        }
        SplitFirst(src, pat, q);
        if src[q + 1..q + |pat|] == pat[1..] {
          return true, q;
        }
        q := q + 1;
        slen := slen - (q - s);
        s := q;
      }
    }
    return false, 0;
  }

  lemma SplitFirst(src: seq<nat>, pat: seq<nat>, q: nat)
    requires pat != [] && q + |pat| <= |src| && src[q] == pat[0]
    ensures Occurs(src, pat, q) <==> src[q + 1..q + |pat|] == pat[1..]
  {
    assert src[q..q + |pat|] == [src[q]] + src[q + 1..q + |pat|];
    assert pat == [pat[0]] + pat[1..];
    assert src[q..q + |pat|][1..] == src[q + 1..q + |pat|];
  }

  /** Has a meaning in patterns: ^ $ * + ? . ( [ % - */
  predicate IsSpecial(c: nat) {
    c in {94, 36, 42, 43, 63, 46, 40, 91, 37, 45}
  }

  /** lj_str_haspattern */
  method HasPattern(s: seq<nat>) returns (r: bool)
    ensures r <==> exists i :: 0 <= i < |s| && IsSpecial(s[i])
  {
    for p := 0 to |s|
      invariant forall i :: 0 <= i < p ==> !IsSpecial(s[i])
    {
      if IsPunct(s[p]) && IsSpecial(s[p]) {
        return true;
      }
    }
    return false;
  }

  datatype FindResult = NotFound | FoundAt(first: nat, last: nat, vs: seq<Value>) | FindError(e: Error)

  /** The result for a match: its positions, counted from one, and the values of its captures */
  function ResultOf(src: seq<nat>, hit: Hit, find: bool): FindResult
    requires hit.Hit? ==> hit.start <= hit.end <= |src| && CapsOk(hit.caps, |src|)
  {
    match hit
    case Nothing => NotFound
    case Failure(e) => FindError(e)
    case Hit(start, end, caps) =>
      match MatchValues(src, caps, !find, start, end)
      case Failed(e) => FindError(e)
      case Values(vs) => FoundAt(start + 1, end, vs)
  }

  predicate IsAnchored(pat: seq<nat>) {
    At(pat, 0) == '^' as nat
  }

  lemma LeftmostInside(t: Task, p: nat, s: nat, anchor: bool)
    requires p <= |t.pat| && s <= |t.src|
    ensures var hit := Leftmost(t, p, s, anchor);
            hit.Hit? ==> s <= hit.start <= hit.end <= |t.src| && CapsOk(hit.caps, hit.end) && CapsOk(hit.caps, |t.src|)
  {
    LeftmostIsMeant(t, p, s, anchor);
  }

  /** str_find_aux */
  method StrFind(src: seq<nat>, pat: seq<nat>, init: int, plain: bool, find: bool) returns (r: FindResult)
    ensures var st := StartOf(init, |src|);
            if find && (plain || forall i :: 0 <= i < |pat| ==> !IsSpecial(pat[i])) then
              match r
              case FoundAt(first, last, vs) =>
                && first > st && last == first - 1 + |pat| && vs == []
                && Occurs(src, pat, first - 1) && forall q: nat :: st <= q < first - 1 ==> !Occurs(src, pat, q)
              case NotFound => forall q: nat :: st <= q ==> !Occurs(src, pat, q)
              case FindError(_) => false
            else
              var t, p := Task(src, pat), if IsAnchored(pat) then 1 else 0;
              var hit := Leftmost(t, p, st, IsAnchored(pat));
              && (hit.Hit? ==> hit.start <= hit.end <= |src| && CapsOk(hit.caps, |src|))
              && r == ResultOf(src, hit, find)
  {
    hide Leftmost, CapsOk, Tries, MatchValues;
    var start: int := init;
    if start < 0 {
      start := start + |src|;
    } else {
      start := start - 1;
    }
    if start < 0 {
      start := 0;
    }
    if start > |src| {
      start := |src|;
    }
    var special := HasPattern(pat);
    if find && (plain || !special) {
      var found, q := FindFixed(src, pat, start);
      return if found then FoundAt(q + 1, q + |pat|, []) else NotFound;
    }
    var anchor := At(pat, 0) == '^' as nat;
    r := FindPattern(src, pat, if anchor then 1 else 0, start, anchor, find);
  }

  /** The loop of str_find_aux over the starts of a match */
  method FindPattern(src: seq<nat>, pat: seq<nat>, p: nat, st: nat, anchor: bool, find: bool) returns (r: FindResult)
    requires p <= |pat| && st <= |src|
    ensures var hit := Leftmost(Task(src, pat), p, st, anchor);
            && (hit.Hit? ==> hit.start <= hit.end <= |src| && CapsOk(hit.caps, |src|))
            && r == ResultOf(src, hit, find)
  {
    hide Nested, CapsOk, MatchValues;
    var ms := new MatchState(src, pat);
    var s := st;
    ghost var hit := Leftmost(Task(src, pat), p, st, anchor);
    LeftmostInside(Task(src, pat), p, st, anchor);
    while true
      invariant st <= s <= |src| && ms.Valid() && ms.src == src && ms.pat == pat && fresh(ms) && fresh(ms.capture)
      invariant hit == Leftmost(Task(src, pat), p, s, anchor)
      decreases |src| - s
    {
      var q := ms.Start(s, p);
      if q.Error? {
        return FindError(q.e);
      }
      if q.Match? {
        var vs := PushCaptures(ms, !find, s, q.end);
        return if vs.Failed? then FindError(vs.e) else FoundAt(s + 1, q.end, vs.vs);
      }
      if s == |src| || anchor {
        return NotFound;
      }
      s := s + 1;
    }
  }

  // ------------------------------------------------------------------
  // The fixed search and the pattern search

  /** A text that the pattern search reads as itself: no special character, and neither a closing parenthesis nor a zero */
  ghost predicate IsLiteral(pat: seq<nat>) {
    forall i :: 0 <= i < |pat| ==> !IsSpecial(pat[i]) && pat[i] != ')' as nat && pat[i] != 0
  }

  lemma TextStep(t: Task, p: nat, s: nat)
    requires p < |t.pat| && s < |t.src|
    ensures var f := s + (|t.pat| - p);
            f <= |t.src| ==> (t.src[s..f] == t.pat[p..] <==> t.src[s] == t.pat[p] && t.src[s + 1..f] == t.pat[p + 1..])
  {
    var f := s + (|t.pat| - p);
    if f <= |t.src| {
      assert t.src[s..f] == [t.src[s]] + t.src[s + 1..f];
      assert t.pat[p..] == [t.pat[p]] + t.pat[p + 1..];
      assert t.src[s..f][0] == t.src[s] && t.src[s..f][1..] == t.src[s + 1..f];
    }
  }

  /** An item of a pattern that reads as itself up to `k` */
  lemma LiteralItem(pat: seq<nat>, p: nat, k: nat)
    requires p < k <= |pat| && IsLiteral(pat[..k]) && (k < |pat| ==> !IsSpecial(pat[k]))
    ensures IsPlain(pat, p) && ClassEnd(pat, p) == Ends(p + 1) && !IsOp(At(pat, p + 1))
    ensures forall c: nat, ep: nat :: SingleMatch(c, pat, p, ep) <==> c == pat[p]
  {
    assert pat[..k][p] == pat[p] && !IsSpecial(pat[p]);
    assert p + 1 < k ==> pat[..k][p + 1] == pat[p + 1] && !IsSpecial(pat[p + 1]);
  }

  /** A literal pattern means its own text. */
  lemma {:induction false} LiteralMeansItself(t: Task, p: nat, s: nat, e: nat, out: seq<Cap>)
    requires p <= |t.pat| && s <= |t.src| && IsLiteral(t.pat)
    ensures Derives(t, p, s, [], e, out) <==> e == s + (|t.pat| - p) <= |t.src| && t.src[s..e] == t.pat[p..] && out == []
    decreases |t.pat| - p
  {
    hide SingleMatch, ClassEnd, IsPlain, IsLiteral;
    if p < |t.pat| {
      assert t.pat[..|t.pat|] == t.pat;
      LiteralItem(t.pat, p, |t.pat|);
      DerivesPlain(t, p, s, [], e, out);
      if s < |t.src| {
        LiteralMeansItself(t, p + 1, s + 1, e, out);
        TextStep(t, p, s);
      }
    }
  }

  /** The pattern search from `st` on raises no error, and finds what the fixed search finds. */
  ghost predicate Agrees(src: seq<nat>, pat: seq<nat>, st: nat)
    requires st <= |src|
  {
    match Leftmost(Task(src, pat), 0, st, false)
    case Hit(start, end, caps) =>
      && st <= start && Occurs(src, pat, start) && end == start + |pat| && caps == []
      && forall q: nat :: st <= q < start ==> !Occurs(src, pat, q)
    case Nothing => forall q: nat :: st <= q ==> !Occurs(src, pat, q)
    case Failure(_) => false
  }

  lemma {:induction false} LiteralAgrees(src: seq<nat>, pat: seq<nat>, st: nat)
    requires st <= |src| && IsLiteral(pat)
    ensures Agrees(src, pat, st)
    decreases |src| - st
  {
    hide All;
    var t := Task(src, pat);
    LiteralSearch(t, 0, 1, st);
    assert pat[0..] == pat;
    assert Tries(t, 0, st) == All(t, 1, 0, st, []);
    if !Occurs(src, pat, st) && st < |src| {
      LiteralAgrees(src, pat, st + 1);
    }
  }

  lemma {:induction false} LiteralSearch(t: Task, p: nat, d: nat, s: nat)
    requires p <= |t.pat| && s <= |t.src| && IsLiteral(t.pat)
    ensures All(t, d, p, s, []) ==
            if s + (|t.pat| - p) <= |t.src| && t.src[s..s + (|t.pat| - p)] == t.pat[p..] then [Found(s + (|t.pat| - p), [])] else []
    decreases |t.pat| - p
  {
    hide Nested, Greedy, Lazy, Run, SingleMatch, ClassEnd, IsPlain, IsLiteral;
    if p < |t.pat| {
      assert t.pat[..|t.pat|] == t.pat;
      LiteralItem(t.pat, p, |t.pat|);
      AllPlain(t, d, p, s, []);
      if s < |t.src| {
        LiteralSearch(t, p + 1, d, s + 1);
        TextStep(t, p, s);
      }
    }
  }

  /** A pattern that reads as itself up to `k` is found up to there in its own text. */
  lemma {:induction false} PrefixSearch(t: Task, k: nat, p: nat, d: nat)
    requires p <= k < |t.pat| && t.src == t.pat[..k] && IsLiteral(t.src) && !IsSpecial(t.pat[k])
    ensures All(t, d, p, p, []) == All(t, d, k, k, [])
    decreases k - p
  {
    hide All, Nested, Greedy, Lazy, Run, SingleMatch, ClassEnd, IsPlain, IsLiteral;
    if p < k {
      LiteralItem(t.pat, p, k);
      AllPlain(t, d, p, p, []);
      PrefixSearch(t, k, p + 1, d);
    }
  }

  /** The first closing parenthesis or zero */
  function FirstEnd(pat: seq<nat>): (k: nat)
    ensures k <= |pat| && (k < |pat| ==> pat[k] == ')' as nat || pat[k] == 0)
    ensures forall i :: 0 <= i < k ==> pat[i] != ')' as nat && pat[i] != 0
  {
    if pat == [] || pat[0] == ')' as nat || pat[0] == 0 then 0 else 1 + FirstEnd(pat[1..])
  }

  /** Up to its first closing parenthesis or zero, a pattern matches its text; there it ends, or is an error. */
  lemma NotLiteralDiffers(pat: seq<nat>)
    requires (forall i :: 0 <= i < |pat| ==> !IsSpecial(pat[i])) && !IsLiteral(pat)
    ensures !Agrees(pat[..FirstEnd(pat)], pat, 0)
  {
    hide IsSpecial, All, Agrees;
    var k := FirstEnd(pat);
    var t := Task(pat[..k], pat);
    PrefixSearch(t, k, 0, 1);
    EndSearch(t, k);
    assert Tries(t, 0, 0) == All(t, 1, 0, 0, []);
    ShortMatchDiffers(t);
  }

  lemma ShortMatchDiffers(t: Task)
    requires |t.src| < |t.pat| && (Tries(t, 0, 0) == [Found(|t.src|, [])] || Tries(t, 0, 0) == [Raise(CapturePattern)])
    ensures !Agrees(t.src, t.pat, 0)
  {
    hide Tries, Occurs;
    assert t == Task(t.src, t.pat);
  }

  lemma EndSearch(t: Task, k: nat)
    requires k < |t.pat| && k <= |t.src| && (t.pat[k] == ')' as nat || t.pat[k] == 0)
    ensures All(t, 1, k, k, []) == [if t.pat[k] == 0 then Found(k, []) else Raise(CapturePattern)]
  {
    assert LastOpen([], 0) == 0;
  }

  /**
   The two searches of string.find agree on a pattern without special characters if and only if
   it has neither a closing parenthesis, which is not special but an error in a pattern, nor a
   zero, at which a pattern ends.
   */
  lemma FixedSearchAgrees(pat: seq<nat>)
    requires forall i :: 0 <= i < |pat| ==> !IsSpecial(pat[i])
    ensures (forall src: seq<nat>, st: nat :: st <= |src| ==> Agrees(src, pat, st)) <==> IsLiteral(pat)
  {
    hide Agrees, IsSpecial;
    if IsLiteral(pat) {
      forall src: seq<nat>, st: nat | st <= |src| ensures Agrees(src, pat, st) {
        LiteralAgrees(src, pat, st);
      }
    } else {
      NotLiteralDiffers(pat);
    }
  }
}
