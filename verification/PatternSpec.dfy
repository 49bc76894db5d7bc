/**
 What a Lua pattern means (src/lib_string.c): all ways in which it matches at a
 position, with what it captures, in the order in which they are preferred.
 A malformed pattern shows as an error among them, where a search would meet it.
 */
module PatternSpec {
  import opened PatternItems

  const LUA_MAXCAPTURES: nat := 32
  const LJ_MAX_XLEVEL: nat := 200

  /** A capture is open, a position, or a part of the subject. */
  datatype Len = Unfinished | Position | Closed(n: nat)

  datatype Cap = Cap(init: nat, len: Len)

  datatype Outcome = Found(end: nat, caps: seq<Cap>) | Raise(e: Error)

  /** The subject and the pattern. */
  datatype Task = Task(src: seq<nat>, pat: seq<nat>)

  /** The capture that ends at `s` */
  function Close(c: Cap, s: nat): Cap {
    Cap(c.init, Closed(if c.init <= s then s - c.init else 0))
  }

  /** capture_to_close: the last open capture, or the number of captures */
  function LastOpen(caps: seq<Cap>, n: nat): (r: nat)
    requires n <= |caps|
    ensures r < n ==> caps[r].len.Unfinished? && forall i :: r < i < n ==> !caps[i].len.Unfinished?
    ensures r >= n ==> r == |caps| && forall i :: 0 <= i < n ==> !caps[i].len.Unfinished?
  {
    if n == 0 then |caps| else if caps[n - 1].len.Unfinished? then n - 1 else LastOpen(caps, n - 1)
  }

  /** Whether the text of a capture follows at `s`; a position capture never matches. */
  predicate Repeats(t: Task, s: nat, c: Cap) {
    && c.len.Closed? && s + c.len.n <= |t.src| && c.init + c.len.n <= |t.src|
    && t.src[s..s + c.len.n] == t.src[c.init..c.init + c.len.n]
  }

  /** How many characters from `s` on match the item at `p` without a break. */
  function Run(t: Task, s: nat, p: nat, ep: nat): (r: nat)
    requires s <= |t.src|
    ensures s + r <= |t.src| && forall i :: s <= i < s + r ==> SingleMatch(t.src[i], t.pat, p, ep)
    ensures s + r < |t.src| ==> !SingleMatch(t.src[s + r], t.pat, p, ep)
    decreases |t.src| - s
  {
    if s < |t.src| && SingleMatch(t.src[s], t.pat, p, ep) then 1 + Run(t, s + 1, p, ep) else 0
  }

  /** The way that a nested match goes on from `p`; `d` matches are nested already. */
  function Nested(t: Task, d: nat, p: nat, s: nat, caps: seq<Cap>): seq<Outcome>
    requires p <= |t.pat| && s <= |t.src|
    decreases |t.pat| - p, 1, 0
  {
    if d + 1 > LJ_MAX_XLEVEL then [Raise(TooComplex)] else All(t, d + 1, p, s, caps)
  }

  /** With `i` repetitions, or fewer, more being preferred. */
  function Greedy(t: Task, d: nat, p: nat, s: nat, i: nat, caps: seq<Cap>): seq<Outcome>
    requires p <= |t.pat| && s + i <= |t.src|
    decreases |t.pat| - p, 2, i
  {
    Nested(t, d, p, s + i, caps) + if i == 0 then [] else Greedy(t, d, p, s, i - 1, caps)
  }

  /** With no repetition, or up to `n`, fewer being preferred. */
  function Lazy(t: Task, d: nat, p: nat, s: nat, n: nat, caps: seq<Cap>): seq<Outcome>
    requires p <= |t.pat| && s + n <= |t.src|
    decreases |t.pat| - p, 2, n
  {
    Nested(t, d, p, s, caps) + if n == 0 then [] else Lazy(t, d, p, s + 1, n - 1, caps)
  }

  /** All results from item `p` on at `s`, in the order of preference. */
  function All(t: Task, d: nat, p: nat, s: nat, caps: seq<Cap>): seq<Outcome>
    requires p <= |t.pat| && s <= |t.src|
    decreases |t.pat| - p, 0, 0
  {
    var c, c1 := At(t.pat, p), At(t.pat, p + 1);
    if c == 0 then [Found(s, caps)]
    else if c == '(' as nat then
      if |caps| >= LUA_MAXCAPTURES then [Raise(TooManyCaptures)]
      else if c1 == ')' as nat then Nested(t, d, p + 2, s, caps + [Cap(s, Position)])
      else Nested(t, d, p + 1, s, caps + [Cap(s, Unfinished)])
    else if c == ')' as nat then
      var l := LastOpen(caps, |caps|);
      if l >= |caps| then [Raise(CapturePattern)]
      else Nested(t, d, p + 1, s, caps[l := Close(caps[l], s)])
    else if c == L_ESC && c1 == 'b' as nat then
      if At(t.pat, p + 2) == 0 || At(t.pat, p + 3) == 0 then [Raise(Unbalanced)]
      else if s == |t.src| || t.src[s] != At(t.pat, p + 2) then []
      else
        var r := BalanceEnd(t.src, s + 1, At(t.pat, p + 2), At(t.pat, p + 3), 1);
        if r == 0 then [] else All(t, d, p + 4, r, caps)
    else if c == L_ESC && c1 == 'f' as nat then
      if At(t.pat, p + 2) != '[' as nat then [Raise(FrontierBracket)]
      else match ClassEnd(t.pat, p + 2)
        case Malformed(e) => [Raise(e)]
        case Ends(ep) =>
          if MatchBracket(if s == 0 then 0 else t.src[s - 1], t.pat, p + 2, ep - 1) || !MatchBracket(At(t.src, s), t.pat, p + 2, ep - 1)
          then [] else All(t, d, ep, s, caps)
    else if c == L_ESC && IsDigit(c1) then
      var l: int := c1 - '1' as nat;
      if l < 0 || l >= |caps| || caps[l].len.Unfinished? then [Raise(CaptureIndex)]
      else if !Repeats(t, s, caps[l]) then [] else All(t, d, p + 2, s + caps[l].len.n, caps)
    else if c == '$' as nat && c1 == 0 then
      if s == |t.src| then [Found(s, caps)] else []
    else match ClassEnd(t.pat, p)
      case Malformed(e) => [Raise(e)]
      case Ends(ep) =>
        var m := s < |t.src| && SingleMatch(t.src[s], t.pat, p, ep);
        if At(t.pat, ep) == '?' as nat then
          (if m then Nested(t, d, ep + 1, s + 1, caps) else []) + All(t, d, ep + 1, s, caps)
        else if At(t.pat, ep) == '*' as nat then Greedy(t, d, ep + 1, s, Run(t, s, p, ep), caps)
        else if At(t.pat, ep) == '+' as nat then
          (if m then Greedy(t, d, ep + 1, s + 1, Run(t, s + 1, p, ep), caps) else [])
        else if At(t.pat, ep) == '-' as nat then Lazy(t, d, ep + 1, s, Run(t, s, p, ep), caps)
        else if m then All(t, d, ep, s + 1, caps) else []
  }
}
