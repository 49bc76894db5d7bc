/** The single-character items of Lua patterns (src/lib_string.c): where they end, and what they match. */
module PatternItems {

  const L_ESC: nat := 37

  /** A byte of a string that, like all of LuaJIT's, ends with a zero. */
  function At(s: seq<nat>, i: int): nat {
    if 0 <= i < |s| then s[i] else 0
  }

  datatype Error = TooComplex | CaptureIndex | CapturePattern | TooManyCaptures | EndsWithEscape | MissingBracket
                 | Unbalanced | FrontierBracket | UnfinishedCapture

  datatype Place = Ends(at: nat) | Malformed(e: Error)

  // The character classes, as bits of lj_char_bits
  predicate IsDigit(c: nat) { '0' as nat <= c <= '9' as nat }

  predicate IsUpper(c: nat) { 'A' as nat <= c <= 'Z' as nat }

  predicate IsLower(c: nat) { 'a' as nat <= c <= 'z' as nat }

  predicate IsAlpha(c: nat) { IsUpper(c) || IsLower(c) }

  predicate IsAlnum(c: nat) { IsAlpha(c) || IsDigit(c) }

  predicate IsCntrl(c: nat) { c < 32 || c == 127 }

  predicate IsSpace(c: nat) { 9 <= c <= 13 || c == 32 }

  predicate IsPunct(c: nat) { 33 <= c < 127 && !IsAlnum(c) }

  predicate IsXdigit(c: nat) { IsDigit(c) || 'A' as nat <= c <= 'F' as nat || 'a' as nat <= c <= 'f' as nat }

  /** The class that a letter stands for, without regard to its case. */
  predicate InClass(c: nat, letter: nat) {
    if letter == 'a' as nat then IsAlpha(c)
    else if letter == 'c' as nat then IsCntrl(c)
    else if letter == 'd' as nat then IsDigit(c)
    else if letter == 'g' as nat then IsAlnum(c) || IsPunct(c)
    else if letter == 'l' as nat then IsLower(c)
    else if letter == 'p' as nat then IsPunct(c)
    else if letter == 's' as nat then IsSpace(c)
    else if letter == 'u' as nat then IsUpper(c)
    else if letter == 'w' as nat then IsAlnum(c)
    else if letter == 'x' as nat then IsXdigit(c)
    else c == 0
  }

  /** The letters of classes: a, c, d, g, l, p, s, u, w, x and z */
  predicate IsClassLetter(l: nat) {
    l in {97, 99, 100, 103, 108, 112, 115, 117, 119, 120, 122}
  }

  /** match_class: a lower case letter is its class, an upper case letter its complement, all else itself. */
  predicate MatchClass(c: nat, cl: nat) {
    if IsLower(cl) && IsClassLetter(cl) then InClass(c, cl)
    else if IsUpper(cl) && IsClassLetter(cl + 32) then !InClass(c, cl + 32)
    else cl == c
  }

  // ------------------------------------------------------------------
  // classend

  /** Where the set ends whose next element is at `p`; one element is read before a bracket counts. */
  function SetEnd(pat: seq<nat>, p: nat): (r: Place)
    requires p <= |pat|
    ensures r.Ends? ==> p + 1 < r.at <= |pat| && pat[r.at - 1] == ']' as nat
    ensures r.Malformed? ==> r.e == MissingBracket
    decreases |pat| - p
  {
    if At(pat, p) == 0 then Malformed(MissingBracket)
    else
      var q := if At(pat, p) == L_ESC && At(pat, p + 1) != 0 then p + 2 else p + 1;
      if At(pat, q) == ']' as nat then Ends(q + 1) else SetEnd(pat, q)
  }

  function SetStart(pat: seq<nat>, p: nat): nat {
    if At(pat, p + 1) == '^' as nat then p + 2 else p + 1
  }

  /** The end of the item at `p`. */
  function ClassEnd(pat: seq<nat>, p: nat): (r: Place)
    requires p < |pat|
    ensures r.Ends? ==> p < r.at <= |pat|
    ensures r.Malformed? ==> r.e == MissingBracket || r.e == EndsWithEscape
    ensures r.Ends? && pat[p] == '[' as nat ==> SetStart(pat, p) < r.at - 1
  {
    if pat[p] == L_ESC then
      if At(pat, p + 1) == 0 then Malformed(EndsWithEscape) else Ends(p + 2)
    else if pat[p] == '[' as nat then SetEnd(pat, SetStart(pat, p))
    else Ends(p + 1)
  }

  // ------------------------------------------------------------------
  // matchbracketclass and singlematch

  /** Whether an element of the set from `p` up to the bracket at `ec` matches. */
  predicate InSet(c: nat, pat: seq<nat>, p: nat, ec: nat)
    decreases ec - p
  {
    p < ec &&
    if At(pat, p) == L_ESC then MatchClass(c, At(pat, p + 1)) || InSet(c, pat, p + 2, ec)
    else if At(pat, p + 1) == '-' as nat && p + 2 < ec then At(pat, p) <= c <= At(pat, p + 2) || InSet(c, pat, p + 3, ec)
    else At(pat, p) == c || InSet(c, pat, p + 1, ec)
  }

  predicate MatchBracket(c: nat, pat: seq<nat>, p: nat, ec: nat) {
    InSet(c, pat, SetStart(pat, p), ec) != (At(pat, p + 1) == '^' as nat)
  }

  predicate SingleMatch(c: nat, pat: seq<nat>, p: nat, ep: nat) {
    if At(pat, p) == '.' as nat then true
    else if At(pat, p) == L_ESC then MatchClass(c, At(pat, p + 1))
    else if At(pat, p) == '[' as nat then MatchBracket(c, pat, p, if ep > 0 then ep - 1 else 0)
    else At(pat, p) == c
  }

  /** A complemented set matches exactly what the set does not match. */
  lemma ComplementedSet(c: nat, before: seq<nat>, set_: seq<nat>, after: seq<nat>)
    requires set_ != [] && set_[0] != '^' as nat
    ensures var p := |before|;
            MatchBracket(c, before + ['[' as nat] + set_ + after, p, p + 1 + |set_|)
            != MatchBracket(c, before + ['[' as nat, '^' as nat] + set_ + after, p, p + 2 + |set_|)
  {
    var p := |before|;
    var a, b := before + ['[' as nat] + set_ + after, before + ['[' as nat, '^' as nat] + set_ + after;
    assert a[p + 1] == set_[0];
    SetShift(c, a, p + 1, p + 1 + |set_|, b, 1);
  }

  /** Membership in a set does not depend on where the set is. */
  lemma {:induction false} SetShift(c: nat, a: seq<nat>, p: nat, ec: nat, b: seq<nat>, d: nat)
    requires forall i :: p <= i < |a| ==> i + d < |b| && b[i + d] == a[i]
    requires |b| == |a| + d && ec <= |a|
    ensures InSet(c, a, p, ec) == InSet(c, b, p + d, ec + d)
    decreases ec - p
  {
    if p < ec {
      SetShift(c, a, p + 1, ec, b, d);
      SetShift(c, a, p + 2, ec, b, d);
      SetShift(c, a, p + 3, ec, b, d);
    }
  }

  // ------------------------------------------------------------------
  // matchbalance

  /** Where the balanced string ends in which `cont` openings are not closed yet at `s`. */
  function BalanceEnd(src: seq<nat>, s: nat, b: nat, e: nat, cont: nat): (r: nat)
    requires s <= |src| && cont > 0
    ensures r == 0 || s < r <= |src|
    decreases |src| - s
  {
    if s == |src| then 0
    else if src[s] == e then (if cont == 1 then s + 1 else BalanceEnd(src, s + 1, b, e, cont - 1))
    else if src[s] == b then BalanceEnd(src, s + 1, b, e, cont + 1)
    else BalanceEnd(src, s + 1, b, e, cont)
  }

  /** Openings less closings; a closing counts as such even if both are the same. */
  function Depth(t: seq<nat>, b: nat, e: nat): int {
    if t == [] then 0
    else Depth(t[..|t| - 1], b, e) + (if t[|t| - 1] == e then -1 else if t[|t| - 1] == b then 1 else 0)
  }

  lemma DepthStep(src: seq<nat>, s0: nat, s: nat, b: nat, e: nat)
    requires s0 <= s < |src|
    ensures Depth(src[s0..s + 1], b, e) == Depth(src[s0..s], b, e) + (if src[s] == e then -1 else if src[s] == b then 1 else 0)
  {
    assert src[s0..s + 1][..s - s0] == src[s0..s];
  }

  /** The balanced string is the shortest one in which all openings are closed. */
  lemma {:induction false} BalanceIsFirst(src: seq<nat>, s0: nat, s: nat, b: nat, e: nat, cont: nat)
    requires s0 <= s <= |src| && cont > 0 && cont == 1 + Depth(src[s0..s], b, e)
    ensures var r := BalanceEnd(src, s, b, e, cont);
            if r == 0 then forall t :: s <= t <= |src| ==> 1 + Depth(src[s0..t], b, e) > 0
            else s < r <= |src| && 1 + Depth(src[s0..r], b, e) == 0 && forall t :: s <= t < r ==> 1 + Depth(src[s0..t], b, e) > 0
    decreases |src| - s
  {
    if s < |src| {
      DepthStep(src, s0, s, b, e);
      var cont' := if src[s] == e then cont - 1 else if src[s] == b then cont + 1 else cont;
      if cont' > 0 {
        BalanceIsFirst(src, s0, s + 1, b, e, cont');
      }
    }
  }
}
