/**
 The replacement strings of string.gsub (src/lib_string.c) by their parts: every such string is a
 list of parts, and what it stands for is the texts of its parts, one behind the other.
 */
module PatternReplacement {
  import opened PatternItems
  import opened PatternSets
  import opened PatternSpec
  import opened PatternMatch
  import opened PatternFind
  import opened PatternSubst

  /** A character, an escaped character, the whole match, or a capture, counted from one */
  datatype Part = Plain(c: nat) | Quoted(c: nat) | Whole | Captured(i: nat)

  predicate PartOk(x: Part) {
    match x
    case Plain(c) => c != '%' as nat
    case Quoted(c) => !Among(c, DIGITS)
    case Whole => true
    case Captured(i) => 1 <= i <= 9
  }

  function PrintPart(x: Part): seq<nat> {
    match x
    case Plain(c) => [c]
    case Quoted(c) => ['%' as nat, c]
    case Whole => ['%' as nat, '0' as nat]
    case Captured(i) => ['%' as nat, '0' as nat + i]
  }

  function PrintParts(xs: seq<Part>): seq<nat> {
    if xs == [] then [] else PrintPart(xs[0]) + PrintParts(xs[1..])
  }

  const ESCAPE: seq<nat> := ['%' as nat]

  /** A replacement: its parts, and possibly an escape without a character behind it */
  function PrintReplacement(xs: seq<Part>, escape: bool): seq<nat> {
    if escape then PrintParts(xs) + ESCAPE else PrintParts(xs)
  }

  predicate PartsOk(xs: seq<Part>) {
    forall i :: 0 <= i < |xs| ==> PartOk(xs[i])
  }

  // ------------------------------------------------------------------
  // Decimal numbers

  /** The number that a text of digits means */
  function NumberOf(t: seq<nat>): int {
    if t == [] then 0 else 10 * NumberOf(t[..|t| - 1]) + (t[|t| - 1] - '0' as nat)
  }

  /** The decimal text of a number: digits, without a leading zero */
  ghost predicate IsDecimal(t: seq<nat>, n: nat) {
    t != [] && (forall i :: 0 <= i < |t| ==> Among(t[i], DIGITS)) && (|t| > 1 ==> t[0] != '0' as nat) && NumberOf(t) == n
  }

  lemma {:induction false} DecimalMeans(n: nat)
    ensures IsDecimal(Decimal(n), n) && (n > 0 ==> Decimal(n)[0] != '0' as nat)
    decreases n
  {
    var t := Decimal(n);
    DigitsAre('0' as nat + n % 10);
    if n >= 10 {
      DecimalMeans(n / 10);
      assert t[..|t| - 1] == Decimal(n / 10);
      forall i | 0 <= i < |t| ensures Among(t[i], DIGITS) {
        assert i < |t| - 1 ==> t[i] == Decimal(n / 10)[i];
      }
    } else {
      assert NumberOf([]) == 0;
    }
  }

  // ------------------------------------------------------------------
  // What a part stands for

  /** The text of a part in a match from `s` to `e`; the first capture of a match without any is the match. */
  ghost predicate Gives(src: seq<nat>, caps: seq<Cap>, s: nat, e: nat, x: Part, t: seq<nat>) {
    match x
    case Plain(c) => t == [c]
    case Quoted(c) => t == [c]
    case Whole => s <= e <= |src| && t == src[s..e]
    case Captured(i) =>
      if caps == [] && i == 1 then s <= e <= |src| && t == src[s..e]
      else
        && 1 <= i <= |caps|
        && match caps[i - 1].len
           case Closed(n) => caps[i - 1].init + n <= |src| && t == src[caps[i - 1].init..caps[i - 1].init + n]
           case Position => IsDecimal(t, caps[i - 1].init + 1)
           case Unfinished => false
  }

  /** A part that means no capture, or one that is open */
  predicate Lacks(caps: seq<Cap>, x: Part, e: Error) {
    && x.Captured? && x.i >= 1
    && if x.i <= |caps| then caps[x.i - 1].len.Unfinished? && e == UnfinishedCapture
       else (caps != [] || x.i > 1) && e == CaptureIndex
  }

  /** The texts, one behind the other */
  function Concat(ts: seq<seq<nat>>): seq<nat> {
    if ts == [] then [] else ts[0] + Concat(ts[1..])
  }

  /**
   All parts give a text, and the result is their texts, one behind the other; or the first part that
   gives none has this error. An escape that ends the replacement gives a zero.
   */
  ghost predicate PartsGive(src: seq<nat>, caps: seq<Cap>, s: nat, e: nat, xs: seq<Part>, escape: bool, ts: seq<seq<nat>>, r: Piece) {
    match r
    case Piece(t) =>
      && t == (if escape then Concat(ts) + [0] else Concat(ts))
      && |ts| == |xs| && forall k :: 0 <= k < |xs| ==> Gives(src, caps, s, e, xs[k], ts[k])
    case Bad(err) =>
      && |ts| < |xs| && Lacks(caps, xs[|ts|], err)
      && forall k :: 0 <= k < |ts| ==> Gives(src, caps, s, e, xs[k], ts[k])
  }

  /** One part, and what follows it */
  lemma PartGives(src: seq<nat>, caps: seq<Cap>, repl: seq<nat>, i: nat, s: nat, e: nat, x: Part) returns (t: seq<nat>)
    requires s <= e <= |src| && CapsOk(caps, |src|) && PartOk(x) && Reads(repl, i, PrintPart(x))
    ensures var r := Replacement(src, caps, repl, i, s, e);
            if r.Bad? && Lacks(caps, x, r.e) then true
            else Gives(src, caps, s, e, x, t) && r == Joined(t, Replacement(src, caps, repl, i + |PrintPart(x)|, s, e))
  {
    hide Reads, CapsOk, Replacement, OneCapture, IsDecimal, Among, Joined;
    ReadsAt(repl, i, PrintPart(x), 0);
    ReplacementStep(src, caps, repl, i, s, e);
    if !x.Plain? {
      ReadsAt(repl, i, PrintPart(x), 1);
    }
    match x
    case Plain(c) => t := [c];
    case Quoted(c) =>
      t := [c];
      DigitsAre(c);
    case Whole => t := src[s..e];
    case Captured(k) =>
      t := CaptureGives(src, caps, k, s, e);
  }

  lemma ReplacementStep(src: seq<nat>, caps: seq<Cap>, repl: seq<nat>, i: nat, s: nat, e: nat)
    requires s <= e <= |src| && CapsOk(caps, |src|) && i < |repl|
    ensures var r := Replacement(src, caps, repl, i, s, e);
            if repl[i] != L_ESC then r == Joined([repl[i]], Replacement(src, caps, repl, i + 1, s, e))
            else
              var c := At(repl, i + 1);
              var later := Replacement(src, caps, repl, i + 2, s, e);
              if !IsDigit(c) then r == Joined([c], later)
              else if c == '0' as nat then r == Joined(src[s..e], later)
              else match OneCapture(src, caps, c - '1' as nat, s, e)
                case Failed(err) => r == Bad(err)
                case Values(vs) => r == Joined(AsText(vs[0]), later)
  {
    hide CapsOk, OneCapture, AsText;
  }

  /** Capture `i` as a text, or the error that it is not there, or open */
  lemma CaptureGives(src: seq<nat>, caps: seq<Cap>, i: nat, s: nat, e: nat) returns (t: seq<nat>)
    requires s <= e <= |src| && CapsOk(caps, |src|) && 1 <= i
    ensures match OneCapture(src, caps, i - 1, s, e)
            case Failed(err) => Lacks(caps, Captured(i), err)
            case Values(vs) => t == AsText(vs[0]) && Gives(src, caps, s, e, Captured(i), t)
  {
    hide IsDecimal;
    t := [];
    match OneCapture(src, caps, i - 1, s, e)
    case Failed(_) =>
    case Values(vs) =>
      t := AsText(vs[0]);
      if i <= |caps| {
        DecimalMeans(caps[i - 1].init + 1);
      }
  }

  lemma {:induction false} PartsMean(src: seq<nat>, caps: seq<Cap>, repl: seq<nat>, i: nat, xs: seq<Part>, escape: bool, s: nat, e: nat)
    returns (ts: seq<seq<nat>>)
    requires s <= e <= |src| && CapsOk(caps, |src|) && PartsOk(xs)
    requires Reads(repl, i, PrintReplacement(xs, escape)) && |repl| == i + |PrintReplacement(xs, escape)|
    ensures PartsGive(src, caps, s, e, xs, escape, ts, Replacement(src, caps, repl, i, s, e))
    decreases |xs|
  {
    hide Reads, CapsOk, Gives, Replacement, Lacks;
    if xs == [] {
      ts := [];
      if escape {
        assert PrintReplacement(xs, escape) == ESCAPE;
        ReadsAt(repl, i, ESCAPE, 0);
        EscapeAtEnd(src, caps, repl, i, s, e);
      } else {
        NothingLeft(src, caps, repl, i, s, e);
      }
    } else {
      var later := PrintReplacement(xs[1..], escape);
      assert PrintReplacement(xs, escape) == PrintPart(xs[0]) + later;
      ReadsSplit(repl, i, PrintPart(xs[0]), later);
      var t := PartGives(src, caps, repl, i, s, e, xs[0]);
      var r := Replacement(src, caps, repl, i, s, e);
      if r.Bad? && Lacks(caps, xs[0], r.e) {
        ts := [];
      } else {
        var rest := PartsMean(src, caps, repl, i + |PrintPart(xs[0])|, xs[1..], escape, s, e);
        ts := [t] + rest;
        OneMore(src, caps, s, e, xs, escape, t, rest, Replacement(src, caps, repl, i + |PrintPart(xs[0])|, s, e));
      }
    }
  }

  lemma OneMore(src: seq<nat>, caps: seq<Cap>, s: nat, e: nat, xs: seq<Part>, escape: bool, t: seq<nat>, rest: seq<seq<nat>>, r: Piece)
    requires xs != [] && Gives(src, caps, s, e, xs[0], t) && PartsGive(src, caps, s, e, xs[1..], escape, rest, r)
    ensures PartsGive(src, caps, s, e, xs, escape, [t] + rest, Joined(t, r))
  {
    hide Gives, Lacks;
    var ts := [t] + rest;
    assert ts[1..] == rest;
    forall k | 0 <= k < |ts| ensures Gives(src, caps, s, e, xs[k], ts[k]) {
      assert k > 0 ==> xs[k] == xs[1..][k - 1] && ts[k] == rest[k - 1];
    }
    if r.Bad? {
      assert xs[|ts|] == xs[1..][|rest|];
    } else {
      assert t + (Concat(rest) + [0]) == Concat(ts) + [0];
    }
  }

  lemma NothingLeft(src: seq<nat>, caps: seq<Cap>, repl: seq<nat>, i: nat, s: nat, e: nat)
    requires s <= e <= |src| && CapsOk(caps, |src|) && i >= |repl|
    ensures Replacement(src, caps, repl, i, s, e) == Piece([])
  {
  }

  lemma EscapeAtEnd(src: seq<nat>, caps: seq<Cap>, repl: seq<nat>, i: nat, s: nat, e: nat)
    requires s <= e <= |src| && CapsOk(caps, |src|) && |repl| == i + 1 && repl[i] == '%' as nat
    ensures Replacement(src, caps, repl, i, s, e) == Piece([0])
  {
    hide CapsOk;
    NothingLeft(src, caps, repl, i + 2, s, e);
  }

  /** A replacement stands for the texts of its parts, one behind the other. */
  lemma ReplacementMeans(src: seq<nat>, caps: seq<Cap>, xs: seq<Part>, escape: bool, s: nat, e: nat) returns (ts: seq<seq<nat>>)
    requires s <= e <= |src| && CapsOk(caps, |src|) && PartsOk(xs)
    ensures PartsGive(src, caps, s, e, xs, escape, ts, Replacement(src, caps, PrintReplacement(xs, escape), 0, s, e))
  {
    hide PartsGive, Replacement, CapsOk, PrintReplacement;
    var repl := PrintReplacement(xs, escape);
    assert repl[0..0 + |repl|] == repl;
    ts := PartsMean(src, caps, repl, 0, xs, escape, s, e);
  }

  // ------------------------------------------------------------------
  // All replacement strings

  /** Every string is such a replacement. */
  lemma {:induction false} EveryReplacement(repl: seq<nat>) returns (xs: seq<Part>, escape: bool)
    ensures PartsOk(xs) && repl == PrintReplacement(xs, escape)
    decreases |repl|
  {
    if |repl| == 0 || repl == ESCAPE {
      xs, escape := [], repl == ESCAPE;
    } else {
      var c := At(repl, 1);
      DigitsAre(c);
      var x := if repl[0] != '%' as nat then Plain(repl[0]) else if !IsDigit(c) then Quoted(c)
               else if c == '0' as nat then Whole else Captured(c - '0' as nat);
      assert repl == PrintPart(x) + repl[|PrintPart(x)|..];
      var rest, atEnd := EveryReplacement(repl[|PrintPart(x)|..]);
      xs, escape := [x] + rest, atEnd;
      assert xs[1..] == rest;
      forall i | 0 <= i < |xs| ensures PartOk(xs[i]) {
        assert i > 0 ==> xs[i] == rest[i - 1];
      }
      assert PrintPart(x) + (PrintParts(rest) + ESCAPE) == PrintParts(xs) + ESCAPE;
    }
  }

  /** Without an escape, a replacement stands for itself. */
  lemma {:induction false} NoEscape(src: seq<nat>, caps: seq<Cap>, repl: seq<nat>, i: nat, s: nat, e: nat)
    requires s <= e <= |src| && CapsOk(caps, |src|) && i <= |repl| && '%' as nat !in repl
    ensures Replacement(src, caps, repl, i, s, e) == Piece(repl[i..])
    decreases |repl| - i
  {
    hide CapsOk;
    if i < |repl| {
      NoEscape(src, caps, repl, i + 1, s, e);
      assert repl[i..] == [repl[i]] + repl[i + 1..];
    }
  }
}
