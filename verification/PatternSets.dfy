/**
 The sets of Lua patterns as their reader sees them: characters by membership, a set by its
 elements. A printed set matches what its elements hold.
 */
module PatternSets {
  import opened PatternItems

  // ------------------------------------------------------------------
  // Characters

  predicate Among(c: nat, s: string) {
    c < 128 && (c as char) in s
  }

  const DIGITS := "0123456789"
  const UPPERS := "ABCDEFGHIJKLMNOPQRSTUVWXYZ"
  const LOWERS := "abcdefghijklmnopqrstuvwxyz"
  const SPACES := " \t\n\U{0B}\U{0C}\r"
  const HEXES := "0123456789ABCDEFabcdef"
  const CLASSES := "acdglpsuwxz"
  const COMPLEMENTS := "ACDGLPSUWXZ"

  predicate IsLetter(c: nat) { Among(c, UPPERS) || Among(c, LOWERS) }

  predicate IsMark(c: nat) {
    Among(c, "!\"#$%&'()*+,-./") || Among(c, ":;<=>?@") || Among(c, "[\\]^_`") || Among(c, "{|}~")
  }

  /** What the letter of a class stands for */
  predicate Stands(letter: char, c: nat) {
    match letter
    case 'a' => IsLetter(c)
    case 'c' => c <= 31 || c == 127
    case 'd' => Among(c, DIGITS)
    case 'g' => IsLetter(c) || Among(c, DIGITS) || IsMark(c)
    case 'l' => Among(c, LOWERS)
    case 'p' => IsMark(c)
    case 's' => Among(c, SPACES)
    case 'u' => Among(c, UPPERS)
    case 'w' => IsLetter(c) || Among(c, DIGITS)
    case 'x' => Among(c, HEXES)
    case 'z' => c == 0
    case _ => false
  }

  /** An escaped character: a class, the complement of one, or itself */
  predicate EscapeHolds(l: nat, c: nat) {
    if l < 128 && Among(l, CLASSES) then Stands(l as char, c)
    else if l < 96 && Among(l, COMPLEMENTS) then !Stands((l + 32) as char, c)
    else c == l
  }

  /** What an escaped character matches */
  lemma ClassLetters(l: nat, c: nat)
    ensures MatchClass(c, l) <==> EscapeHolds(l, c)
  {
    hide Among, CLASSES, COMPLEMENTS, InClass, Stands;
    ClassesAre(l);
    ComplementsAre(l);
    if Among(l, CLASSES) {
      ClassStands(l, c);
    } else if Among(l, COMPLEMENTS) {
      ClassStands(l + 32, c);
    }
  }

  lemma ClassesAre(l: nat)
    ensures Among(l, CLASSES) ==> l < 128
    ensures Among(l, CLASSES) <==> IsClassLetter(l)
  {
  }

  lemma ComplementsAre(l: nat)
    ensures Among(l, COMPLEMENTS) ==> l < 96
    ensures Among(l, COMPLEMENTS) <==> IsUpper(l) && IsClassLetter(l + 32)
  {
  }

  lemma AmongLetters(c: nat)
    ensures (Among(c, UPPERS) <==> IsUpper(c)) && (Among(c, LOWERS) <==> IsLower(c))
  {
    UppersAre(c);
    LowersAre(c);
  }

  lemma UppersAre(c: nat)
    ensures Among(c, UPPERS) <==> IsUpper(c)
  {
  }

  lemma LowersAre(c: nat)
    ensures Among(c, LOWERS) <==> IsLower(c)
  {
  }

  lemma DigitsAre(c: nat)
    ensures Among(c, DIGITS) <==> IsDigit(c)
  {
  }

  lemma PunctsAre(c: nat)
    ensures IsMark(c) <==> IsPunct(c)
  {
    hide Among;
    LowMarksAre(c);
    HighMarksAre(c);
  }

  lemma LowMarksAre(c: nat)
    ensures Among(c, "!\"#$%&'()*+,-./") <==> 33 <= c <= 47
  {
  }

  lemma HighMarksAre(c: nat)
    ensures Among(c, ":;<=>?@") <==> 58 <= c <= 64
    ensures Among(c, "[\\]^_`") <==> 91 <= c <= 96
    ensures Among(c, "{|}~") <==> 123 <= c <= 126
  {
  }

  lemma SpacesAre(c: nat)
    ensures Among(c, SPACES) <==> IsSpace(c)
  {
  }

  lemma HexesAre(c: nat)
    ensures Among(c, HEXES) <==> IsXdigit(c)
  {
  }

  lemma ClassStands(l: nat, c: nat)
    requires IsClassLetter(l)
    ensures InClass(c, l) <==> Stands(l as char, c)
  {
    hide Among, IsMark, UPPERS, LOWERS, DIGITS, SPACES, HEXES, IsUpper, IsLower, IsDigit, IsPunct, IsSpace, IsXdigit;
    AmongLetters(c);
    DigitsAre(c);
    PunctsAre(c);
    SpacesAre(c);
    HexesAre(c);
  }

  // ------------------------------------------------------------------
  // Sets

  /** An element of a set: one character, a range, or an escaped character */
  datatype Elem = One(c: nat) | Span(lo: nat, hi: nat) | Letter(l: nat)

  predicate ElemHolds(x: Elem, c: nat) {
    match x
    case One(d) => c == d
    case Span(lo, hi) => lo <= c <= hi
    case Letter(l) => EscapeHolds(l, c)
  }

  /** Some element holds the character, or none does if the set is a complement. */
  predicate SetHolds(neg: bool, xs: seq<Elem>, c: nat) {
    (exists i :: 0 <= i < |xs| && ElemHolds(xs[i], c)) != neg
  }

  /** Stands for itself in a set, wherever it is */
  predicate InnerOk(c: nat) {
    c != 0 && !Among(c, "]%^-")
  }

  predicate ElemOk(x: Elem) {
    match x
    case One(c) => InnerOk(c)
    case Span(lo, hi) => InnerOk(lo) && hi != 0 && !Among(hi, "]%")
    case Letter(l) => l != 0
  }

  predicate SetOk(xs: seq<Elem>) {
    xs != [] && forall i :: 0 <= i < |xs| ==> ElemOk(xs[i])
  }

  function PrintElem(x: Elem): (r: seq<nat>) {
    match x
    case One(c) => [c]
    case Span(lo, hi) => [lo, '-' as nat, hi]
    case Letter(l) => ['%' as nat, l]
  }

  function PrintElems(xs: seq<Elem>): seq<nat> {
    if xs == [] then [] else PrintElem(xs[0]) + PrintElems(xs[1..])
  }

  function PrintSet(neg: bool, xs: seq<Elem>): seq<nat> {
    (if neg then ['[' as nat, '^' as nat] else ['[' as nat]) + PrintElems(xs) + [']' as nat]
  }

  /** The pattern has this text at `p`. */
  predicate Reads(pat: seq<nat>, p: nat, text: seq<nat>) {
    p + |text| <= |pat| && pat[p..p + |text|] == text
  }

  lemma ReadsSplit(pat: seq<nat>, p: nat, a: seq<nat>, b: seq<nat>)
    ensures Reads(pat, p, a + b) <==> Reads(pat, p, a) && Reads(pat, p + |a|, b)
  {
    if p + |a| + |b| <= |pat| {
      var ab := pat[p..p + |a| + |b|];
      assert ab[..|a|] == pat[p..p + |a|] && ab[|a|..] == pat[p + |a|..p + |a| + |b|];
      assert ab == ab[..|a|] + ab[|a|..];
      if ab == a + b {
        assert ab[..|a|] == a && ab[|a|..] == b;
      }
    }
  }

  lemma ReadsAt(pat: seq<nat>, p: nat, text: seq<nat>, i: nat)
    requires Reads(pat, p, text) && i < |text|
    ensures p + i < |pat| && At(pat, p + i) == text[i]
  {
    assert pat[p..p + |text|][i] == pat[p + i];
  }

  /** The bytes of an element */
  lemma ElemAt(pat: seq<nat>, p: nat, x: Elem)
    requires Reads(pat, p, PrintElem(x))
    ensures match x
            case One(c) => At(pat, p) == c
            case Span(lo, hi) => At(pat, p) == lo && At(pat, p + 1) == '-' as nat && At(pat, p + 2) == hi
            case Letter(l) => At(pat, p) == L_ESC && At(pat, p + 1) == l
  {
    hide Reads;
    ReadsAt(pat, p, PrintElem(x), 0);
    if !x.One? {
      ReadsAt(pat, p, PrintElem(x), 1);
    }
    if x.Span? {
      ReadsAt(pat, p, PrintElem(x), 2);
    }
  }

  predicate ElemsRead(pat: seq<nat>, p: nat, xs: seq<Elem>, ec: nat) {
    && Reads(pat, p, PrintElems(xs)) && ec == p + |PrintElems(xs)| && At(pat, ec) == ']' as nat
    && forall i :: 0 <= i < |xs| ==> ElemOk(xs[i])
  }

  lemma ElemsNext(pat: seq<nat>, p: nat, xs: seq<Elem>, ec: nat)
    requires xs != [] && ElemsRead(pat, p, xs, ec)
    ensures Reads(pat, p, PrintElem(xs[0])) && ElemsRead(pat, p + |PrintElem(xs[0])|, xs[1..], ec)
    ensures p + |PrintElem(xs[0])| <= ec && ElemOk(xs[0])
  {
    hide Reads;
    ReadsSplit(pat, p, PrintElem(xs[0]), PrintElems(xs[1..]));
  }

  lemma ElemsDone(pat: seq<nat>, p: nat, ec: nat)
    requires ElemsRead(pat, p, [], ec)
    ensures p == ec
  {
  }

  /** What follows an element does not make it a range. */
  lemma ElemsHead(pat: seq<nat>, p: nat, xs: seq<Elem>, ec: nat)
    requires ElemsRead(pat, p, xs, ec)
    ensures At(pat, p) != '-' as nat && At(pat, p) != '^' as nat && (At(pat, p) == ']' as nat <==> xs == [])
  {
    hide Reads;
    if xs != [] {
      ElemsNext(pat, p, xs, ec);
      ElemAt(pat, p, xs[0]);
    } else {
      ElemsDone(pat, p, ec);
    }
  }

  /** Membership in a printed set is membership in one of its elements. */
  lemma {:induction false} ElemsMean(pat: seq<nat>, p: nat, xs: seq<Elem>, ec: nat, c: nat)
    requires ElemsRead(pat, p, xs, ec)
    ensures InSet(c, pat, p, ec) <==> exists i :: 0 <= i < |xs| && ElemHolds(xs[i], c)
    decreases |xs|
  {
    hide ElemsRead, MatchClass, EscapeHolds, ElemOk;
    if xs == [] {
      ElemsDone(pat, p, ec);
    } else {
      var x, rest := xs[0], xs[1..];
      var q := p + |PrintElem(x)|;
      ElemsNext(pat, p, xs, ec);
      ElemAt(pat, p, x);
      ElemsHead(pat, q, rest, ec);
      ElemStep(pat, p, x, q, ec, c);
      ElemsMean(pat, q, rest, ec, c);
      if i :| 0 <= i < |xs| && ElemHolds(xs[i], c) {
        if i > 0 {
          assert rest[i - 1] == xs[i];
        }
      }
      if i :| 0 <= i < |rest| && ElemHolds(rest[i], c) {
        assert rest[i] == xs[i + 1];
      }
    }
  }

  lemma ElemStep(pat: seq<nat>, p: nat, x: Elem, q: nat, ec: nat, c: nat)
    requires Reads(pat, p, PrintElem(x)) && ElemOk(x) && q == p + |PrintElem(x)| <= ec && At(pat, q) != '-' as nat
    ensures InSet(c, pat, p, ec) <==> ElemHolds(x, c) || InSet(c, pat, q, ec)
  {
    hide Reads, MatchClass, EscapeHolds;
    ElemAt(pat, p, x);
    if x.Letter? {
      ClassLetters(x.l, c);
    }
  }

  /** A printed set ends where its last element does. */
  lemma {:induction false} SetEnds(pat: seq<nat>, p: nat, xs: seq<Elem>, ec: nat)
    requires ElemsRead(pat, p, xs, ec) && xs != []
    ensures p <= |pat| && SetEnd(pat, p) == Ends(ec + 1)
    decreases |xs|
  {
    hide ElemsRead;
    var x, rest := xs[0], xs[1..];
    var q := p + |PrintElem(x)|;
    ElemsNext(pat, p, xs, ec);
    ElemAt(pat, p, x);
    ElemsHead(pat, q, rest, ec);
    if rest == [] {
      ElemsDone(pat, q, ec);
    } else {
      SetEnds(pat, q, rest, ec);
    }
    match x
    case One(_) =>
    case Letter(_) =>
    case Span(_, _) =>
      assert SetEnd(pat, p) == SetEnd(pat, p + 1);
      assert SetEnd(pat, p + 1) == SetEnd(pat, p + 2);
  }

  /** A printed set ends with its bracket, and matches what it holds. */
  lemma SetMeans(pat: seq<nat>, p: nat, neg: bool, xs: seq<Elem>, c: nat)
    requires SetOk(xs) && Reads(pat, p, PrintSet(neg, xs))
    ensures var ep := p + |PrintSet(neg, xs)|;
            && p < |pat| && ClassEnd(pat, p) == Ends(ep)
            && (MatchBracket(c, pat, p, ep - 1) <==> SetHolds(neg, xs, c))
  {
    hide Reads, SetEnd, InSet, PrintElems;
    var text := PrintSet(neg, xs);
    var front := if neg then ['[' as nat, '^' as nat] else ['[' as nat];
    var start := p + |front|;
    var ec := p + |text| - 1;
    assert text == front + PrintElems(xs) + [']' as nat];
    ReadsSplit(pat, p, front + PrintElems(xs), [']' as nat]);
    ReadsSplit(pat, p, front, PrintElems(xs));
    ReadsAt(pat, p, front, 0);
    ReadsAt(pat, ec, [']' as nat], 0);
    assert ElemsRead(pat, start, xs, ec);
    if neg {
      ReadsAt(pat, p, front, 1);
    }
    ElemsHead(pat, start, xs, ec);
    SetEnds(pat, start, xs, ec);
    ElemsMean(pat, start, xs, ec, c);
  }
}
