/**
 Lua patterns as their reader sees them: a pattern by its parts, and a match by where each part of
 the pattern ends. The bytes of a pattern are only what its parts are printed to. The search for a
 printed pattern finds the preferred one of all its matches.
 */
module PatternSyntax {
  import opened PatternItems
  import opened PatternSets
  import opened PatternSpec
  import opened PatternMatch
  import opened PatternMeaning
  import opened PatternFind

  /** What matches one character */
  datatype Item = AnyChar | Lit(c: nat) | Escaped(l: nat) | Chars(neg: bool, xs: seq<Elem>)

  /** How often: once, at most once, any number of times, at least once; `Few` prefers the least number. */
  datatype Rep = Once | Maybe | Many | Some | Few

  /** A part of a pattern; `Group` and `EndGroup` are the brackets of a capture, `Here` captures a position. */
  datatype Node = Repeat(x: Item, rep: Rep) | Group | EndGroup | Here | Back(i: nat) | Balance(b: nat, e: nat)
                | Frontier(neg: bool, xs: seq<Elem>) | AtEnd

  // ------------------------------------------------------------------
  // What a pattern means

  predicate Accepts(x: Item, c: nat) {
    match x
    case AnyChar => true
    case Lit(d) => c == d
    case Escaped(l) => EscapeHolds(l, c)
    case Chars(neg, xs) => SetHolds(neg, xs, c)
  }

  predicate Often(rep: Rep, n: nat) {
    match rep
    case Once => n == 1
    case Maybe => n <= 1
    case Some => n >= 1
    case _ => true
  }

  /** A part of a pattern can match from `s` to `m`, with the captures before it. */
  ghost predicate Takes(src: seq<nat>, x: Node, s: nat, caps: seq<Cap>, m: nat) {
    s <= m <= |src| &&
    match x
    case Repeat(y, rep) => Often(rep, m - s) && forall i :: s <= i < m ==> Accepts(y, src[i])
    case Group => m == s && |caps| < 32
    case Here => m == s && |caps| < 32
    case EndGroup => m == s && exists l: nat :: IsLastOpen(caps, l) && caps[l].init <= s
    case Back(i) =>
      && 1 <= i <= |caps| && caps[i - 1].len.Closed?
      && var from, n := caps[i - 1].init, caps[i - 1].len.n;
      && from + n <= |src| && m == s + n && src[s..m] == src[from..from + n]
    case Balance(b, e) => Balanced(src, s, m, b, e)
    case Frontier(neg, xs) =>
      && m == s && !SetHolds(neg, xs, if s == 0 then 0 else src[s - 1])
      && SetHolds(neg, xs, if s == |src| then 0 else src[s])
    case AtEnd => m == s == |src|
  }

  /** The captures behind it: the one opened last is closed here, and has the text from its start to here. */
  ghost function CapsThen(src: seq<nat>, x: Node, s: nat, caps: seq<Cap>, m: nat): seq<Cap>
    requires Takes(src, x, s, caps, m)
  {
    match x
    case Group => caps + [Cap(s, Unfinished)]
    case Here => caps + [Cap(s, Position)]
    case EndGroup =>
      var l: nat :| IsLastOpen(caps, l) && caps[l].init <= s;
      caps[l := Cap(caps[l].init, Closed(s - caps[l].init))]
    case _ => caps
  }

  /** The parts of the pattern can match from `s` on so that they end at `ends`. */
  ghost predicate Fits(src: seq<nat>, nodes: seq<Node>, s: nat, caps: seq<Cap>, ends: seq<nat>)
    decreases |nodes|
  {
    if nodes == [] then ends == []
    else
      && ends != [] && Takes(src, nodes[0], s, caps, ends[0])
      && Fits(src, nodes[1..], ends[0], CapsThen(src, nodes[0], s, caps, ends[0]), ends[1..])
  }

  ghost function CapsAlong(src: seq<nat>, nodes: seq<Node>, s: nat, caps: seq<Cap>, ends: seq<nat>): seq<Cap>
    requires Fits(src, nodes, s, caps, ends)
    decreases |nodes|
  {
    if nodes == [] then caps
    else CapsAlong(src, nodes[1..], ends[0], CapsThen(src, nodes[0], s, caps, ends[0]), ends[1..])
  }

  function EndOf(s: nat, ends: seq<nat>): nat {
    if ends == [] then s else ends[|ends| - 1]
  }

  /** A part prefers to end at `m`, rather than at `n`. */
  predicate Prefers(x: Node, m: nat, n: nat) {
    if x.Repeat? && x.rep == Few then m < n else m > n
  }

  /** The first part that differs prefers `a`. */
  predicate Better(nodes: seq<Node>, a: seq<nat>, b: seq<nat>) {
    nodes != [] && a != [] && b != [] &&
    if a[0] == b[0] then Better(nodes[1..], a[1..], b[1..]) else Prefers(nodes[0], a[0], b[0])
  }

  ghost predicate IsBest(src: seq<nat>, nodes: seq<Node>, s: nat, caps: seq<Cap>, ends: seq<nat>) {
    && Fits(src, nodes, s, caps, ends)
    && forall o: seq<nat> :: Fits(src, nodes, s, caps, o) && o != ends ==> Better(nodes, ends, o)
  }

  ghost predicate NoneFit(src: seq<nat>, nodes: seq<Node>, s: nat, caps: seq<Cap>) {
    forall o: seq<nat> :: !Fits(src, nodes, s, caps, o)
  }

  // ------------------------------------------------------------------
  // Printing a pattern

  predicate ItemOk(x: Item) {
    match x
    case AnyChar => true
    case Lit(c) => c != 0 && !Among(c, "^$*+?.()[%-")
    case Escaped(l) => l != 0 && !Among(l, "0123456789bf")
    case Chars(_, xs) => SetOk(xs)
  }

  predicate NodeOk(x: Node) {
    match x
    case Repeat(y, _) => ItemOk(y)
    case Back(i) => 1 <= i <= 9
    case Balance(b, e) => b != 0 && e != 0
    case Frontier(_, xs) => SetOk(xs)
    case _ => true
  }

  /** A pattern that can be printed: empty brackets are a position capture, and a dollar ends the pattern. */
  predicate Ok(nodes: seq<Node>) {
    && (forall i :: 0 <= i < |nodes| ==> NodeOk(nodes[i]))
    && (forall i :: 0 <= i < |nodes| - 1 ==> !nodes[i].AtEnd? && !(nodes[i].Group? && nodes[i + 1].EndGroup?))
  }

  function PrintItem(x: Item): seq<nat> {
    match x
    case AnyChar => ['.' as nat]
    case Lit(c) => [c]
    case Escaped(l) => ['%' as nat, l]
    case Chars(neg, xs) => PrintSet(neg, xs)
  }

  function PrintRep(rep: Rep): seq<nat> {
    match rep
    case Once => []
    case Maybe => ['?' as nat]
    case Many => ['*' as nat]
    case Some => ['+' as nat]
    case Few => ['-' as nat]
  }

  function PrintNode(x: Node): (r: seq<nat>)
    ensures r != []
  {
    match x
    case Repeat(y, rep) => PrintItem(y) + PrintRep(rep)
    case Group => ['(' as nat]
    case EndGroup => [')' as nat]
    case Here => ['(' as nat, ')' as nat]
    case Back(i) => ['%' as nat, '0' as nat + i]
    case Balance(b, e) => ['%' as nat, 'b' as nat, b, e]
    case Frontier(neg, xs) => ['%' as nat, 'f' as nat] + PrintSet(neg, xs)
    case AtEnd => ['$' as nat]
  }

  function Print(nodes: seq<Node>): seq<nat> {
    if nodes == [] then [] else PrintNode(nodes[0]) + Print(nodes[1..])
  }

  function PrintPattern(anchor: bool, nodes: seq<Node>): seq<nat> {
    if anchor then ['^' as nat] + Print(nodes) else Print(nodes)
  }

  /** From `p` on, the pattern is what these parts are printed to. */
  ghost predicate Printed(t: Task, p: nat, nodes: seq<Node>) {
    Ok(nodes) && Reads(t.pat, p, Print(nodes)) && |t.pat| == p + |Print(nodes)|
  }

  lemma PrintedNext(t: Task, p: nat, nodes: seq<Node>)
    requires Printed(t, p, nodes) && nodes != []
    ensures Reads(t.pat, p, PrintNode(nodes[0])) && Printed(t, p + |PrintNode(nodes[0])|, nodes[1..]) && NodeOk(nodes[0])
    ensures p + |PrintNode(nodes[0])| <= |t.pat|
  {
    hide Reads, NodeOk, PrintNode;
    ReadsSplit(t.pat, p, PrintNode(nodes[0]), Print(nodes[1..]));
    forall i | 0 <= i < |nodes| - 1 ensures nodes[1..][i] == nodes[i + 1] {
    }
  }

  /** The first byte of a part, and the second one of a capture */
  lemma NodeHead(pat: seq<nat>, p: nat, x: Node)
    requires Reads(pat, p, PrintNode(x)) && NodeOk(x)
    ensures p < |pat| && !IsOp(At(pat, p)) && At(pat, p) != 0 && At(pat, p) != '^' as nat && (At(pat, p) == ')' as nat <==> x.EndGroup?)
  {
    hide Reads, SetOk, PrintElems;
    ReadsAt(pat, p, PrintNode(x), 0);
  }

  lemma PrintedHead(t: Task, p: nat, nodes: seq<Node>)
    requires Printed(t, p, nodes)
    ensures !IsOp(At(t.pat, p)) && At(t.pat, p) != '^' as nat && (At(t.pat, p) == 0 <==> nodes == [])
    ensures At(t.pat, p) == ')' as nat <==> nodes != [] && nodes[0].EndGroup?
  {
    hide Reads, NodeOk, PrintNode, Ok;
    if nodes != [] {
      PrintedNext(t, p, nodes);
      NodeHead(t.pat, p, nodes[0]);
    }
  }

  /** A printed item ends where its text does, and matches what it accepts. */
  lemma ItemMeans(pat: seq<nat>, p: nat, x: Item)
    requires Reads(pat, p, PrintItem(x)) && ItemOk(x)
    ensures var ep := p + |PrintItem(x)|;
            && p < |pat| && IsPlain(pat, p) && ClassEnd(pat, p) == Ends(ep)
            && forall c: nat :: SingleMatch(c, pat, p, ep) <==> Accepts(x, c)
  {
    hide Reads, SetOk, PrintElems, MatchClass, MatchBracket, EscapeHolds, SetHolds, SetEnd;
    var ep := p + |PrintItem(x)|;
    ReadsAt(pat, p, PrintItem(x), 0);
    match x
    case AnyChar =>
    case Lit(_) =>
    case Escaped(l) =>
      ReadsAt(pat, p, PrintItem(x), 1);
      forall c: nat ensures MatchClass(c, l) <==> EscapeHolds(l, c) {
        ClassLetters(l, c);
      }
    case Chars(neg, xs) =>
      SetMeans(pat, p, neg, xs, 0);
      forall c: nat ensures MatchBracket(c, pat, p, ep - 1) <==> SetHolds(neg, xs, c) {
        SetMeans(pat, p, neg, xs, c);
      }
  }
}
