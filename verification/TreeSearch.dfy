/**
 The two searches of tmalloc_large and tmalloc_small (src/lj_alloc.c), as facts
 about a trie: what a walk may leave aside without missing the best fit.
 */
module TreeSearch {
  import opened PowersOfTwo
  import opened Trie

  function SizeAt(t: Trie, size: Sizes, q: Path): nat
    requires q in t && |t[q]| > 0 && t[q][0] in size
  {
    size[t[q][0]]
  }

  /** The subtree that is still to be searched, or none. */
  datatype Rest = Nothing | Subtree(at: Path)

  /** A node at `q` that fits is no better than the best so far, or no better than all of the rest, or in the rest. */
  ghost predicate Settled(i: nat, t: Trie, size: Sizes, nb: nat, rsize: nat, rest: Rest, q: Path)
    requires TrieOk(i, t, size)
  {
    q in t && SizeAt(t, size, q) >= nb ==>
      || nb + rsize <= SizeAt(t, size, q)
      || (rest.Subtree? && Under(q, rest.at))
      || (rest.Subtree? && Exp(i, rest.at) >= 0 && Hi(i, rest.at) <= SizeAt(t, size, q))
  }

  ghost predicate AllSettled(i: nat, t: Trie, size: Sizes, nb: nat, rsize: nat, rest: Rest)
    requires TrieOk(i, t, size)
  {
    forall q {:trigger Settled(i, t, size, nb, rsize, rest, q)} :: Settled(i, t, size, nb, rsize, rest, q)
  }

  /** During the first walk there is also the subtree at the current path. */
  ghost predicate WalkSettled(i: nat, t: Trie, size: Sizes, nb: nat, rsize: nat, rest: Rest, p: Path)
    requires TrieOk(i, t, size)
  {
    forall q {:trigger Settled(i, t, size, nb, rsize, rest, q)} ::
      Under(q, p) || Settled(i, t, size, nb, rsize, rest, q)
  }

  /** The rest of the first walk: the deepest untaken right subtree, beyond everything on the walk. */
  ghost predicate RestOk(i: nat, t: Trie, size: Sizes, nb: nat, rest: Rest, p: Path)
    requires TrieOk(i, t, size)
  {
    rest.Subtree? ==> rest.at in t && Exp(i, rest.at) >= 0 && Exp(i, p) >= 0 && nb < Hi(i, p) <= Lo(i, rest.at)
  }

  lemma NodeSize(i: nat, t: Trie, size: Sizes, q: Path)
    requires TrieOk(i, t, size) && q in t
    ensures |t[q]| > 0 && t[q][0] in size && Covers(i, q, size[t[q][0]])
  {
    assert RingOk(i, q, t[q], size);
  }

  /** A better remainder keeps everything settled. */
  lemma Improve(i: nat, t: Trie, size: Sizes, nb: nat, rsize: nat, rsize': nat, rest: Rest, p: Path)
    requires TrieOk(i, t, size) && WalkSettled(i, t, size, nb, rsize, rest, p) && rsize' <= rsize
    ensures WalkSettled(i, t, size, nb, rsize', rest, p)
  {
    hide TrieOk;
    forall q ensures Under(q, p) || Settled(i, t, size, nb, rsize', rest, q) {
      assert Under(q, p) || Settled(i, t, size, nb, rsize, rest, q);
    }
  }

  /** A size that is not below `nb` is in the half of `nb` or in the upper half. */
  lemma Halves(i: nat, p: Path, bit: bool, c: bool, nb: nat, s: nat)
    requires Covers(i, Step(p, bit), nb) && Covers(i, Step(p, c), s) && s >= nb
    ensures c == bit || c
  {
  }

  /** Where a node below `p` can be when the walk turns to `bit` at `p`. */
  lemma Turn(i: nat, t: Trie, size: Sizes, nb: nat, p: Path, bit: bool, q: Path)
    requires TrieOk(i, t, size) && Covers(i, Step(p, bit), nb)
    requires q in t && Under(q, p) && q != p && SizeAt(t, size, q) >= nb
    ensures Under(q, Step(p, bit)) || (!bit && Under(q, Step(p, true)))
    ensures Under(q, Step(p, bit)) ==> Step(p, bit) in t
    ensures Under(q, Step(p, true)) ==> Step(p, true) in t
  {
    hide Covers;
    NodeSize(i, t, size, q);
    var c := FirstStep(q, p);
    UpClosed(t, q, Step(p, c));
    CoversAbove(i, q, Step(p, c), SizeAt(t, size, q));
    Halves(i, p, bit, c, nb, SizeAt(t, size, q));
    if Under(q, Step(p, bit)) {
      UpClosed(t, q, Step(p, bit));
    }
    if Under(q, Step(p, true)) {
      UpClosed(t, q, Step(p, true));
    }
  }

  /** One turn of the first walk: the node at `p` was looked at, and its untaken right subtree is remembered. */
  lemma WalkStep(i: nat, t: Trie, size: Sizes, nb: nat, rsize: nat, rest: Rest, p: Path, bit: bool, rest': Rest)
    requires TrieOk(i, t, size) && p in t
    requires WalkSettled(i, t, size, nb, rsize, rest, p) && RestOk(i, t, size, nb, rest, p)
    requires SizeAt(t, size, p) >= nb ==> nb + rsize <= SizeAt(t, size, p)
    requires Covers(i, p, nb) && Covers(i, Step(p, bit), nb)
    requires rest' == if !bit && Step(p, true) in t then Subtree(Step(p, true)) else rest
    ensures WalkSettled(i, t, size, nb, rsize, rest', Step(p, bit)) && RestOk(i, t, size, nb, rest', Step(p, bit))
    ensures Step(p, bit) !in t ==> AllSettled(i, t, size, nb, rsize, rest')
  {
    hide RingOk;
    HalfBounds(i, p, nb);
    if Step(p, true) in t {
      NodeSize(i, t, size, Step(p, true));
    }
    forall q ensures (Under(q, Step(p, bit)) && Step(p, bit) in t) || Settled(i, t, size, nb, rsize, rest', q) {
      assert Under(q, p) || Settled(i, t, size, nb, rsize, rest, q);
      if q in t {
        NodeSize(i, t, size, q);
      }
      if q in t && SizeAt(t, size, q) >= nb {
        if Under(q, p) && q != p {
          Turn(i, t, size, nb, p, bit, q);
        } else if !Under(q, p) && rest.Subtree? {
          if Under(q, rest.at) {
            UnderInterval(i, q, rest.at);
          }
        }
      }
    }
  }

  /** The two halves of an interval. */
  lemma HalfBounds(i: nat, p: Path, nb: nat)
    requires Covers(i, p, nb)
    ensures Exp(i, p) > 0 ==>
            && Lo(i, Step(p, false)) == Lo(i, p) && Hi(i, Step(p, true)) == Hi(i, p)
            && Hi(i, Step(p, false)) == Lo(i, Step(p, true)) < Hi(i, p)
    ensures Exp(i, Step(p, true)) == Exp(i, Step(p, false)) == Exp(i, p) - 1
    ensures Lo(i, p) <= nb < Hi(i, p)
  {
  }

  function LeftmostChild(t: Trie, p: Path): Rest {
    if Step(p, false) in t then Subtree(Step(p, false))
    else if Step(p, true) in t then Subtree(Step(p, true)) else Nothing
  }

  /** One turn of the second walk: below a node, only the leftmost child can hold something better. */
  lemma LeftStep(i: nat, t: Trie, size: Sizes, nb: nat, rsize: nat, p: Path)
    requires TrieOk(i, t, size) && p in t && AllSettled(i, t, size, nb, rsize, Subtree(p))
    requires rsize == 0 || nb + rsize <= SizeAt(t, size, p)
    ensures AllSettled(i, t, size, nb, rsize, LeftmostChild(t, p))
  {
    hide RingOk;
    forall q ensures Settled(i, t, size, nb, rsize, LeftmostChild(t, p), q) {
      LeftStepAt(i, t, size, nb, rsize, p, q);
    }
  }

  lemma LeftStepAt(i: nat, t: Trie, size: Sizes, nb: nat, rsize: nat, p: Path, q: Path)
    requires TrieOk(i, t, size) && p in t && AllSettled(i, t, size, nb, rsize, Subtree(p))
    requires rsize == 0 || nb + rsize <= SizeAt(t, size, p)
    ensures Settled(i, t, size, nb, rsize, LeftmostChild(t, p), q)
  {
    hide RingOk, Under, Lo, Exp;
    NodeSize(i, t, size, p);
    var rest := LeftmostChild(t, p);
    if rest.Subtree? {
      NodeSize(i, t, size, rest.at);
      HalfOfPath(i, p, rest.at.bit);
    }
    assert Settled(i, t, size, nb, rsize, Subtree(p), q);
    if q in t {
      NodeSize(i, t, size, q);
      if Under(q, p) && q != p {
        var c := FirstStep(q, p);
        UpClosed(t, q, Step(p, c));
        CoversAbove(i, q, Step(p, c), SizeAt(t, size, q));
      }
    }
  }

  lemma HalfOfPath(i: nat, p: Path, bit: bool)
    requires Exp(i, Step(p, bit)) >= 0
    ensures Exp(i, p) >= 0 && Hi(i, Step(p, bit)) <= Hi(i, p)
    ensures Exp(i, Step(p, true)) >= 0 && Hi(i, Step(p, false)) == Lo(i, Step(p, true))
  {
    hide Pow2;
    Pow2Next(Exp(i, Step(p, bit)));
  }

  /** With nothing left to search, the best remainder is the least. */
  lemma SearchDone(i: nat, t: Trie, size: Sizes, nb: nat, rsize: nat, x: nat)
    requires TrieOk(i, t, size) && AllSettled(i, t, size, nb, rsize, Nothing)
    requires Member(t, x)
    ensures x in size && (size[x] >= nb ==> nb + rsize <= size[x])
  {
    var q :| q in t && x in t[q];
    assert RingOk(i, q, t[q], size);
    assert Settled(i, t, size, nb, rsize, Nothing, q);
  }

  /** A whole bin is still to be searched from its root. */
  lemma SearchFromRoot(i: nat, t: Trie, size: Sizes, nb: nat, rsize: nat)
    requires TrieOk(i, t, size)
    ensures AllSettled(i, t, size, nb, rsize, Subtree(Root))
    ensures WalkSettled(i, t, size, nb, rsize, Nothing, Root)
  {
    forall q ensures Under(q, Root) {
      AllUnderRoot(q);
    }
  }

  lemma {:induction false} AllUnderRoot(q: Path)
    ensures Under(q, Root)
  {
    if q.Step? {
      AllUnderRoot(q.up);
    }
  }

  /** With an exact fit nothing else matters. */
  lemma ExactFit(i: nat, t: Trie, size: Sizes, nb: nat, rest: Rest)
    requires TrieOk(i, t, size)
    ensures AllSettled(i, t, size, nb, 0, rest)
  {
  }
}
