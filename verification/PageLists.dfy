/** The intrusive doubly linked lists of src/lj_alloc_page.c, with one map per link field. */
module PageLists {

  type Words = map<nat, nat>

  function At(list: seq<nat>, k: int): nat {
    if 0 <= k < |list| then list[k] else 0
  }

  ghost predicate ElementOk(list: seq<nat>, k: nat, next: Words, prev: Words)
    requires k < |list|
  {
    && list[k] != 0 && list[k] in next && list[k] in prev
    && next[list[k]] == At(list, k + 1) && prev[list[k]] == At(list, k - 1)
  }

  ghost predicate Distinct(s: seq<nat>) {
    forall j, k :: 0 <= j < k < |s| ==> s[j] != s[k]
  }

  /** `list` is linked in both directions, and starts at `head`. */
  ghost predicate Linked(head: nat, list: seq<nat>, next: Words, prev: Words) {
    && head == At(list, 0) && Distinct(list)
    && forall k {:trigger ElementOk(list, k, next, prev)} :: 0 <= k < |list| ==> ElementOk(list, k, next, prev)
  }

  /** The words of `page->prev = NULL; page->next = *head; if (*head) (*head)->prev = page` */
  function InsertPrev(head: nat, prev: Words, p: nat): Words {
    var prev1 := prev[p := 0];
    if head != 0 then prev1[head := p] else prev1
  }

  lemma InsertFront(head: nat, list: seq<nat>, next: Words, prev: Words, p: nat)
    requires Linked(head, list, next, prev) && p != 0 && p !in list
    ensures Linked(p, [p] + list, next[p := head], InsertPrev(head, prev, p))
  {
    var list', next', prev' := [p] + list, next[p := head], InsertPrev(head, prev, p);
    forall k | 0 <= k < |list'| ensures ElementOk(list', k, next', prev') {
      if k > 0 {
        assert ElementOk(list, k - 1, next, prev);
        assert list'[k] == list[k - 1] && list[k - 1] in list;
      }
      assert At(list', k + 1) == At(list, k);
    }
  }

  function Without(list: seq<nat>, k: nat): seq<nat>
    requires k < |list|
  {
    list[..k] + list[k + 1..]
  }

  /** `if (page->prev) page->prev->next = page->next`, and `page->next = NULL` */
  function RemoveNext(next: Words, prev: Words, p: nat): Words
    requires p in next && p in prev
  {
    var next1 := if prev[p] != 0 then next[prev[p] := next[p]] else next;
    next1[p := 0]
  }

  /** `if (page->next) page->next->prev = page->prev`, and `page->prev = NULL` */
  function RemovePrev(next: Words, prev: Words, p: nat): Words
    requires p in next && p in prev
  {
    var prev1 := if next[p] != 0 then prev[next[p] := prev[p]] else prev;
    prev1[p := 0]
  }

  lemma WithoutAt(list: seq<nat>, k: nat, j: nat)
    requires k < |list| && j < |list| - 1
    ensures var b := if j < k then j else j + 1;
            && Without(list, k)[j] == list[b]
            && At(Without(list, k), j + 1) == (if b + 1 == k then At(list, k + 1) else At(list, b + 1))
            && At(Without(list, k), j - 1) == (if b == k + 1 then At(list, k - 1) else At(list, b - 1))
  {
  }

  lemma WithoutMembers(list: seq<nat>, k: nat)
    requires k < |list| && Distinct(list)
    ensures Distinct(Without(list, k))
    ensures forall x :: x in Without(list, k) <==> x in list && x != list[k]
  {
    var w := Without(list, k);
    forall j | 0 <= j < |w| ensures w[j] in list && w[j] != list[k] && w[j] == list[if j < k then j else j + 1] {
      WithoutAt(list, k, j);
    }
    forall x | x in list && x != list[k] ensures x in w {
      var j :| 0 <= j < |list| && list[j] == x;
      assert w[if j < k then j else j - 1] == x;
    }
  }

  lemma Remove(head: nat, list: seq<nat>, next: Words, prev: Words, k: nat)
    requires Linked(head, list, next, prev) && k < |list|
    ensures list[k] in next && list[k] in prev && (prev[list[k]] == 0 <==> k == 0)
    ensures Linked(if k == 0 then next[list[k]] else head, Without(list, k),
                   RemoveNext(next, prev, list[k]), RemovePrev(next, prev, list[k]))
  {
    hide Without, At;
    assert ElementOk(list, k, next, prev);
    AtFacts(list, k);
    WithoutMembers(list, k);
    WithoutLength(list, k);
    forall j | 0 <= j < |list| - 1
      ensures ElementOk(Without(list, k), j, RemoveNext(next, prev, list[k]), RemovePrev(next, prev, list[k]))
    {
      RemoveElement(head, list, next, prev, k, j);
    }
    HeadOfRest(list, k);
    if k > 0 {
      assert ElementOk(list, k - 1, next, prev);
    }
  }

  lemma HeadOfRest(list: seq<nat>, k: nat)
    requires k < |list|
    ensures At(Without(list, k), 0) == if k == 0 then At(list, 1) else At(list, 0)
  {
  }

  lemma WithoutLength(list: seq<nat>, k: nat)
    requires k < |list|
    ensures |Without(list, k)| == |list| - 1
  {
  }

  lemma AtFacts(list: seq<nat>, k: int)
    ensures 0 <= k < |list| ==> At(list, k) == list[k]
    ensures 0 <= k - 1 < |list| ==> At(list, k - 1) == list[k - 1]
    ensures 0 <= k + 1 < |list| ==> At(list, k + 1) == list[k + 1]
    ensures k <= 0 ==> At(list, k - 1) == 0
    ensures k + 1 >= |list| ==> At(list, k + 1) == 0
  {
  }

  lemma RemoveElement(head: nat, list: seq<nat>, next: Words, prev: Words, k: nat, j: nat)
    requires Linked(head, list, next, prev) && k < |list| && j < |list| - 1
    requires list[k] in next && list[k] in prev && |Without(list, k)| == |list| - 1
    ensures ElementOk(Without(list, k), j, RemoveNext(next, prev, list[k]), RemovePrev(next, prev, list[k]))
  {
    hide Without, At;
    var b := if j < k then j else j + 1;
    WithoutAt(list, k, j);
    assert ElementOk(list, k, next, prev) && ElementOk(list, b, next, prev);
    AtFacts(list, k);
    AtFacts(list, b);
    assert k > 0 ==> ElementOk(list, k - 1, next, prev);
    assert k + 1 < |list| ==> ElementOk(list, k + 1, next, prev);
    assert b == k - 1 <==> prev[list[k]] == list[b];
    assert b == k + 1 <==> next[list[k]] == list[b];
  }

  /** Words of other elements do not matter. */
  lemma Frame(head: nat, list: seq<nat>, next: Words, prev: Words, next': Words, prev': Words)
    requires Linked(head, list, next, prev)
    requires forall x :: x in list && x in next ==> x in next' && next'[x] == next[x]
    requires forall x :: x in list && x in prev ==> x in prev' && prev'[x] == prev[x]
    ensures Linked(head, list, next', prev')
  {
    forall k | 0 <= k < |list| ensures ElementOk(list, k, next', prev') {
      assert ElementOk(list, k, next, prev) && list[k] in list;
    }
  }

  /** The words that insertion and removal leave alone. */
  lemma Untouched(head: nat, list: seq<nat>, next: Words, prev: Words, p: nat, x: nat)
    requires Linked(head, list, next, prev) && x !in list && x != p && x != 0
    ensures x in prev ==> x in InsertPrev(head, prev, p) && InsertPrev(head, prev, p)[x] == prev[x]
    ensures p in list && p in next && p in prev && x in next ==>
              x in RemoveNext(next, prev, p) && RemoveNext(next, prev, p)[x] == next[x]
    ensures p in list && p in next && p in prev && x in prev ==>
              x in RemovePrev(next, prev, p) && RemovePrev(next, prev, p)[x] == prev[x]
  {
    if p in list {
      var k :| 0 <= k < |list| && list[k] == p;
      assert ElementOk(list, k, next, prev);
    }
  }
}
