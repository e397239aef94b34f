/**
  The circular doubly linked list of the LRU cache. Handles are numbers, 0 is the dummy head;
  a handle that is not in the list has no links. The list runs from the oldest entry, the
  successor of the head, to the newest, its predecessor.
*/
module LruList {

  /** The `k`-th node after the head. */
  function At(items: seq<nat>, k: nat): nat
    requires k <= |items|
  {
    if k == 0 then 0 else items[k - 1]
  }

  function Succ(items: seq<nat>, k: nat): nat
    requires k <= |items|
  {
    if k == |items| then 0 else items[k]
  }

  function Pred(items: seq<nat>, k: nat): nat
    requires k <= |items|
  {
    if k == 0 then At(items, |items|) else At(items, k - 1)
  }

  ghost predicate NoDuplicates(items: seq<nat>) {
    0 !in items && forall i, j :: 0 <= i < j < |items| ==> items[i] != items[j]
  }

  ghost predicate LinkedAt(next: map<nat, nat>, prev: map<nat, nat>, items: seq<nat>, k: nat)
    requires k <= |items|
  {
    var node := At(items, k);
    node in next && next[node] == Succ(items, k) && node in prev && prev[node] == Pred(items, k)
  }

  /** The links run through the items in both directions, and nothing else has links. */
  ghost predicate Linked(next: map<nat, nat>, prev: map<nat, nat>, items: seq<nat>) {
    && NoDuplicates(items)
    && (forall k :: 0 <= k <= |items| ==> LinkedAt(next, prev, items, k))
    && (forall node :: node in next || node in prev ==> node == 0 || node in items)
  }

  function Without(items: seq<nat>, i: nat): seq<nat>
    requires i < |items|
  {
    items[..i] + items[i + 1..]
  }

  function With(items: seq<nat>, k: nat, e: nat): seq<nat>
    requires k <= |items|
  {
    items[..k] + [e] + items[k..]
  }

  lemma AtWithout(items: seq<nat>, i: nat, k: nat)
    requires i < |items| && k < |items|
    ensures At(Without(items, i), k) == At(items, if k <= i then k else k + 1)
    ensures Succ(Without(items, i), k) == Succ(items, if k < i then k else k + 1)
    ensures Pred(Without(items, i), k) ==
            if k == 0 then At(items, if i == |items| - 1 then i else |items|)
                else At(items, if k <= i + 1 then k - 1 else k)
  {
  }

  lemma SameNode(items: seq<nat>, j: nat, k: nat)
    requires NoDuplicates(items) && j <= |items| && k <= |items|
    ensures At(items, j) == At(items, k) <==> j == k
  {
    assert j > 0 ==> items[j - 1] in items;
    assert k > 0 ==> items[k - 1] in items;
  }

  /** Unlinking a node takes it out of the sequence. */
  lemma RemoveLinked(next: map<nat, nat>, prev: map<nat, nat>, items: seq<nat>, i: nat)
    requires Linked(next, prev, items) && i < |items|
    ensures items[i] in next && items[i] in prev
    ensures var e := items[i]; var p, n := prev[e], next[e];
            Linked(next[p := n] - {e}, prev[n := p] - {e}, Without(items, i))
  {
    var e := items[i];
    assert LinkedAt(next, prev, items, i + 1);
    var p, n := prev[e], next[e];
    var next', prev', items' := next[p := n] - {e}, prev[n := p] - {e}, Without(items, i);
    forall k | 0 <= k <= |items'|
      ensures LinkedAt(next', prev', items', k)
    {
      RemoveNextAt(next, prev, items, i, k);
      RemovePrevAt(next, prev, items, i, k);
    }
    forall node | node in next' || node in prev'
      ensures node == 0 || node in items'
    {
      NeighboursInList(items, i);
      if node != 0 {
        var j :| 0 <= j < |items| && items[j] == node;
        assert node == if j < i then items'[j] else items'[j - 1];
      }
    }
  }

  lemma NeighboursInList(items: seq<nat>, i: nat)
    requires i < |items|
    ensures Pred(items, i + 1) == 0 || Pred(items, i + 1) in items
    ensures Succ(items, i + 1) == 0 || Succ(items, i + 1) in items
  {
  }

  lemma SuccIsAt(items: seq<nat>, k: nat)
    requires k <= |items|
    ensures Succ(items, k) == At(items, if k == |items| then 0 else k + 1)
  {
  }

  lemma RemoveNextAt(next: map<nat, nat>, prev: map<nat, nat>, items: seq<nat>, i: nat, k: nat)
    requires Linked(next, prev, items) && i < |items| && k < |items| && items[i] in next && items[i] in prev
    ensures var e := items[i]; var p, n := prev[e], next[e]; var node := At(Without(items, i), k);
            var next' := next[p := n] - {e};
            node in next' && next'[node] == Succ(Without(items, i), k)
  {
    AtWithout(items, i, k);
    assert LinkedAt(next, prev, items, i + 1);
    var at := if k <= i then k else k + 1;
    assert LinkedAt(next, prev, items, at);
    SameNode(items, at, i + 1);
    SameNode(items, at, i);
  }

  lemma RemovePrevAt(next: map<nat, nat>, prev: map<nat, nat>, items: seq<nat>, i: nat, k: nat)
    requires Linked(next, prev, items) && i < |items| && k < |items| && items[i] in next && items[i] in prev
    ensures var e := items[i]; var p, n := prev[e], next[e]; var node := At(Without(items, i), k);
            var prev' := prev[n := p] - {e};
            node in prev' && prev'[node] == Pred(Without(items, i), k)
  {
    hide Linked, NoDuplicates, At, Without, LinkedAt, Succ;
    AtWithout(items, i, k);
    var at := if k <= i then k else k + 1;
    LinksOf(next, prev, items, i + 1);
    LinksOf(next, prev, items, at);
    SuccIsAt(items, i + 1);
    SameNode(items, at, i + 1);
    SameNode(items, at, if i + 1 == |items| then 0 else i + 2);
  }

  lemma LinksOf(next: map<nat, nat>, prev: map<nat, nat>, items: seq<nat>, k: nat)
    requires Linked(next, prev, items) && k <= |items|
    ensures var node := At(items, k);
            node in next && next[node] == Succ(items, k) && node in prev && prev[node] == Pred(items, k)
    ensures NoDuplicates(items) && (k > 0 ==> At(items, k) == items[k - 1])
  {
    assert LinkedAt(next, prev, items, k);
  }

  lemma AtWith(items: seq<nat>, k: nat, e: nat, j: nat)
    requires k <= |items| && j <= |items| + 1
    ensures At(With(items, k, e), j) == if j <= k then At(items, j) else if j == k + 1 then e else At(items, j - 1)
    ensures Succ(With(items, k, e), j) == if j < k then Succ(items, j) else if j == k then e else Succ(items, j - 1)
    ensures Pred(With(items, k, e), j) ==
            if j == 0 then (if k == |items| then e else Pred(items, 0))
            else if j <= k + 1 then At(items, j - 1) else if j == k + 2 then e else At(items, j - 2)
  {
  }

  /** Linking a node after the `k`-th puts it there in the sequence. */
  lemma InsertLinked(next: map<nat, nat>, prev: map<nat, nat>, items: seq<nat>, k: nat, e: nat)
    requires Linked(next, prev, items) && k <= |items| && e != 0 && e !in items
    ensures At(items, k) in next
    ensures var p := At(items, k); var n := next[p];
            Linked(next[e := n][p := e], prev[e := p][n := e], With(items, k, e))
  {
    assert LinkedAt(next, prev, items, k);
    var p := At(items, k);
    var n := next[p];
    var next', prev', items' := next[e := n][p := e], prev[e := p][n := e], With(items, k, e);
    forall j | 0 <= j <= |items'|
      ensures LinkedAt(next', prev', items', j)
    {
      InsertLinkedAt(next, prev, items, k, e, j);
    }
    forall node | node in next' || node in prev'
      ensures node == 0 || node in items'
    {
      assert items'[k] == e;
      if node != 0 && node != e {
        if node == p || node == n {
          assert node in items;
        }
        var j :| 0 <= j < |items| && items[j] == node;
        assert node == if j < k then items'[j] else items'[j + 1];
      }
    }
  }

  lemma InsertLinkedAt(next: map<nat, nat>, prev: map<nat, nat>, items: seq<nat>, k: nat, e: nat, j: nat)
    requires Linked(next, prev, items) && k <= |items| && e != 0 && e !in items && j <= |items| + 1
             && At(items, k) in next
    ensures var p := At(items, k); var n := next[p];
            LinkedAt(next[e := n][p := e], prev[e := p][n := e], With(items, k, e), j)
  {
    AtWith(items, k, e, j);
    assert LinkedAt(next, prev, items, k);
    if j != k + 1 {
      var at := if j <= k then j else j - 1;
      assert LinkedAt(next, prev, items, at);
      assert At(items, at) != e;
      SameNode(items, at, k);
      SameNode(items, at, if k == |items| then 0 else k + 1);
    }
  }

  class List {
    var next: map<nat, nat>
    var prev: map<nat, nat>
    ghost var items: seq<nat>

    ghost predicate Valid()
      reads this
    {
      Linked(next, prev, items)
    }

    constructor ()
      ensures Valid() && items == []
    {
      next := map[0 := 0];
      prev := map[0 := 0];
      items := [];
    }

    /** The oldest entry, or 0 if there is none. */
    method First() returns (e: nat)
      requires Valid()
      ensures e == Succ(items, 0)
    {
      assert LinkedAt(next, prev, items, 0);
      e := next[0];
    }

    method Previous(e: nat, ghost k: nat) returns (p: nat)
      requires Valid() && k <= |items| && e == At(items, k)
      ensures p == Pred(items, k)
    {
      assert LinkedAt(next, prev, items, k);
      p := prev[e];
    }

    method Following(e: nat, ghost k: nat) returns (n: nat)
      requires Valid() && k <= |items| && e == At(items, k)
      ensures n == Succ(items, k)
    {
      assert LinkedAt(next, prev, items, k);
      n := next[e];
    }

    method Remove(e: nat, ghost i: nat)
      requires Valid() && i < |items| && items[i] == e
      modifies this
      ensures Valid() && items == Without(old(items), i)
    {
      hide Linked;
      RemoveLinked(next, prev, items, i);
      var p, n := prev[e], next[e];
      prev := prev[n := p];
      next := next[p := n];
      prev := prev - {e};
      next := next - {e};
      items := Without(items, i);
    }

    method InsertAfter(p: nat, e: nat, ghost k: nat)
      requires Valid() && k <= |items| && p == At(items, k) && e != 0 && e !in items
      modifies this
      ensures Valid() && items == With(old(items), k, e)
    {
      hide Linked;
      InsertLinked(next, prev, items, k, e);
      var n := next[p];
      next := next[e := n];
      prev := prev[e := p];
      next := next[p := e];
      prev := prev[n := e];
      items := With(items, k, e);
    }
  }
}
