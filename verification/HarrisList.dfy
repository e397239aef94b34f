/**
  The sorted singly linked list of one bucket: nodes, marked links, and what each
  shared-memory write of the lock-free algorithm does to it.

  A heap is a sequence of nodes addressed by index, and nodes are never freed. Node 0 is
  the head and node 1 the tail; both act by identity, as minus and plus infinity. The
  chain `c` that appears in the lemmas is the sequence of nodes met by following `next`
  from head to tail; it is determined by the heap (`ChainUnique`).
*/
module HarrisList {

  const HEAD: nat := 0
  const TAIL: nat := 1

  /** The contents of an `atomic<Node*>`: an address and the mark kept in its lowest bit. */
  datatype Link = Null | Link(target: nat, marked: bool)

  datatype Node = Node(key: int, next: Link)

  type Heap = seq<Node>

  const EMPTY_LIST: Heap := [Node(0, Link(TAIL, false)), Node(0, Link(TAIL, false))]

  predicate Marked(h: Heap, n: nat) {
    n < |h| && h[n].next.Link? && h[n].next.marked
  }

  /** The order of nodes: by key, with the head below and the tail above everything. */
  predicate Before(h: Heap, a: nat, b: nat) {
    && a < |h| && b < |h| && a != TAIL && b != HEAD
    && (a == HEAD || b == TAIL || h[a].key < h[b].key)
  }

  predicate BelowKey(h: Heap, n: nat, key: int) {
    n < |h| && n != TAIL && (n == HEAD || h[n].key < key)
  }

  predicate AtLeastKey(h: Heap, n: nat, key: int) {
    n < |h| && n != HEAD && (n == TAIL || key <= h[n].key)
  }

  /** `n` stores `key` (the two sentinels store nothing). */
  predicate Stores(h: Heap, n: nat, key: int) {
    n < |h| && n != HEAD && n != TAIL && h[n].key == key
  }

  // ---------------------------------------------------------------- reachability

  ghost predicate Path(h: Heap, p: seq<nat>) {
    && |p| > 0 && p[0] == HEAD
    && (forall i :: 0 <= i < |p| ==> p[i] < |h|)
    && (forall i :: 0 <= i < |p| - 1 ==> h[p[i]].next.Link? && h[p[i]].next.target == p[i + 1])
  }

  /** `n` can be reached from the head by following `next`, ignoring marks. */
  ghost predicate Reachable(h: Heap, n: nat) {
    exists p: seq<nat> :: Path(h, p) && p[|p| - 1] == n
  }

  /** The abstract set: the keys of linked, unmarked nodes. */
  ghost function Members(h: Heap): set<int> {
    set n: nat | n < |h| && n != HEAD && n != TAIL && Reachable(h, n) && !Marked(h, n) :: h[n].key
  }

  // ---------------------------------------------------------------- the invariant

  ghost predicate IsChain(h: Heap, c: seq<nat>) {
    && |c| >= 2 && c[0] == HEAD && c[|c| - 1] == TAIL
    && (forall i :: 0 <= i < |c| ==> c[i] < |h|)
    && (forall i :: 0 <= i < |c| - 1 ==> h[c[i]].next.Link? && h[c[i]].next.target == c[i + 1])
    && (forall i, j {:trigger Before(h, c[i], c[j])} :: 0 <= i < j < |c| ==> Before(h, c[i], c[j]))
  }

  /** The nodes that were linked at some time: still on the chain, or marked. */
  predicate Linked(h: Heap, c: seq<nat>, n: nat) {
    n in c || Marked(h, n)
  }

  ghost predicate LinkOk(h: Heap, c: seq<nat>, n: nat)
    requires n < |h|
  {
    h[n].next.Link? && Linked(h, c, h[n].next.target) && Before(h, n, h[n].next.target)
  }

  /** Keys strictly increase along `next` from every node that was ever linked, also from
      unlinked ones, and such links only lead to nodes that were linked themselves. */
  ghost predicate ListInv(h: Heap, c: seq<nat>) {
    && |h| >= 2
    && IsChain(h, c)
    && !Marked(h, HEAD)
    && h[TAIL].next == Link(TAIL, false)
    && (forall n: nat :: n < |h| && n != TAIL && Linked(h, c, n) ==> LinkOk(h, c, n))
  }

  lemma EmptyListInv()
    ensures ListInv(EMPTY_LIST, [HEAD, TAIL])
    ensures Members(EMPTY_LIST) == {}
  {
  }

  lemma {:induction false} PathInChain(h: Heap, c: seq<nat>, p: seq<nat>)
    requires ListInv(h, c) && Path(h, p)
    ensures p[|p| - 1] in c
    decreases |p|
  {
    if |p| > 1 {
      var q := p[..|p| - 1];
      PathInChain(h, c, q);
      var i :| 0 <= i < |c| && c[i] == q[|q| - 1];
      assert h[p[|p| - 2]].next.target == p[|p| - 1];
      if i < |c| - 1 {
        assert c[i + 1] == p[|p| - 1];
      }
    }
  }

  /** A node is reachable from the head exactly when it is on the chain. */
  lemma ReachableIffOnChain(h: Heap, c: seq<nat>, n: nat)
    requires ListInv(h, c)
    ensures Reachable(h, n) <==> n in c
  {
    if n in c {
      var i :| 0 <= i < |c| && c[i] == n;
      assert Path(h, c[..i + 1]);
    }
    if Reachable(h, n) {
      var p: seq<nat> :| Path(h, p) && p[|p| - 1] == n;
      PathInChain(h, c, p);
    }
  }

  lemma {:induction false} ChainPrefixUnique(h: Heap, c: seq<nat>, d: seq<nat>, k: nat)
    requires IsChain(h, c) && IsChain(h, d) && k < |c| && k < |d|
    ensures c[..k + 1] == d[..k + 1]
  {
    if k > 0 {
      ChainPrefixUnique(h, c, d, k - 1);
      assert c[k - 1] == c[..k][k - 1] == d[..k][k - 1] == d[k - 1];
    }
  }

  lemma ChainUnique(h: Heap, c: seq<nat>, d: seq<nat>)
    requires IsChain(h, c) && IsChain(h, d)
    ensures c == d
  {
    var k := if |c| <= |d| then |c| - 1 else |d| - 1;
    ChainPrefixUnique(h, c, d, k);
    assert c[k] == c[..k + 1][k] == d[..k + 1][k] == d[k];
    assert |c| < |d| ==> Before(h, d[k], d[|d| - 1]);
    assert |d| < |c| ==> Before(h, c[k], c[|c| - 1]);
  }

  ghost predicate Holds(h: Heap, c: seq<nat>, key: int) {
    exists n :: n in c && Stores(h, n, key) && !Marked(h, n)
  }

  lemma MembersIsHolds(h: Heap, c: seq<nat>, key: int)
    requires ListInv(h, c)
    ensures key in Members(h) <==> Holds(h, c, key)
  {
    if key in Members(h) {
      var n: nat :| n < |h| && n != HEAD && n != TAIL && Reachable(h, n) && !Marked(h, n) && h[n].key == key;
      ReachableIffOnChain(h, c, n);
      assert Stores(h, n, key);
    }
    if Holds(h, c, key) {
      var n :| n in c && Stores(h, n, key) && !Marked(h, n);
      ReachableIffOnChain(h, c, n);
    }
  }

  /** Two heaps whose chains hold the same keys denote the same set. */
  lemma SameMembers(h: Heap, c: seq<nat>, h': Heap, c': seq<nat>)
    requires ListInv(h, c) && ListInv(h', c')
    requires forall k :: Holds(h, c, k) <==> Holds(h', c', k)
    ensures Members(h) == Members(h')
  {
    forall k
      ensures k in Members(h) <==> k in Members(h')
    {
      MembersIsHolds(h, c, k);
      MembersIsHolds(h', c', k);
    }
  }

  lemma ChainDistinct(h: Heap, c: seq<nat>, i: int, j: int)
    requires IsChain(h, c)
    ensures 0 <= i < |c| && 0 <= j < |c| && i != j ==> c[i] != c[j]
  {
    assert 0 <= i < j < |c| ==> Before(h, c[i], c[j]);
    assert 0 <= j < i < |c| ==> Before(h, c[j], c[i]);
  }

  /** The chain depends only on the keys and the targets of its own nodes. */
  lemma ChainFrame(h: Heap, c: seq<nat>, h': Heap)
    requires IsChain(h, c) && |h| <= |h'|
    requires forall n: nat :: n < |h| ==> h'[n].key == h[n].key
    requires forall n: nat :: n in c && n != TAIL ==> h'[n].next.Link? && h'[n].next.target == h[n].next.target
    ensures IsChain(h', c)
  {
    forall i | 0 <= i < |c| - 1
      ensures h'[c[i]].next.Link? && h'[c[i]].next.target == c[i + 1]
    {
      ChainDistinct(h, c, i, |c| - 1);
    }
    forall i, j | 0 <= i < j < |c|
      ensures Before(h', c[i], c[j])
    {
      assert Before(h, c[i], c[j]);
    }
  }

  /** At most one node of the chain stores a given key. */
  lemma KeyOnChainOnce(h: Heap, c: seq<nat>, m: nat, n: nat, key: int)
    requires IsChain(h, c) && m in c && n in c && Stores(h, m, key) && Stores(h, n, key)
    ensures m == n
  {
    var i :| 0 <= i < |c| && c[i] == m;
    var j :| 0 <= j < |c| && c[j] == n;
    assert i < j ==> Before(h, c[i], c[j]);
    assert j < i ==> Before(h, c[j], c[i]);
  }

  /** An unmarked linked node with `left.key < key <= right.key` directly before `right`
      decides membership of `key`: it is in the set iff `right` stores it unmarked. */
  lemma AdjacentDecides(h: Heap, c: seq<nat>, left: nat, right: nat, key: int)
    requires ListInv(h, c) && left in c
    requires h[left].next == Link(right, false)
    requires BelowKey(h, left, key) && AtLeastKey(h, right, key)
    ensures key in Members(h) <==> Stores(h, right, key) && !Marked(h, right)
  {
    MembersIsHolds(h, c, key);
    var a :| 0 <= a < |c| && c[a] == left;
    assert a < |c| - 1 && c[a + 1] == right;
    if Holds(h, c, key) {
      var n :| n in c && Stores(h, n, key) && !Marked(h, n);
      var i :| 0 <= i < |c| && c[i] == n;
      assert i < a ==> Before(h, c[i], c[a]);
      assert i > a + 1 ==> Before(h, c[a + 1], c[i]);
    }
  }

  // ---------------------------------------------------------------- how the heap evolves

  /** What one step of one thread may do: keys never change, a marked node is frozen, what
      was linked stays linked or marked, and nodes not yet linked are untouched, except for
      the stepping thread's own node `own`. */
  ghost predicate Evolves(h: Heap, c: seq<nat>, h': Heap, c': seq<nat>, own: nat) {
    && |h| <= |h'|
    && (forall n: nat :: n < |h| ==> h'[n].key == h[n].key)
    && (forall n: nat :: Marked(h, n) ==> h'[n] == h[n])
    && (forall n: nat :: Marked(h, n) && n !in c ==> n !in c')
    && (forall n: nat :: n < |h| && Linked(h, c, n) ==> Linked(h', c', n))
    && (forall n: nat :: n < |h| && !Linked(h, c, n) && n != own ==> h'[n] == h[n] && !Linked(h', c', n))
  }

  lemma EvolvesRefl(h: Heap, c: seq<nat>, own: nat)
    ensures Evolves(h, c, h, c, own)
  {
  }

  /** A node that no thread has linked yet. */
  predicate Private(h: Heap, c: seq<nat>, n: nat) {
    n < |h| && n != HEAD && n != TAIL && !Linked(h, c, n)
  }

  /** `new Node()`: the new node is private. */
  lemma Alloc(h: Heap, c: seq<nat>, key: int)
    requires ListInv(h, c)
    ensures var h' := h + [Node(key, Null)];
            ListInv(h', c) && Evolves(h, c, h', c, |h|) && Private(h', c, |h|) && Members(h') == Members(h)
  {
    var h' := h + [Node(key, Null)];
    assert forall n: nat :: n < |h| ==> h'[n] == h[n];
    ChainFrame(h, c, h');
    assert forall n: nat :: Linked(h', c, n) <==> Linked(h, c, n);
    forall n: nat | n < |h'| && n != TAIL && Linked(h', c, n)
      ensures LinkOk(h', c, n)
    {
      assert LinkOk(h, c, n);
    }
    assert forall k, n :: n in c ==> (Stores(h, n, k) <==> Stores(h', n, k));
    SameMembers(h, c, h', c);
  }

  /** `insertion->next = right` on a private node. */
  lemma StorePrivate(h: Heap, c: seq<nat>, own: nat, right: nat)
    requires ListInv(h, c) && Private(h, c, own)
    ensures var h' := h[own := h[own].(next := Link(right, false))];
            ListInv(h', c) && Evolves(h, c, h', c, own) && Private(h', c, own) && Members(h') == Members(h)
  {
    var h' := h[own := h[own].(next := Link(right, false))];
    assert forall n: nat :: n < |h| && n != own ==> h'[n] == h[n];
    ChainFrame(h, c, h');
    assert forall n: nat :: Linked(h', c, n) <==> Linked(h, c, n);
    forall n: nat | n < |h'| && n != TAIL && Linked(h', c, n)
      ensures LinkOk(h', c, n)
    {
      assert LinkOk(h, c, n);
    }
    assert forall k, n :: n in c ==> (Stores(h, n, k) <==> Stores(h', n, k));
    SameMembers(h, c, h', c);
  }

  // ---------------------------------------------------------------- the link CAS

  ghost function InsertedAfter(c: seq<nat>, a: nat, own: nat): seq<nat>
    requires a < |c|
  {
    c[..a + 1] + [own] + c[a + 1..]
  }

  /** A successful `cas(left->next, right, insertion)` adds the key and nothing else. */
  lemma LinkFresh(h: Heap, c: seq<nat>, left: nat, right: nat, own: nat) returns (c': seq<nat>)
    requires ListInv(h, c) && Private(h, c, own)
    requires left in c && h[left].next == Link(right, false) && h[own].next == Link(right, false)
    requires BelowKey(h, left, h[own].key) && AtLeastKey(h, right, h[own].key) && !Stores(h, right, h[own].key)
    ensures var h' := h[left := h[left].(next := Link(own, false))];
            && ListInv(h', c') && Evolves(h, c, h', c', own)
            && h[own].key !in Members(h) && Members(h') == Members(h) + {h[own].key}
    ensures own in c'
  {
    var h' := h[left := h[left].(next := Link(own, false))];
    var a :| 0 <= a < |c| && c[a] == left;
    assert a < |c| - 1 && c[a + 1] == right;
    c' := InsertedAfter(c, a, own);
    InsertKeepsChain(h, c, a, own);
    InsertKeepsLinks(h, c, a, own);
    AdjacentDecides(h, c, left, right, h[own].key);
    forall k ensures k in Members(h') <==> k in Members(h) || k == h[own].key {
      InsertAddsKey(h, c, a, own, k);
    }
  }

  lemma InsertAddsKey(h: Heap, c: seq<nat>, a: nat, own: nat, k: int)
    requires ListInv(h, c) && Private(h, c, own) && a < |c| - 1
    requires var h' := h[c[a] := h[c[a]].(next := Link(own, false))]; ListInv(h', InsertedAfter(c, a, own))
    requires !h[c[a]].next.marked && h[own].next == Link(c[a + 1], false)
    ensures var h' := h[c[a] := h[c[a]].(next := Link(own, false))];
            k in Members(h') <==> k in Members(h) || k == h[own].key
  {
    var h' := h[c[a] := h[c[a]].(next := Link(own, false))];
    var c' := InsertedAfter(c, a, own);
    MembersIsHolds(h, c, k);
    MembersIsHolds(h', c', k);
    assert c'[a + 1] == own;
    if Holds(h, c, k) {
      var n :| n in c && Stores(h, n, k) && !Marked(h, n);
      assert n in c' && Stores(h', n, k) && !Marked(h', n);
    }
    if k == h[own].key {
      assert own in c' && Stores(h', own, k) && !Marked(h', own);
    }
    if Holds(h', c', k) && k != h[own].key {
      var n :| n in c' && Stores(h', n, k) && !Marked(h', n);
      assert n in c && Stores(h, n, k) && !Marked(h, n);
    }
  }

  lemma InsertKeepsLinks(h: Heap, c: seq<nat>, a: nat, own: nat)
    requires ListInv(h, c) && Private(h, c, own) && a < |c| - 1
    requires !h[c[a]].next.marked && h[own].next == Link(c[a + 1], false)
    requires BelowKey(h, c[a], h[own].key) && AtLeastKey(h, c[a + 1], h[own].key) && !Stores(h, c[a + 1], h[own].key)
    ensures var h' := h[c[a] := h[c[a]].(next := Link(own, false))];
            var c' := InsertedAfter(c, a, own);
            && (forall n: nat :: n < |h| && n != TAIL && Linked(h', c', n) ==> LinkOk(h', c', n))
            && Evolves(h, c, h', c', own)
            && !Marked(h', HEAD) && h'[TAIL].next == Link(TAIL, false)
  {
    var h' := h[c[a] := h[c[a]].(next := Link(own, false))];
    var c' := InsertedAfter(c, a, own);
    ChainDistinct(h, c, a, |c| - 1);
    assert c'[a + 1] == own && c'[a + 2] == c[a + 1];
    assert forall n: nat :: n in c' <==> n in c || n == own;
    assert forall n: nat :: n < |h| ==> (Marked(h', n) <==> Marked(h, n));
    assert forall n: nat :: Linked(h', c', n) <==> Linked(h, c, n) || n == own;
    forall n: nat | n < |h'| && n != TAIL && Linked(h', c', n)
      ensures LinkOk(h', c', n)
    {
      if n != own && n != c[a] {
        assert LinkOk(h, c, n);
      }
    }
  }

  lemma InsertKeepsChain(h: Heap, c: seq<nat>, a: nat, own: nat)
    requires ListInv(h, c) && Private(h, c, own) && a < |c| - 1
    requires !h[c[a]].next.marked && h[own].next == Link(c[a + 1], false)
    requires BelowKey(h, c[a], h[own].key) && AtLeastKey(h, c[a + 1], h[own].key) && !Stores(h, c[a + 1], h[own].key)
    ensures IsChain(h[c[a] := h[c[a]].(next := Link(own, false))], InsertedAfter(c, a, own))
  {
    var h' := h[c[a] := h[c[a]].(next := Link(own, false))];
    var c' := InsertedAfter(c, a, own);
    assert forall i :: 0 <= i < |c'| ==> c'[i] == if i <= a then c[i] else if i == a + 1 then own else c[i - 1];
    hide InsertedAfter;
    forall i | 0 <= i < |c'| - 1
      ensures h'[c'[i]].next.Link? && h'[c'[i]].next.target == c'[i + 1]
    {
      ChainDistinct(h, c, i, a);
      ChainDistinct(h, c, i - 1, a);
    }
    hide Linked;
    forall i, j | 0 <= i < j < |c'|
      ensures Before(h', c'[i], c'[j])
    {
      InsertedBefore(h, c, a, own, i, j);
    }
  }

  lemma InsertedBefore(h: Heap, c: seq<nat>, a: nat, own: nat, i: nat, j: nat)
    requires IsChain(h, c) && own < |h| && own != HEAD && own != TAIL && a < |c| - 1 && i < j <= |c|
    requires BelowKey(h, c[a], h[own].key) && AtLeastKey(h, c[a + 1], h[own].key) && !Stores(h, c[a + 1], h[own].key)
    ensures var h' := h[c[a] := h[c[a]].(next := Link(own, false))];
            var x := if i <= a then c[i] else if i == a + 1 then own else c[i - 1];
            var y := if j <= a then c[j] else if j == a + 1 then own else c[j - 1];
            Before(h', x, y)
  {
    if j == a + 1 {
      assert i < a ==> Before(h, c[i], c[a]);
    } else if i == a + 1 {
      assert j - 1 > a + 1 ==> Before(h, c[a + 1], c[j - 1]);
    } else {
      assert Before(h, c[if i <= a then i else i - 1], c[if j <= a then j else j - 1]);
    }
  }

  // ---------------------------------------------------------------- the bypass CAS

  /** A path of marked nodes; it is frozen, since marked nodes never change. */
  ghost predicate MarkedPath(h: Heap, p: seq<nat>, to: nat) {
    && |p| > 0
    && (forall i :: 0 <= i < |p| ==> Marked(h, p[i]))
    && (forall i :: 0 <= i < |p| - 1 ==> h[p[i]].next.target == p[i + 1])
    && h[p[|p| - 1]].next.target == to
  }

  ghost predicate Bypassable(h: Heap, from: nat, to: nat) {
    exists p: seq<nat> :: MarkedPath(h, p, to) && p[0] == from
  }

  lemma BypassableGrows(h: Heap, from: nat, n: nat)
    requires Marked(h, n) && (from == n || Bypassable(h, from, n))
    ensures Bypassable(h, from, h[n].next.target)
  {
    if from == n {
      assert MarkedPath(h, [n], h[n].next.target);
    } else {
      var p: seq<nat> :| MarkedPath(h, p, n) && p[0] == from;
      var q := p + [n];
      assert forall i :: 0 <= i < |q| ==> q[i] == if i < |p| then p[i] else n;
      assert MarkedPath(h, q, h[n].next.target) && q[0] == from;
    }
  }

  lemma BypassableStable(h: Heap, c: seq<nat>, h': Heap, c': seq<nat>, own: nat, from: nat, to: nat)
    requires Evolves(h, c, h', c', own) && Bypassable(h, from, to)
    ensures Bypassable(h', from, to)
  {
    var p: seq<nat> :| MarkedPath(h, p, to) && p[0] == from;
    assert MarkedPath(h', p, to);
  }

  lemma {:induction false} MarkedPathOnChain(h: Heap, c: seq<nat>, a: nat, p: seq<nat>, to: nat, k: nat)
    requires ListInv(h, c) && a < |c| - 1 && MarkedPath(h, p, to) && c[a + 1] == p[0] && k < |p|
    ensures a + 2 + k < |c| && c[a + 1 + k] == p[k]
    ensures c[a + 2 + k] == h[p[k]].next.target
  {
    if k > 0 {
      MarkedPathOnChain(h, c, a, p, to, k - 1);
    }
    assert Marked(h, p[k]) && !Marked(h, TAIL);
  }

  /** A successful `cas(left->next, leftNext, right)` past marked nodes keeps the set. */
  lemma BypassMarked(h: Heap, c: seq<nat>, left: nat, from: nat, right: nat) returns (c': seq<nat>)
    requires ListInv(h, c) && left in c && h[left].next == Link(from, false) && Bypassable(h, from, right)
    ensures var h' := h[left := h[left].(next := Link(right, false))];
            ListInv(h', c') && Evolves(h, c, h', c', |h|) && left in c' && Members(h') == Members(h)
    ensures from in c && Marked(h, from) && from !in c'
  {
    var h' := h[left := h[left].(next := Link(right, false))];
    var p: seq<nat> :| MarkedPath(h, p, right) && p[0] == from;
    var a :| 0 <= a < |c| && c[a] == left;
    MarkedPathOnChain(h, c, a, p, right, |p| - 1);
    var b := a + 1 + |p|;
    assert b < |c| && c[b] == right;
    forall i | a < i < b
      ensures Marked(h, c[i])
    {
      MarkedPathOnChain(h, c, a, p, right, i - a - 1);
    }
    c' := c[..a + 1] + c[b..];
    CutKeepsChain(h, c, a, b);
    assert left == c'[a];
    CutDrops(h, c, a, b);
    CutKeepsLinks(h, c, a, b);
    forall k ensures Holds(h, c, k) <==> Holds(h', c', k) {
      if Holds(h, c, k) {
        var n :| n in c && Stores(h, n, k) && !Marked(h, n);
        assert n in c' && Stores(h', n, k) && !Marked(h', n);
      }
      if Holds(h', c', k) {
        var n :| n in c' && Stores(h', n, k) && !Marked(h', n);
        assert n in c && Stores(h, n, k) && !Marked(h, n);
      }
    }
    SameMembers(h, c, h', c');
  }

  lemma CutLink(h: Heap, c: seq<nat>, a: nat, b: nat, i: nat)
    requires IsChain(h, c) && a < b < |c| && i + 1 < |c[..a + 1] + c[b..]|
    ensures var h' := h[c[a] := h[c[a]].(next := Link(c[b], false))];
            var c' := c[..a + 1] + c[b..];
            c'[i] < |h'| && h'[c'[i]].next.Link? && h'[c'[i]].next.target == c'[i + 1]
  {
    ChainDistinct(h, c, if i <= a then i else i + b - a - 1, a);
  }

  lemma CutBefore(h: Heap, c: seq<nat>, a: nat, b: nat, i: nat, j: nat)
    requires IsChain(h, c) && a < b < |c| && i < j < |c[..a + 1] + c[b..]|
    ensures var h' := h[c[a] := h[c[a]].(next := Link(c[b], false))];
            var c' := c[..a + 1] + c[b..];
            Before(h', c'[i], c'[j])
  {
    assert Before(h, c[if i <= a then i else i + b - a - 1], c[if j <= a then j else j + b - a - 1]);
  }

  lemma CutKeepsChain(h: Heap, c: seq<nat>, a: nat, b: nat)
    requires ListInv(h, c) && a < b < |c| && !h[c[a]].next.marked
    ensures IsChain(h[c[a] := h[c[a]].(next := Link(c[b], false))], c[..a + 1] + c[b..])
  {
    hide LinkOk, Linked, Before, Marked;
    var h' := h[c[a] := h[c[a]].(next := Link(c[b], false))];
    var c' := c[..a + 1] + c[b..];
    forall i | 0 <= i < |c'| - 1
      ensures c'[i] < |h'| && h'[c'[i]].next.Link? && h'[c'[i]].next.target == c'[i + 1]
    {
      CutLink(h, c, a, b, i);
    }
    forall i, j | 0 <= i < j < |c'|
      ensures Before(h', c'[i], c'[j])
    {
      CutBefore(h, c, a, b, i, j);
    }
  }

  lemma CutDrops(h: Heap, c: seq<nat>, a: nat, b: nat)
    requires IsChain(h, c) && a + 1 < b < |c|
    ensures c[a + 1] in c && c[a + 1] !in c[..a + 1] + c[b..]
  {
    var c' := c[..a + 1] + c[b..];
    forall i | 0 <= i < |c'|
      ensures c'[i] != c[a + 1]
    {
      ChainDistinct(h, c, if i <= a then i else i - (a + 1) + b, a + 1);
    }
  }

  lemma CutNodes(h: Heap, c: seq<nat>, a: nat, b: nat)
    requires a < b < |c| && forall i :: a < i < b ==> Marked(h, c[i])
    ensures var c' := c[..a + 1] + c[b..];
            && (forall n: nat :: n in c ==> n in c' || Marked(h, n))
            && (forall n: nat :: n in c' ==> n in c)
  {
    var c' := c[..a + 1] + c[b..];
    forall n: nat | n in c
      ensures n in c' || Marked(h, n)
    {
      var i :| 0 <= i < |c| && c[i] == n;
      if i <= a {
        assert c'[i] == n;
      } else if i >= b {
        assert c'[i - b + a + 1] == n;
      }
    }
  }

  lemma CutKeepsLinks(h: Heap, c: seq<nat>, a: nat, b: nat)
    requires ListInv(h, c) && a < b < |c| && !h[c[a]].next.marked
    requires forall i :: a < i < b ==> Marked(h, c[i])
    ensures var h' := h[c[a] := h[c[a]].(next := Link(c[b], false))];
            var c' := c[..a + 1] + c[b..];
            && (forall n: nat :: n in c ==> n in c' || Marked(h, n))
            && (forall n: nat :: n in c' ==> n in c)
            && (forall n: nat :: n < |h| && n != TAIL && Linked(h', c', n) ==> LinkOk(h', c', n))
            && Evolves(h, c, h', c', |h|)
            && (forall n: nat :: Marked(h', n) <==> Marked(h, n))
            && !Marked(h', HEAD) && h'[TAIL].next == Link(TAIL, false)
  {
    var h' := h[c[a] := h[c[a]].(next := Link(c[b], false))];
    var c' := c[..a + 1] + c[b..];
    CutNodes(h, c, a, b);
    CutMarks(h, c, a, b);
    hide ListInv, LinkOk, Marked;
    CutEvolves(h, c, h', c', c[a]);
    forall n: nat | n < |h| && n != TAIL && Linked(h', c', n)
      ensures LinkOk(h', c', n)
    {
      CutLinkOk(h, c, a, b, n);
    }
  }

  lemma CutMarks(h: Heap, c: seq<nat>, a: nat, b: nat)
    requires ListInv(h, c) && a < b < |c| && !h[c[a]].next.marked
    ensures c[a] in c && c[a] < |h| && c[a] != TAIL
    ensures var h' := h[c[a] := h[c[a]].(next := Link(c[b], false))];
            && (forall n: nat :: Marked(h', n) <==> Marked(h, n))
            && !Marked(h', HEAD) && h'[TAIL].next == Link(TAIL, false)
            && (forall n: nat :: n < |h| ==> h'[n].key == h[n].key)
            && (forall n: nat :: Marked(h, n) ==> h'[n] == h[n])
  {
    assert Before(h, c[a], c[b]);
    hide LinkOk;
  }

  lemma CutEvolves(h: Heap, c: seq<nat>, h': Heap, c': seq<nat>, left: nat)
    requires |h'| == |h| && left in c && forall n: nat :: n < |h| && n != left ==> h'[n] == h[n]
    requires forall n: nat :: n < |h| ==> h'[n].key == h[n].key
    requires forall n: nat :: Marked(h, n) ==> h'[n] == h[n]
    requires forall n: nat :: Marked(h', n) <==> Marked(h, n)
    requires forall n: nat :: n in c ==> n in c' || Marked(h, n)
    requires forall n: nat :: n in c' ==> n in c
    ensures Evolves(h, c, h', c', |h|)
    ensures forall n: nat :: Linked(h', c', n) <==> Linked(h, c, n)
  {
    hide Marked;
  }

  lemma CutLinkOk(h: Heap, c: seq<nat>, a: nat, b: nat, n: nat)
    requires ListInv(h, c) && a < b < |c| && !h[c[a]].next.marked
    requires forall i :: a < i < b ==> Marked(h, c[i])
    requires n < |h| && n != TAIL && Linked(h, c, n)
    ensures LinkOk(h[c[a] := h[c[a]].(next := Link(c[b], false))], c[..a + 1] + c[b..], n)
  {
    var c' := c[..a + 1] + c[b..];
    CutNodes(h, c, a, b);
    assert Before(h, c[a], c[b]);
    assert LinkOk(h, c, n);
    assert c'[a + 1] == c[b];
    hide IsChain;
  }

  // ---------------------------------------------------------------- the mark CAS

  /** A successful `cas(right->next, rightNext, marked(rightNext))` removes the key and
      nothing else; the chain is unchanged. */
  lemma MarkNode(h: Heap, c: seq<nat>, n: nat, key: int)
    requires ListInv(h, c) && n in c && Stores(h, n, key) && !Marked(h, n)
    ensures var h' := h[n := h[n].(next := Link(h[n].next.target, true))];
            && ListInv(h', c) && Evolves(h, c, h', c, |h|)
            && key in Members(h) && Members(h') == Members(h) - {key}
  {
    var h' := h[n := h[n].(next := Link(h[n].next.target, true))];
    assert LinkOk(h, c, n);
    ChainFrame(h, c, h');
    MarkKeepsLinks(h, c, n);
    forall k ensures k in Members(h') <==> k in Members(h) && k != key {
      MarkRemovesKey(h, c, n, key, k);
    }
    MembersIsHolds(h, c, key);
  }

  lemma MarkKeepsLinks(h: Heap, c: seq<nat>, n: nat)
    requires ListInv(h, c) && n in c && n != TAIL && !Marked(h, n)
    ensures var h' := h[n := h[n].(next := Link(h[n].next.target, true))];
            && (forall m: nat :: m < |h| && m != TAIL && Linked(h', c, m) ==> LinkOk(h', c, m))
            && Evolves(h, c, h', c, |h|)
  {
    var h' := h[n := h[n].(next := Link(h[n].next.target, true))];
    assert LinkOk(h, c, n);
    assert forall m: nat :: Linked(h', c, m) <==> Linked(h, c, m);
    forall m: nat | m < |h'| && m != TAIL && Linked(h', c, m)
      ensures LinkOk(h', c, m)
    {
      assert LinkOk(h, c, m);
    }
  }

  lemma MarkRemovesKey(h: Heap, c: seq<nat>, n: nat, key: int, k: int)
    requires ListInv(h, c) && n in c && Stores(h, n, key) && !Marked(h, n)
    requires ListInv(h[n := h[n].(next := Link(h[n].next.target, true))], c)
    ensures var h' := h[n := h[n].(next := Link(h[n].next.target, true))];
            k in Members(h') <==> k in Members(h) && k != key
  {
    var h' := h[n := h[n].(next := Link(h[n].next.target, true))];
    MembersIsHolds(h, c, k);
    MembersIsHolds(h', c, k);
    if Holds(h, c, k) && k != key {
      var m :| m in c && Stores(h, m, k) && !Marked(h, m);
      assert Stores(h', m, k) && !Marked(h', m);
    }
    if Holds(h', c, k) {
      var m :| m in c && Stores(h', m, k) && !Marked(h', m);
      assert Stores(h, m, k) && !Marked(h, m);
      if k == key {
        KeyOnChainOnce(h, c, m, n, key);
      }
    }
  }
}
