/**
  Tree nodes as indices into the arena's bitmap: children, parent and sibling are computed
  on unsigned 64-bit indices, and the marked bits stand for a set of marked nodes.
*/
module BuddyIndex {
  import opened Basics
  import opened BuddyTree
  import opened Bitmap

  const SIZE_RANGE: nat := 0x1_0000_0000_0000_0000

  /** `x ^ 1` */
  function FlipLowest(x: nat): nat {
    if x % 2 == 0 then x + 1 else x - 1
  }

  function LeftIndex(i: nat): nat { 2 * i + 1 }

  function RightIndex(i: nat): nat { 2 * i + 2 }

  function ParentIndex(i: nat): nat
    requires i > 0
  {
    (i - 1) / 2
  }

  /** The subtraction wraps around for the root, whose sibling is the largest index. */
  function SiblingIndex(i: nat): nat {
    (FlipLowest((i - 1) % SIZE_RANGE) + 1) % SIZE_RANGE
  }

  predicate IsLeftIndex(i: nat) {
    i < SiblingIndex(i)
  }

  function Index(n: Node): nat {
    Pow2(n.bucket) - 1 + n.rank
  }

  predicate DepthOk(depth: nat) {
    depth >= 1 && Pow2(depth) < SIZE_RANGE
  }

  lemma {:induction false} Pow2Monotone(a: nat, b: nat)
    requires a <= b
    ensures Pow2(a) <= Pow2(b)
    decreases b - a
  {
    if a < b {
      Pow2Monotone(a, b - 1);
    }
  }

  lemma IndexInRange(depth: nat, n: Node)
    requires InTree(depth, n)
    ensures Index(n) < Pow2(depth) - 1
  {
    Pow2Monotone(n.bucket + 1, depth);
  }

  lemma IndexInjective(depth: nat, m: Node, n: Node)
    requires InTree(depth, m) && InTree(depth, n) && Index(m) == Index(n)
    ensures m == n
  {
    if m.bucket < n.bucket {
      Pow2Monotone(m.bucket + 1, n.bucket);
    } else if n.bucket < m.bucket {
      Pow2Monotone(n.bucket + 1, m.bucket);
    }
  }

  /** Away from the root the 64-bit sibling is the neighbour on the other side. */
  lemma SiblingInRange(i: nat)
    requires 0 < i < SIZE_RANGE - 1
    ensures SiblingIndex(i) == if i % 2 == 1 then i + 1 else i - 1
  {
    assert (i - 1) % SIZE_RANGE == i - 1;
    var j := FlipLowest(i - 1) + 1;
    assert j == if i % 2 == 1 then i + 1 else i - 1;
    assert j % SIZE_RANGE == j;
  }

  lemma RootSibling()
    ensures SiblingIndex(0) == SIZE_RANGE - 1 && IsLeftIndex(0)
  {
    assert (0 - 1) % SIZE_RANGE == SIZE_RANGE - 1;
  }

  /** The index arithmetic follows the tree. */
  lemma IndexFamily(depth: nat, n: Node)
    requires DepthOk(depth) && InTree(depth, n)
    ensures LeftIndex(Index(n)) == Index(Left(n)) && RightIndex(Index(n)) == Index(Right(n))
    ensures Index(n) == 0 <==> n == ROOT
    ensures n.bucket > 0 ==>
            Index(n) > 0 && ParentIndex(Index(n)) == Index(Parent(n)) && SiblingIndex(Index(n)) == Index(Sibling(n))
    ensures IsLeftIndex(Index(n)) <==> IsLeft(n)
    ensures n.bucket == 0 ==> n == ROOT
  {
    hide SiblingIndex;
    IndexInRange(depth, n);
    assert Pow2(n.bucket + 1) == 2 * Pow2(n.bucket);
    RootSibling();
    if n.bucket > 0 {
      var half := Pow2(n.bucket - 1);
      assert Pow2(n.bucket) == 2 * half;
      SiblingInRange(Index(n));
      assert Index(n) % 2 == (n.rank + 1) % 2;
    }
  }

  /** The nodes whose bits are set. */
  ghost function MarksOf(depth: nat, bytes: seq<bv8>): set<Node>
    requires 8 * |bytes| >= Pow2(depth) - 1
  {
    set b: nat, k: nat | b < depth && k < Pow2(b) && BitOf(depth, bytes, Node(b, k)) :: Node(b, k)
  }

  predicate BitOf(depth: nat, bytes: seq<bv8>, n: Node)
    requires 8 * |bytes| >= Pow2(depth) - 1 && InTree(depth, n)
  {
    IndexInRange(depth, n);
    IsMarked(bytes, Index(n))
  }

  lemma InMarks(depth: nat, bytes: seq<bv8>, n: Node)
    requires 8 * |bytes| >= Pow2(depth) - 1
    ensures n in MarksOf(depth, bytes) <==> InTree(depth, n) && BitOf(depth, bytes, n)
  {
    if InTree(depth, n) && BitOf(depth, bytes, n) {
      assert Node(n.bucket, n.rank) == n;
    }
  }

  lemma NothingMarked(depth: nat, bytes: seq<bv8>)
    requires 8 * |bytes| >= Pow2(depth) - 1 && forall k :: 0 <= k < |bytes| ==> bytes[k] == 0
    ensures MarksOf(depth, bytes) == {}
  {
    forall n
      ensures n !in MarksOf(depth, bytes)
    {
      InMarks(depth, bytes, n);
      if InTree(depth, n) {
        IndexInRange(depth, n);
        NoBits(Index(n) % 8);
      }
    }
  }

  lemma NoBits(k: nat)
    requires k < 8
    ensures !HasBit(0, k)
  {
  }

  lemma MarkOne(depth: nat, bytes: seq<bv8>, n: Node)
    requires 8 * |bytes| >= Pow2(depth) - 1 && InTree(depth, n) && Index(n) / 8 < |bytes|
    ensures MarksOf(depth, WithMark(bytes, Index(n))) == MarksOf(depth, bytes) + {n}
    ensures MarksOf(depth, WithoutMark(bytes, Index(n))) == MarksOf(depth, bytes) - {n}
  {
    hide MarksOf, WithMark, WithoutMark, IsMarked;
    WithKeepsLength(bytes, Index(n));
    forall x
      ensures x in MarksOf(depth, WithMark(bytes, Index(n))) <==> x in MarksOf(depth, bytes) + {n}
      ensures x in MarksOf(depth, WithoutMark(bytes, Index(n))) <==> x in MarksOf(depth, bytes) - {n}
    {
      InMarks(depth, bytes, x);
      InMarks(depth, WithMark(bytes, Index(n)), x);
      InMarks(depth, WithoutMark(bytes, Index(n)), x);
      if InTree(depth, x) {
        IndexInRange(depth, x);
        OneBitChanges(bytes, Index(n), Index(x));
        if Index(x) == Index(n) {
          IndexInjective(depth, x, n);
        }
      }
    }
  }

  lemma WithKeepsLength(bytes: seq<bv8>, i: nat)
    requires i / 8 < |bytes|
    ensures |WithMark(bytes, i)| == |bytes| && |WithoutMark(bytes, i)| == |bytes|
  {
  }
}
