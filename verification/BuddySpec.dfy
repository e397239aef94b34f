/**
  The buddy arena's operations on sets of marked nodes: which block an allocation takes,
  and how a reallocation shrinks, grows or moves a block.
*/
module BuddySpec {
  import opened Basics
  import opened BuddyTree

  const GRANULARITY: nat := 16

  /** Block sizes in bytes; there is no block in or below bucket `depth`. */
  function BucketSize(depth: nat, bucket: nat): nat {
    if bucket >= depth then 0 else GRANULARITY * Pow2(depth - 1 - bucket)
  }

  function Capacity(depth: nat): nat { BucketSize(depth, 0) }

  function Offset(depth: nat, n: Node): nat
    requires n.bucket < depth
  {
    GRANULARITY * Start(depth, n)
  }

  lemma BucketSizeHalves(depth: nat, bucket: nat)
    requires bucket < depth
    ensures BucketSize(depth, bucket) > BucketSize(depth, bucket + 1)
    ensures bucket + 1 < depth ==> BucketSize(depth, bucket) == 2 * BucketSize(depth, bucket + 1)
  {
    if bucket + 1 < depth {
      assert Pow2(depth - 1 - bucket) == 2 * Pow2(depth - 2 - bucket);
    }
  }

  lemma {:induction false} BucketSizeDecreases(depth: nat, a: nat, b: nat)
    requires a < b && a < depth
    ensures BucketSize(depth, a) > BucketSize(depth, b)
    decreases b - a
  {
    BucketSizeHalves(depth, a);
    if a + 1 < b && a + 1 < depth {
      BucketSizeDecreases(depth, a + 1, b);
    }
  }

  /** The bucket whose blocks fit a request best: large enough, and halves would not do. */
  predicate IsBestBucket(depth: nat, size: nat, t: nat) {
    t < depth && BucketSize(depth, t + 1) < size <= BucketSize(depth, t)
  }

  lemma BestBucketUnique(depth: nat, size: nat, t: nat, u: nat)
    requires IsBestBucket(depth, size, t) && IsBestBucket(depth, size, u)
    ensures t == u
  {
    if t < u {
      if t + 1 < u {
        BucketSizeDecreases(depth, t + 1, u);
      }
    } else if u < t {
      if u + 1 < t {
        BucketSizeDecreases(depth, u + 1, t);
      }
    }
  }

  function BestBucket(depth: nat, size: nat, bucket: nat): (t: nat)
    requires bucket < depth && 1 <= size <= BucketSize(depth, bucket)
    ensures t >= bucket && IsBestBucket(depth, size, t)
    decreases depth - bucket
  {
    if size <= BucketSize(depth, bucket + 1) then BestBucket(depth, size, bucket + 1) else bucket
  }

  /** The bytes to make room for. */
  function AtLeastOne(size: nat): nat { if size == 0 then 1 else size }

  lemma LeavesPositive(depth: nat, bucket: nat)
    requires bucket < depth
    ensures BucketSize(depth, bucket) >= 1 && (bucket + 1 == depth ==> BucketSize(depth, bucket + 1) == 0)
  {
    BucketSizeHalves(depth, bucket);
  }

  // ---------------------------------------------------------------- the block an allocation takes

  /** The available block of bucket `t` with the lowest address. */
  ghost predicate IsLowest(marks: set<Node>, t: nat, n: Node) {
    && n.bucket == t && n.rank < Pow2(t) && Available(marks, n)
    && forall j: nat :: j < n.rank ==> !Available(marks, Node(t, j))
  }

  ghost predicate NoneAvailable(marks: set<Node>, t: nat) {
    forall j: nat :: j < Pow2(t) ==> !Available(marks, Node(t, j))
  }

  /** Nothing available in bucket `t` before rank `upto`. */
  ghost predicate Scanned(marks: set<Node>, t: nat, upto: int) {
    forall j: nat :: j < upto ==> !Available(marks, Node(t, j))
  }

  /** The ranks in bucket `t` below a node of a higher bucket. */
  function FirstRank(n: Node, t: nat): nat
    requires n.bucket <= t
  {
    n.rank * Pow2(t - n.bucket)
  }

  function EndRank(n: Node, t: nat): nat
    requires n.bucket <= t
  {
    (n.rank + 1) * Pow2(t - n.bucket)
  }

  lemma RanksDouble(n: Node, t: nat)
    requires n.bucket < t
    ensures FirstRank(n, t) == 2 * FirstRank(n, t - 1) && EndRank(n, t) == 2 * EndRank(n, t - 1)
  {
    var half := Pow2(t - 1 - n.bucket);
    assert Pow2(t - n.bucket) == 2 * half;
    assert n.rank * (2 * half) == 2 * (n.rank * half);
    assert (n.rank + 1) * (2 * half) == 2 * ((n.rank + 1) * half);
  }

  lemma {:induction false} RanksBelow(n: Node, t: nat, j: nat)
    requires n.bucket <= t
    ensures Above(n, Node(t, j)) <==> FirstRank(n, t) <= j < EndRank(n, t)
    decreases t - n.bucket
  {
    if n.bucket == t {
      if Above(n, Node(t, j)) {
        AboveBucket(n, Node(t, j));
      }
    } else {
      RanksBelow(n, t - 1, j / 2);
      RanksDouble(n, t);
      hide FirstRank, EndRank;
      assert Parent(Node(t, j)) == Node(t - 1, j / 2);
    }
  }

  lemma RanksOfFamily(n: Node, t: nat)
    requires n.bucket < t
    ensures FirstRank(Left(n), t) == FirstRank(n, t) && EndRank(Left(n), t) == FirstRank(Right(n), t)
    ensures EndRank(Right(n), t) == EndRank(n, t)
    ensures FirstRank(n, t) < EndRank(n, t)
  {
    var half := Pow2(t - 1 - n.bucket);
    assert Pow2(t - n.bucket) == 2 * half;
    assert (2 * n.rank) * half == n.rank * (2 * half);
    assert (2 * n.rank + 2) * half == (n.rank + 1) * (2 * half);
    assert (n.rank + 1) * (2 * half) == n.rank * (2 * half) + 2 * half;
  }

  /** A node that is taken as a whole rules out all ranks below it. */
  lemma TakenRanks(marks: set<Node>, n: Node, t: nat)
    requires n.bucket <= t && n in marks && (n.bucket == t || Live(marks, n))
    requires Scanned(marks, t, FirstRank(n, t))
    ensures Scanned(marks, t, EndRank(n, t))
  {
    forall j: nat | j < EndRank(n, t)
      ensures !Available(marks, Node(t, j))
    {
      if FirstRank(n, t) <= j {
        RanksBelow(n, t, j);
        if n.bucket == t {
          AboveBucket(n, Node(t, j));
        }
      }
    }
  }

  // ---------------------------------------------------------------- shrinking in place

  function ShrunkNode(depth: nat, n: Node, size: nat): Node
    requires n.bucket < depth
    decreases depth - n.bucket
  {
    if size <= BucketSize(depth, n.bucket + 1) && n.bucket + 1 < depth then ShrunkNode(depth, Left(n), size) else n
  }

  function ShrunkMarks(depth: nat, marks: set<Node>, n: Node, size: nat): set<Node>
    requires n.bucket < depth
    decreases depth - n.bucket
  {
    if size <= BucketSize(depth, n.bucket + 1) && n.bucket + 1 < depth
    then ShrunkMarks(depth, marks + {Left(n)}, Left(n), size) else marks
  }

  lemma LeftHalfBlocks(depth: nat, marks: set<Node>, n: Node)
    requires Closed(depth, marks) && Live(marks, n) && n.bucket + 1 < depth
    ensures Closed(depth, marks + {Left(n)}) && Live(marks + {Left(n)}, Left(n))
    ensures Blocks(marks + {Left(n)}) == Blocks(marks) - {n} + {Left(n)}
  {
    Family(depth, n);
    LeftHalfLive(depth, marks, n, Left(n));
    hide Closed, Split;
    forall x
      ensures x in Blocks(marks + {Left(n)}) <==> x in Blocks(marks) - {n} + {Left(n)}
    {
      LeftHalfLive(depth, marks, n, x);
    }
  }

  lemma LeftHalfLive(depth: nat, marks: set<Node>, n: Node, x: Node)
    requires Closed(depth, marks) && Live(marks, n)
    ensures Live(marks + {Left(n)}, x) <==> (Live(marks, x) && x != n) || x == Left(n)
    ensures Left(n) !in marks
  {
    var c := Left(n);
    assert Parent(Left(c)) == c && Parent(Right(c)) == c;
    assert Left(x) == c ==> x == n;
    assert Right(x) != c;
  }

  lemma NotABlock(depth: nat, marks: set<Node>, n: Node)
    requires Closed(depth, marks) && Live(marks, n)
    ensures Left(n) !in Blocks(marks)
  {
  }

  /** The leftmost part starts where the block starts, is large enough, and a half of it would not be;
      for no bytes at all it is as small as a block can be. */
  lemma {:induction false} ShrunkShape(depth: nat, n: Node, size: nat)
    requires n.bucket < depth && size <= BucketSize(depth, n.bucket)
    ensures var m := ShrunkNode(depth, n, size);
            && m.bucket < depth && Above(n, m) && Start(depth, m) == Start(depth, n)
            && IsBestBucket(depth, AtLeastOne(size), m.bucket)
    decreases depth - n.bucket
  {
    assert Above(n, n) && Above(n, Left(n));
    LeavesPositive(depth, n.bucket);
    hide Above, Start, BucketSize;
    if size <= BucketSize(depth, n.bucket + 1) && n.bucket + 1 < depth {
      StartOfChildren(depth, n);
      ShrunkShape(depth, Left(n), size);
      AboveTransitive(n, Left(n), ShrunkNode(depth, n, size));
    }
  }

  lemma Replaced(blocks: set<Node>, n: Node, c: Node, m: Node)
    requires c !in blocks
    ensures blocks - {n} + {c} - {c} + {m} == blocks - {n} + {m}
    ensures blocks - {n} + {c} - {c} == blocks - {n}
  {
  }

  lemma ReplacedByItself(marks: set<Node>, n: Node)
    requires Live(marks, n)
    ensures Blocks(marks) == Blocks(marks) - {n} + {n}
  {
  }

  /** Shrinking replaces the block by its leftmost part. */
  lemma {:induction false} ShrunkBlocks(depth: nat, marks: set<Node>, n: Node, size: nat)
    requires Closed(depth, marks) && Live(marks, n)
    ensures var m, marks' := ShrunkNode(depth, n, size), ShrunkMarks(depth, marks, n, size);
            Closed(depth, marks') && Live(marks', m) && Blocks(marks') == Blocks(marks) - {n} + {m}
    decreases depth - n.bucket
  {
    if size <= BucketSize(depth, n.bucket + 1) && n.bucket + 1 < depth {
      LeftHalfBlocks(depth, marks, n);
      NotABlock(depth, marks, n);
      hide Closed, Live, Blocks, BucketSize;
      var c := Left(n);
      ShrunkBlocks(depth, marks + {c}, c, size);
      Replaced(Blocks(marks), n, c, ShrunkNode(depth, n, size));
    } else {
      assert n in Blocks(marks);
    }
  }

  // ---------------------------------------------------------------- growing in place

  /** Merging with free siblings either reaches a block that is large enough, or stops at a
      node whose sibling is taken, with the old block freed. */
  datatype Growth = Grown(node: Node) | Stuck(node: Node)

  function Grow(depth: nat, marks: set<Node>, n: Node, size: nat): Growth
    decreases n.bucket
  {
    if BucketSize(depth, n.bucket) >= size then Grown(n)
    else if n.bucket == 0 || Sibling(n) in marks - {n} then Stuck(n)
    else Grow(depth, marks - {n}, Parent(n), size)
  }

  function GrowMarks(depth: nat, marks: set<Node>, n: Node, size: nat): set<Node>
    decreases n.bucket
  {
    if BucketSize(depth, n.bucket) >= size then marks
    else if n.bucket == 0 || Sibling(n) in marks - {n} then marks - {n}
    else GrowMarks(depth, marks - {n}, Parent(n), size)
  }

  lemma LiveFacts(depth: nat, marks: set<Node>, n: Node)
    requires Closed(depth, marks) && Live(marks, n)
    ensures InTree(depth, n) && Above(n, n) && Sibling(n) != n && (n.bucket > 0 ==> Above(Parent(n), n))
  {
    Family(depth, n);
  }

  lemma ParentNotLive(depth: nat, marks: set<Node>, n: Node)
    requires Closed(depth, marks) && Live(marks, n) && n.bucket > 0
    ensures Parent(n) !in Blocks(marks)
  {
    Family(depth, n);
  }

  lemma {:induction false} GrowBlocks(depth: nat, marks: set<Node>, n: Node, size: nat)
    requires Closed(depth, marks) && Live(marks, n) && size <= Capacity(depth)
    ensures var g, marks' := Grow(depth, marks, n, size), GrowMarks(depth, marks, n, size);
            && Closed(depth, marks') && Above(g.node, n)
            && match g
               case Grown(a) =>
                 && Live(marks', a) && Blocks(marks') == Blocks(marks) - {n} + {a}
                 && BucketSize(depth, a.bucket) >= size && (a != n ==> BucketSize(depth, a.bucket + 1) < size)
               case Stuck(a) =>
                 && marks' == Released(marks, n) && Blocks(marks') == Blocks(marks) - {n}
                 && InTree(depth, a) && a.bucket > 0 && Sibling(a) in marks' && BucketSize(depth, a.bucket) < size
    decreases n.bucket
  {
    hide BucketSize, Closed, Above, Live, Blocks, Sibling;
    LiveFacts(depth, marks, n);
    if BucketSize(depth, n.bucket) < size {
      UnmarkedBlocks(depth, marks, n);
      var rest := marks - {n};
      if n.bucket > 0 && Sibling(n) !in rest {
        GrowBlocks(depth, rest, Parent(n), size);
        var g := Grow(depth, marks, n, size).node;
        AboveTransitive(g, Parent(n), n);
        AboveBucket(g, Parent(n));
        ParentNotLive(depth, marks, n);
        Replaced(Blocks(marks), n, Parent(n), g);
      }
    } else {
      ReplacedByItself(marks, n);
    }
  }

  /** A block found after growing failed never overlaps the block just released. */
  lemma FallbackDisjoint(depth: nat, marks: set<Node>, n: Node, stop: Node, x: Node, size: nat)
    requires Closed(depth, marks) && InTree(depth, n) && Above(stop, n) && InTree(depth, stop)
    requires stop.bucket > 0 && Sibling(stop) in marks && BucketSize(depth, stop.bucket) < size
    requires InTree(depth, x) && x !in marks && size <= BucketSize(depth, x.bucket)
    ensures Disjoint(depth, x, n)
  {
    Family(depth, stop);
    if stop.bucket <= x.bucket {
      if stop.bucket < x.bucket {
        BucketSizeDecreases(depth, stop.bucket, x.bucket);
      }
    }
    assert x.bucket < stop.bucket;
    if Above(x, stop) {
      assert Above(x, Parent(stop));
      AncestorsMarked(depth, marks, Sibling(stop), Parent(stop));
      AncestorsMarked(depth, marks, Parent(stop), x);
    }
    if Above(stop, x) {
      AboveBucket(stop, x);
    }
    UnrelatedDisjoint(depth, x, stop);
    AboveContains(depth, stop, n);
  }
}
