/** The memory in use in an arena: the sizes of its live blocks, added up. */
module BuddyUsage {
  import opened Basics
  import opened BuddyTree
  import opened BuddySpec

  ghost function TotalSize(depth: nat, blocks: set<Node>): nat {
    if blocks == {} then 0
    else
      var b :| b in blocks;
      BucketSize(depth, b.bucket) + TotalSize(depth, blocks - {b})
  }

  lemma {:induction false} TotalWithout(depth: nat, blocks: set<Node>, b: Node)
    requires b in blocks
    ensures TotalSize(depth, blocks) == BucketSize(depth, b.bucket) + TotalSize(depth, blocks - {b})
    decreases |blocks|
  {
    hide BucketSize;
    var c :| c in blocks && TotalSize(depth, blocks) == BucketSize(depth, c.bucket) + TotalSize(depth, blocks - {c});
    if c != b {
      TotalWithout(depth, blocks - {c}, b);
      TotalWithout(depth, blocks - {b}, c);
      assert blocks - {c} - {b} == blocks - {b} - {c};
    }
  }

  lemma TotalAtMostOne(depth: nat, b: Node)
    ensures TotalSize(depth, {}) == 0 && TotalSize(depth, {b}) == BucketSize(depth, b.bucket)
  {
    TotalWithout(depth, {b}, b);
    assert {b} - {b} == {};
  }

  lemma {:induction false} TotalOfBoth(depth: nat, m: set<Node>, n: set<Node>)
    requires m !! n
    ensures TotalSize(depth, m + n) == TotalSize(depth, m) + TotalSize(depth, n)
    decreases |m|
  {
    hide BucketSize;
    if m == {} {
      assert m + n == n;
    } else {
      var b :| b in m;
      TotalWithout(depth, m, b);
      TotalWithout(depth, m + n, b);
      assert m + n - {b} == (m - {b}) + n;
      TotalOfBoth(depth, m - {b}, n);
    }
  }

  /** The live blocks at or below a node. */
  ghost function BlocksBelow(marks: set<Node>, n: Node): set<Node> {
    set b | b in Blocks(marks) && Above(n, b)
  }

  lemma AllBelowRoot(depth: nat, marks: set<Node>)
    requires Closed(depth, marks)
    ensures BlocksBelow(marks, ROOT) == Blocks(marks)
  {
    forall b | b in Blocks(marks)
      ensures Above(ROOT, b)
    {
      RootAbove(depth, b);
    }
  }

  lemma BelowUnsplit(depth: nat, marks: set<Node>, n: Node)
    requires Closed(depth, marks) && !Split(marks, n)
    ensures BlocksBelow(marks, n) == if n in marks then {n} else {}
  {
    forall b
      ensures b in BlocksBelow(marks, n) <==> b == n && n in marks
    {
      if b in BlocksBelow(marks, n) {
        if b != n {
          AncestorsSplit(depth, marks, b, n);
        }
      }
    }
  }

  lemma BelowSplit(depth: nat, marks: set<Node>, n: Node)
    requires Closed(depth, marks) && Split(marks, n)
    ensures BlocksBelow(marks, n) == BlocksBelow(marks, Left(n)) + BlocksBelow(marks, Right(n))
    ensures BlocksBelow(marks, Left(n)) !! BlocksBelow(marks, Right(n))
  {
    forall b
      ensures b in BlocksBelow(marks, n) <==> b in BlocksBelow(marks, Left(n)) + BlocksBelow(marks, Right(n))
      ensures !(b in BlocksBelow(marks, Left(n)) && b in BlocksBelow(marks, Right(n)))
    {
      BelowOneHalf(n, b);
    }
  }

  lemma BelowOneHalf(n: Node, b: Node)
    ensures Above(n, b) <==> b == n || Above(Left(n), b) || Above(Right(n), b)
    ensures !(Above(Left(n), b) && Above(Right(n), b))
    decreases b.bucket
  {
    assert Parent(Left(n)) == n && Parent(Right(n)) == n;
    if Above(n, b) && b != n {
      ChildBetween(n, b);
    }
    if Above(Left(n), b) {
      ParentAbove(Left(n), b);
    }
    if Above(Right(n), b) {
      ParentAbove(Right(n), b);
    }
    if Above(Left(n), b) && Above(Right(n), b) {
      if b == Left(n) {
        AboveBucket(Right(n), b);
      } else if b == Right(n) {
        AboveBucket(Left(n), b);
      } else {
        BelowOneHalf(n, Parent(b));
      }
    }
  }

  lemma TotalSplit(depth: nat, marks: set<Node>, n: Node)
    requires Closed(depth, marks) && Split(marks, n)
    ensures TotalSize(depth, BlocksBelow(marks, n)) ==
            TotalSize(depth, BlocksBelow(marks, Left(n))) + TotalSize(depth, BlocksBelow(marks, Right(n)))
    ensures n.bucket + 1 < depth
  {
    hide Closed, Split, BlocksBelow, TotalSize;
    SplitInTree(depth, marks, n);
    BelowSplit(depth, marks, n);
    TotalOfBoth(depth, BlocksBelow(marks, Left(n)), BlocksBelow(marks, Right(n)));
  }

  lemma TotalUnsplit(depth: nat, marks: set<Node>, n: Node)
    requires Closed(depth, marks) && !Split(marks, n)
    ensures TotalSize(depth, BlocksBelow(marks, n)) == if n in marks then BucketSize(depth, n.bucket) else 0
  {
    hide Closed, Split, BlocksBelow, TotalSize;
    BelowUnsplit(depth, marks, n);
    TotalAtMostOne(depth, n);
  }

  /** Adding up what is in use never exceeds the arena. */
  lemma {:induction false} UsageFits(depth: nat, marks: set<Node>, n: Node)
    requires Closed(depth, marks) && InTree(depth, n)
    ensures TotalSize(depth, BlocksBelow(marks, n)) <= BucketSize(depth, n.bucket)
    decreases depth - n.bucket
  {
    hide Closed, Split, BlocksBelow, Pow2, TotalSize, BucketSize, InTree;
    if Split(marks, n) {
      TotalSplit(depth, marks, n);
      Children(depth, n);
      UsageFits(depth, marks, Left(n));
      UsageFits(depth, marks, Right(n));
      BucketSizeHalves(depth, n.bucket);
    } else {
      TotalUnsplit(depth, marks, n);
    }
  }

  lemma SplitInTree(depth: nat, marks: set<Node>, n: Node)
    requires Closed(depth, marks) && Split(marks, n)
    ensures n.bucket + 1 < depth
  {
  }
}
