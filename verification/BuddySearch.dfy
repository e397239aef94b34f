/** Why the backtracking search of an allocation finds the lowest available block. */
module BuddySearch {
  import opened Basics
  import opened BuddyTree
  import opened BuddySpec

  ghost predicate NoLiveAbove(marks: set<Node>, n: Node) {
    forall a :: Above(a, n) && a != n ==> !Live(marks, a)
  }

  /** The search is about to look at `n`; every lower block of bucket `t` is taken. */
  ghost predicate Reached(depth: nat, marks: set<Node>, t: nat, n: Node) {
    && InTree(depth, n) && n.bucket <= t < depth && NoLiveAbove(marks, n)
    && Scanned(marks, t, FirstRank(n, t))
  }

  /** The search is done with `n` and everything below it. */
  ghost predicate Passed(depth: nat, marks: set<Node>, t: nat, n: Node) {
    && InTree(depth, n) && n.bucket <= t < depth && NoLiveAbove(marks, n)
    && Scanned(marks, t, EndRank(n, t))
  }

  lemma ReachedInTree(depth: nat, marks: set<Node>, t: nat, n: Node)
    requires Reached(depth, marks, t, n)
    ensures InTree(depth, n) && n.bucket <= t < depth && EndRank(n, t) <= Pow2(t)
  {
    hide EndRank, Pow2;
    RanksInBucket(depth, n, t);
  }

  lemma RanksNonempty(n: Node, t: nat)
    requires n.bucket <= t
    ensures FirstRank(n, t) < EndRank(n, t)
  {
    if n.bucket < t {
      RanksOfFamily(n, t);
    }
  }

  lemma SearchStarts(depth: nat, marks: set<Node>, t: nat)
    requires t < depth
    ensures Reached(depth, marks, t, ROOT) && Offset(depth, ROOT) == 0
  {
  }

  lemma SearchTakes(depth: nat, marks: set<Node>, t: nat, n: Node)
    requires Reached(depth, marks, t, n) && n in marks && (n.bucket == t || !Split(marks, n))
    ensures Passed(depth, marks, t, n) && FirstRank(n, t) < EndRank(n, t)
  {
    TakenRanks(marks, n, t);
    RanksNonempty(n, t);
  }

  lemma SearchClimbs(depth: nat, marks: set<Node>, t: nat, n: Node)
    requires Passed(depth, marks, t, n) && !IsLeft(n)
    ensures n.bucket > 0 && Passed(depth, marks, t, Parent(n)) && EndRank(Parent(n), t) == EndRank(n, t)
    ensures Offset(depth, Parent(n)) == Offset(depth, n) - BucketSize(depth, n.bucket)
  {
    Family(depth, n);
    hide Scanned;
    RanksOfFamily(Parent(n), t);
    StartOfChildren(depth, Parent(n));
    ClimbKeepsNoLive(marks, n);
  }

  lemma ClimbKeepsNoLive(marks: set<Node>, n: Node)
    requires n.bucket > 0 && NoLiveAbove(marks, n)
    ensures NoLiveAbove(marks, Parent(n)) && !Live(marks, Parent(n))
  {
    assert Above(Parent(n), n);
    forall a | Above(a, Parent(n)) && a != Parent(n)
      ensures !Live(marks, a)
    {
      AboveBucket(a, Parent(n));
      assert Above(a, n);
    }
  }

  lemma SearchCrosses(depth: nat, marks: set<Node>, t: nat, n: Node)
    requires Passed(depth, marks, t, n) && IsLeft(n) && n != ROOT
    ensures n.bucket > 0 && Reached(depth, marks, t, Sibling(n)) && FirstRank(Sibling(n), t) == EndRank(n, t)
    ensures Offset(depth, Sibling(n)) == Offset(depth, n) + BucketSize(depth, n.bucket)
  {
    Family(depth, n);
    hide Scanned;
    var p := Parent(n);
    RanksOfFamily(p, t);
    StartOfChildren(depth, p);
    ClimbKeepsNoLive(marks, n);
    forall a | Above(a, Sibling(n)) && a != Sibling(n)
      ensures !Live(marks, a)
    {
      assert Above(a, p);
    }
  }

  lemma SearchEnds(depth: nat, marks: set<Node>, t: nat)
    requires Passed(depth, marks, t, ROOT)
    ensures NoneAvailable(marks, t)
  {
  }

  lemma SearchDescends(depth: nat, marks: set<Node>, t: nat, n: Node)
    requires Reached(depth, marks, t, n) && n.bucket < t && (n !in marks || Split(marks, n))
    ensures Reached(depth, marks, t, Left(n)) && FirstRank(Left(n), t) == FirstRank(n, t)
    ensures Offset(depth, Left(n)) == Offset(depth, n)
  {
    Family(depth, n);
    hide Scanned;
    RanksOfFamily(n, t);
    StartOfChildren(depth, n);
    forall a | Above(a, Left(n)) && a != Left(n)
      ensures !Live(marks, a)
    {
      assert Above(a, n);
    }
  }

  lemma SearchFinds(depth: nat, marks: set<Node>, t: nat, n: Node)
    requires Reached(depth, marks, t, n) && n.bucket == t && n !in marks
    ensures IsLowest(marks, t, n)
  {
    assert FirstRank(n, t) == n.rank;
  }

  lemma RanksInBucket(depth: nat, n: Node, t: nat)
    requires InTree(depth, n) && n.bucket <= t
    ensures EndRank(n, t) <= Pow2(t)
  {
    hide Pow2;
    Pow2Splits(n.bucket, t);
    TimesMonotone(n.rank + 1, Pow2(n.bucket), Pow2(t - n.bucket));
  }

  lemma TimesMonotone(a: nat, b: nat, unit: nat)
    requires a <= b
    ensures a * unit <= b * unit
  {
  }

  lemma DoubleProduct(x: nat, y: nat)
    ensures x * (2 * y) == 2 * (x * y)
  {
  }

  lemma {:induction false} Pow2Splits(b: nat, t: nat)
    requires b <= t
    ensures Pow2(b) * Pow2(t - b) == Pow2(t)
    decreases t - b
  {
    if b < t {
      Pow2Splits(b, t - 1);
      var x, y := Pow2(b), Pow2(t - 1 - b);
      assert Pow2(t - b) == 2 * y && Pow2(t) == 2 * Pow2(t - 1);
      hide Pow2;
      DoubleProduct(x, y);
    }
  }

  /** Before the best bucket a block may still be halved, at the best bucket it may not. */
  lemma HalvesDo(depth: nat, size: nat, t: nat, bucket: nat)
    requires IsBestBucket(depth, size, t) && bucket <= t
    ensures size <= BucketSize(depth, bucket + 1) <==> bucket < t
  {
    if bucket + 1 < t {
      BucketSizeDecreases(depth, bucket + 1, t);
    }
  }

  // ---------------------------------------------------------------- from addresses to blocks

  /** The topmost node starting at a granule whose memory is not split further. */
  ghost predicate FoundAt(depth: nat, marks: set<Node>, granule: nat, n: Node) {
    && InTree(depth, n) && Start(depth, n) == granule && !Split(marks, n)
    && forall a :: Above(a, n) && a != n && a.bucket < depth && Start(depth, a) == granule ==> Split(marks, a)
  }

  /** Looking up the address of a live block gives this block. */
  lemma FoundIsLive(depth: nat, marks: set<Node>, n: Node, b: Node)
    requires Closed(depth, marks) && b in Blocks(marks) && b.bucket < depth && FoundAt(depth, marks, Start(depth, b), n)
    ensures n == b
  {
    if n != b {
      if Above(n, b) {
        AncestorsSplit(depth, marks, b, n);
      } else if !Above(b, n) {
        UnrelatedDisjoint(depth, n, b);
      }
    }
  }

  /** Looking up an address inside a live block gives a node of this block. */
  lemma FoundIsInside(depth: nat, marks: set<Node>, granule: nat, n: Node, b: Node)
    requires Closed(depth, marks) && b in Blocks(marks) && b.bucket < depth && Contains(depth, b, granule)
    requires FoundAt(depth, marks, granule, n)
    ensures Above(b, n)
  {
    if !Above(b, n) {
      if Above(n, b) {
        AncestorsSplit(depth, marks, b, n);
      } else {
        UnrelatedDisjoint(depth, n, b);
      }
    }
  }

  lemma BlocksInTree(depth: nat, marks: set<Node>)
    requires Closed(depth, marks)
    ensures forall b :: b in Blocks(marks) ==> b.bucket < depth
  {
  }

  lemma OneBlockAt(depth: nat, marks: set<Node>, granule: nat, b: Node, c: Node)
    requires Closed(depth, marks) && b in Blocks(marks) && c in Blocks(marks) && b.bucket < depth && c.bucket < depth
    requires Contains(depth, b, granule) && Contains(depth, c, granule)
    ensures b == c
  {
    if b != c {
      BlocksDisjoint(depth, marks, b, c);
    }
  }

  /** Freeing a node of a live block frees the block. */
  lemma {:induction false} ReleasedInside(depth: nat, marks: set<Node>, b: Node, n: Node)
    requires Closed(depth, marks) && Live(marks, b) && Above(b, n) && InTree(depth, n)
    ensures Released(marks, n) == Released(marks, b)
    decreases n.bucket
  {
    if n != b {
      Family(depth, n);
      var p, s := Parent(n), Sibling(n);
      assert Above(b, p) && Above(b, s);
      if n in marks {
        AncestorsSplit(depth, marks, n, b);
      }
      if s in marks {
        if s != b {
          AncestorsSplit(depth, marks, s, b);
        } else {
          AboveDeeper(s, p);
        }
      }
      assert marks - {n} == marks;
      ReleasedInside(depth, marks, b, p);
    }
  }

  lemma {:induction false} AboveDeeper(a: Node, n: Node)
    requires Above(a, n)
    ensures a.bucket <= n.bucket
    decreases n.bucket
  {
    if a != n {
      AboveDeeper(a, Parent(n));
    }
  }

  /** Looking up an address inside no live block gives available memory. */
  lemma FoundIsFree(depth: nat, marks: set<Node>, granule: nat, n: Node)
    requires Closed(depth, marks) && FoundAt(depth, marks, granule, n)
    requires forall b :: b in Blocks(marks) ==> b.bucket < depth && !Contains(depth, b, granule)
    ensures Available(marks, n)
  {
    forall a | Above(a, n)
      ensures !Live(marks, a)
    {
      AboveContains(depth, a, n);
      assert Live(marks, a) ==> a in Blocks(marks);
    }
    assert Above(n, n);
  }

  /** The lookup of a granule has come down to `n`. */
  ghost predicate LookingAt(depth: nat, marks: set<Node>, granule: nat, n: Node) {
    InTree(depth, n) && Contains(depth, n, granule) && SplitAbove(depth, marks, granule, n)
  }

  /** All nodes above `n` that start at the granule are split. */
  ghost predicate SplitAbove(depth: nat, marks: set<Node>, granule: nat, n: Node) {
    forall a :: Above(a, n) && a != n && a.bucket < depth && Start(depth, a) == granule ==> Split(marks, a)
  }

  lemma LookStarts(depth: nat, marks: set<Node>, granule: nat)
    requires depth > 0 && GRANULARITY * granule < Capacity(depth)
    ensures LookingAt(depth, marks, granule, ROOT) && Offset(depth, ROOT) == 0
  {
  }

  lemma LookInTree(depth: nat, marks: set<Node>, granule: nat, n: Node)
    requires LookingAt(depth, marks, granule, n)
    ensures InTree(depth, n)
  {
  }

  lemma LookFinds(depth: nat, marks: set<Node>, granule: nat, n: Node)
    requires LookingAt(depth, marks, granule, n) && n.bucket < depth && Offset(depth, n) == GRANULARITY * granule
             && !Split(marks, n)
    ensures FoundAt(depth, marks, granule, n)
  {
  }

  lemma LookDescends(depth: nat, marks: set<Node>, granule: nat, n: Node)
    requires Closed(depth, marks) && LookingAt(depth, marks, granule, n) && n.bucket < depth
    requires Offset(depth, n) != GRANULARITY * granule || Split(marks, n)
    ensures n.bucket + 1 < depth
    ensures GRANULARITY * granule < Offset(depth, n) + BucketSize(depth, n.bucket + 1) ==>
            LookingAt(depth, marks, granule, Left(n))
    ensures GRANULARITY * granule >= Offset(depth, n) + BucketSize(depth, n.bucket + 1) ==>
            LookingAt(depth, marks, granule, Right(n))
    ensures Offset(depth, Left(n)) == Offset(depth, n)
    ensures Offset(depth, Right(n)) == Offset(depth, n) + BucketSize(depth, n.bucket + 1)
  {
    LeafHolds(depth, n, granule, marks);
    Family(depth, n);
    ChildHolds(depth, n, granule);
    SplitAboveChild(depth, marks, granule, n);
    hide Contains, SplitAbove, Closed, Split, Offset, BucketSize;
  }

  lemma SplitAboveChild(depth: nat, marks: set<Node>, granule: nat, n: Node)
    requires n.bucket < depth && SplitAbove(depth, marks, granule, n)
             && (Start(depth, n) == granule ==> Split(marks, n))
    ensures SplitAbove(depth, marks, granule, Left(n)) && SplitAbove(depth, marks, granule, Right(n))
  {
    forall a | a == Left(n) || a == Right(n)
      ensures Parent(a) == n
    {
    }
  }

  /** The halves of a block split its granules at the end of the left half. */
  lemma ChildHolds(depth: nat, n: Node, granule: nat)
    requires n.bucket + 1 < depth && Contains(depth, n, granule)
    ensures GRANULARITY * granule < Offset(depth, n) + BucketSize(depth, n.bucket + 1) ==>
            Contains(depth, Left(n), granule)
    ensures GRANULARITY * granule >= Offset(depth, n) + BucketSize(depth, n.bucket + 1) ==>
            Contains(depth, Right(n), granule)
    ensures Offset(depth, Left(n)) == Offset(depth, n)
    ensures Offset(depth, Right(n)) == Offset(depth, n) + BucketSize(depth, n.bucket + 1)
  {
    StartOfChildren(depth, n);
  }

  /** A leaf holds one granule and is not split. */
  lemma LeafHolds(depth: nat, n: Node, granule: nat, marks: set<Node>)
    requires InTree(depth, n) && Contains(depth, n, granule) && Closed(depth, marks)
    requires Start(depth, n) != granule || Split(marks, n)
    ensures n.bucket + 1 < depth
  {
  }
}
