/**
  The implicit binary tree of a buddy arena, independent of how its bits are stored.

  A node is given by its bucket (depth, 0 at the root) and its rank within the bucket. The
  state of an arena is the set of marked nodes. A marked node without a marked child is a
  live block; a marked node with a marked child is split.
*/
module BuddyTree {
  import opened Basics

  datatype Node = Node(bucket: nat, rank: nat)

  const ROOT: Node := Node(0, 0)

  predicate InTree(depth: nat, n: Node) {
    n.bucket < depth && n.rank < Pow2(n.bucket)
  }

  function Left(n: Node): Node { Node(n.bucket + 1, 2 * n.rank) }

  function Right(n: Node): Node { Node(n.bucket + 1, 2 * n.rank + 1) }

  function Parent(n: Node): Node
    requires n.bucket > 0
  {
    Node(n.bucket - 1, n.rank / 2)
  }

  function Sibling(n: Node): Node {
    Node(n.bucket, if n.rank % 2 == 0 then n.rank + 1 else n.rank - 1)
  }

  predicate IsLeft(n: Node) { n.rank % 2 == 0 }

  /** `a` is `n` or one of its ancestors. */
  predicate Above(a: Node, n: Node)
    decreases n.bucket
  {
    a == n || (n.bucket > 0 && Above(a, Parent(n)))
  }

  /** A node with all its ancestors. */
  function Path(n: Node): set<Node>
    decreases n.bucket
  {
    {n} + if n.bucket == 0 then {} else Path(Parent(n))
  }

  lemma {:induction false} PathIsAbove(n: Node, a: Node)
    ensures a in Path(n) <==> Above(a, n)
    decreases n.bucket
  {
    if n.bucket > 0 {
      PathIsAbove(Parent(n), a);
    }
  }

  lemma {:induction false} AboveTransitive(a: Node, b: Node, c: Node)
    requires Above(a, b) && Above(b, c)
    ensures Above(a, c)
    decreases c.bucket
  {
    if b != c {
      AboveTransitive(a, b, Parent(c));
    }
  }

  lemma {:induction false} AboveBucket(a: Node, n: Node)
    requires Above(a, n)
    ensures a.bucket <= n.bucket && (a.bucket == n.bucket ==> a == n)
    decreases n.bucket
  {
    if a != n {
      AboveBucket(a, Parent(n));
    }
  }

  lemma {:induction false} RootAbove(depth: nat, n: Node)
    requires InTree(depth, n)
    ensures Above(ROOT, n)
    decreases n.bucket
  {
    if n.bucket > 0 {
      RootAbove(depth, Parent(n));
    }
  }

  /** On the way down from `a` to a node below it lies one of the children of `a`. */
  lemma {:induction false} ChildBetween(a: Node, n: Node)
    requires Above(a, n) && a != n
    ensures Above(Left(a), n) || Above(Right(a), n)
    decreases n.bucket
  {
    var p := Parent(n);
    if p != a {
      ChildBetween(a, p);
    }
  }

  lemma Family(depth: nat, n: Node)
    requires InTree(depth, n)
    ensures n.bucket > 0 ==> InTree(depth, Parent(n)) && InTree(depth, Sibling(n)) && Parent(Sibling(n)) == Parent(n)
    ensures n.bucket > 0 ==> n == (if IsLeft(n) then Left(Parent(n)) else Right(Parent(n)))
    ensures n.bucket > 0 ==> Sibling(n) == (if IsLeft(n) then Right(Parent(n)) else Left(Parent(n)))
    ensures n.bucket + 1 < depth ==> InTree(depth, Left(n)) && InTree(depth, Right(n))
    ensures Parent(Left(n)) == n && Parent(Right(n)) == n
  {
    if n.bucket > 0 {
      assert Pow2(n.bucket) == 2 * Pow2(n.bucket - 1);
    }
    assert Pow2(n.bucket + 1) == 2 * Pow2(n.bucket);
  }

  lemma Children(depth: nat, n: Node)
    requires InTree(depth, n) && n.bucket + 1 < depth
    ensures InTree(depth, Left(n)) && InTree(depth, Right(n))
  {
    Family(depth, n);
  }

  // ---------------------------------------------------------------- addresses

  /** Sizes and addresses are counted in allocation granules. */
  function Size(depth: nat, n: Node): nat
    requires n.bucket < depth
  {
    Pow2(depth - 1 - n.bucket)
  }

  function Start(depth: nat, n: Node): nat
    requires n.bucket < depth
  {
    n.rank * Pow2(depth - 1 - n.bucket)
  }

  predicate Contains(depth: nat, n: Node, granule: int)
    requires n.bucket < depth
  {
    Start(depth, n) <= granule < Start(depth, n) + Size(depth, n)
  }

  lemma StartOfChildren(depth: nat, n: Node)
    requires n.bucket + 1 < depth
    ensures Size(depth, n) == 2 * Size(depth, Left(n)) && Size(depth, Right(n)) == Size(depth, Left(n))
    ensures Start(depth, Left(n)) == Start(depth, n)
    ensures Start(depth, Right(n)) == Start(depth, n) + Size(depth, Left(n))
  {
    var half := Pow2(depth - 2 - n.bucket);
    assert Pow2(depth - 1 - n.bucket) == 2 * half;
    assert n.rank * (2 * half) == (2 * n.rank) * half;
    assert (2 * n.rank + 1) * half == (2 * n.rank) * half + half;
  }

  lemma {:induction false} AboveContains(depth: nat, a: Node, n: Node)
    requires n.bucket < depth && Above(a, n)
    ensures a.bucket < depth
    ensures Start(depth, a) <= Start(depth, n) && Start(depth, n) + Size(depth, n) <= Start(depth, a) + Size(depth, a)
    decreases n.bucket
  {
    if a != n {
      var p := Parent(n);
      AboveContains(depth, a, p);
      StartOfChildren(depth, p);
      assert n == Left(p) || n == Right(p);
    }
  }

  predicate Disjoint(depth: nat, m: Node, n: Node)
    requires m.bucket < depth && n.bucket < depth
  {
    Start(depth, m) + Size(depth, m) <= Start(depth, n) || Start(depth, n) + Size(depth, n) <= Start(depth, m)
  }

  lemma RanksApart(depth: nat, m: Node, n: Node)
    requires m.bucket == n.bucket < depth && m.rank < n.rank
    ensures Start(depth, m) + Size(depth, m) <= Start(depth, n)
  {
    hide Pow2;
    NextMultiple(m.rank, n.rank, Pow2(depth - 1 - m.bucket));
  }

  lemma NextMultiple(a: nat, b: nat, unit: nat)
    requires a < b
    ensures a * unit + unit <= b * unit
  {
    assert (a + 1) * unit <= b * unit;
  }

  /** Nodes of which neither is above the other cover disjoint memory. */
  lemma {:induction false} UnrelatedDisjoint(depth: nat, m: Node, n: Node)
    requires m.bucket < depth && n.bucket < depth && !Above(m, n) && !Above(n, m)
    ensures Disjoint(depth, m, n)
    decreases m.bucket + n.bucket, m.bucket > n.bucket
  {
    if m.bucket == n.bucket {
      if m.rank < n.rank {
        RanksApart(depth, m, n);
      } else {
        RanksApart(depth, n, m);
      }
    } else if m.bucket < n.bucket {
      var p := Parent(n);
      assert !Above(m, p);
      if Above(p, m) {
        AboveBucket(p, m);
      }
      UnrelatedDisjoint(depth, m, p);
      AboveContains(depth, p, n);
    } else {
      UnrelatedDisjoint(depth, n, m);
    }
  }

  // ---------------------------------------------------------------- marks

  /** Marked nodes are in the tree, and every ancestor of a marked node is marked. */
  ghost predicate Closed(depth: nat, marks: set<Node>) {
    forall n :: n in marks ==> InTree(depth, n) && (n.bucket > 0 ==> Parent(n) in marks)
  }

  predicate Split(marks: set<Node>, n: Node) {
    Left(n) in marks || Right(n) in marks
  }

  predicate Live(marks: set<Node>, n: Node) {
    n in marks && !Split(marks, n)
  }

  /** The live blocks. */
  ghost function Blocks(marks: set<Node>): set<Node> {
    set n | n in marks && !Split(marks, n)
  }

  lemma {:induction false} AncestorsMarked(depth: nat, marks: set<Node>, n: Node, a: Node)
    requires Closed(depth, marks) && n in marks && Above(a, n)
    ensures a in marks
    decreases n.bucket
  {
    if a != n {
      AncestorsMarked(depth, marks, Parent(n), a);
    }
  }

  lemma AncestorsSplit(depth: nat, marks: set<Node>, n: Node, a: Node)
    requires Closed(depth, marks) && n in marks && Above(a, n) && a != n
    ensures a in marks && Split(marks, a)
  {
    AncestorsMarked(depth, marks, n, a);
    ChildBetween(a, n);
    if Above(Left(a), n) {
      AncestorsMarked(depth, marks, n, Left(a));
    } else {
      AncestorsMarked(depth, marks, n, Right(a));
    }
  }

  /** Two live blocks never overlap. */
  lemma BlocksDisjoint(depth: nat, marks: set<Node>, m: Node, n: Node)
    requires Closed(depth, marks) && Live(marks, m) && Live(marks, n) && m != n
    ensures Disjoint(depth, m, n)
  {
    if Above(m, n) {
      AncestorsSplit(depth, marks, n, m);
    }
    if Above(n, m) {
      AncestorsSplit(depth, marks, m, n);
    }
    UnrelatedDisjoint(depth, m, n);
  }

  /** Below every marked node there is a live block. */
  lemma {:induction false} BlockBelow(depth: nat, marks: set<Node>, n: Node) returns (b: Node)
    requires Closed(depth, marks) && n in marks
    ensures b in Blocks(marks) && Above(n, b)
    decreases depth - n.bucket
  {
    if Live(marks, n) {
      b := n;
    } else {
      var child := if Left(n) in marks then Left(n) else Right(n);
      b := BlockBelow(depth, marks, child);
      Family(depth, n);
      AboveTransitive(n, child, b);
    }
  }

  /** The set of nodes at or above some block. */
  ghost predicate ClosureOf(blocks: set<Node>, n: Node) {
    exists b :: b in blocks && Above(n, b)
  }

  /** The marks are exactly the ancestor closure of the live blocks. */
  lemma MarksAreClosure(depth: nat, marks: set<Node>, n: Node)
    requires Closed(depth, marks)
    ensures n in marks <==> ClosureOf(Blocks(marks), n)
  {
    if n in marks {
      var b := BlockBelow(depth, marks, n);
    }
    if ClosureOf(Blocks(marks), n) {
      var b :| b in Blocks(marks) && Above(n, b);
      AncestorsMarked(depth, marks, b, n);
    }
  }

  /** The live blocks determine the marks; without blocks nothing is marked. */
  lemma BlocksDetermineMarks(depth: nat, marks: set<Node>, marks': set<Node>)
    requires Closed(depth, marks) && Closed(depth, marks') && Blocks(marks) == Blocks(marks')
    ensures marks == marks'
    ensures Blocks(marks) == {} ==> marks == {}
  {
    forall n
      ensures n in marks <==> n in marks'
      ensures Blocks(marks) == {} ==> n !in marks
    {
      MarksAreClosure(depth, marks, n);
      MarksAreClosure(depth, marks', n);
    }
  }

  // ---------------------------------------------------------------- allocating

  /** The memory of `n` is free: nothing at, below or above it is a live block. */
  ghost predicate Available(marks: set<Node>, n: Node) {
    n !in marks && forall a :: Above(a, n) ==> !Live(marks, a)
  }

  /** Available memory overlaps no live block, and memory that overlaps none is available. */
  lemma AvailableIffDisjoint(depth: nat, marks: set<Node>, n: Node)
    requires Closed(depth, marks) && InTree(depth, n)
    ensures Available(marks, n) <==> forall b :: b in Blocks(marks) ==> b.bucket < depth && Disjoint(depth, b, n)
  {
    if Available(marks, n) {
      forall b | b in Blocks(marks)
        ensures b.bucket < depth && Disjoint(depth, b, n)
      {
        if Above(n, b) {
          AncestorsMarked(depth, marks, b, n);
        }
        UnrelatedDisjoint(depth, b, n);
      }
    } else if n in marks {
      var b := BlockBelow(depth, marks, n);
      AboveContains(depth, n, b);
      assert !Disjoint(depth, b, n);
    } else {
      var a :| Above(a, n) && Live(marks, a);
      AboveContains(depth, a, n);
      assert !Disjoint(depth, a, n);
    }
  }

  lemma PathClosed(depth: nat, marks: set<Node>, n: Node)
    requires Closed(depth, marks) && InTree(depth, n)
    ensures Closed(depth, marks + Path(n))
    decreases n.bucket
  {
    Family(depth, n);
    if n.bucket > 0 {
      PathClosed(depth, marks, Parent(n));
      assert marks + Path(n) == (marks + Path(Parent(n))) + {n};
      assert Parent(n) in Path(Parent(n));
    }
  }

  /** Marking available memory and its ancestors adds exactly one live block. */
  lemma AllocatedBlocks(depth: nat, marks: set<Node>, n: Node)
    requires Closed(depth, marks) && InTree(depth, n) && Available(marks, n)
    ensures Closed(depth, marks + Path(n))
    ensures Blocks(marks + Path(n)) == Blocks(marks) + {n}
  {
    hide Closed, Path, Available, Above, Split;
    PathClosed(depth, marks, n);
    forall x
      ensures x in Blocks(marks + Path(n)) <==> x in Blocks(marks) + {n}
    {
      AllocatedBlock(depth, marks, n, x);
    }
  }

  lemma AllocatedBlock(depth: nat, marks: set<Node>, n: Node, x: Node)
    requires Closed(depth, marks) && Available(marks, n)
    ensures Live(marks + Path(n), x) <==> Live(marks, x) || x == n
  {
    hide Path;
    PathIsAbove(n, x);
    PathIsAbove(n, Left(x));
    PathIsAbove(n, Right(x));
    assert Parent(Left(x)) == x && Parent(Right(x)) == x;
    if x == n {
      NoChildAbove(n);
    } else if Above(x, n) {
      ChildBetween(x, n);
    } else {
      if Above(Left(x), n) {
        ParentAbove(Left(x), n);
      }
      if Above(Right(x), n) {
        ParentAbove(Right(x), n);
      }
    }
  }

  lemma ParentAbove(a: Node, n: Node)
    requires a.bucket > 0 && Above(a, n)
    ensures Above(Parent(a), n)
  {
    AboveTransitive(Parent(a), a, n);
  }

  lemma NoChildAbove(n: Node)
    ensures !Above(Left(n), n) && !Above(Right(n), n)
  {
    if Above(Left(n), n) {
      AboveBucket(Left(n), n);
    }
    if Above(Right(n), n) {
      AboveBucket(Right(n), n);
    }
  }

  // ---------------------------------------------------------------- freeing

  /** Unmarks a node and, as long as the sibling is free too, the parent. */
  function Released(marks: set<Node>, n: Node): set<Node>
    decreases n.bucket
  {
    var rest := marks - {n};
    if n.bucket == 0 || Sibling(n) in rest then rest else Released(rest, Parent(n))
  }

  lemma UnmarkedClosed(depth: nat, marks: set<Node>, n: Node)
    requires Closed(depth, marks) && Live(marks, n)
    ensures Closed(depth, marks - {n})
  {
    forall x | x in marks - {n}
      ensures InTree(depth, x) && (x.bucket > 0 ==> Parent(x) in marks - {n})
    {
      if x.bucket > 0 && Parent(x) == n {
        Family(depth, x);
      }
    }
  }

  lemma UnmarkedLive(depth: nat, marks: set<Node>, n: Node, x: Node)
    requires Closed(depth, marks) && Live(marks, n)
    ensures Live(marks - {n}, x)
            <==> (Live(marks, x) && x != n) || (n.bucket > 0 && Sibling(n) !in marks && x == Parent(n))
  {
    Family(depth, n);
    if n.bucket > 0 && x == Parent(n) {
      assert n == Left(x) || n == Right(x);
    } else {
      assert Parent(Left(x)) == x && Parent(Right(x)) == x;
    }
  }

  lemma UnmarkedBlocks(depth: nat, marks: set<Node>, n: Node)
    requires Closed(depth, marks) && Live(marks, n)
    ensures Closed(depth, marks - {n})
    ensures n.bucket == 0 || Sibling(n) in marks ==> Blocks(marks - {n}) == Blocks(marks) - {n}
    ensures n.bucket > 0 && Sibling(n) !in marks ==>
              Live(marks - {n}, Parent(n)) && Blocks(marks - {n}) == Blocks(marks) - {n} + {Parent(n)}
  {
    hide Closed, Split;
    UnmarkedClosed(depth, marks, n);
    if n.bucket > 0 {
      UnmarkedLive(depth, marks, n, Parent(n));
    }
    forall x
      ensures x in Blocks(marks - {n})
              <==> (x in Blocks(marks) && x != n) || (n.bucket > 0 && Sibling(n) !in marks && x == Parent(n))
    {
      UnmarkedLive(depth, marks, n, x);
    }
  }

  /** Freeing a live block removes exactly this block. */
  lemma {:induction false} ReleasedBlocks(depth: nat, marks: set<Node>, n: Node)
    requires Closed(depth, marks) && Live(marks, n)
    ensures Closed(depth, Released(marks, n))
    ensures Blocks(Released(marks, n)) == Blocks(marks) - {n}
    decreases n.bucket
  {
    UnmarkedBlocks(depth, marks, n);
    var rest := marks - {n};
    if n.bucket > 0 && Sibling(n) !in rest {
      ReleasedBlocks(depth, rest, Parent(n));
      assert Parent(n) !in Blocks(marks) by {
        Family(depth, n);
      }
    }
  }

  /** Freeing memory that is free already changes nothing. */
  lemma {:induction false} ReleasedAgain(depth: nat, marks: set<Node>, n: Node)
    requires Closed(depth, marks) && InTree(depth, n) && Available(marks, n)
    ensures Released(marks, n) == marks
    decreases n.bucket
  {
    assert marks - {n} == marks;
    Family(depth, n);
    if n.bucket > 0 && Sibling(n) !in marks {
      var p := Parent(n);
      assert Above(p, n);
      assert p in marks ==> Live(marks, p);
      forall a | Above(a, p)
        ensures !Live(marks, a)
      {
        AboveTransitive(a, p, n);
      }
      ReleasedAgain(depth, marks, p);
    }
  }

  /** Freeing a block just allocated restores every mark. */
  lemma AllocateThenFree(depth: nat, marks: set<Node>, n: Node)
    requires Closed(depth, marks) && InTree(depth, n) && Available(marks, n)
    ensures Released(marks + Path(n), n) == marks
  {
    hide Closed, Split, Available, Path, Released, Above;
    AllocatedBlocks(depth, marks, n);
    AllocatedBlock(depth, marks, n, n);
    assert n !in Blocks(marks) by {
      AvailableUnmarked(marks, n);
    }
    ReleasedBlocks(depth, marks + Path(n), n);
    BlocksDetermineMarks(depth, Released(marks + Path(n), n), marks);
  }

  lemma AvailableUnmarked(marks: set<Node>, n: Node)
    requires Available(marks, n)
    ensures n !in marks
  {
  }
}
