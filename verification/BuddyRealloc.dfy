/** What a reallocation does to the live blocks and to the bytes in them. */
module BuddyRealloc {
  import opened Basics
  import opened BuddyTree
  import opened BuddySpec

  /** `after` is `before` with `count` bytes copied from `source` to `target`. */
  ghost predicate Moved(before: seq<bv8>, after: seq<bv8>, target: nat, source: nat, count: nat) {
    && |after| == |before| && target + count <= |before| && source + count <= |before|
    && after[target..target + count] == before[source..source + count]
    && forall k :: 0 <= k < |before| && !(target <= k < target + count) ==> after[k] == before[k]
  }

  /** A copy between disjoint ranges, byte by byte. */
  method CopyBytes(memory: array<bv8>, target: nat, source: nat, count: nat)
    requires target + count <= memory.Length && source + count <= memory.Length
    requires target + count <= source || source + count <= target
    modifies memory
    ensures Moved(old(memory[..]), memory[..], target, source, count)
  {
    for k := 0 to count
      invariant forall j :: target <= j < target + k ==> memory[j] == old(memory[source + j - target])
      invariant forall j {:trigger memory[j]} :: 0 <= j < memory.Length && !(target <= j < target + k) ==>
                memory[j] == old(memory[j])
    {
      memory[target + k] := memory[source + k];
    }
    assert memory[..][target..target + count] == old(memory[..])[source..source + count];
  }

  /** The bytes of a range are the same in both. */
  ghost predicate SameBytes(before: seq<bv8>, after: seq<bv8>, from: nat, to: nat) {
    |after| == |before| && forall k :: from <= k < to && k < |before| ==> after[k] == before[k]
  }

  /** `count` bytes now at `target` were at `source`. */
  predicate PrefixKept(before: seq<bv8>, after: seq<bv8>, target: nat, source: nat, count: nat) {
    && target + count <= |after| && source + count <= |before|
    && after[target..target + count] == before[source..source + count]
  }

  function Least(a: nat, b: nat): nat { if a <= b then a else b }

  lemma {:induction false} LeftwardsApart(depth: nat, a: Node, n: Node)
    requires n.bucket < depth && Above(a, n)
    ensures a.bucket < depth
    ensures Start(depth, a) != Start(depth, n) ==> Start(depth, a) + Size(depth, n) <= Start(depth, n)
    decreases n.bucket
  {
    AboveContains(depth, a, n);
    if a != n {
      var p := Parent(n);
      LeftwardsApart(depth, a, p);
      AboveContains(depth, a, p);
      StartOfChildren(depth, p);
      assert n == Left(p) || n == Right(p);
    }
  }

  // ---------------------------------------------------------------- outcomes

  /** Marks after reallocating the block `n`; on success the block is now `x`. */
  ghost predicate Outcome(depth: nat, marks: set<Node>, n: Node, size: nat, ok: bool, x: Node, marks': set<Node>)
    requires n.bucket < depth
  {
    if size <= BucketSize(depth, n.bucket) then
      ok && x == ShrunkNode(depth, n, size) && marks' == ShrunkMarks(depth, marks, n, size)
    else if size > Capacity(depth) then
      !ok && marks' == marks
    else
      var t := BestBucket(depth, size, 0);
      match Grow(depth, marks, n, size)
      case Grown(a) => ok && x == a && marks' == GrowMarks(depth, marks, n, size)
      case Stuck(_) =>
        var rest := Released(marks, n);
        if ok then IsLowest(rest, t, x) && marks' == rest + Path(x) else NoneAvailable(rest, t) && marks' == rest
  }

  /** Bytes move only when the block does. */
  ghost predicate MemoryOutcome(depth: nat, page: nat, n: Node, ok: bool, x: Node, before: seq<bv8>, after: seq<bv8>)
    requires n.bucket < depth
  {
    if ok && x.bucket < depth && Start(depth, x) != Start(depth, n)
    then Moved(before, after, page + Offset(depth, x), page + Offset(depth, n), BucketSize(depth, n.bucket))
    else after == before
  }

  /** On success exactly the one block is replaced, by one that is large enough; on failure the
      block is kept if the size is beyond the arena, and lost otherwise. */
  lemma OutcomeBlocks(depth: nat, marks: set<Node>, n: Node, size: nat, ok: bool, x: Node, marks': set<Node>)
    requires Closed(depth, marks) && Live(marks, n) && n.bucket < depth && Outcome(depth, marks, n, size, ok, x, marks')
    ensures Closed(depth, marks')
    ensures ok ==> Live(marks', x) && x.bucket < depth && size <= BucketSize(depth, x.bucket)
    ensures ok ==> Blocks(marks') == Blocks(marks) - {n} + {x}
    ensures !ok ==> Blocks(marks') == if size > Capacity(depth) then Blocks(marks) else Blocks(marks) - {n}
    ensures ok ==> x !in Blocks(marks) - {n}
    ensures size <= BucketSize(depth, n.bucket) ==> ok && Start(depth, x) == Start(depth, n)
    ensures size > Capacity(depth) ==> !ok
  {
    assert n.bucket < depth;
    hide Closed, Split, Available, Released, GrowMarks, ShrunkMarks, Path, BestBucket, IsBestBucket;
    CapacityLargest(depth, n.bucket);
    if size <= BucketSize(depth, n.bucket) {
      ShrunkBlocks(depth, marks, n, size);
      ShrunkShape(depth, n, size);
      ShrunkIsNew(depth, marks, n, x);
    } else if size <= Capacity(depth) {
      GrowBlocks(depth, marks, n, size);
      var g := Grow(depth, marks, n, size);
      if g.Grown? {
        GrownIsNew(depth, marks, n, x);
      } else {
        ReleasedBlocks(depth, marks, n);
        if ok {
          LowestBlocks(depth, Released(marks, n), size, x);
        }
      }
    }
  }

  // ---------------------------------------------------------------- where the block goes

  /** A block of the best fitting bucket for the size that overlaps no live block but `n`. */
  ghost predicate Fits(depth: nat, blocks: set<Node>, n: Node, size: nat, y: Node) {
    && InTree(depth, y) && IsBestBucket(depth, size, y.bucket)
    && forall b :: b in blocks && b != n ==> b.bucket < depth && Disjoint(depth, b, y)
  }

  /** Where a reallocation puts the block `n`, said with the live blocks alone. A smaller block keeps its
      start and shrinks to the best fitting size. A larger one grows into the block of the best fitting
      size around it if that is free but for itself, and otherwise goes to the lowest free block of this
      size; it fails exactly if there is none. */
  ghost predicate RightPlace(depth: nat, blocks: set<Node>, n: Node, size: nat, ok: bool, x: Node)
    requires n.bucket < depth
  {
    if size <= BucketSize(depth, n.bucket) then
      && ok && x.bucket < depth && Start(depth, x) == Start(depth, n)
      && IsBestBucket(depth, AtLeastOne(size), x.bucket)
    else if !ok then forall y :: !Fits(depth, blocks, n, size, y)
    else
      && Fits(depth, blocks, n, size, x)
      && (Above(x, n) || forall y :: Fits(depth, blocks, n, size, y) ==> !Above(y, n) && x.rank <= y.rank)
  }

  /** Growing into what is around the block. */
  lemma GrownFits(depth: nat, marks: set<Node>, n: Node, size: nat, a: Node)
    requires Closed(depth, marks) && Live(marks, n) && BucketSize(depth, n.bucket) < size <= Capacity(depth)
    requires Grow(depth, marks, n, size) == Grown(a)
    ensures Fits(depth, Blocks(marks), n, size, a) && Above(a, n)
  {
    hide Closed, Split, Grow, GrowMarks, Disjoint, Above;
    GrowBlocks(depth, marks, n, size);
    var marks' := GrowMarks(depth, marks, n, size);
    InClosed(depth, marks', a);
    GrownIsNew(depth, marks, n, a);
    forall b | b in Blocks(marks) && b != n
      ensures b.bucket < depth && Disjoint(depth, b, a)
    {
      assert b in Blocks(marks');
      InClosed(depth, marks', b);
      BlocksDisjoint(depth, marks', b, a);
    }
  }

  lemma InClosed(depth: nat, marks: set<Node>, n: Node)
    requires Closed(depth, marks) && n in marks
    ensures InTree(depth, n)
  {
  }

  /** Once the block is given up, what fits is what is available. */
  lemma FitsIffAvailable(depth: nat, marks: set<Node>, n: Node, size: nat, rest: set<Node>, y: Node)
    requires Closed(depth, rest) && Blocks(rest) == Blocks(marks) - {n} && InTree(depth, y)
    requires IsBestBucket(depth, size, y.bucket)
    ensures Fits(depth, Blocks(marks), n, size, y) <==> Available(rest, y)
  {
    hide Closed, Split, Available, Blocks, Disjoint, IsBestBucket;
    AvailableIffDisjoint(depth, rest, y);
  }

  /** If growing stopped at a taken sibling, nothing around the block fits. */
  lemma NothingAround(depth: nat, rest: set<Node>, n: Node, stop: Node, size: nat, y: Node)
    requires Closed(depth, rest) && InTree(depth, n) && Above(stop, n) && InTree(depth, stop) && stop.bucket > 0
    requires Sibling(stop) in rest && BucketSize(depth, stop.bucket) < size <= BucketSize(depth, y.bucket)
    requires InTree(depth, y) && Above(y, n)
    ensures y in rest
  {
    Family(depth, stop);
    if stop.bucket < y.bucket {
      BucketSizeDecreases(depth, stop.bucket, y.bucket);
    }
    assert y.bucket < stop.bucket;
    AboveChain(y, stop, n);
    assert Above(y, Parent(stop));
    AncestorsMarked(depth, rest, Sibling(stop), Parent(stop));
    AncestorsMarked(depth, rest, Parent(stop), y);
  }

  /** The ancestors of a node are in line. */
  lemma {:induction false} AboveChain(a: Node, b: Node, n: Node)
    requires Above(a, n) && Above(b, n) && a.bucket < b.bucket
    ensures Above(a, b)
    decreases n.bucket
  {
    if b != n {
      AboveBucket(b, n);
      AboveChain(a, b, Parent(n));
    }
  }

  /** Moving to another place. */
  lemma FallbackPlace(depth: nat, marks: set<Node>, n: Node, size: nat, ok: bool, x: Node)
    requires Closed(depth, marks) && Live(marks, n) && n.bucket < depth
    requires BucketSize(depth, n.bucket) < size <= Capacity(depth) && Grow(depth, marks, n, size).Stuck?
    requires var t, rest := BestBucket(depth, size, 0), Released(marks, n);
             if ok then IsLowest(rest, t, x) else NoneAvailable(rest, t)
    ensures RightPlace(depth, Blocks(marks), n, size, ok, x)
  {
    GrowBlocks(depth, marks, n, size);
    var t, rest, stop := BestBucket(depth, size, 0), Released(marks, n), Grow(depth, marks, n, size).node;
    assert InTree(depth, n);
    hide Closed, Split, Blocks, Grow, GrowMarks, Released, BestBucket, Above, BucketSize, Fits;
    forall y | InTree(depth, y) && IsBestBucket(depth, size, y.bucket)
      ensures y.bucket == t && (Fits(depth, Blocks(marks), n, size, y) <==> Available(rest, y))
      ensures Above(y, n) ==> !Available(rest, y)
    {
      BestBucketUnique(depth, size, t, y.bucket);
      FitsIffAvailable(depth, marks, n, size, rest, y);
      if Above(y, n) {
        NothingAround(depth, rest, n, stop, size, y);
      }
    }
    FallbackRanks(depth, Blocks(marks), n, size, ok, x, t, rest);
  }

  lemma FallbackRanks(depth: nat, blocks: set<Node>, n: Node, size: nat, ok: bool, x: Node, t: nat, rest: set<Node>)
    requires n.bucket < depth && BucketSize(depth, n.bucket) < size && t < depth && IsBestBucket(depth, size, t)
    requires forall y :: InTree(depth, y) && IsBestBucket(depth, size, y.bucket) ==>
               y.bucket == t && (Fits(depth, blocks, n, size, y) <==> Available(rest, y))
               && (Above(y, n) ==> !Available(rest, y))
    requires if ok then IsLowest(rest, t, x) else NoneAvailable(rest, t)
    ensures RightPlace(depth, blocks, n, size, ok, x)
  {
    hide Available, Above, IsBestBucket, BucketSize, Disjoint;
    forall y | Fits(depth, blocks, n, size, y)
      ensures !Above(y, n) && ok && x.rank <= y.rank
    {
      assert y == Node(t, y.rank) && Available(rest, Node(t, y.rank));
    }
  }

  /** Main result: on every path the block goes to the right place. */
  lemma OutcomePlace(depth: nat, marks: set<Node>, n: Node, size: nat, ok: bool, x: Node, marks': set<Node>)
    requires Closed(depth, marks) && Live(marks, n) && n.bucket < depth && Outcome(depth, marks, n, size, ok, x, marks')
    ensures RightPlace(depth, Blocks(marks), n, size, ok, x)
  {
    hide Closed, Split, Blocks, GrowMarks, ShrunkMarks, BestBucket, Released, IsLowest, NoneAvailable, BucketSize,
         Start;
    if size <= BucketSize(depth, n.bucket) {
      ShrunkShape(depth, n, size);
    } else if size > Capacity(depth) {
      forall y | InTree(depth, y)
        ensures !IsBestBucket(depth, size, y.bucket)
      {
        CapacityLargest(depth, y.bucket);
      }
    } else if Grow(depth, marks, n, size).Grown? {
      GrownFits(depth, marks, n, size, x);
    } else {
      FallbackPlace(depth, marks, n, size, ok, x);
    }
  }

  /** The live blocks, the block and the size determine the place. */
  lemma PlaceUnique(depth: nat, blocks: set<Node>, n: Node, size: nat, ok: bool, x: Node, ok': bool, x': Node)
    requires n.bucket < depth
    requires RightPlace(depth, blocks, n, size, ok, x) && RightPlace(depth, blocks, n, size, ok', x')
    ensures ok == ok' && (ok ==> x == x')
  {
    if ok && ok' {
      BestBucketUnique(depth, AtLeastOne(size), x.bucket, x'.bucket);
      if size <= BucketSize(depth, n.bucket) {
        SameStart(depth, x, x');
      } else if Above(x, n) && Above(x', n) {
        SameLevelAbove(x, x', n);
      }
    }
  }

  lemma SameStart(depth: nat, x: Node, x': Node)
    requires x.bucket == x'.bucket < depth && Start(depth, x) == Start(depth, x')
    ensures x == x'
  {
    PowPositive(depth - 1 - x.bucket);
    if x.rank < x'.rank {
      RanksApart(depth, x, x');
    } else if x'.rank < x.rank {
      RanksApart(depth, x', x);
    }
  }

  lemma PowPositive(k: nat)
    ensures Pow2(k) > 0
  {
  }

  lemma {:induction false} SameLevelAbove(x: Node, x': Node, n: Node)
    requires Above(x, n) && Above(x', n) && x.bucket == x'.bucket
    ensures x == x'
    decreases n.bucket
  {
    if x == n || x' == n {
      AboveBucket(x, n);
      AboveBucket(x', n);
    } else {
      SameLevelAbove(x, x', Parent(n));
    }
  }

  /** A reallocation that fails keeps the block exactly if the request is larger than the arena. */
  lemma FailureKeepsBlockIff(depth: nat, marks: set<Node>, n: Node, size: nat, x: Node, marks': set<Node>)
    requires Closed(depth, marks) && Live(marks, n) && n.bucket < depth
             && Outcome(depth, marks, n, size, false, x, marks')
    ensures n in Blocks(marks') <==> size > Capacity(depth)
  {
    hide Closed, Split, Outcome;
    OutcomeBlocks(depth, marks, n, size, false, x, marks');
    assert n in Blocks(marks);
  }

  const LEFT_HALF: Node := Node(1, 0)
  const RIGHT_HALF: Node := Node(1, 1)
  const HALVES: set<Node> := {ROOT, LEFT_HALF, RIGHT_HALF}

  lemma HalvesClosed(depth: nat)
    requires depth >= 2
    ensures Closed(depth, HALVES)
  {
    assert Pow2(0) == 1 && Pow2(1) == 2;
  }

  lemma HalvesLive()
    ensures Blocks(HALVES) == {LEFT_HALF, RIGHT_HALF} && LEFT_HALF !in Blocks({ROOT, RIGHT_HALF})
  {
    assert Left(ROOT) == LEFT_HALF && Split(HALVES, ROOT);
    assert Left(LEFT_HALF).bucket == Right(LEFT_HALF).bucket == 2 && !Split(HALVES, LEFT_HALF);
    assert Left(RIGHT_HALF).bucket == Right(RIGHT_HALF).bucket == 2 && !Split(HALVES, RIGHT_HALF);
    hide Split;
  }

  lemma HalfReleased()
    ensures Released(HALVES, LEFT_HALF) == {ROOT, RIGHT_HALF} && NoneAvailable({ROOT, RIGHT_HALF}, 0)
  {
    assert HALVES - {LEFT_HALF} == {ROOT, RIGHT_HALF};
    assert Pow2(0) == 1;
    assert !Available({ROOT, RIGHT_HALF}, Node(0, 0));
  }

  /** Two live halves, in an arena of any depth: growing the left one to the whole arena fails
      and loses it. */
  lemma FailureLosesBlock(depth: nat)
    requires depth >= 2
    ensures Closed(depth, HALVES) && Blocks(HALVES) == {LEFT_HALF, RIGHT_HALF}
    ensures 2 * BucketSize(depth, 1) == Capacity(depth)
    ensures Outcome(depth, HALVES, LEFT_HALF, Capacity(depth), false, ROOT, {ROOT, RIGHT_HALF})
    ensures LEFT_HALF !in Blocks({ROOT, RIGHT_HALF})
  {
    HalvesClosed(depth);
    HalvesLive();
    HalfReleased();
    hide Closed, Released, NoneAvailable, Blocks, Pow2;
    BucketSizeHalves(depth, 0);
    assert BestBucket(depth, Capacity(depth), 0) == 0;
    assert Grow(depth, HALVES, LEFT_HALF, Capacity(depth)) == Stuck(LEFT_HALF);
  }

  lemma CapacityLargest(depth: nat, bucket: nat)
    requires bucket < depth
    ensures BucketSize(depth, bucket) <= Capacity(depth)
  {
    if bucket > 0 {
      BucketSizeDecreases(depth, 0, bucket);
    }
  }

  lemma ShrunkIsNew(depth: nat, marks: set<Node>, n: Node, x: Node)
    requires Closed(depth, marks) && Live(marks, n) && Above(n, x)
    ensures x !in Blocks(marks) - {n}
  {
    if x in marks && x != n {
      AncestorsSplit(depth, marks, x, n);
    }
  }

  lemma GrownIsNew(depth: nat, marks: set<Node>, n: Node, x: Node)
    requires Closed(depth, marks) && Live(marks, n) && Above(x, n)
    ensures x !in Blocks(marks) - {n}
  {
    if x != n {
      AncestorsSplit(depth, marks, n, x);
    }
  }

  lemma LowestBlocks(depth: nat, rest: set<Node>, size: nat, x: Node)
    requires Closed(depth, rest) && depth > 0 && 1 <= size <= Capacity(depth)
    requires IsLowest(rest, BestBucket(depth, size, 0), x)
    ensures Closed(depth, rest + Path(x)) && Blocks(rest + Path(x)) == Blocks(rest) + {x} && Live(rest + Path(x), x)
    ensures InTree(depth, x) && size <= BucketSize(depth, x.bucket) && x !in rest && x !in Blocks(rest)
  {
    AllocatedBlocks(depth, rest, x);
    assert x in Blocks(rest + Path(x));
  }

  /** The two ranges of a copy never overlap. */
  lemma CopyRangesDisjoint(depth: nat, marks: set<Node>, n: Node, size: nat, x: Node, marks': set<Node>)
    requires Closed(depth, marks) && Live(marks, n) && n.bucket < depth
             && Outcome(depth, marks, n, size, true, x, marks')
    requires x.bucket < depth && Start(depth, x) != Start(depth, n)
    ensures Start(depth, x) + Size(depth, n) <= Start(depth, n) || Start(depth, n) + Size(depth, n) <= Start(depth, x)
  {
    OutcomeBlocks(depth, marks, n, size, true, x, marks');
    GrowBlocks(depth, marks, n, size);
    match Grow(depth, marks, n, size)
    case Grown(a) => LeftwardsApart(depth, a, n);
    case Stuck(a) =>
      LowestBlocks(depth, Released(marks, n), size, x);
      FallbackDisjoint(depth, Released(marks, n), n, a, x, size);
      SizesOrdered(depth, n, x, size);
  }

  lemma SizesOrdered(depth: nat, n: Node, x: Node, size: nat)
    requires n.bucket < depth && x.bucket < depth && BucketSize(depth, n.bucket) < size <= BucketSize(depth, x.bucket)
    ensures Size(depth, n) <= Size(depth, x)
  {
  }

  /** After a successful reallocation the bytes of the block are at its new address, up to the
      smaller of the two sizes, and no other live block has changed a byte. */
  lemma ReallocationKeepsData(depth: nat, marks: set<Node>, page: nat, n: Node, size: nat, ok: bool, x: Node,
                              marks': set<Node>, before: seq<bv8>, after: seq<bv8>)
    requires Closed(depth, marks) && Live(marks, n) && n.bucket < depth && Outcome(depth, marks, n, size, ok, x, marks')
    requires MemoryOutcome(depth, page, n, ok, x, before, after) && page + Capacity(depth) <= |before|
    ensures ok ==> x.bucket < depth
    ensures ok ==> PrefixKept(before, after, page + Offset(depth, x), page + Offset(depth, n),
                              Least(size, BucketSize(depth, n.bucket)))
    ensures forall b :: b in Blocks(marks) - {n} && b.bucket < depth ==>
                          SameBytes(before, after, page + Offset(depth, b), page + Offset(depth, b)
                              + BucketSize(depth, b.bucket))
    ensures SameBytes(before, after, 0, page) && SameBytes(before, after, page + Capacity(depth), |before|)
  {
    hide Outcome, Closed, Split, Moved, PrefixKept, SameBytes;
    OutcomeBlocks(depth, marks, n, size, ok, x, marks');
    BlockInPage(depth, marks, n);
    if ok && Start(depth, x) != Start(depth, n) {
      CopyInside(depth, marks, n, size, x, marks');
      MoveKeepsData(depth, marks', page, n, x, before, after, Least(size, BucketSize(depth, n.bucket)));
    } else {
      StayKeepsData(before, page + Offset(depth, n), Least(size, BucketSize(depth, n.bucket)));
    }
  }

  lemma StayKeepsData(before: seq<bv8>, source: nat, part: nat)
    requires source + part <= |before|
    ensures PrefixKept(before, before, source, source, part)
    ensures forall from, to :: SameBytes(before, before, from, to)
  {
  }

  lemma MoveKeepsData(depth: nat, marks': set<Node>, page: nat, n: Node, x: Node, before: seq<bv8>, after: seq<bv8>,
                      part: nat)
    requires n.bucket < depth && Closed(depth, marks') && Live(marks', x) && x.bucket < depth
    requires BucketSize(depth, n.bucket) <= BucketSize(depth, x.bucket) && part <= BucketSize(depth, n.bucket)
    requires Offset(depth, x) + BucketSize(depth, x.bucket) <= Capacity(depth)
    requires Moved(before, after, page + Offset(depth, x), page + Offset(depth, n), BucketSize(depth, n.bucket))
    ensures PrefixKept(before, after, page + Offset(depth, x), page + Offset(depth, n), part)
    ensures forall b :: b in Blocks(marks') && b != x && b.bucket < depth ==>
                          SameBytes(before, after, page + Offset(depth, b), page + Offset(depth, b)
                              + BucketSize(depth, b.bucket))
    ensures SameBytes(before, after, 0, page) && SameBytes(before, after, page + Capacity(depth), |before|)
  {
    hide Closed, Split, Offset, BucketSize, Capacity, Start, Moved, PrefixKept, SameBytes;
    var target, source, count := page + Offset(depth, x), page + Offset(depth, n), BucketSize(depth, n.bucket);
    MovedPrefix(before, after, target, source, count, part);
    MovedOutside(before, after, target, source, count, 0, page);
    MovedOutside(before, after, target, source, count, page + Capacity(depth), |before|);
    forall b | b in Blocks(marks') && b != x && b.bucket < depth
      ensures SameBytes(before, after, page + Offset(depth, b), page + Offset(depth, b) + BucketSize(depth, b.bucket))
    {
      ApartInBytes(depth, marks', b, x);
      MovedOutside(before, after, target, source, count,
                   page + Offset(depth, b), page + Offset(depth, b) + BucketSize(depth, b.bucket));
    }
  }

  lemma ApartInBytes(depth: nat, marks: set<Node>, b: Node, x: Node)
    requires Closed(depth, marks) && Live(marks, b) && Live(marks, x) && b != x
    ensures b.bucket < depth && x.bucket < depth
    ensures Offset(depth, b) + BucketSize(depth, b.bucket) <= Offset(depth, x)
            || Offset(depth, x) + BucketSize(depth, x.bucket) <= Offset(depth, b)
  {
    BlocksDisjoint(depth, marks, b, x);
  }

  lemma MovedPrefix(before: seq<bv8>, after: seq<bv8>, target: nat, source: nat, count: nat, part: nat)
    requires Moved(before, after, target, source, count) && part <= count
    ensures PrefixKept(before, after, target, source, part)
  {
    assert after[target..target + part] == after[target..target + count][..part];
    assert before[source..source + part] == before[source..source + count][..part];
  }

  lemma MovedOutside(before: seq<bv8>, after: seq<bv8>, target: nat, source: nat, count: nat, from: nat, to: nat)
    requires Moved(before, after, target, source, count) && (to <= target || target + count <= from)
    ensures SameBytes(before, after, from, to)
  {
  }

  /** The copied bytes fit into the new block. */
  lemma CopyInside(depth: nat, marks: set<Node>, n: Node, size: nat, x: Node, marks': set<Node>)
    requires Closed(depth, marks) && Live(marks, n) && n.bucket < depth
             && Outcome(depth, marks, n, size, true, x, marks')
    requires x.bucket < depth && Start(depth, x) != Start(depth, n)
    ensures BucketSize(depth, n.bucket) <= BucketSize(depth, x.bucket)
    ensures Offset(depth, x) + BucketSize(depth, x.bucket) <= Capacity(depth)
  {
    OutcomeBlocks(depth, marks, n, size, true, x, marks');
    BlockInPage(depth, marks', x);
  }

  lemma BlockInPage(depth: nat, marks: set<Node>, n: Node)
    requires Closed(depth, marks) && n in marks
    ensures n.bucket < depth && Offset(depth, n) + BucketSize(depth, n.bucket) <= Capacity(depth)
  {
    NodeInPage(depth, n);
  }

  lemma NodeInPage(depth: nat, n: Node)
    requires InTree(depth, n)
    ensures Offset(depth, n) + BucketSize(depth, n.bucket) <= Capacity(depth)
  {
    RootAbove(depth, n);
    AboveContains(depth, ROOT, n);
  }
}
