/**
  A buddy arena: a page of memory and the bitmap of its tree. The memory is one array shared
  by all arenas; `page` is where this arena's part of it starts, and an address is an index
  into the array.
*/
module BuddyArena {
  import opened Basics
  import opened BuddyTree
  import opened BuddySpec
  import opened BuddySearch
  import opened BuddyIndex
  import opened BuddyRealloc
  import opened BuddyUsage
  import opened Bitmap

  datatype Step = Move | Take | Fail

  class Arena {
    const depth: nat
    const page: nat
    const memory: array<bv8>
    const nodes: array<bv8>

    predicate Shape() {
      && DepthOk(depth) && 8 * nodes.Length >= Pow2(depth) - 1
      && page + Capacity(depth) <= memory.Length && nodes != memory
    }

    ghost function Marks(): set<Node>
      requires Shape()
      reads nodes
    {
      MarksOf(depth, nodes[..])
    }

    ghost predicate Valid()
      reads nodes
    {
      Shape() && Closed(depth, Marks())
    }

    /** The live blocks. */
    ghost function LiveBlocks(): set<Node>
      requires Shape()
      reads nodes
    {
      Blocks(Marks())
    }

    constructor (depth: nat, page: nat, memory: array<bv8>)
      requires DepthOk(depth) && page + Capacity(depth) <= memory.Length
      ensures this.depth == depth && this.page == page && this.memory == memory && fresh(nodes)
      ensures Valid() && Marks() == {}
    {
      this.depth := depth;
      this.page := page;
      this.memory := memory;
      nodes := new bv8[(Pow2(depth) + 6) / 8](_ => 0);
      new;
      NothingMarked(depth, nodes[..]);
    }

    // -------------------------------------------------------------- bits and nodes

    predicate Marked(i: nat)
      requires i / 8 < nodes.Length
      reads nodes
    {
      HasBit(nodes[i / 8], i % 8)
    }

    lemma MarkedIsInMarks(n: Node)
      requires Shape() && InTree(depth, n)
      ensures Index(n) / 8 < nodes.Length
      ensures Marked(Index(n)) <==> n in Marks()
    {
      IndexInRange(depth, n);
      InMarks(depth, nodes[..], n);
    }

    method Mark(i: nat, ghost n: Node)
      requires Shape() && InTree(depth, n) && i == Index(n)
      modifies nodes
      ensures Marks() == old(Marks()) + {n}
    {
      IndexInRange(depth, n);
      ghost var bytes := nodes[..];
      Bitmap.Mark(nodes, i);
      MarkOne(depth, bytes, n);
    }

    method Unmark(i: nat, ghost n: Node)
      requires Shape() && InTree(depth, n) && i == Index(n)
      modifies nodes
      ensures Marks() == old(Marks()) - {n}
    {
      IndexInRange(depth, n);
      ghost var bytes := nodes[..];
      Bitmap.Unmark(nodes, i);
      MarkOne(depth, bytes, n);
    }

    method IsSplit(i: nat, bucket: nat, ghost n: Node) returns (split: bool)
      requires Valid() && InTree(depth, n) && i == Index(n) && bucket == n.bucket
      ensures split <==> Split(Marks(), n)
    {
      IndexFamily(depth, n);
      Family(depth, n);
      if bucket < depth - 1 {
        MarkedIsInMarks(Left(n));
        MarkedIsInMarks(Right(n));
      }
      split := bucket < depth - 1 && (Marked(LeftIndex(i)) || Marked(RightIndex(i)));
    }

    // -------------------------------------------------------------- allocating

    /** From a node that was passed to the next one to look at. */
    method Backtrack(i0: nat, bucket0: nat, offset0: nat, ghost t: nat, ghost n0: Node)
      returns (more: bool, i: nat, bucket: nat, offset: nat, ghost n: Node)
      requires Valid() && Passed(depth, Marks(), t, n0)
      requires i0 == Index(n0) && bucket0 == n0.bucket && offset0 == Offset(depth, n0)
      ensures more ==> Reached(depth, Marks(), t, n) && FirstRank(n, t) == EndRank(n0, t)
      ensures more ==> i == Index(n) && bucket == n.bucket && offset == Offset(depth, n)
      ensures !more ==> NoneAvailable(Marks(), t)
    {
      hide Scanned, NoLiveAbove, SiblingIndex, ParentIndex, IsLeftIndex, Index, FirstRank, EndRank, Offset, BucketSize,
           Pow2, MarksOf, Closed, NoneAvailable;
      i, bucket, offset, n := i0, bucket0, offset0, n0;
      IndexFamily(depth, n);
      while !IsLeftIndex(i)
        invariant Passed(depth, Marks(), t, n) && EndRank(n, t) == EndRank(n0, t)
        invariant i == Index(n) && bucket == n.bucket && offset == Offset(depth, n)
        invariant IsLeftIndex(i) <==> IsLeft(n)
        decreases bucket
      {
        SearchClimbs(depth, Marks(), t, n);
        IndexFamily(depth, n);
        i := ParentIndex(i);
        offset := offset - BucketSize(depth, bucket);
        bucket := bucket - 1;
        n := Parent(n);
        IndexFamily(depth, n);
      }
      IndexFamily(depth, n);
      if i == 0 {
        SearchEnds(depth, Marks(), t);
        more := false;
      } else {
        SearchCrosses(depth, Marks(), t, n);
        more := true;
        i := SiblingIndex(i);
        offset := offset + BucketSize(depth, bucket);
        n := Sibling(n);
      }
    }

    /** One round of the search: move on to another node, or decide. */
    method Visit(size: nat, i0: nat, bucket0: nat, offset0: nat, ghost t: nat, ghost n0: Node)
      returns (step: Step, i: nat, bucket: nat, offset: nat, ghost n: Node)
      requires Valid() && IsBestBucket(depth, size, t) && Reached(depth, Marks(), t, n0)
      requires i0 == Index(n0) && bucket0 == n0.bucket && offset0 == Offset(depth, n0)
      ensures step.Move? ==> Reached(depth, Marks(), t, n)
      ensures step.Move? ==>
              FirstRank(n0, t) < FirstRank(n, t) || (FirstRank(n0, t) == FirstRank(n, t) && n0.bucket < n.bucket)
      ensures step.Take? ==> IsLowest(Marks(), t, n) && InTree(depth, n)
      ensures !step.Fail? ==> i == Index(n) && bucket == n.bucket && offset == Offset(depth, n)
      ensures step.Fail? ==> NoneAvailable(Marks(), t)
    {
      hide Closed, Reached, Passed, SiblingIndex, IsLeftIndex, FirstRank, EndRank, Offset, BucketSize, BestBucket,
           Split, MarksOf, Pow2, Index, IsLowest, NoneAvailable, HasBit, IsBestBucket;
      i, bucket, offset, n := i0, bucket0, offset0, n0;
      ReachedInTree(depth, Marks(), t, n);
      HalvesDo(depth, size, t, bucket);
      MarkedIsInMarks(n);
      IndexFamily(depth, n);
      var split := IsSplit(i, bucket, n);
      if Marked(i) && (size > BucketSize(depth, bucket + 1) || !split) {
        SearchTakes(depth, Marks(), t, n);
        var more;
        more, i, bucket, offset, n := Backtrack(i, bucket, offset, t, n);
        step := if more then Move else Fail;
      } else if size <= BucketSize(depth, bucket + 1) {
        SearchDescends(depth, Marks(), t, n);
        i := LeftIndex(i);
        bucket := bucket + 1;
        n := Left(n);
        step := Move;
      } else {
        SearchFinds(depth, Marks(), t, n);
        step := Take;
      }
    }

    /** Finds the lowest available block of the best fitting bucket, if there is one. */
    method FindFree(size: nat) returns (found: bool, i: nat, offset: nat, ghost n: Node)
      requires Valid() && 1 <= size <= Capacity(depth)
      ensures found ==> IsLowest(Marks(), BestBucket(depth, size, 0), n)
      ensures found ==> InTree(depth, n) && i == Index(n) && offset == Offset(depth, n)
      ensures !found ==> NoneAvailable(Marks(), BestBucket(depth, size, 0))
    {
      hide Closed, Reached, FirstRank, EndRank, Offset, Pow2, Index, IsLowest, NoneAvailable, BucketSize;
      ghost var t := BestBucket(depth, size, 0);
      SearchStarts(depth, Marks(), t);
      IndexFamily(depth, ROOT);
      var bucket, step := 0, Move;
      i, offset, n := 0, 0, ROOT;
      ReachedInTree(depth, Marks(), t, n);
      while step == Move
        invariant step.Move? ==>
                  Reached(depth, Marks(), t, n) && InTree(depth, n) && n.bucket <= t && EndRank(n, t) <= Pow2(t)
        invariant step.Take? ==> IsLowest(Marks(), t, n) && InTree(depth, n)
        invariant !step.Fail? ==> i == Index(n) && bucket == n.bucket && offset == Offset(depth, n)
        invariant step.Fail? ==> NoneAvailable(Marks(), t)
        decreases step.Move?, if step.Move? then Pow2(t) - FirstRank(n, t) else 0, if step.Move? then t - n.bucket
            else 0
      {
        RanksNonempty(n, t);
        step, i, bucket, offset, n := Visit(size, i, bucket, offset, t, n);
        if step == Move {
          ReachedInTree(depth, Marks(), t, n);
        }
      }
      found := step == Take;
    }

    method MarkPath(i0: nat, ghost n0: Node)
      requires Shape() && InTree(depth, n0) && i0 == Index(n0)
      modifies nodes
      ensures Marks() == old(Marks()) + Path(n0)
    {
      hide MarksOf, ParentIndex, SiblingIndex, IsLeftIndex, LeftIndex, Index, Pow2, Path, InTree, Capacity;
      var i := i0;
      ghost var n, goal := n0, Marks() + Path(n0);
      PathStart(Marks(), n);
      Mark(i, n);
      IndexFamily(depth, n);
      while i != 0
        invariant InTree(depth, n) && i == Index(n) && (i == 0 <==> n.bucket == 0)
        invariant Marks() + Path(n) == goal && n in Marks()
        decreases n.bucket
      {
        Family(depth, n);
        IndexFamily(depth, n);
        PathStep(Marks(), n, goal);
        i := ParentIndex(i);
        n := Parent(n);
        IndexFamily(depth, n);
        Mark(i, n);
      }
      PathEnd(Marks(), n);
    }

    /** Takes the lowest available block of the best fitting bucket. Fails exactly if the request
        is larger than the page or no such block is available. */
    method Allocate(size: nat) returns (ok: bool, address: nat, ghost n: Node)
      requires Valid() && size >= 1
      modifies nodes
      ensures Valid()
      ensures ok ==> size <= Capacity(depth) && IsLowest(old(Marks()), BestBucket(depth, size, 0), n)
      ensures ok ==> InTree(depth, n) && address == page + Offset(depth, n) && Marks() == old(Marks()) + Path(n)
      ensures ok ==> LiveBlocks() == old(LiveBlocks()) + {n} && n !in old(LiveBlocks())
      ensures !ok ==> Marks() == old(Marks())
      ensures !ok ==> size > Capacity(depth) || NoneAvailable(Marks(), BestBucket(depth, size, 0))
    {
      if size > Capacity(depth) {
        return false, 0, ROOT;
      }
      var i, offset;
      ok, i, offset, n := FindFree(size);
      if !ok {
        return false, 0, ROOT;
      }
      hide Closed, Path, Available, Split, MarksOf;
      LowestBlocks(depth, Marks(), size, n);
      MarkPath(i, n);
      address := page + offset;
    }

    // -------------------------------------------------------------- looking up and freeing

    /** Any address of this page at which a granule starts. */
    predicate Aligned(address: nat) {
      page <= address < page + Capacity(depth) && (address - page) % GRANULARITY == 0
    }

    method FindBuddy(address: nat) returns (i: nat, bucket: nat, ghost n: Node)
      requires Valid() && Aligned(address)
      ensures FoundAt(depth, Marks(), (address - page) / GRANULARITY, n)
      ensures i == Index(n) && bucket == n.bucket
    {
      i, bucket, n := Descend(address, (address - page) / GRANULARITY);
    }

    method Descend(address: nat, ghost granule: nat) returns (i: nat, bucket: nat, ghost n: Node)
      requires Valid() && address == page + GRANULARITY * granule && GRANULARITY * granule < Capacity(depth)
      ensures FoundAt(depth, Marks(), granule, n)
      ensures i == Index(n) && bucket == n.bucket
    {
      hide Closed, Split, MarksOf, Index, LeftIndex, RightIndex, LookingAt, FoundAt, Offset, BucketSize, Pow2;
      IndexFamily(depth, ROOT);
      LookStarts(depth, Marks(), granule);
      i, bucket, n := 0, 0, ROOT;
      var pointer := page;
      LookInTree(depth, Marks(), granule, n);
      var split := IsSplit(i, bucket, n);
      while !(pointer == address && !split)
        invariant i == Index(n) && bucket == n.bucket < depth && pointer == page + Offset(depth, n)
        invariant LookingAt(depth, Marks(), granule, n) && InTree(depth, n)
        invariant split == Split(Marks(), n)
        decreases depth - bucket
      {
        IndexFamily(depth, n);
        LookDescends(depth, Marks(), granule, n);
        if address < pointer + BucketSize(depth, bucket + 1) {
          i := LeftIndex(i);
          n := Left(n);
        } else {
          pointer := pointer + BucketSize(depth, bucket + 1);
          i := RightIndex(i);
          n := Right(n);
        }
        bucket := bucket + 1;
        LookInTree(depth, Marks(), granule, n);
        split := IsSplit(i, bucket, n);
      }
      LookFinds(depth, Marks(), granule, n);
    }

    /** Unmarks upwards from a node as long as the sibling is free. */
    method Release(i0: nat, ghost n0: Node)
      requires Shape() && InTree(depth, n0) && i0 == Index(n0)
      modifies nodes
      ensures Marks() == Released(old(Marks()), n0)
    {
      var i := i0;
      ghost var n := n0;
      while true
        invariant InTree(depth, n) && i == Index(n)
        invariant Released(Marks(), n) == Released(old(Marks()), n0)
        decreases n.bucket
      {
        Unmark(i, n);
        Family(depth, n);
        IndexFamily(depth, n);
        if n.bucket > 0 {
          MarkedIsInMarks(Sibling(n));
        }
        if i == 0 || Marked(SiblingIndex(i)) {
          return;
        }
        i := ParentIndex(i);
        n := Parent(n);
      }
    }

    /** Freeing any granule of a live block removes the block and nothing else; freeing an address
        inside no live block changes nothing. */
    method Deallocate(address: nat)
      requires Valid() && Aligned(address)
      modifies nodes
      ensures Valid()
      ensures forall b :: b in old(LiveBlocks()) && b.bucket < depth
                          && Contains(depth, b, (address - page) / GRANULARITY) ==>
                            LiveBlocks() == old(LiveBlocks()) - {b}
      ensures (forall b :: b in old(LiveBlocks()) ==>
                             b.bucket < depth && !Contains(depth, b, (address - page) / GRANULARITY)) ==>
                Marks() == old(Marks())
    {
      var i, _, n := FindBuddy(address);
      ghost var granule := (address - page) / GRANULARITY;
      ghost var marks := Marks();
      hide Split, MarksOf, Available, Contains;
      Release(i, n);
      BlocksInTree(depth, marks);
      if b :| b in Blocks(marks) && b.bucket < depth && Contains(depth, b, granule) {
        FoundIsInside(depth, marks, granule, n, b);
        ReleasedInside(depth, marks, b, n);
        ReleasedBlocks(depth, marks, b);
        forall c | c in Blocks(marks) && c.bucket < depth && Contains(depth, c, granule)
          ensures c == b
        {
          OneBlockAt(depth, marks, granule, b, c);
        }
      } else {
        FoundIsFree(depth, marks, granule, n);
        ReleasedAgain(depth, marks, n);
      }
    }

    // -------------------------------------------------------------- usage

    method UsageBelow(i: nat, bucket: nat, ghost n: Node) returns (usage: nat)
      requires Valid() && InTree(depth, n) && i == Index(n) && bucket == n.bucket
      ensures usage == TotalSize(depth, BlocksBelow(Marks(), n))
      decreases depth - bucket
    {
      hide Closed, Split, MarksOf, Index, LeftIndex, RightIndex, Pow2, BlocksBelow, BucketSize, HasBit, TotalSize;
      MarkedIsInMarks(n);
      var split := IsSplit(i, bucket, n);
      if split {
        TotalSplit(depth, Marks(), n);
        Children(depth, n);
        IndexFamily(depth, n);
        var left := UsageBelow(LeftIndex(i), bucket + 1, Left(n));
        var right := UsageBelow(RightIndex(i), bucket + 1, Right(n));
        return left + right;
      }
      TotalUnsplit(depth, Marks(), n);
      usage := if Marked(i) then BucketSize(depth, bucket) else 0;
    }

    /** The memory in use is the sum of the sizes of the live blocks. */
    method Usage() returns (usage: nat)
      requires Valid()
      ensures usage == TotalSize(depth, LiveBlocks())
    {
      AllBelowRoot(depth, Marks());
      usage := UsageBelow(0, 0, ROOT);
    }

    // -------------------------------------------------------------- reallocating

    method Shrink(i0: nat, bucket0: nat, size: nat, ghost n0: Node) returns (shrunk: bool)
      requires Shape() && InTree(depth, n0) && i0 == Index(n0) && bucket0 == n0.bucket
      modifies nodes
      ensures Marks() == ShrunkMarks(depth, old(Marks()), n0, size)
      ensures shrunk <==> size <= BucketSize(depth, bucket0 + 1) && bucket0 + 1 < depth
      ensures old(Valid()) && n0 in old(LiveBlocks()) ==>
                Valid() && LiveBlocks() == old(LiveBlocks()) - {n0} + {ShrunkNode(depth, n0, size)}
    {
      hide MarksOf, Index, LeftIndex, BucketSize, Pow2, Closed, ShrunkNode;
      var i, bucket := i0, bucket0;
      ghost var n := n0;
      if Closed(depth, Marks()) && n0 in LiveBlocks() {
        ShrunkBlocks(depth, Marks(), n0, size);
      }
      shrunk := false;
      while size <= BucketSize(depth, bucket + 1) && bucket < depth - 1
        invariant InTree(depth, n) && i == Index(n) && bucket == n.bucket
        invariant ShrunkMarks(depth, Marks(), n, size) == ShrunkMarks(depth, old(Marks()), n0, size)
        invariant if shrunk then size <= BucketSize(depth, bucket0 + 1) && bucket0 + 1 < depth else n == n0
        decreases depth - bucket
      {
        shrunk := true;
        IndexFamily(depth, n);
        Family(depth, n);
        i := LeftIndex(i);
        n := Left(n);
        Mark(i, n);
        bucket := bucket + 1;
      }
    }

    method Expand(i0: nat, bucket0: nat, size: nat, ghost n0: Node)
      returns (grown: bool, i: nat, bucket: nat, ghost n: Node)
      requires Shape() && InTree(depth, n0) && i0 == Index(n0) && bucket0 == n0.bucket
      modifies nodes
      ensures Marks() == GrowMarks(depth, old(Marks()), n0, size)
      ensures Grow(depth, old(Marks()), n0, size) == if grown then Grown(n) else Stuck(n)
      ensures InTree(depth, n) && i == Index(n) && bucket == n.bucket
    {
      hide MarksOf, Index, ParentIndex, SiblingIndex, BucketSize, Pow2, HasBit;
      i, bucket, n, grown := i0, bucket0, n0, true;
      while BucketSize(depth, bucket) < size
        invariant InTree(depth, n) && i == Index(n) && bucket == n.bucket && grown
        invariant GrowMarks(depth, Marks(), n, size) == GrowMarks(depth, old(Marks()), n0, size)
        invariant Grow(depth, Marks(), n, size) == Grow(depth, old(Marks()), n0, size)
        decreases bucket
      {
        Unmark(i, n);
        if bucket == 0 {
          grown := false;
          return;
        }
        IndexFamily(depth, n);
        Family(depth, n);
        MarkedIsInMarks(Sibling(n));
        if Marked(SiblingIndex(i)) {
          grown := false;
          return;
        }
        i := ParentIndex(i);
        bucket := bucket - 1;
        n := Parent(n);
      }
    }

    function NodeToAddress(i: nat, bucket: nat): nat
      requires bucket < depth && i + 1 >= Pow2(bucket)
    {
      page + Offset(depth, Node(bucket, i + 1 - Pow2(bucket)))
    }

    /** Changes the size of a live block, in place if possible. The block goes where it should: a request
        that fits shrinks it in place to the smallest block that holds the request. */
    method Reallocate(address: nat, size: nat, ghost b: Node)
      returns (ok: bool, target: nat, currentSize: nat, ghost x: Node)
      requires Valid() && b in LiveBlocks() && b.bucket < depth && address == page + Offset(depth, b)
      modifies nodes, memory
      ensures Valid() && currentSize == BucketSize(depth, b.bucket)
      ensures Outcome(depth, old(Marks()), b, size, ok, x, Marks())
      ensures RightPlace(depth, old(LiveBlocks()), b, size, ok, x)
      ensures ok ==> LiveBlocks() == old(LiveBlocks()) - {b} + {x}
      ensures MemoryOutcome(depth, page, b, ok, x, old(memory[..]), memory[..])
      ensures ok ==> x.bucket < depth && target == page + Offset(depth, x)
      ensures size <= currentSize ==> ok && target == address
    {
      hide Closed, Split, MarksOf, Index, Pow2, GrowMarks, Grow, Released, IsLowest, NoneAvailable, FoundAt, Path;
      ghost var marks := Marks();
      BlockAligned(depth, marks, b);
      var i, bucket, n := FindBuddy(address);
      FoundIsLive(depth, marks, n, b);
      currentSize := BucketSize(depth, bucket);
      var shrunk := Shrink(i, bucket, size, b);
      BucketSizeHalves(depth, b.bucket);
      if shrunk || size <= currentSize {
        ok, target, x := true, address, ShrunkNode(depth, b, size);
        OutcomeBlocks(depth, marks, b, size, ok, x, Marks());
      } else if size > Capacity(depth) {
        ok, target, x := false, 0, ROOT;
      } else {
        ok, target, x := Relocate(i, bucket, address, size, b);
      }
      OutcomeBlocks(depth, marks, b, size, ok, x, Marks());
      OutcomePlace(depth, marks, b, size, ok, x, Marks());
    }

    /** The part of a reallocation in which the block has to grow. */
    method Relocate(i0: nat, bucket0: nat, address: nat, size: nat, ghost b: Node)
      returns (ok: bool, target: nat, ghost x: Node)
      requires Valid() && b in LiveBlocks() && InTree(depth, b) && address == page + Offset(depth, b)
      requires i0 == Index(b) && bucket0 == b.bucket && BucketSize(depth, b.bucket) < size <= Capacity(depth)
      modifies nodes, memory
      ensures Valid()
      ensures Outcome(depth, old(Marks()), b, size, ok, x, Marks())
      ensures MemoryOutcome(depth, page, b, ok, x, old(memory[..]), memory[..])
      ensures ok ==> x.bucket < depth && target == page + Offset(depth, x)
    {
      hide Closed, Split, MarksOf, Index, GrowMarks, Grow, Released, IsLowest, NoneAvailable, Pow2, Outcome, Moved,
           Start, BucketSize, BestBucket;
      ghost var marks := Marks();
      var currentSize := BucketSize(depth, bucket0);
      GrowBlocks(depth, marks, b, size);
      var grown, i, bucket, a := Expand(i0, bucket0, size, b);
      if grown {
        NodeAddress(i, bucket, a);
        ok, target, x := true, NodeToAddress(i, bucket), a;
        GrownOutcome(depth, marks, b, size, a);
      } else {
        ok, target, x := Allocate(size);
        FallbackOutcome(depth, marks, b, size, ok, x, Marks());
      }
      OutcomeBlocks(depth, marks, b, size, ok, x, Marks());
      if ok && target != address {
        CopyIsSafe(depth, marks, b, size, x, Marks());
        CopyBytes(memory, target, address, currentSize);
      }
    }

    lemma NodeAddress(i: nat, bucket: nat, n: Node)
      requires InTree(depth, n) && i == Index(n) && bucket == n.bucket
      ensures i + 1 >= Pow2(bucket) && NodeToAddress(i, bucket) == page + Offset(depth, n)
    {
    }
  }

  lemma PathStart(marks: set<Node>, n: Node)
    ensures marks + {n} + Path(n) == marks + Path(n)
  {
  }

  lemma PathStep(marks: set<Node>, n: Node, goal: set<Node>)
    requires n in marks && n.bucket > 0 && marks + Path(n) == goal
    ensures marks + {Parent(n)} + Path(Parent(n)) == goal
  {
  }

  lemma PathEnd(marks: set<Node>, n: Node)
    requires n in marks && n.bucket == 0
    ensures marks + Path(n) == marks
  {
  }

  lemma BlockAligned(depth: nat, marks: set<Node>, b: Node)
    requires Closed(depth, marks) && b in Blocks(marks)
    ensures b.bucket < depth && Offset(depth, b) < Capacity(depth)
    ensures Offset(depth, b) % GRANULARITY == 0 && Offset(depth, b) / GRANULARITY == Start(depth, b)
  {
    hide Closed, Split, Start, Pow2;
    BlockInPage(depth, marks, b);
  }

  lemma GrownOutcome(depth: nat, marks: set<Node>, b: Node, size: nat, a: Node)
    requires b.bucket < depth && BucketSize(depth, b.bucket) < size <= Capacity(depth)
    requires Grow(depth, marks, b, size) == Grown(a)
    ensures Outcome(depth, marks, b, size, true, a, GrowMarks(depth, marks, b, size))
  {
  }

  /** A block that could not grow ends up at another address or nowhere. */
  lemma FallbackOutcome(depth: nat, marks: set<Node>, b: Node, size: nat, ok: bool, x: Node, marks': set<Node>)
    requires Closed(depth, marks) && Live(marks, b) && b.bucket < depth
    requires BucketSize(depth, b.bucket) < size <= Capacity(depth) && Grow(depth, marks, b, size).Stuck?
    requires var t, rest := BestBucket(depth, size, 0), Released(marks, b);
             if ok then IsLowest(rest, t, x) && marks' == rest + Path(x) else NoneAvailable(rest, t) && marks' == rest
    ensures Outcome(depth, marks, b, size, ok, x, marks')
    ensures ok ==> x.bucket < depth && Start(depth, x) != Start(depth, b)
  {
    if ok {
      hide IsLowest, Path;
      GrowBlocks(depth, marks, b, size);
      LowestBlocks(depth, Released(marks, b), size, x);
      FallbackDisjoint(depth, Released(marks, b), b, Grow(depth, marks, b, size).node, x, size);
    }
  }

  /** Source and target of a copy lie in the page and do not overlap. */
  lemma CopyIsSafe(depth: nat, marks: set<Node>, b: Node, size: nat, x: Node, marks': set<Node>)
    requires Closed(depth, marks) && Live(marks, b) && b.bucket < depth
             && Outcome(depth, marks, b, size, true, x, marks')
    requires x.bucket < depth && Offset(depth, x) != Offset(depth, b)
    ensures Offset(depth, x) + BucketSize(depth, b.bucket) <= Offset(depth, b)
            || Offset(depth, b) + BucketSize(depth, b.bucket) <= Offset(depth, x)
    ensures Offset(depth, x) + BucketSize(depth, b.bucket) <= Capacity(depth)
    ensures Offset(depth, b) + BucketSize(depth, b.bucket) <= Capacity(depth)
  {
    hide Outcome, Closed, Split, Pow2;
    CopyRangesDisjoint(depth, marks, b, size, x, marks');
    CopyInside(depth, marks, b, size, x, marks');
    BlockInPage(depth, marks, b);
  }
}
