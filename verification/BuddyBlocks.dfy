/**
  The list of buddy arenas. The source keeps a linked list of metadata pages with a fixed
  number of arena slots each. Slots are filled in order and never emptied, so the arenas in
  use are one sequence; `slots` is the number of slots in the metadata pages linked so far.

  Requests for memory pages go to the operating system: whether they succeed and which page
  they return are parameters.
*/
module BuddyBlocks {
  import opened Basics
  import opened BuddyTree
  import opened BuddySpec
  import opened BuddyIndex
  import opened BuddyRealloc
  import opened BuddyArena

  const DEPTH: nat := 9
  const SLOTS_PER_PAGE: nat := 30
  const DIRECT_ALLOCATION_THRESHOLD: nat := 8192
  const PAGE: nat := 4096

  datatype Grant = Page(address: nat) | Refused

  lemma PageIsCapacity()
    ensures Capacity(DEPTH) == PAGE && DepthOk(DEPTH)
  {
    assert Pow2(8) == 256 by {
      assert Pow2(4) == 16;
      assert Pow2(6) == 64;
    }
    assert Pow2(9) == 512;
  }

  /** In a page with two live halves, growing one of 2048 bytes to 4096 fails in the arena and
      loses it. */
  lemma HalfPageLost()
    ensures BucketSize(DEPTH, 1) == 2048
    ensures Closed(DEPTH, HALVES) && Blocks(HALVES) == {LEFT_HALF, RIGHT_HALF}
    ensures Outcome(DEPTH, HALVES, LEFT_HALF, 4096, false, ROOT, {ROOT, RIGHT_HALF})
    ensures LEFT_HALF !in Blocks({ROOT, RIGHT_HALF})
  {
    PageIsCapacity();
    FailureLosesBlock(DEPTH);
  }

  class BlockList {
    var arenas: seq<Arena>
    var slots: nat
    const memory: array<bv8>

    predicate PagesApart(p: nat, q: nat) {
      p + PAGE <= q || q + PAGE <= p
    }

    ghost predicate Separate()
      reads this
    {
      forall i, j {:trigger arenas[i], arenas[j]} :: 0 <= i < j < |arenas| ==>
        arenas[i].nodes != arenas[j].nodes && PagesApart(arenas[i].page, arenas[j].page)
    }

    ghost predicate Valid()
      reads this, set a | a in arenas :: a.nodes
    {
      && |arenas| <= slots
      && Separate()
      && forall i :: 0 <= i < |arenas| ==> arenas[i].Valid() && arenas[i].depth == DEPTH && arenas[i].memory == memory
    }

    ghost function MarksAt(i: nat): set<Node>
      requires i < |arenas| && arenas[i].Shape()
      reads this, arenas[i].nodes
    {
      arenas[i].Marks()
    }

    /** A page the operating system may hand out: inside memory and apart from all others. */
    ghost predicate Available(grant: Grant)
      reads this
    {
      grant.Page? ==>
        && grant.address + PAGE <= memory.Length
        && forall i :: 0 <= i < |arenas| ==> PagesApart(arenas[i].page, grant.address)
    }

    constructor (memory: array<bv8>)
      ensures Valid() && arenas == [] && this.memory == memory
    {
      this.memory := memory;
      arenas := [];
      slots := SLOTS_PER_PAGE;
    }

    /** The marks of an arena in the old state; a new arena starts without any. */
    twostate function Before(i: nat): set<Node>
      requires i < |old(arenas)| ==> old(arenas)[i].Shape()
    {
      if i < |old(arenas)| then old(arenas[i].Marks()) else {}
    }

    /** Arenas are never dropped or exchanged, and all but possibly the `k`-th keep their marks. */
    twostate predicate OnlyChanged(k: int)
      requires old(Valid()) && Valid()
      reads this, set a | a in arenas :: a.nodes
    {
      && old(arenas) <= arenas
      && (forall i :: |old(arenas)| <= i < |arenas| ==> fresh(arenas[i].nodes))
      && forall i :: 0 <= i < |arenas| && i != k ==> MarksAt(i) == Before(i)
    }

    // -------------------------------------------------------------- allocating

    method TryArena(k: nat, size: nat) returns (ok: bool, address: nat, ghost n: Node)
      requires Valid() && k < |arenas| && size >= 1
      modifies arenas[k].nodes
      ensures Valid() && OnlyChanged(k)
      ensures ok ==> size <= PAGE && IsLowest(Before(k), BestSize(size), n) && MarksAt(k) == Before(k) + Path(n)
      ensures ok ==> InTree(DEPTH, n) && n in arenas[k].LiveBlocks() && address == arenas[k].page + Offset(DEPTH, n)
      ensures !ok ==> MarksAt(k) == Before(k) && (size > PAGE || NoneAvailable(Before(k), BestSize(size)))
    {
      PageIsCapacity();
      hide Pow2, IsLowest, NoneAvailable, Path, Closed, Split, BestBucket;
      ok, address, n := arenas[k].Allocate(size);
    }

    method AddArena(page: nat)
      requires Valid() && Available(Page(page)) && |arenas| < slots
      modifies this`arenas
      ensures Valid() && |arenas| == |old(arenas)| + 1 && OnlyChanged(-1)
      ensures fresh(arenas[|old(arenas)|].nodes) && MarksAt(|old(arenas)|) == {}
    {
      PageIsCapacity();
      hide Pow2, Capacity, MarksOf, Closed, DepthOk;
      var arena := new Arena(DEPTH, page, memory);
      arenas := arenas + [arena];
    }

    /** Serves a request from a new arena. */
    method AllocateNew(size: nat, page: nat) returns (ok: bool, address: nat, ghost n: Node)
      requires Valid() && Available(Page(page)) && |arenas| < slots && size >= 1
      modifies this`arenas
      ensures Valid() && |arenas| == |old(arenas)| + 1 && OnlyChanged(if ok then |old(arenas)| else -1)
      ensures ok <==> size <= PAGE
      ensures ok ==> IsLowest({}, BestSize(size), n) && MarksAt(|old(arenas)|) == Path(n)
      ensures ok ==> InTree(DEPTH, n) && n in arenas[|old(arenas)|].LiveBlocks()
      ensures ok ==> address == arenas[|old(arenas)|].page + Offset(DEPTH, n)
    {
      hide Pow2, IsLowest, NoneAvailable, Path, Closed, Split, MarksOf, Offset, InTree, BestSize;
      var k := |arenas|;
      AddArena(page);
      label Added:
      ok, address, n := TryArena(k, size);
      EmptyArenaServes(size);
      assert OnlyChanged@Added(k);
      forall i | 0 <= i < k
        ensures MarksAt(i) == Before(i)
      {
        assert MarksAt(i) == old@Added(MarksAt(i));
      }
    }

    /** First fit: the block comes from the first arena that can serve the request, or from a new
        one. It fails only if the request is larger than a page or a page was refused. */
    method Allocate(size: nat, linked: bool, grant: Grant) returns (ok: bool, address: nat, ghost k: nat, ghost n: Node)
      requires Valid() && size >= 1 && Available(grant)
      modifies this`arenas, this`slots, set a | a in arenas :: a.nodes
      ensures Valid() && OnlyChanged(if ok then k else -1)
      ensures ok ==> size <= PAGE && k < |arenas| && n in arenas[k].LiveBlocks() && InTree(DEPTH, n)
      ensures ok ==> IsLowest(Before(k), BestSize(size), n) && MarksAt(k) == Before(k) + Path(n)
      ensures ok ==> address == arenas[k].page + Offset(DEPTH, n)
      ensures forall i :: 0 <= i < |old(arenas)| && (!ok || i < k) ==>
              size > PAGE || NoneAvailable(Before(i), BestSize(size))
      ensures !ok ==> size > PAGE || grant.Refused? || (!linked && |old(arenas)| == old(slots))
      ensures size > PAGE ==> !ok
    {
      hide Pow2, IsLowest, NoneAvailable, Path, Closed, Split, MarksOf, Offset, InTree, BestSize, PagesApart;
      k := 0;
      var i := 0;
      while i < |arenas|
        invariant i <= |arenas| && arenas == old(arenas) && slots == old(slots)
        invariant Valid() && OnlyChanged(-1)
        invariant forall j :: 0 <= j < i ==> size > PAGE || NoneAvailable(Before(j), BestSize(size))
      {
        ok, address, n := TryArena(i, size);
        if ok {
          k := i;
          return;
        }
        i := i + 1;
      }
      if i == slots {
        if !linked {
          return false, 0, 0, ROOT;
        }
        slots := slots + SLOTS_PER_PAGE;
      }
      if grant.Refused? {
        return false, 0, 0, ROOT;
      }
      label Tried:
      ok, address, n := AllocateNew(size, grant.address);
      k := i;
      assert OnlyChanged@Tried(if ok then k else -1);
      forall j | 0 <= j < i
        ensures MarksAt(j) == Before(j)
      {
        assert MarksAt(j) == old@Tried(MarksAt(j));
      }
    }

    // -------------------------------------------------------------- freeing

    predicate InArena(i: nat, address: nat)
      requires i < |arenas|
      reads this
    {
      arenas[i].page <= address < arenas[i].page + PAGE
    }

    /** In the arena it belongs to, the address is one at which a granule starts. */
    ghost predicate AlignedIn(address: nat)
      reads this
    {
      forall i :: 0 <= i < |arenas| && InArena(i, address) ==> (address - arenas[i].page) % GRANULARITY == 0
    }

    method Find(address: nat) returns (found: bool, k: nat)
      ensures found ==> k < |arenas| && InArena(k, address)
      ensures !found ==> forall i :: 0 <= i < |arenas| ==> !InArena(i, address)
    {
      k := 0;
      while k < |arenas|
        invariant k <= |arenas|
        invariant forall i :: 0 <= i < k ==> !InArena(i, address)
      {
        if InArena(k, address) {
          return true, k;
        }
        k := k + 1;
      }
      found := false;
    }

    lemma ArenaUnique(i: nat, j: nat, address: nat)
      requires Valid() && i < |arenas| && j < |arenas| && InArena(i, address) && InArena(j, address)
      ensures i == j
    {
    }

    /** The address lies in no live block of the arena. */
    ghost predicate Unused(k: nat, address: nat)
      requires k < |arenas| && arenas[k].Shape() && InArena(k, address)
      reads this, arenas[k].nodes
    {
      forall b :: b in arenas[k].LiveBlocks() ==>
                    b.bucket < DEPTH && !Contains(DEPTH, b, (address - arenas[k].page) / GRANULARITY)
    }

    /** Freeing any granule of a live block removes the block and nothing else. Freeing an address
        that lies in no live block changes nothing, and an address of no arena is reported as
        unknown. */
    method Deallocate(address: nat) returns (known: bool, ghost k: nat)
      requires Valid() && AlignedIn(address)
      modifies set a | a in arenas :: a.nodes
      ensures Valid() && OnlyChanged(if known then k else -1)
      ensures known ==> k < |arenas| && InArena(k, address)
      ensures !known ==> forall i :: 0 <= i < |arenas| ==> !InArena(i, address)
      ensures known ==> forall b :: b in old(arenas[k].LiveBlocks()) && b.bucket < DEPTH
                                    && Contains(DEPTH, b, (address - arenas[k].page) / GRANULARITY) ==>
                          arenas[k].LiveBlocks() == old(arenas[k].LiveBlocks()) - {b}
      ensures known && old(Unused(k, address)) ==> OnlyChanged(-1)
    {
      PageIsCapacity();
      hide Pow2, Closed, Split, MarksOf, Offset, Capacity, Contains;
      var found, i := Find(address);
      if !found {
        return false, 0;
      }
      arenas[i].Deallocate(address);
      known, k := true, i;
    }

    // -------------------------------------------------------------- reallocating

    ghost predicate LiveAt(k: nat, b: Node, address: nat)
      requires Valid()
      reads this, set a | a in arenas :: a.nodes
    {
      k < |arenas| && b in arenas[k].LiveBlocks() && b.bucket < DEPTH && address == arenas[k].page + Offset(DEPTH, b)
    }

    method CopyAcross(target: nat, address: nat, count: nat, ghost j: nat, ghost k: nat)
      requires Valid() && j < |arenas| && k < |arenas| && j != k
      requires arenas[j].page <= target && target + count <= arenas[j].page + PAGE
      requires arenas[k].page <= address && address + count <= arenas[k].page + PAGE
      modifies memory
      ensures Valid() && OnlyChanged(-1)
      ensures Moved(old(memory[..]), memory[..], target, address, count)
    {
      PageIsCapacity();
      hide Pow2, Closed, Split, MarksOf, Capacity, DepthOk, Moved;
      assert PagesApart(arenas[j].page, arenas[k].page);
      CopyBytes(memory, target, address, count);
    }

    /** Freeing a block a second time changes nothing. */
    method FreeAgain(address: nat, ghost k: nat, ghost b: Node)
      requires Valid() && k < |arenas| && InTree(DEPTH, b) && address == arenas[k].page + Offset(DEPTH, b)
      requires InArena(k, address) && Unused(k, address)
      modifies set a | a in arenas :: a.nodes
      ensures Valid() && OnlyChanged(-1)
    {
      hide Pow2, Closed, Split, MarksOf, Capacity, DepthOk, Start, Contains;
      forall i | 0 <= i < |arenas| && InArena(i, address)
        ensures i == k
      {
        ArenaUnique(i, k, address);
      }
      var _, k' := Deallocate(address);
    }

    /** No arena in use before has a block of the best size left. */
    twostate predicate NoRoom(size: nat)
      requires Valid() && |old(arenas)| <= |arenas| && 1 <= size <= PAGE
      reads this, set a | a in arenas :: a.nodes
    {
      forall i :: 0 <= i < |old(arenas)| ==> NoneAvailable(MarksAt(i), BestSize(size))
    }

    /** No arena before the `j`-th had a block of the best size. */
    twostate predicate FirstFit(j: nat, size: nat)
      requires old(Valid()) && 1 <= size <= PAGE
    {
      forall i :: 0 <= i < j && i < |old(arenas)| ==> NoneAvailable(Before(i), BestSize(size))
    }

    /** No arena before the `j`-th had one, leaving aside arena `i`. */
    twostate predicate FirstElse(i: nat, j: nat, size: nat)
      requires old(Valid()) && 1 <= size <= PAGE
    {
      forall h :: 0 <= h < j && h < |old(arenas)| && h != i ==> NoneAvailable(Before(h), BestSize(size))
    }

    /** The page a new arena needs, or the one its slot needs, was not to be had. */
    twostate predicate NoPage(linked: bool, grant: Grant) {
      grant.Refused? || (!linked && |old(arenas)| == old(slots))
    }

    /** An arena that cannot serve the request is not the one that serves it. */
    method AllocateElsewhere(size: nat, linked: bool, grant: Grant, ghost k: nat)
      returns (ok: bool, target: nat, ghost j: nat, ghost x: Node)
      requires Valid() && size >= 1 && Available(grant) && k < |arenas|
      requires size <= PAGE ==> NoneAvailable(MarksAt(k), BestSize(size))
      modifies this`arenas, this`slots, set a | a in arenas :: a.nodes
      ensures Valid() && OnlyChanged(if ok then j else -1)
      ensures ok ==> j != k && LiveAt(j, x, target) && InTree(DEPTH, x) && size <= PAGE
      ensures ok ==> MarksAt(j) == Before(j) + Path(x) && IsLowest(Before(j), BestSize(size), x)
      ensures ok ==> FirstFit(j, size)
      ensures size > PAGE ==> !ok
      ensures !ok && size <= PAGE ==> NoRoom(size) && NoPage(linked, grant)
      ensures MarksAt(k) == old(MarksAt(k)) && memory[..] == old(memory[..])
    {
      hide Pow2, Closed, Split, MarksOf, Offset, Path, Capacity, DepthOk, IsLowest, NoneAvailable;
      ok, target, j, x := Allocate(size, linked, grant);
      if ok {
        LowestIsAvailable(Before(j), BestSize(size), x);
      }
    }

    /** Moves a block its arena has given up to another arena. The memory of the block is still
        intact, and freeing it a second time changes nothing. */
    method MoveElsewhere(address: nat, size: nat, currentSize: nat, linked: bool, grant: Grant, ghost k: nat,
                         ghost b: Node)
      returns (ok: bool, target: nat, ghost j: nat, ghost x: Node)
      requires Valid() && Available(grant) && k < |arenas| && InTree(DEPTH, b)
               && address == arenas[k].page + Offset(DEPTH, b)
      requires currentSize == BucketSize(DEPTH, b.bucket) < size
      requires size <= PAGE ==> InArena(k, address) && Unused(k, address) && NoneAvailable(MarksAt(k), BestSize(size))
      modifies this`arenas, this`slots, memory, set a | a in arenas :: a.nodes
      ensures Valid() && OnlyChanged(if ok then j else -1)
      ensures ok ==> j != k && LiveAt(j, x, target) && InTree(DEPTH, x) && size <= PAGE
      ensures ok ==> MarksAt(j) == Before(j) + Path(x) && IsLowest(Before(j), BestSize(size), x)
      ensures ok ==> FirstFit(j, size)
      ensures ok ==> Moved(old(memory[..]), memory[..], target, address, currentSize)
      ensures !ok ==> memory[..] == old(memory[..])
      ensures size > PAGE ==> !ok
      ensures !ok && size <= PAGE ==> NoRoom(size) && NoPage(linked, grant)
    {
      hide Pow2, Closed, Split, MarksOf, Offset, Path, Capacity, DepthOk, IsLowest, NoneAvailable, Moved, BucketSize,
           BestSize, Contains;
      ok, target, j, x := AllocateElsewhere(size, linked, grant, k);
      if !ok {
        return;
      }
      RangesInPages(b, x, size);
      LowestFits(Before(j), size, x);
      label Allocated:
      CopyAcross(target, address, currentSize, j, k);
      assert OnlyChanged@Allocated(-1);
      label Copied:
      FreeAgain(address, k, b);
      assert OnlyChanged@Copied(-1);
      forall i | 0 <= i < |arenas|
        ensures MarksAt(i) == old@Allocated(MarksAt(i))
      {
        assert MarksAt(i) == old@Copied(MarksAt(i));
      }
    }

    /** No block that was live before, other than `b` of arena `k`, has changed a byte. */
    twostate predicate OthersKept(k: nat, b: Node)
      requires old(Valid())
      reads this, memory
    {
      forall i, c :: 0 <= i < |old(arenas)| && c in old(arenas[i].LiveBlocks()) && (i != k || c != b)
                     && c.bucket < DEPTH ==>
                       SameBytes(old(memory[..]), memory[..], old(arenas)[i].page + Offset(DEPTH, c),
                                 old(arenas)[i].page + Offset(DEPTH, c) + BucketSize(DEPTH, c.bucket))
    }

    method ReallocateInArena(address: nat, size: nat, k: nat, ghost b: Node)
      returns (ok: bool, target: nat, currentSize: nat, ghost x: Node)
      requires Valid() && LiveAt(k, b, address)
      modifies memory, arenas[k].nodes
      ensures Valid() && OnlyChanged(k) && currentSize == BucketSize(DEPTH, b.bucket)
      ensures Outcome(DEPTH, Before(k), b, size, ok, x, MarksAt(k))
      ensures RightPlace(DEPTH, Blocks(Before(k)), b, size, ok, x)
      ensures size <= currentSize ==> ok && target == address
      ensures ok ==> x.bucket < DEPTH && target == arenas[k].page + Offset(DEPTH, x)
      ensures ok ==> PrefixKept(old(memory[..]), memory[..], target, address, Least(size, currentSize))
      ensures !ok ==> memory[..] == old(memory[..])
      ensures OthersKept(k, b)
    {
      PageIsCapacity();
      hide Pow2, Closed, Split, MarksOf, Offset, Capacity, DepthOk, Outcome, PrefixKept, SameBytes, BucketSize,
           RightPlace;
      ghost var marks, bytes := MarksAt(k), memory[..];
      ok, target, currentSize, x := arenas[k].Reallocate(address, size, b);
      assert b in Blocks(marks);
      ReallocationKeepsData(DEPTH, marks, arenas[k].page, b, size, ok, x, MarksAt(k), bytes, memory[..]);
      forall i, c | 0 <= i < |old(arenas)| && c in old(arenas[i].LiveBlocks()) && (i != k || c != b) && c.bucket < DEPTH
        ensures SameBytes(bytes, memory[..], arenas[i].page + Offset(DEPTH, c),
                          arenas[i].page + Offset(DEPTH, c) + BucketSize(DEPTH, c.bucket))
      {
        if i != k {
          assert i < k ==> PagesApart(arenas[i].page, arenas[k].page);
          OutsidePage(old(MarksAt(i)), bytes, memory[..], arenas[k].page, arenas[i].page, c);
        }
      }
    }

    /** What an attempt in the arena of the block leaves behind. */
    method ReallocateTry(address: nat, size: nat, k: nat, ghost b: Node)
      returns (ok: bool, target: nat, currentSize: nat, ghost x: Node)
      requires Valid() && LiveAt(k, b, address)
      modifies memory, arenas[k].nodes
      ensures Valid() && OnlyChanged(k) && OthersKept(k, b) && currentSize == BucketSize(DEPTH, b.bucket)
      ensures RightPlace(DEPTH, Blocks(Before(k)), b, size, ok, x)
      ensures size <= currentSize ==> ok && target == address
      ensures ok ==> LiveAt(k, x, target) && size <= BucketSize(DEPTH, x.bucket)
      ensures ok ==> Blocks(MarksAt(k)) == Blocks(Before(k)) - {b} + {x}
      ensures ok ==> PrefixKept(old(memory[..]), memory[..], target, address, Least(size, currentSize))
      ensures !ok ==> memory[..] == old(memory[..]) && currentSize < size && InTree(DEPTH, b)
      ensures !ok ==> Blocks(MarksAt(k)) == if size > PAGE then Blocks(Before(k)) else Blocks(Before(k)) - {b}
      ensures !ok && size <= PAGE ==>
              InArena(k, address) && Unused(k, address) && NoneAvailable(MarksAt(k), BestSize(size))
      ensures size > PAGE ==> !ok
    {
      PageIsCapacity();
      hide Pow2, Closed, Split, MarksOf, Offset, Capacity, DepthOk, Outcome, PrefixKept, SameBytes, BucketSize, Path,
           IsLowest, NoneAvailable, BestSize, Moved, Contains, Separate, OthersKept, Start, RightPlace;
      ghost var marks := MarksAt(k);
      assert b in Blocks(marks);
      ok, target, currentSize, x := ReallocateInArena(address, size, k, b);
      OutcomeBlocks(DEPTH, marks, b, size, ok, x, MarksAt(k));
      if !ok {
        LostBlock(marks, b, size, x, MarksAt(k));
      }
    }

    /** A move touches no live block. */
    method MoveAlone(address: nat, size: nat, currentSize: nat, linked: bool, grant: Grant, ghost k: nat, ghost b: Node)
      returns (ok: bool, target: nat, ghost j: nat, ghost x: Node)
      requires Valid() && Available(grant) && k < |arenas| && InTree(DEPTH, b)
               && address == arenas[k].page + Offset(DEPTH, b)
      requires currentSize == BucketSize(DEPTH, b.bucket) < size
      requires size <= PAGE ==> InArena(k, address) && Unused(k, address) && NoneAvailable(MarksAt(k), BestSize(size))
      modifies this`arenas, this`slots, memory, set a | a in arenas :: a.nodes
      ensures Valid() && OnlyChanged(if ok then j else -1)
      ensures ok ==> j != k && LiveAt(j, x, target) && InTree(DEPTH, x) && size <= PAGE
      ensures ok ==> Blocks(MarksAt(j)) == Blocks(Before(j)) + {x} && size <= BucketSize(DEPTH, x.bucket)
      ensures ok ==> IsLowest(Before(j), BestSize(size), x) && FirstFit(j, size)
      ensures ok ==> PrefixKept(old(memory[..]), memory[..], target, address, Least(size, currentSize))
      ensures ok ==> OthersKept(k, b)
      ensures !ok ==> memory[..] == old(memory[..])
      ensures size > PAGE ==> !ok
      ensures !ok && size <= PAGE ==> NoRoom(size) && NoPage(linked, grant)
    {
      hide Pow2, Closed, Split, MarksOf, Offset, Path, Capacity, DepthOk, IsLowest, NoneAvailable, Moved, BucketSize,
           BestSize, Contains, SameBytes, PrefixKept, FirstFit;
      ok, target, j, x := MoveElsewhere(address, size, currentSize, linked, grant, k, b);
      if ok {
        BeforeClosed(j);
        MovedPrefix(old(memory[..]), memory[..], target, address, currentSize, Least(size, currentSize));
        MovedBlocks(Before(j), size, x);
        forall i, c | 0 <= i < |old(arenas)| && c in old(arenas[i].LiveBlocks()) && c.bucket < DEPTH
          ensures SameBytes(old(memory[..]), memory[..], old(arenas)[i].page + Offset(DEPTH, c),
                            old(arenas)[i].page + Offset(DEPTH, c) + BucketSize(DEPTH, c.bucket))
        {
          ArenasApart(i, j);
          assert arenas[i] == old(arenas)[i];
          OutsideBlock(Before(j), size, old(memory[..]), memory[..], arenas[j].page, x, address, currentSize,
                       Before(i), arenas[i].page, c, i == j);
        }
      }
    }

    lemma ArenasApart(i: nat, j: nat)
      requires Valid() && i < |arenas| && j < |arenas|
      ensures i != j ==> PagesApart(arenas[j].page, arenas[i].page)
    {
    }

    twostate lemma BeforeClosed(j: nat)
      requires old(Valid())
      ensures Closed(DEPTH, Before(j))
    {
      if j < |old(arenas)| {
        assert old(arenas[j].Valid());
      }
    }

    /** A reallocation in the arena of the block, or a move to another arena. */
    method ReallocateKnown(address: nat, size: nat, linked: bool, grant: Grant, i: nat, ghost b: Node)
      returns (ok: bool, target: nat, currentSize: nat, ghost j: nat, ghost x: Node)
      requires Valid() && Available(grant) && LiveAt(i, b, address)
      modifies this`arenas, this`slots, memory, set a | a in arenas :: a.nodes
      ensures Valid() && currentSize == BucketSize(DEPTH, b.bucket) && old(arenas) <= arenas
      ensures ok ==> LiveAt(j, x, target) && size <= BucketSize(DEPTH, x.bucket)
      ensures ok ==> PrefixKept(old(memory[..]), memory[..], target, address, Least(size, currentSize))
      ensures OthersKept(i, b)
      ensures RightPlace(DEPTH, Blocks(Before(i)), b, size, ok && j == i, x)
      ensures size <= currentSize ==> ok && j == i && target == address
      ensures ok && j != i ==> 1 <= size <= PAGE && IsLowest(Before(j), BestSize(size), x) && FirstElse(i, j, size)
      ensures forall k :: 0 <= k < |arenas| && k != i && !(ok && k == j) ==> MarksAt(k) == Before(k)
      ensures ok && j != i ==>
              Blocks(MarksAt(i)) == Blocks(Before(i)) - {b} && Blocks(MarksAt(j)) == Blocks(Before(j)) + {x}
      ensures ok && j == i ==> Blocks(MarksAt(i)) == Blocks(Before(i)) - {b} + {x}
      ensures !ok ==> Blocks(MarksAt(i)) == if size > PAGE then Blocks(Before(i)) else Blocks(Before(i)) - {b}
      ensures !ok ==> memory[..] == old(memory[..]) && currentSize < size
      ensures !ok && size <= PAGE ==> NoRoom(size) && NoPage(linked, grant)
    {
      hide Pow2, Closed, Split, MarksOf, Offset, Capacity, DepthOk, PrefixKept, SameBytes, BucketSize, NoneAvailable,
           BestSize, Contains, Separate, InTree, Blocks, Unused, Available, PagesApart, InArena, RightPlace, IsLowest;
      ok, target, currentSize, x := ReallocateTry(address, size, i, b);
      j := i;
      if ok || size > DIRECT_ALLOCATION_THRESHOLD {
        return;
      }
      label Failed:
      ghost var x0 := x;
      ok, target, j, x := MoveAlone(address, size, currentSize, linked, grant, i, b);
      NowhereInArena(Blocks(Before(i)), b, size, x0, x);
      assert OnlyChanged@Failed(if ok then j else -1);
      if ok {
        assert FirstFit@Failed(j, size);
        forall h: nat | h < j && h < |old(arenas)| && h != i
          ensures NoneAvailable(Before(h), BestSize(size))
        {
          assert NoneAvailable(Before@Failed(h), BestSize(size));
          assert Before@Failed(h) == Before(h);
        }
        assert OthersKept@Failed(i, b);
        forall k, c | 0 <= k < |old(arenas)| && c in old(arenas[k].LiveBlocks()) && (k != i || c != b)
            && c.bucket < DEPTH
          ensures SameBytes(old(memory[..]), memory[..], old(arenas)[k].page + Offset(DEPTH, c),
                            old(arenas)[k].page + Offset(DEPTH, c) + BucketSize(DEPTH, c.bucket))
        {
          assert old@Failed(MarksAt(k)) == Before(k) || k == i;
          assert c in old@Failed(arenas[k].LiveBlocks());
        }
      }
    }

    /** Changes the size of a live block. On success the block is replaced by one that is large
        enough and starts with the same bytes. It fails only to grow, and for a size within a page
        only if no arena has room, also after the block was given up, and no page could be had. On
        failure the block survives only if the size is beyond a page. An address of no arena is
        reported by a size of 0. */
    method Reallocate(address: nat, size: nat, linked: bool, grant: Grant, ghost known: bool, ghost k: nat,
                      ghost b: Node)
      returns (ok: bool, target: nat, currentSize: nat, ghost j: nat, ghost x: Node)
      requires Valid() && Available(grant)
      requires if known then LiveAt(k, b, address) else forall i :: 0 <= i < |arenas| ==> !InArena(i, address)
      modifies this`arenas, this`slots, memory, set a | a in arenas :: a.nodes
      ensures Valid() && old(arenas) <= arenas
      ensures !known ==> !ok && currentSize == 0 && OnlyChanged(-1)
      ensures known ==> currentSize == BucketSize(DEPTH, b.bucket) && OthersKept(k, b)
      ensures ok ==> known && LiveAt(j, x, target) && size <= BucketSize(DEPTH, x.bucket)
      ensures known ==> RightPlace(DEPTH, Blocks(Before(k)), b, size, ok && j == k, x)
      ensures known && size <= currentSize ==> ok && j == k && target == address
      ensures ok && j != k ==> 1 <= size <= PAGE && IsLowest(Before(j), BestSize(size), x) && FirstElse(k, j, size)
      ensures ok ==> PrefixKept(old(memory[..]), memory[..], target, address, Least(size, currentSize))
      ensures known ==> forall i :: 0 <= i < |arenas| && i != k && !(ok && i == j) ==> MarksAt(i) == Before(i)
      ensures ok && j != k ==>
              Blocks(MarksAt(k)) == Blocks(Before(k)) - {b} && Blocks(MarksAt(j)) == Blocks(Before(j)) + {x}
      ensures ok && j == k ==> Blocks(MarksAt(k)) == Blocks(Before(k)) - {b} + {x}
      ensures known && !ok ==> Blocks(MarksAt(k)) == if size > PAGE then Blocks(Before(k)) else Blocks(Before(k)) - {b}
      ensures !ok ==> memory[..] == old(memory[..])
      ensures known && !ok ==> currentSize < size
      ensures known && !ok && size <= PAGE ==> NoRoom(size) && NoPage(linked, grant)
    {
      hide Pow2, Closed, Split, MarksOf, Offset, Capacity, DepthOk, PrefixKept, SameBytes, BucketSize, Separate, InTree,
           Blocks, NoneAvailable, RightPlace, IsLowest, Available;
      if known {
        LiveInArena(k, b, address);
      }
      var found, i := Find(address);
      assert known ==> k < |arenas| && InArena(k, address);
      if !found {
        return false, 0, 0, 0, ROOT;
      }
      ArenaUnique(i, k, address);
      label Found:
      ok, target, currentSize, j, x := ReallocateKnown(address, size, linked, grant, i, b);
      if ok && j != i {
        assert FirstElse@Found(i, j, size);
        forall h: nat | h < j && h < |old(arenas)| && h != k
          ensures NoneAvailable(Before(h), BestSize(size))
        {
          assert NoneAvailable(Before@Found(h), BestSize(size));
          assert Before@Found(h) == Before(h);
        }
      }
    }

    lemma LiveInArena(k: nat, b: Node, address: nat)
      requires Valid() && LiveAt(k, b, address)
      ensures InArena(k, address)
    {
      PageIsCapacity();
      BlockAligned(DEPTH, MarksAt(k), b);
    }

    /** No two live blocks overlap, in whichever arenas they are. */
    lemma NoOverlap(i: nat, b: Node, p: nat, j: nat, c: Node, q: nat)
      requires Valid() && LiveAt(i, b, p) && LiveAt(j, c, q) && (i != j || b != c)
      ensures p + BucketSize(DEPTH, b.bucket) <= q || q + BucketSize(DEPTH, c.bucket) <= p
    {
      hide Pow2, Closed, Split, Offset, MarksOf, BucketSize;
      PageIsCapacity();
      BlockInPage(DEPTH, MarksAt(i), b);
      BlockInPage(DEPTH, MarksAt(j), c);
      if i == j {
        ApartInBytes(DEPTH, MarksAt(i), b, c);
      } else {
        ArenasApart(i, j);
      }
    }
  }

  /** A failure does not depend on where the block would have gone. */
  lemma NowhereInArena(blocks: set<Node>, b: Node, size: nat, x: Node, x': Node)
    requires b.bucket < DEPTH && RightPlace(DEPTH, blocks, b, size, false, x)
    ensures RightPlace(DEPTH, blocks, b, size, false, x')
  {
  }

  /** An allocation adds one block. */
  lemma MovedBlocks(marks: set<Node>, size: nat, x: Node)
    requires 1 <= size <= PAGE && Closed(DEPTH, marks) && IsLowest(marks, BestSize(size), x)
    ensures Blocks(marks + Path(x)) == Blocks(marks) + {x} && size <= BucketSize(DEPTH, x.bucket)
  {
    PageIsCapacity();
    LowestBlocks(DEPTH, marks, size, x);
  }

  /** A copy into a block just allocated touches no block that was live before. */
  lemma OutsideBlock(marks: set<Node>, size: nat, before: seq<bv8>, after: seq<bv8>, page: nat, x: Node, source: nat,
                     count: nat,
                     others: set<Node>, other: nat, c: Node, same: bool)
    requires 1 <= size <= PAGE && Closed(DEPTH, marks) && IsLowest(marks, BestSize(size), x) && x.bucket < DEPTH
             && count < size
    requires Moved(before, after, page + Offset(DEPTH, x), source, count)
    requires Closed(DEPTH, others) && c in Blocks(others) && c.bucket < DEPTH
    requires if same then others == marks && other == page else page + PAGE <= other || other + PAGE <= page
    ensures SameBytes(before, after, other + Offset(DEPTH, c), other + Offset(DEPTH, c) + BucketSize(DEPTH, c.bucket))
  {
    PageIsCapacity();
    hide Pow2, Closed, Split, Offset, BucketSize, Moved, IsLowest, SameBytes, Path;
    LowestBlocks(DEPTH, marks, size, x);
    assert c in others;
    BlockInPage(DEPTH, others, c);
    NodeInPage(DEPTH, x);
    if same {
      assert c in Blocks(marks + Path(x)) && x in Blocks(marks + Path(x));
      ApartInBytes(DEPTH, marks + Path(x), c, x);
    }
    MovedOutside(before, after, page + Offset(DEPTH, x), source, count,
                 other + Offset(DEPTH, c), other + Offset(DEPTH, c) + BucketSize(DEPTH, c.bucket));
  }

  /** After a failed attempt to grow, the memory of the block is free, and nothing else fits. */
  lemma LostBlock(marks: set<Node>, b: Node, size: nat, x: Node, marks': set<Node>)
    requires Closed(DEPTH, marks) && b in Blocks(marks) && b.bucket < DEPTH
             && Outcome(DEPTH, marks, b, size, false, x, marks')
    ensures InTree(DEPTH, b) && Offset(DEPTH, b) < PAGE && Offset(DEPTH, b) / GRANULARITY == Start(DEPTH, b)
    ensures BucketSize(DEPTH, b.bucket) < size
    ensures size <= PAGE ==> 1 <= size && NoneAvailable(marks', BestSize(size))
    ensures size <= PAGE ==> forall c :: c in Blocks(marks') ==>
            c.bucket < DEPTH && !Contains(DEPTH, c, Start(DEPTH, b))
  {
    PageIsCapacity();
    BlockAligned(DEPTH, marks, b);
    OutcomeBlocks(DEPTH, marks, b, size, false, x, marks');
    if size <= PAGE {
      forall c | c in Blocks(marks')
        ensures c.bucket < DEPTH && !Contains(DEPTH, c, Start(DEPTH, b))
      {
        BlocksDisjoint(DEPTH, marks, c, b);
      }
    }
  }

  /** What is the same outside one page is the same in every block of another page. */
  lemma OutsidePage(marks: set<Node>, before: seq<bv8>, after: seq<bv8>, page: nat, other: nat, c: Node)
    requires Closed(DEPTH, marks) && c in marks && c.bucket < DEPTH && (page + PAGE <= other || other + PAGE <= page)
    requires SameBytes(before, after, 0, page) && SameBytes(before, after, page + PAGE, |before|)
    ensures SameBytes(before, after, other + Offset(DEPTH, c), other + Offset(DEPTH, c) + BucketSize(DEPTH, c.bucket))
  {
    hide Pow2, Offset, BucketSize;
    PageIsCapacity();
    BlockInPage(DEPTH, marks, c);
  }

  lemma LowestIsAvailable(marks: set<Node>, t: nat, x: Node)
    requires IsLowest(marks, t, x)
    ensures !NoneAvailable(marks, t)
  {
    assert BuddyTree.Available(marks, Node(t, x.rank));
  }

  lemma LowestFits(marks: set<Node>, size: nat, x: Node)
    requires 1 <= size <= PAGE && IsLowest(marks, BestSize(size), x)
    ensures size <= BucketSize(DEPTH, x.bucket)
  {
  }

  lemma RangesInPages(b: Node, x: Node, size: nat)
    requires InTree(DEPTH, b) && InTree(DEPTH, x)
    ensures Offset(DEPTH, b) + BucketSize(DEPTH, b.bucket) <= PAGE
    ensures Offset(DEPTH, x) + BucketSize(DEPTH, x.bucket) <= PAGE
  {
    PageIsCapacity();
    NodeInPage(DEPTH, b);
    NodeInPage(DEPTH, x);
  }

  /** An arena without marks serves every request of at most a page. */
  lemma EmptyArenaServes(size: nat)
    ensures 1 <= size <= PAGE ==> !NoneAvailable({}, BestSize(size))
  {
    if 1 <= size <= PAGE {
      var n := Node(BestSize(size), 0);
      assert BuddyTree.Available({}, n);
    }
  }

  /** The bucket for a request that fits into a page. */
  ghost function BestSize(size: nat): nat
    requires 1 <= size <= PAGE
  {
    PageIsCapacity();
    BestBucket(DEPTH, size, 0)
  }
}
