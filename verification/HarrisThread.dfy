/**
  One thread running `insert`, `remove` or `find` on a bucket's list. Every atomic load,
  store or compare-and-swap is one step; the local computation that follows it belongs to
  the same step. A program counter names the shared access that comes next.
*/
module HarrisThread {
  import opened HarrisList

  datatype Op = Insert(key: int) | Remove(key: int) | Find(key: int)

  datatype Pc =
    | Idle
    | LoadHead                                               // nodeNext = head->next
    | LoadNext(node: nat, left: nat, leftNext: Link)         // nodeNext = node->next
    | LoadRight(left: nat, right: nat)                       // is_marked(right->next)
    | CasBypass(left: nat, leftNext: Link, right: nat)       // cas(left->next, leftNext, right)
    | StoreFresh(left: nat, right: nat)                      // insertion->next = right
    | CasLink(left: nat, right: nat)                         // cas(left->next, right, insertion)
    | LoadVictim(left: nat, right: nat)                      // rightNext = right->next
    | CasMark(left: nat, right: nat, rightNext: Link)        // cas(right->next, rightNext, marked)
    | CasUnlink(left: nat, right: nat, rightNext: Link)      // cas(left->next, right, rightNext)
    | Done(result: bool)

  /** `insertion` is the node allocated by an insert; `cleanup` tells the second search of a
      remove, made after the node was marked, from its first one. */
  datatype Thread = Thread(op: Op, insertion: nat, cleanup: bool, pc: Pc)

  predicate Active(th: Thread) {
    !th.pc.Idle? && !th.pc.Done?
  }

  predicate Inserting(th: Thread) {
    Active(th) && th.op.Insert?
  }

  // ---------------------------------------------------------------- local computation

  /** What the caller of `search` does with the pair it returned. */
  function AfterSearch(h: Heap, th: Thread, left: nat, right: nat): Thread {
    var found := Stores(h, right, th.op.key);
    if th.cleanup then th.(pc := Done(true))
    else match th.op
      case Insert(_) => th.(pc := if found then Done(false) else StoreFresh(left, right))
      case Remove(_) => th.(pc := if found then LoadVictim(left, right) else Done(false))
      case Find(_) => th.(pc := Done(found))
  }

  function Confirm(h: Heap, th: Thread, left: nat, right: nat): Thread {
    if right == TAIL then AfterSearch(h, th, left, right) else th.(pc := LoadRight(left, right))
  }

  function CheckAdjacent(h: Heap, th: Thread, left: nat, leftNext: Link, right: nat): Thread {
    if leftNext == Link(right, false) then Confirm(h, th, left, right)
    else th.(pc := CasBypass(left, leftNext, right))
  }

  /** The body of the traversal loop, once `nodeNext` has been loaded from `node`. */
  function Visit(h: Heap, th: Thread, node: nat, nodeNext: Link, left: nat, leftNext: Link): Thread
    requires nodeNext.Link?
  {
    var (left', leftNext') := if nodeNext.marked then (left, leftNext) else (node, nodeNext);
    if nodeNext.target == TAIL then CheckAdjacent(h, th, left', leftNext', TAIL)
    else th.(pc := LoadNext(nodeNext.target, left', leftNext'))
  }

  // ---------------------------------------------------------------- one step

  predicate CanRead(h: Heap, n: nat) {
    n < |h| && h[n].next.Link?
  }

  /** The step touches only existing nodes and never follows a null link. */
  predicate Safe(h: Heap, th: Thread) {
    match th.pc
    case Idle => true
    case LoadHead => CanRead(h, HEAD)
    case LoadNext(node, _, _) => CanRead(h, node)
    case LoadRight(_, right) => CanRead(h, right)
    case CasBypass(left, _, _) => CanRead(h, left)
    case StoreFresh(_, _) => th.insertion < |h|
    case CasLink(left, _) => CanRead(h, left)
    case LoadVictim(_, right) => CanRead(h, right)
    case CasMark(_, right, rightNext) => CanRead(h, right) && rightNext.Link?
    case CasUnlink(left, _, rightNext) => CanRead(h, left) && rightNext.Link?
    case Done(_) => true
  }

  function SetNext(h: Heap, n: nat, l: Link): Heap
    requires n < |h|
  {
    h[n := h[n].(next := l)]
  }

  function Advance(h: Heap, th: Thread): (Heap, Thread)
    requires Safe(h, th)
  {
    var retry := th.(pc := LoadHead);
    match th.pc
    case Idle => (h, th)
    case LoadHead =>
      // left starts out null; the first visit sets it, because the head is never marked
      (h, Visit(h, th, HEAD, h[HEAD].next, HEAD, Null))
    case LoadNext(node, left, leftNext) =>
      var nodeNext := h[node].next;
      if nodeNext.marked || h[node].key < th.op.key then
        (h, Visit(h, th, node, nodeNext, left, leftNext))
      else
        (h, CheckAdjacent(h, th, left, leftNext, node))
    case LoadRight(left, right) =>
      if h[right].next.marked then (h, retry) else (h, AfterSearch(h, th, left, right))
    case CasBypass(left, leftNext, right) =>
      if h[left].next == leftNext then
        (SetNext(h, left, Link(right, false)), Confirm(h, th, left, right))
      else (h, retry)
    case StoreFresh(left, right) =>
      (SetNext(h, th.insertion, Link(right, false)), th.(pc := CasLink(left, right)))
    case CasLink(left, right) =>
      if h[left].next == Link(right, false) then
        (SetNext(h, left, Link(th.insertion, false)), th.(pc := Done(true)))
      else (h, retry)
    case LoadVictim(left, right) =>
      if h[right].next.marked then (h, retry)
      else (h, th.(pc := CasMark(left, right, h[right].next)))
    case CasMark(left, right, rightNext) =>
      if h[right].next == rightNext then
        (SetNext(h, right, Link(rightNext.target, true)), th.(pc := CasUnlink(left, right, rightNext)))
      else (h, retry)
    case CasUnlink(left, right, rightNext) =>
      if h[left].next == Link(right, false) then
        (SetNext(h, left, rightNext), th.(pc := Done(true)))
      else (h, th.(cleanup := true, pc := LoadHead))
    case Done(_) => (h, th)
  }

  // ---------------------------------------------------------------- the thread's local invariant

  ghost predicate LeftOk(h: Heap, c: seq<nat>, left: nat, key: int) {
    Linked(h, c, left) && BelowKey(h, left, key)
  }

  ghost predicate RightOk(h: Heap, c: seq<nat>, right: nat, key: int) {
    Linked(h, c, right) && AtLeastKey(h, right, key)
  }

  /** From the link read out of `left`, only marked nodes lead to `node`. */
  ghost predicate Skipped(h: Heap, leftNext: Link, node: nat) {
    leftNext.Link? && !leftNext.marked && (leftNext.target == node || Bypassable(h, leftNext.target, node))
  }

  ghost predicate PcInv(h: Heap, c: seq<nat>, th: Thread) {
    var key := th.op.key;
    match th.pc
    case Idle => true
    case LoadHead => true
    case LoadNext(node, left, leftNext) =>
      && LeftOk(h, c, left, key) && Linked(h, c, node) && node < |h| && node != HEAD && node != TAIL
      && Skipped(h, leftNext, node)
    case LoadRight(left, right) =>
      LeftOk(h, c, left, key) && RightOk(h, c, right, key) && right != TAIL
    case CasBypass(left, leftNext, right) =>
      && LeftOk(h, c, left, key) && RightOk(h, c, right, key)
      && leftNext != Link(right, false) && Skipped(h, leftNext, right)
    case StoreFresh(left, right) =>
      && th.op.Insert? && !th.cleanup
      && LeftOk(h, c, left, key) && RightOk(h, c, right, key) && !Stores(h, right, key)
    case CasLink(left, right) =>
      && th.op.Insert? && !th.cleanup
      && LeftOk(h, c, left, key) && RightOk(h, c, right, key) && !Stores(h, right, key)
      && th.insertion < |h| && h[th.insertion].next == Link(right, false)
    case LoadVictim(left, right) =>
      && th.op.Remove? && !th.cleanup
      && LeftOk(h, c, left, key) && RightOk(h, c, right, key) && Stores(h, right, key)
    case CasMark(left, right, rightNext) =>
      && th.op.Remove? && !th.cleanup
      && LeftOk(h, c, left, key) && RightOk(h, c, right, key) && Stores(h, right, key)
      && rightNext.Link? && !rightNext.marked
    case CasUnlink(left, right, rightNext) =>
      && th.op.Remove? && !th.cleanup
      && LeftOk(h, c, left, key) && Stores(h, right, key)
      && rightNext.Link? && !rightNext.marked && h[right].next == Link(rightNext.target, true)
    case Done(_) => true
  }

  ghost predicate LocalInv(h: Heap, c: seq<nat>, th: Thread) {
    && PcInv(h, c, th)
    && (Active(th) && th.cleanup ==> th.op.Remove?)
    && (Inserting(th) ==> Private(h, c, th.insertion) && h[th.insertion].key == th.op.key)
  }

  /** Steps of other threads keep a thread's local invariant. */
  lemma LocalInvStable(h: Heap, c: seq<nat>, h': Heap, c': seq<nat>, own: nat, th: Thread)
    requires ListInv(h, c) && ListInv(h', c') && Evolves(h, c, h', c', own)
    requires LocalInv(h, c, th) && (Inserting(th) ==> th.insertion != own)
    ensures LocalInv(h', c', th)
  {
    match th.pc
    case LoadNext(node, left, leftNext) =>
      if leftNext.target != node {
        BypassableStable(h, c, h', c', own, leftNext.target, node);
      }
    case CasBypass(left, leftNext, right) =>
      if leftNext.target != right {
        BypassableStable(h, c, h', c', own, leftNext.target, right);
      }
    case _ =>
  }

  /** The step succeeds in linking the thread's node. */
  predicate Links(h: Heap, th: Thread) {
    th.pc.CasLink? && th.pc.left < |h| && h[th.pc.left].next == Link(th.pc.right, false)
  }

  /** The step succeeds in marking the node to be removed. */
  predicate Marks(h: Heap, th: Thread) {
    th.pc.CasMark? && th.pc.right < |h| && h[th.pc.right].next == th.pc.rightNext
  }

  function OwnNode(h: Heap, th: Thread): nat {
    if Inserting(th) then th.insertion else |h|
  }

  /** How the abstract set moves from `before` to `after` in a step of `th`. */
  ghost predicate SetMoves(h: Heap, th: Thread, before: set<int>, after: set<int>) {
    if Links(h, th) then th.op.key !in before && after == before + {th.op.key}
    else if Marks(h, th) then th.op.key in before && after == before - {th.op.key}
    else after == before
  }

  lemma LinkedInRange(h: Heap, c: seq<nat>, n: nat)
    requires ListInv(h, c) && Linked(h, c, n)
    ensures n < |h| && h[n].next.Link?
    ensures n != TAIL ==> LinkOk(h, c, n)
    ensures n == TAIL || !Marked(h, n) ==> n in c
  {
  }

  lemma VisitKeeps(h: Heap, c: seq<nat>, th: Thread, node: nat, left: nat, leftNext: Link)
    requires ListInv(h, c) && LocalInv(h, c, th) && Active(th)
    requires Linked(h, c, node) && node < |h| && node != TAIL
    requires !Marked(h, node) ==> BelowKey(h, node, th.op.key)
    requires Marked(h, node) ==> LeftOk(h, c, left, th.op.key) && Skipped(h, leftNext, node)
    ensures h[node].next.Link? && LocalInv(h, c, Visit(h, th, node, h[node].next, left, leftNext))
  {
    LinkedInRange(h, c, node);
    var nodeNext := h[node].next;
    LinkedInRange(h, c, nodeNext.target);
    if nodeNext.marked {
      BypassableGrows(h, leftNext.target, node);
    }
  }

  /** Steps that only read. */
  lemma LoadKeeps(h: Heap, c: seq<nat>, th: Thread)
    requires ListInv(h, c) && LocalInv(h, c, th)
    requires th.pc.LoadHead? || th.pc.LoadNext? || th.pc.LoadRight? || th.pc.LoadVictim?
    ensures AdvanceOk(h, c, th, c)
  {
    LoadKeepsLocal(h, c, th);
    hide ListInv, LocalInv, Safe, Advance, Evolves;
    EvolvesRefl(h, c, OwnNode(h, th));
  }

  lemma LoadKeepsLocal(h: Heap, c: seq<nat>, th: Thread)
    requires ListInv(h, c) && LocalInv(h, c, th)
    requires th.pc.LoadHead? || th.pc.LoadNext? || th.pc.LoadRight? || th.pc.LoadVictim?
    ensures Safe(h, th)
    ensures Advance(h, th).0 == h && LocalInv(h, c, Advance(h, th).1)
  {
    match th.pc
    case LoadHead =>
      LinkedInRange(h, c, HEAD);
      VisitKeeps(h, c, th, HEAD, HEAD, Null);
    case LoadNext(node, left, leftNext) =>
      LinkedInRange(h, c, node);
      if h[node].next.marked || h[node].key < th.op.key {
        VisitKeeps(h, c, th, node, left, leftNext);
      }
    case LoadRight(left, right) =>
      LinkedInRange(h, c, right);
    case LoadVictim(left, right) =>
      LinkedInRange(h, c, right);
  }

  /** The step is safe, keeps the list and the thread's own invariant, and does to the list and
      the abstract set what its thread may do. */
  ghost predicate AdvanceOk(h: Heap, c: seq<nat>, th: Thread, c': seq<nat>) {
    && Safe(h, th)
    && var (h', th') := Advance(h, th);
       && ListInv(h', c') && LocalInv(h', c', th')
       && Evolves(h, c, h', c', OwnNode(h, th))
       && SetMoves(h, th, Members(h), Members(h'))
  }

  /** Any step of any thread: it is safe, keeps the list and the thread's own invariant,
      disturbs nothing another thread relies on, and moves the abstract set only when a
      link CAS or a mark CAS succeeds. */
  lemma AdvanceKeeps(h: Heap, c: seq<nat>, th: Thread) returns (c': seq<nat>)
    requires ListInv(h, c) && LocalInv(h, c, th) && Active(th)
    ensures AdvanceOk(h, c, th, c')
  {
    hide ListInv, LocalInv, AdvanceOk;
    c' := c;
    match th.pc
    case LoadHead => LoadKeeps(h, c, th);
    case LoadNext(node, left, leftNext) => LoadKeeps(h, c, th);
    case LoadRight(left, right) => LoadKeeps(h, c, th);
    case LoadVictim(left, right) => LoadKeeps(h, c, th);
    case CasBypass(left, leftNext, right) => c' := CasBypassKeeps(h, c, th);
    case StoreFresh(left, right) => StoreFreshKeeps(h, c, th);
    case CasLink(left, right) => c' := CasLinkKeeps(h, c, th);
    case CasMark(left, right, rightNext) => CasMarkKeeps(h, c, th);
    case CasUnlink(left, right, rightNext) => c' := CasUnlinkKeeps(h, c, th);
  }

  lemma StoreFreshKeeps(h: Heap, c: seq<nat>, th: Thread)
    requires ListInv(h, c) && LocalInv(h, c, th) && th.pc.StoreFresh?
    ensures AdvanceOk(h, c, th, c)
  {
    StorePrivate(h, c, th.insertion, th.pc.right);
  }

  lemma CasLinkKeeps(h: Heap, c: seq<nat>, th: Thread) returns (c': seq<nat>)
    requires ListInv(h, c) && LocalInv(h, c, th) && th.pc.CasLink?
    ensures AdvanceOk(h, c, th, c')
  {
    c' := c;
    LinkedInRange(h, c, th.pc.left);
    if Links(h, th) {
      c' := LinkFresh(h, c, th.pc.left, th.pc.right, th.insertion);
    }
  }

  lemma CasMarkKeeps(h: Heap, c: seq<nat>, th: Thread)
    requires ListInv(h, c) && LocalInv(h, c, th) && th.pc.CasMark?
    ensures AdvanceOk(h, c, th, c)
  {
    LinkedInRange(h, c, th.pc.right);
    if Marks(h, th) {
      MarkNode(h, c, th.pc.right, th.op.key);
    }
  }

  lemma CasBypassKeeps(h: Heap, c: seq<nat>, th: Thread) returns (c': seq<nat>)
    requires ListInv(h, c) && LocalInv(h, c, th) && th.pc.CasBypass?
    ensures AdvanceOk(h, c, th, c')
  {
    c' := c;
    var left, leftNext, right := th.pc.left, th.pc.leftNext, th.pc.right;
    LinkedInRange(h, c, left);
    if h[left].next == leftNext {
      c' := BypassMarked(h, c, left, leftNext.target, right);
      var h' := SetNext(h, left, Link(right, false));
      assert Evolves(h, c, h', c', OwnNode(h, th));
      if Inserting(th) {
        assert Private(h', c', th.insertion);
      }
    }
  }

  lemma CasUnlinkKeeps(h: Heap, c: seq<nat>, th: Thread) returns (c': seq<nat>)
    requires ListInv(h, c) && LocalInv(h, c, th) && th.pc.CasUnlink?
    ensures AdvanceOk(h, c, th, c')
  {
    c' := c;
    var left, right, rightNext := th.pc.left, th.pc.right, th.pc.rightNext;
    LinkedInRange(h, c, left);
    if h[left].next == Link(right, false) {
      assert MarkedPath(h, [right], rightNext.target);
      c' := BypassMarked(h, c, left, right, rightNext.target);
    }
  }
}
