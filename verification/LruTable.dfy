/**
  The hash table of the LRU cache: chained buckets, a power of two of them, doubled when there
  are more entries than buckets. It stands for a finite map from (key, hash) to handles.
*/
module LruTable {
  import opened Basics

  /** A table entry: the handle with its key and the hash of the key. */
  datatype Item = Item(name: Name, handle: nat)

  datatype Name = Name(key: int, hash: nat)

  // ---------------------------------------------------------------- masking

  /** The bitwise conjunction of two numbers. */
  function And(x: nat, y: nat): nat
    decreases x
  {
    if x == 0 || y == 0 then 0 else 2 * And(x / 2, y / 2) + (x % 2) * (y % 2)
  }

  /** Masking with a power of two less one is the remainder. */
  lemma {:induction false} MaskIsRemainder(x: nat, k: nat)
    ensures And(x, Pow2(k) - 1) == x % Pow2(k)
    decreases k
  {
    hide And;
    if x == 0 || k == 0 {
      MaskOfNothing(x, Pow2(k));
    } else {
      MaskIsRemainder(x / 2, k - 1);
      MaskStep(x, Pow2(k - 1));
    }
  }

  lemma MaskOfNothing(x: nat, p: nat)
    requires p >= 1 && (x == 0 || p == 1)
    ensures And(x, p - 1) == x % p
  {
  }

  lemma MaskStep(x: nat, p: nat)
    requires x > 0 && p >= 1 && And(x / 2, p - 1) == x / 2 % p
    ensures And(x, 2 * p - 1) == x % (2 * p)
  {
    hide And;
    MaskHalves(x, p);
    HalveRemainder(x, p);
  }

  lemma MaskHalves(x: nat, p: nat)
    requires x > 0 && p >= 1
    ensures And(x, 2 * p - 1) == 2 * And(x / 2, p - 1) + x % 2
  {
    assert (2 * p - 1) / 2 == p - 1 && (2 * p - 1) % 2 == 1;
  }

  lemma HalveRemainder(x: nat, p: nat)
    requires p >= 1
    ensures x % (2 * p) == 2 * (x / 2 % p) + x % 2
  {
    var q, r := x / 2 / p, x / 2 % p;
    assert x == 2 * (x / 2) + x % 2 && x / 2 == p * q + r;
    assert x == (2 * p) * q + (2 * r + x % 2);
    RemainderUnique(x, 2 * p, q, 2 * r + x % 2);
  }

  lemma RemainderUnique(x: nat, d: nat, q: nat, r: nat)
    requires d >= 1 && x == d * q + r && r < d
    ensures x % d == r
  {
    var e := x / d - q;
    assert x == d * (x / d) + x % d;
    assert d * (x / d) == d * q + d * e;
    assert e >= 1 ==> d * e >= d;
    assert e <= -1 ==> d * e + d <= 0;
  }

  ghost predicate IsPowerOfTwo(n: nat) { exists k: nat :: Pow2(k) == n }

  function Home(hash: nat, length: nat): nat
    requires length >= 1
  {
    And(hash, length - 1)
  }

  lemma HomeInRange(hash: nat, length: nat)
    requires IsPowerOfTwo(length)
    ensures length >= 1 && Home(hash, length) == hash % length < length
  {
    var k: nat :| Pow2(k) == length;
    MaskIsRemainder(hash, k);
  }

  // ---------------------------------------------------------------- chains and buckets

  /** Where a name is in a chain, or the length of the chain. */
  function Position(chain: seq<Item>, name: Name): (i: nat)
    ensures i <= |chain| && (i < |chain| ==> chain[i].name == name)
    ensures forall j :: 0 <= j < i ==> chain[j].name != name
  {
    if chain == [] || chain[0].name == name then 0 else 1 + Position(chain[1..], name)
  }

  /** No two items of a chain have the same name. */
  ghost predicate Distinct(chain: seq<Item>) {
    forall i, j :: 0 <= i < j < |chain| ==> chain[i].name != chain[j].name
  }

  /** An item of a bucket is in the map, under its name, and belongs in this bucket. */
  ghost predicate InPlace(contents: map<Name, nat>, length: nat, b: nat, item: Item)
    requires length >= 1
  {
    item.name in contents && contents[item.name] == item.handle && Home(item.name.hash, length) == b
  }

  /** The buckets hold exactly the entries of the map, each in the bucket of its hash. */
  ghost predicate Holds(buckets: seq<seq<Item>>, contents: map<Name, nat>) {
    && IsPowerOfTwo(|buckets|) && |buckets| >= 1
    && (forall b :: 0 <= b < |buckets| ==> Distinct(buckets[b]))
    && (forall b, i :: 0 <= b < |buckets| && 0 <= i < |buckets[b]| ==> InPlace(contents, |buckets|, b, buckets[b][i]))
    && (forall name :: name in contents ==> InBucket(buckets, name))
  }

  ghost predicate InBucket(buckets: seq<seq<Item>>, name: Name) {
    |buckets| >= 1 && Home(name.hash, |buckets|) < |buckets| &&
    exists i :: 0 <= i < |buckets[Home(name.hash, |buckets|)]| && buckets[Home(name.hash, |buckets|)][i].name == name
  }

  /** Searching the bucket of the hash decides whether a name is in the map, and finds its handle. */
  lemma SearchDecides(buckets: seq<seq<Item>>, contents: map<Name, nat>, name: Name)
    requires Holds(buckets, contents)
    ensures Home(name.hash, |buckets|) < |buckets|
    ensures var chain := buckets[Home(name.hash, |buckets|)]; var i := Position(chain, name);
            && (name in contents <==> i < |chain|)
            && (i < |chain| ==> contents[name] == chain[i].handle)
  {
    HomeInRange(name.hash, |buckets|);
    var b := Home(name.hash, |buckets|);
    var i := Position(buckets[b], name);
    if name in contents {
      assert InBucket(buckets, name);
    }
    if i < |buckets[b]| {
      assert InPlace(contents, |buckets|, b, buckets[b][i]);
    }
  }

  // ---------------------------------------------------------------- one change of one bucket

  function WithChain(buckets: seq<seq<Item>>, name: Name, chain: seq<Item>): seq<seq<Item>>
    requires |buckets| >= 1 && Home(name.hash, |buckets|) < |buckets|
  {
    buckets[Home(name.hash, |buckets|) := chain]
  }

  /** A chain that takes the place of a bucket and loses, gains or replaces the one name. */
  ghost predicate Changed(bucket: seq<Item>, chain: seq<Item>, contents: map<Name, nat>, contents': map<Name, nat>,
                          name: Name) {
    && Distinct(chain)
    && (forall n :: n != name ==>
        (n in contents' <==> n in contents) && (n in contents ==> contents'[n] == contents[n]))
    && (forall item :: item in chain && item.name != name ==> item in bucket)
    && (forall item :: item in bucket && item.name != name ==> item in chain)
    && (forall item :: item in chain && item.name == name ==> name in contents' && contents'[name] == item.handle)
    && (name in contents' ==> exists item :: item in chain && item.name == name)
  }

  lemma ChangedItem(buckets: seq<seq<Item>>, contents: map<Name, nat>, name: Name, chain: seq<Item>,
                    contents': map<Name, nat>, c: nat, i: nat)
    requires Holds(buckets, contents) && Home(name.hash, |buckets|) < |buckets|
    requires Changed(buckets[Home(name.hash, |buckets|)], chain, contents, contents', name)
    requires c < |buckets| && i < |WithChain(buckets, name, chain)[c]|
    ensures InPlace(contents', |buckets|, c, WithChain(buckets, name, chain)[c][i])
  {
    var b, length := Home(name.hash, |buckets|), |buckets|;
    hide Home, Distinct;
    var item := WithChain(buckets, name, chain)[c][i];
    if c != b {
      assert InPlace(contents, length, c, buckets[c][i]);
    } else {
      assert item in chain;
      if item.name != name {
        var j :| 0 <= j < |buckets[b]| && buckets[b][j] == item;
        assert InPlace(contents, length, b, buckets[b][j]);
      }
    }
  }

  lemma ChangedName(buckets: seq<seq<Item>>, contents: map<Name, nat>, name: Name, chain: seq<Item>,
                    contents': map<Name, nat>, n: Name)
    requires Holds(buckets, contents) && Home(name.hash, |buckets|) < |buckets|
    requires Changed(buckets[Home(name.hash, |buckets|)], chain, contents, contents', name) && n in contents'
    ensures InBucket(WithChain(buckets, name, chain), n)
  {
    var b, length := Home(name.hash, |buckets|), |buckets|;
    var buckets': seq<seq<Item>> := WithChain(buckets, name, chain);
    HomeInRange(n.hash, length);
    hide Home, Distinct;
    var c := Home(n.hash, length);
    if n == name {
      var item :| item in chain && item.name == name;
      var i :| 0 <= i < |chain| && chain[i] == item;
      assert buckets'[c][i].name == n;
    } else {
      assert InBucket(buckets, n);
      var i :| 0 <= i < |buckets[c]| && buckets[c][i].name == n;
      if c == b {
        assert buckets[c][i] in chain;
        var j :| 0 <= j < |chain| && chain[j] == buckets[c][i];
        assert buckets'[c][j].name == n;
      } else {
        assert buckets'[c][i].name == n;
      }
    }
  }

  /** Changing a bucket changes the map alike. */
  lemma ChangeHolds(buckets: seq<seq<Item>>, contents: map<Name, nat>, name: Name, chain: seq<Item>,
                    contents': map<Name, nat>)
    requires Holds(buckets, contents) && Home(name.hash, |buckets|) < |buckets|
    requires Changed(buckets[Home(name.hash, |buckets|)], chain, contents, contents', name)
    ensures Holds(WithChain(buckets, name, chain), contents')
  {
    hide Home, InPlace, InBucket, Distinct;
    forall c, i | 0 <= c < |buckets| && 0 <= i < |WithChain(buckets, name, chain)[c]|
      ensures InPlace(contents', |buckets|, c, WithChain(buckets, name, chain)[c][i])
    {
      ChangedItem(buckets, contents, name, chain, contents', c, i);
    }
    forall n | n in contents'
      ensures InBucket(WithChain(buckets, name, chain), n)
    {
      ChangedName(buckets, contents, name, chain, contents', n);
    }
  }

  lemma ReplaceHolds(buckets: seq<seq<Item>>, contents: map<Name, nat>, item: Item, i: nat)
    requires Holds(buckets, contents) && Home(item.name.hash, |buckets|) < |buckets|
    requires var chain := buckets[Home(item.name.hash, |buckets|)]; i < |chain| && chain[i].name == item.name
    ensures Holds(WithChain(buckets, item.name, buckets[Home(item.name.hash, |buckets|)][i := item]),
            contents[item.name := item.handle])
  {
    var chain := buckets[Home(item.name.hash, |buckets|)];
    assert Distinct(chain);
    assert chain[i := item][i] == item;
    forall x | x in chain && x.name != item.name
      ensures x in chain[i := item]
    {
      var j :| 0 <= j < |chain| && chain[j] == x;
      assert chain[i := item][j] == x;
    }
    ChangeHolds(buckets, contents, item.name, chain[i := item], contents[item.name := item.handle]);
  }

  lemma AppendHolds(buckets: seq<seq<Item>>, contents: map<Name, nat>, item: Item)
    requires Holds(buckets, contents) && item.name !in contents && Home(item.name.hash, |buckets|) < |buckets|
    ensures Holds(WithChain(buckets, item.name, buckets[Home(item.name.hash, |buckets|)] + [item]),
            contents[item.name := item.handle])
  {
    var chain := buckets[Home(item.name.hash, |buckets|)];
    NotInChain(buckets, contents, item.name);
    assert item in chain + [item];
    ChangeHolds(buckets, contents, item.name, chain + [item], contents[item.name := item.handle]);
  }

  lemma PushHolds(buckets: seq<seq<Item>>, contents: map<Name, nat>, item: Item)
    requires Holds(buckets, contents) && item.name !in contents && Home(item.name.hash, |buckets|) < |buckets|
    ensures Holds(WithChain(buckets, item.name, [item] + buckets[Home(item.name.hash, |buckets|)]),
            contents[item.name := item.handle])
  {
    var chain := buckets[Home(item.name.hash, |buckets|)];
    NotInChain(buckets, contents, item.name);
    assert item in [item] + chain;
    ChangeHolds(buckets, contents, item.name, [item] + chain, contents[item.name := item.handle]);
  }

  lemma NotInChain(buckets: seq<seq<Item>>, contents: map<Name, nat>, name: Name)
    requires Holds(buckets, contents) && name !in contents && Home(name.hash, |buckets|) < |buckets|
    ensures forall x :: x in buckets[Home(name.hash, |buckets|)] ==> x.name != name
    ensures Distinct(buckets[Home(name.hash, |buckets|)])
  {
    var b := Home(name.hash, |buckets|);
    forall x | x in buckets[b]
      ensures x.name != name
    {
      var j :| 0 <= j < |buckets[b]| && buckets[b][j] == x;
      assert InPlace(contents, |buckets|, b, buckets[b][j]);
    }
  }

  lemma RemoveHolds(buckets: seq<seq<Item>>, contents: map<Name, nat>, name: Name, i: nat)
    requires Holds(buckets, contents) && Home(name.hash, |buckets|) < |buckets|
    requires var chain := buckets[Home(name.hash, |buckets|)]; i < |chain| && chain[i].name == name
    ensures var chain := buckets[Home(name.hash, |buckets|)];
            Holds(WithChain(buckets, name, chain[..i] + chain[i + 1..]), contents - {name})
  {
    var chain := buckets[Home(name.hash, |buckets|)];
    var rest := chain[..i] + chain[i + 1..];
    assert Distinct(chain);
    hide Holds;
    RestOfChain(chain, i);
    ChangeHolds(buckets, contents, name, rest, contents - {name});
  }

  lemma RestOfChain(chain: seq<Item>, i: nat)
    requires Distinct(chain) && i < |chain|
    ensures var rest := chain[..i] + chain[i + 1..];
            Distinct(rest) && forall x :: x in rest <==> x in chain && x.name != chain[i].name
  {
    var rest := chain[..i] + chain[i + 1..];
    forall x | x in chain && x.name != chain[i].name
      ensures x in rest
    {
      var j :| 0 <= j < |chain| && chain[j] == x;
      assert x == if j < i then rest[j] else rest[j - 1];
    }
    forall j | 0 <= j < |rest|
      ensures rest[j] in chain && rest[j].name != chain[i].name
    {
      assert rest[j] == if j < i then chain[j] else chain[j + 1];
    }
  }

  // ---------------------------------------------------------------- growing

  /** The entries of the first `i` buckets, and the first `j` of the next. */
  ghost predicate Before(buckets: seq<seq<Item>>, name: Name, i: nat, j: nat) {
    |buckets| >= 1 &&
    var b := Home(name.hash, |buckets|);
    b < i || (b == i && b < |buckets| && Position(buckets[b], name) < j)
  }

  /** `done` is the part of the map that has been moved. */
  ghost predicate Moved(buckets: seq<seq<Item>>, contents: map<Name, nat>, done: map<Name, nat>, i: nat, j: nat) {
    forall name :: (name in done <==> name in contents && Before(buckets, name, i, j))
        && (name in done ==> done[name] == contents[name])
  }

  lemma BeforeNext(buckets: seq<seq<Item>>, contents: map<Name, nat>, i: nat, j: nat, name: Name)
    requires Holds(buckets, contents) && i < |buckets| && j < |buckets[i]|
    ensures Before(buckets, name, i, j + 1) <==> Before(buckets, name, i, j) || name == buckets[i][j].name
    ensures name == buckets[i][j].name ==>
            !Before(buckets, name, i, j) && name in contents && contents[name] == buckets[i][j].handle
  {
    assert InPlace(contents, |buckets|, i, buckets[i][j]) && Distinct(buckets[i]);
    hide Home;
  }

  lemma MovedOne(buckets: seq<seq<Item>>, contents: map<Name, nat>, done: map<Name, nat>, i: nat, j: nat)
    requires Holds(buckets, contents) && Moved(buckets, contents, done, i, j) && i < |buckets| && j < |buckets[i]|
    ensures var item := buckets[i][j];
            item.name !in done && Moved(buckets, contents, done[item.name := item.handle], i, j + 1)
  {
    hide Home, Holds, Before;
    var item := buckets[i][j];
    forall name
      ensures Before(buckets, name, i, j + 1) <==> Before(buckets, name, i, j) || name == item.name
      ensures name == item.name ==> !Before(buckets, name, i, j) && name in contents && contents[name] == item.handle
    {
      BeforeNext(buckets, contents, i, j, name);
    }
  }

  lemma MovedChain(buckets: seq<seq<Item>>, contents: map<Name, nat>, done: map<Name, nat>, i: nat)
    requires Holds(buckets, contents) && i < |buckets| && Moved(buckets, contents, done, i, |buckets[i]|)
    ensures Moved(buckets, contents, done, i + 1, 0)
  {
    forall name | name in contents
      ensures Before(buckets, name, i, |buckets[i]|) <==> Before(buckets, name, i + 1, 0)
    {
      SearchDecides(buckets, contents, name);
    }
  }

  lemma MovedAll(buckets: seq<seq<Item>>, contents: map<Name, nat>, done: map<Name, nat>)
    requires Holds(buckets, contents) && Moved(buckets, contents, done, |buckets|, 0)
    ensures done == contents
  {
    forall name | name in contents
      ensures Before(buckets, name, |buckets|, 0)
    {
      SearchDecides(buckets, contents, name);
    }
  }

  lemma EmptyHolds(length: nat)
    requires IsPowerOfTwo(length)
    ensures length >= 1 && Holds(seq(length, _ => []), map[])
  {
    HomeInRange(0, length);
  }

  /** The smallest power of two from 16 on that is at least one and a half times the number of entries. */
  method NewLength(elems: nat) returns (length: nat)
    ensures IsPowerOfTwo(length) && length >= 16 && 2 * length >= 3 * elems
    ensures length == 16 || length < 3 * elems
  {
    length := 16;
    ghost var k := 4;
    assert Pow2(4) == 16;
    while 2 * length < 3 * elems
      invariant Pow2(k) == length && length >= 16
      invariant length == 16 || length < 3 * elems
      decreases 3 * elems - length
    {
      length := length * 2;
      k := k + 1;
    }
  }

  /** Moves all items of a chain to the front of their new buckets. */
  method MoveChain(buckets: seq<seq<Item>>, i: nat, moved0: seq<seq<Item>>, ghost contents: map<Name, nat>,
                   ghost done0: map<Name, nat>)
    returns (moved: seq<seq<Item>>, ghost done: map<Name, nat>)
    requires Holds(buckets, contents) && i < |buckets| && Holds(moved0, done0) && Moved(buckets, contents, done0, i, 0)
    ensures |moved| == |moved0| && Holds(moved, done) && Moved(buckets, contents, done, i + 1, 0)
            && |done| == |done0| + |buckets[i]|
  {
    hide Holds, Moved, Home;
    moved, done := moved0, done0;
    var j := 0;
    while j < |buckets[i]|
      invariant j <= |buckets[i]| && |moved| == |moved0| && |done| == |done0| + j
      invariant Holds(moved, done) && Moved(buckets, contents, done, i, j)
    {
      var item := buckets[i][j];
      MovedOne(buckets, contents, done, i, j);
      SearchDecides(moved, done, item.name);
      PushHolds(moved, done, item);
      HoldsNonempty(moved, done);
      var b := Home(item.name.hash, |moved|);
      moved := moved[b := [item] + moved[b]];
      done := done[item.name := item.handle];
      j := j + 1;
    }
    MovedChain(buckets, contents, done, i);
  }

  lemma HoldsNonempty(buckets: seq<seq<Item>>, contents: map<Name, nat>)
    requires Holds(buckets, contents)
    ensures |buckets| >= 1
  {
  }

  lemma NothingMoved(buckets: seq<seq<Item>>, contents: map<Name, nat>)
    requires Holds(buckets, contents)
    ensures Moved(buckets, contents, map[], 0, 0)
  {
  }

  class Table {
    var buckets: seq<seq<Item>>
    var elems: nat
    ghost var contents: map<Name, nat>

    ghost predicate Valid()
      reads this
    {
      Holds(buckets, contents) && elems == |contents| && 16 <= |buckets| && elems <= |buckets|
    }

    constructor ()
      ensures Valid() && contents == map[] && |buckets| == 16
    {
      buckets := seq(16, _ => []);
      elems := 0;
      contents := map[];
      new;
      assert Pow2(4) == 16;
      EmptyHolds(16);
    }

    /** Where a name is, or would be appended. */
    method FindPointer(name: Name) returns (b: nat, i: nat)
      requires Valid()
      ensures b == Home(name.hash, |buckets|) < |buckets| && i == Position(buckets[b], name)
      ensures name in contents <==> i < |buckets[b]|
      ensures i < |buckets[b]| ==> contents[name] == buckets[b][i].handle
    {
      SearchDecides(buckets, contents, name);
      b := Home(name.hash, |buckets|);
      i := 0;
      while i < |buckets[b]| && buckets[b][i].name != name
        invariant i <= |buckets[b]| && forall j :: 0 <= j < i ==> buckets[b][j].name != name
      {
        i := i + 1;
      }
    }

    method Lookup(name: Name) returns (handle: Option<nat>)
      requires Valid()
      ensures handle == if name in contents then Some(contents[name]) else None
    {
      var b, i := FindPointer(name);
      handle := if i < |buckets[b]| then Some(buckets[b][i].handle) else None;
    }

    /** Maps the name to the handle; returns the handle it was mapped to before. */
    method Insert(name: Name, handle: nat) returns (old_: Option<nat>)
      requires Valid()
      modifies this
      ensures Valid() && contents == old(contents)[name := handle]
      ensures old_ == if name in old(contents) then Some(old(contents)[name]) else None
    {
      hide Holds, Home, Position;
      var b, i := FindPointer(name);
      var item := Item(name, handle);
      if i < |buckets[b]| {
        old_ := Some(buckets[b][i].handle);
        ReplaceHolds(buckets, contents, item, i);
        assert contents[name := handle].Keys == contents.Keys;
        buckets := buckets[b := buckets[b][i := item]];
        contents := contents[name := handle];
      } else {
        old_ := None;
        AppendHolds(buckets, contents, item);
        assert contents[name := handle].Keys == contents.Keys + {name};
        buckets := buckets[b := buckets[b] + [item]];
        contents := contents[name := handle];
        elems := elems + 1;
        if elems > |buckets| {
          Resize();
        }
      }
    }

    method Remove(name: Name) returns (removed: Option<nat>)
      requires Valid()
      modifies this
      ensures Valid() && contents == old(contents) - {name} && |buckets| == |old(buckets)|
      ensures removed == if name in old(contents) then Some(old(contents)[name]) else None
    {
      hide Holds, Home, Position;
      var b, i := FindPointer(name);
      if i < |buckets[b]| {
        removed := Some(buckets[b][i].handle);
        RemoveHolds(buckets, contents, name, i);
        assert contents.Keys == (contents - {name}).Keys + {name};
        buckets := buckets[b := buckets[b][..i] + buckets[b][i + 1..]];
        contents := contents - {name};
        elems := elems - 1;
      } else {
        removed := None;
      }
    }

    /** Rehashing keeps the map. */
    method Resize()
      requires Holds(buckets, contents) && elems == |contents|
      modifies this`buckets
      ensures Valid() && 2 * |buckets| >= 3 * elems
    {
      hide Holds, Home, Moved;
      var length := NewLength(elems);
      EmptyHolds(length);
      NothingMoved(buckets, contents);
      var moved: seq<seq<Item>> := seq(length, _ => []);
      ghost var done: map<Name, nat> := map[];
      var i, count := 0, 0;
      while i < |buckets|
        invariant buckets == old(buckets) && i <= |buckets| && |moved| == length && count == |done|
        invariant Holds(moved, done) && Moved(buckets, contents, done, i, 0)
      {
        moved, done := MoveChain(buckets, i, moved, contents, done);
        count := count + |buckets[i]|;
        i := i + 1;
      }
      MovedAll(buckets, contents, done);
      assert elems == count;
      buckets := moved;
    }
  }
}
