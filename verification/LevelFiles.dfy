/**
  The files of the levels below a compaction's output level, and the check that a user key
  exists in none of them. The check keeps one cursor per level and only moves it forward,
  so it relies on being asked about keys in nondecreasing order.
*/
module LevelFiles {

  /** The user-key range of a table file. */
  datatype File = File(smallest: int, largest: int)

  predicate Covers(f: File, key: int) {
    f.smallest <= key <= f.largest
  }

  /** A level at 1 or deeper: files in key order; neighbours may share a boundary user key. */
  predicate LevelOk(files: seq<File>) {
    && (forall i :: 0 <= i < |files| ==> files[i].smallest <= files[i].largest)
    && (forall i, j :: 0 <= i < j < |files| ==> files[i].largest <= files[j].smallest)
  }

  /** The levels of a version, the level a compaction writes to, and its style. */
  datatype Tree = Tree(levels: seq<seq<File>>, output: nat, universal: bool, bottommost: bool)

  predicate TreeOk(t: Tree) {
    t.output < |t.levels| && forall l :: 1 <= l < |t.levels| ==> LevelOk(t.levels[l])
  }

  /** The stateless check: no file of a deeper level covers the key. */
  predicate AbsentBelow(t: Tree, key: int) {
    if t.universal then t.bottommost
    else forall l, i :: t.output < l < |t.levels| && 0 <= i < |t.levels[l]| ==> !Covers(t.levels[l][i], key)
  }

  /** Every file before a cursor ends below `key`, so no later key can fall into it. */
  ghost predicate CursorsOk(t: Tree, ptrs: seq<nat>, key: int) {
    && |ptrs| == |t.levels|
    && (forall l :: t.output < l < |t.levels| ==> ptrs[l] <= |t.levels[l]|)
    && (forall l, i :: t.output < l < |t.levels| && 0 <= i < ptrs[l] ==> t.levels[l][i].largest < key)
  }

  lemma CursorsMonotone(t: Tree, ptrs: seq<nat>, key: int, key': int)
    requires CursorsOk(t, ptrs, key) && key <= key'
    ensures CursorsOk(t, ptrs, key')
  {
  }

  /** Advances one level's cursor to the first file that does not end below the key. */
  method SkipFiles(t: Tree, l: nat, key: int, ptrs: array<nat>) returns (covered: bool)
    requires TreeOk(t) && t.output < l < |t.levels| && CursorsOk(t, ptrs[..], key)
    modifies ptrs
    ensures CursorsOk(t, ptrs[..], key)
    ensures covered <==> exists i :: 0 <= i < |t.levels[l]| && Covers(t.levels[l][i], key)
  {
    var files := t.levels[l];
    assert LevelOk(files);
    assert ptrs[l] == ptrs[..][l];
    while ptrs[l] < |files|
      invariant ptrs[l] <= |files|
      invariant CursorsOk(t, ptrs[..], key)
      decreases |files| - ptrs[l]
    {
      var f := files[ptrs[l]];
      if key <= f.largest {
        covered := key >= f.smallest;
        assert forall i :: 0 <= i < ptrs[..][l] ==> files[i].largest < key;
        return;
      }
      ghost var before := ptrs[..];
      ptrs[l] := ptrs[l] + 1;
      assert ptrs[..] == before[l := before[l] + 1];
    }
    assert ptrs[..][l] == |files|;
    covered := false;
  }

  method KeyNotExistsBeyondOutputLevel(t: Tree, key: int, ptrs: array<nat>) returns (absent: bool)
    requires TreeOk(t) && CursorsOk(t, ptrs[..], key)
    modifies ptrs
    ensures absent == AbsentBelow(t, key)
    ensures CursorsOk(t, ptrs[..], key)
  {
    if t.universal {
      return t.bottommost;
    }
    for l := t.output + 1 to |t.levels|
      invariant CursorsOk(t, ptrs[..], key)
      invariant forall m, i :: t.output < m < l && 0 <= i < |t.levels[m]| ==> !Covers(t.levels[m][i], key)
    {
      var covered := SkipFiles(t, l, key, ptrs);
      if covered {
        return false;
      }
    }
    return true;
  }

  /** For every nondecreasing sequence of queries, the moving cursors give exactly the
      answers of the stateless check. */
  method AnswerQueries(t: Tree, keys: seq<int>) returns (answers: seq<bool>)
    requires TreeOk(t)
    requires forall i, j :: 0 <= i < j < |keys| ==> keys[i] <= keys[j]
    ensures |answers| == |keys|
    ensures forall i :: 0 <= i < |keys| ==> answers[i] == AbsentBelow(t, keys[i])
  {
    var ptrs := new nat[|t.levels|](_ => 0);
    answers := [];
    for n := 0 to |keys|
      invariant |answers| == n
      invariant n < |keys| ==> CursorsOk(t, ptrs[..], keys[n])
      invariant forall i :: 0 <= i < n ==> answers[i] == AbsentBelow(t, keys[i])
    {
      var absent := KeyNotExistsBeyondOutputLevel(t, keys[n], ptrs);
      answers := answers + [absent];
      if n + 1 < |keys| {
        CursorsMonotone(t, ptrs[..], keys[n], keys[n + 1]);
      }
    }
  }
}
