/**
  Completing a requested set of input files for a manual compaction. The files to be
  compacted must be closed under overlap: the code reaches that in one pass over the
  levels, and what it reaches is the least closed set containing the request.
*/
module CompactionPicker {

  datatype SstFile = SstFile(number: nat, smallest: int, largest: int, beingCompacted: bool)

  type Levels = seq<seq<SstFile>>

  /** The overlap test, with the case distinction of the code. */
  function HaveOverlappingKeyRanges(aSmallest: int, aLargest: int, bSmallest: int, bLargest: int): bool {
    if aSmallest >= bSmallest && aSmallest <= bLargest then true
    else if aSmallest < bSmallest && aLargest >= bSmallest then true
    else if aLargest <= bLargest && aLargest >= bSmallest then true
    else if aLargest > bLargest && aSmallest <= bLargest then true
    else false
  }

  /** For proper ranges the four cases amount to the usual test. */
  lemma OverlapIsSymmetric(aSmallest: int, aLargest: int, bSmallest: int, bLargest: int)
    requires aSmallest <= aLargest && bSmallest <= bLargest
    ensures HaveOverlappingKeyRanges(aSmallest, aLargest, bSmallest, bLargest) <==>
            aSmallest <= bLargest && bSmallest <= aLargest
    ensures HaveOverlappingKeyRanges(aSmallest, aLargest, bSmallest, bLargest) ==
            HaveOverlappingKeyRanges(bSmallest, bLargest, aSmallest, aLargest)
  {
  }

  /** Level 0 is ordered by age; from level 1 on files are in key order and neighbours may
      share a boundary user key. File numbers are unique. */
  predicate LevelsOk(levels: Levels) {
    && (forall l, i :: 0 <= l < |levels| && 0 <= i < |levels[l]| ==> levels[l][i].smallest <= levels[l][i].largest)
    && (forall l, i, j :: 1 <= l < |levels| && 0 <= i < j < |levels[l]| ==>
        levels[l][i].largest <= levels[l][j].smallest)
    && (forall l, i, m, j :: 0 <= l < |levels| && 0 <= i < |levels[l]| && 0 <= m < |levels| && 0 <= j < |levels[m]| ==>
          levels[l][i].number == levels[m][j].number ==> l == m && i == j)
  }

  predicate Chosen(levels: Levels, s: set<nat>, l: int, i: int) {
    0 <= l < |levels| && 0 <= i < |levels[l]| && levels[l][i].number in s
  }

  // ---------------------------------------------------------------- closed sets

  /** `f` reaches into the key hull of the files chosen in levels 0 to `m`. */
  ghost predicate InHull(levels: Levels, s: set<nat>, m: int, f: SstFile) {
    && (exists l, i :: l <= m && Chosen(levels, s, l, i) && levels[l][i].smallest <= f.largest)
    && (exists l, i :: l <= m && Chosen(levels, s, l, i) && f.smallest <= levels[l][i].largest)
  }

  /** The chosen files of level 0 are contiguous. */
  ghost predicate Contiguous(levels: Levels, s: set<nat>) {
    forall i, j, k {:trigger Chosen(levels, s, 0, i), Chosen(levels, s, 0, j), Chosen(levels, s, 0, k)} ::
      i < j < k && Chosen(levels, s, 0, i) && Chosen(levels, s, 0, k) ==> Chosen(levels, s, 0, j)
  }

  /** Every file of level `m` that overlaps the hull of the files chosen up to that level
      is chosen. */
  ghost predicate ClosedAt(levels: Levels, s: set<nat>, m: int) {
    forall i :: 0 <= m < |levels| && 0 <= i < |levels[m]| && InHull(levels, s, m, levels[m][i]) ==>
        Chosen(levels, s, m, i)
  }

  ghost predicate Closed(levels: Levels, output: nat, s: set<nat>) {
    && Contiguous(levels, s)
    && (forall m :: 1 <= m <= output ==> ClosedAt(levels, s, m))
  }

  /** Every closed set containing the request contains `s`. */
  ghost predicate Forced(levels: Levels, output: nat, request: set<nat>, s: set<nat>) {
    forall t: set<nat> :: request <= t && Closed(levels, output, t) ==> s <= t
  }

  ghost predicate ForcedFile(levels: Levels, output: nat, request: set<nat>, f: SstFile) {
    forall t: set<nat> :: request <= t && Closed(levels, output, t) ==> f.number in t
  }

  ghost predicate NoneBusy(levels: Levels, s: set<nat>, below: int) {
    forall l, i :: l < below && Chosen(levels, s, l, i) ==> !levels[l][i].beingCompacted
  }

  /** Some file that every closed superset must contain is being compacted already. */
  ghost predicate Blocked(levels: Levels, output: nat, request: set<nat>) {
    exists l, i :: 0 <= l <= output < |levels| && 0 <= i < |levels[l]| && levels[l][i].beingCompacted
      && ForcedFile(levels, output, request, levels[l][i])
  }

  // ---------------------------------------------------------------- the key hull

  datatype Hull = NoHull | Hull(lo: int, hi: int)

  predicate Overlaps(h: Hull, f: SstFile) {
    h.Hull? && HaveOverlappingKeyRanges(h.lo, h.hi, f.smallest, f.largest)
  }

  predicate Within(h: Hull, f: SstFile) {
    h.Hull? && h.lo <= f.smallest && f.largest <= h.hi
  }

  /** `h` is exactly the key hull of the files chosen in the levels before `below`. */
  ghost predicate IsHull(levels: Levels, s: set<nat>, below: int, h: Hull) {
    && (forall l, i :: l < below && Chosen(levels, s, l, i) ==> Within(h, levels[l][i]))
    && (h.Hull? ==>
          && h.lo <= h.hi
          && (exists l, i :: l < below && Chosen(levels, s, l, i) && levels[l][i].smallest == h.lo)
          && (exists l, i :: l < below && Chosen(levels, s, l, i) && levels[l][i].largest == h.hi))
  }

  /** Reaching into the hull is overlapping its key range. */
  lemma InHullIffOverlaps(levels: Levels, s: set<nat>, m: int, h: Hull, f: SstFile)
    requires LevelsOk(levels) && IsHull(levels, s, m + 1, h) && f.smallest <= f.largest
    ensures InHull(levels, s, m, f) <==> Overlaps(h, f)
  {
    if h.Hull? {
      OverlapIsSymmetric(h.lo, h.hi, f.smallest, f.largest);
    }
  }

  /** A file overlapping the hull of forced files is forced. */
  lemma OverlapForced(levels: Levels, output: nat, request: set<nat>, s: set<nat>, below: int, h: Hull, m: int, i: int)
    requires LevelsOk(levels) && Forced(levels, output, request, s) && IsHull(levels, s, below, h)
    requires 1 <= m <= output < |levels| && below <= m + 1 && 0 <= i < |levels[m]| && Overlaps(h, levels[m][i])
    ensures ForcedFile(levels, output, request, levels[m][i])
  {
    var f := levels[m][i];
    OverlapIsSymmetric(h.lo, h.hi, f.smallest, f.largest);
    var l1, i1 :| l1 < below && Chosen(levels, s, l1, i1) && levels[l1][i1].smallest == h.lo;
    var l2, i2 :| l2 < below && Chosen(levels, s, l2, i2) && levels[l2][i2].largest == h.hi;
    forall t: set<nat> | request <= t && Closed(levels, output, t)
      ensures f.number in t
    {
      assert s <= t;
      assert Chosen(levels, t, l1, i1) && Chosen(levels, t, l2, i2);
      assert InHull(levels, t, m, f);
      assert ClosedAt(levels, t, m);
      assert Chosen(levels, t, m, i);
    }
  }

  // ---------------------------------------------------------------- the run of one level

  /** The first and the last chosen file of a level. */
  method FindChosen(files: seq<SstFile>, s: set<nat>) returns (first: int, last: int)
    ensures last == -1 ==> first == |files| && forall i :: 0 <= i < |files| ==> files[i].number !in s
    ensures last != -1 ==>
              && 0 <= first <= last < |files| && files[first].number in s && files[last].number in s
              && forall i :: 0 <= i < |files| && files[i].number in s ==> first <= i <= last
  {
    first, last := |files|, -1;
    for f := 0 to |files|
      invariant last == -1 ==> first == |files| && forall i :: 0 <= i < f ==> files[i].number !in s
      invariant last != -1 ==>
                  && 0 <= first <= last < f && files[first].number in s && files[last].number in s
                  && forall i :: 0 <= i < f && files[i].number in s ==> first <= i <= last
    {
      if files[f].number in s {
        first := if first <= f then first else f;
        last := if last >= f then last else f;
      }
    }
  }

  /** From `a` to `b`, each file reaches the start of the next one. */
  predicate Touching(files: seq<SstFile>, a: int, b: int)
    requires 0 <= a <= b < |files|
  {
    forall k :: a <= k < b ==> files[k].largest >= files[k + 1].smallest
  }

  lemma AloneTouching(files: seq<SstFile>, a: int)
    requires 0 <= a < |files|
    ensures Touching(files, a, a)
  {
  }

  /** Widens the run by neighbours that share a boundary user key. */
  method Widen(files: seq<SstFile>, first: int, last: int) returns (first': int, last': int)
    requires 0 <= first <= last < |files|
    ensures 0 <= first' <= first && last <= last' < |files|
    ensures Touching(files, first', first) && Touching(files, last, last')
    ensures first' > 0 ==> files[first' - 1].largest < files[first'].smallest
    ensures last' < |files| - 1 ==> files[last' + 1].smallest > files[last'].largest
  {
    first', last' := first, last;
    while first' > 0
      invariant 0 <= first' <= first
      invariant Touching(files, first', first)
    {
      if files[first' - 1].largest < files[first'].smallest {
        break;
      }
      first' := first' - 1;
    }
    while last' < |files| - 1
      invariant last <= last' < |files|
      invariant Touching(files, last, last')
    {
      if files[last' + 1].smallest > files[last'].largest {
        break;
      }
      last' := last' + 1;
    }
  }

  function RunNumbers(files: seq<SstFile>, first: int, last: int): set<nat> {
    set i | 0 <= i < |files| && first <= i <= last :: files[i].number
  }

  /** Chooses a run of files, unless one of them is being compacted. */
  method IncludeRun(files: seq<SstFile>, s: set<nat>, first: int, last: int) returns (ok: bool, s': set<nat>)
    requires 0 <= first <= last < |files|
    ensures ok ==> s' == s + RunNumbers(files, first, last)
    ensures ok <==> forall i :: first <= i <= last ==> !files[i].beingCompacted
  {
    s' := s;
    for f := first to last + 1
      invariant s' == s + RunNumbers(files, first, f - 1)
      invariant forall i :: first <= i < f ==> !files[i].beingCompacted
    {
      if files[f].beingCompacted {
        return false, s';
      }
      s' := s' + {files[f].number};
    }
    ok := true;
  }

  /** Every file of the run is forced: it lies between chosen ones, or touches one. */
  lemma RunForced(levels: Levels, output: nat, request: set<nat>, s: set<nat>, l: int, first: int, last: int, i: int)
    requires LevelsOk(levels) && Forced(levels, output, request, s) && 0 <= l <= output < |levels|
    requires 0 <= first <= i <= last < |levels[l]|
    requires ForcedFile(levels, output, request, levels[l][first])
             && ForcedFile(levels, output, request, levels[l][last])
    ensures ForcedFile(levels, output, request, levels[l][i])
  {
    var f := levels[l][i];
    forall t: set<nat> | request <= t && Closed(levels, output, t)
      ensures f.number in t
    {
      assert Chosen(levels, t, l, first) && Chosen(levels, t, l, last);
      if l == 0 {
        assert first < i < last ==> (Chosen(levels, t, 0, i) || !Chosen(levels, t, 0, i));
      } else {
        assert InHull(levels, t, l, f) by {
          assert levels[l][first].smallest <= f.largest;
          assert f.smallest <= levels[l][last].largest;
        }
        assert ClosedAt(levels, t, l);
        assert Chosen(levels, t, l, i);
      }
    }
  }

  /** A neighbour that touches a forced file is forced. */
  lemma TouchForced(levels: Levels, output: nat, request: set<nat>, l: int, i: int, j: int)
    requires LevelsOk(levels) && 1 <= l <= output < |levels| && 0 <= i < |levels[l]| && 0 <= j < |levels[l]|
    requires ForcedFile(levels, output, request, levels[l][i])
    requires levels[l][i].smallest <= levels[l][j].largest && levels[l][j].smallest <= levels[l][i].largest
    ensures ForcedFile(levels, output, request, levels[l][j])
  {
    forall t: set<nat> | request <= t && Closed(levels, output, t)
      ensures levels[l][j].number in t
    {
      assert Chosen(levels, t, l, i);
      assert InHull(levels, t, l, levels[l][j]);
      assert ClosedAt(levels, t, l);
      assert Chosen(levels, t, l, j);
    }
  }

  lemma {:induction false} LeftForced(levels: Levels, output: nat, request: set<nat>, l: int, first: int, first': int)
    requires LevelsOk(levels) && 1 <= l <= output < |levels| && 0 <= first' <= first < |levels[l]|
    requires ForcedFile(levels, output, request, levels[l][first])
    requires Touching(levels[l], first', first)
    ensures ForcedFile(levels, output, request, levels[l][first'])
    decreases first - first'
  {
    if first' < first {
      LeftForced(levels, output, request, l, first, first' + 1);
      TouchForced(levels, output, request, l, first' + 1, first');
    }
  }

  lemma {:induction false} RightForced(levels: Levels, output: nat, request: set<nat>, l: int, last: int, last': int)
    requires LevelsOk(levels) && 1 <= l <= output < |levels| && 0 <= last <= last' < |levels[l]|
    requires ForcedFile(levels, output, request, levels[l][last])
    requires Touching(levels[l], last, last')
    ensures ForcedFile(levels, output, request, levels[l][last'])
    decreases last' - last
  {
    if last < last' {
      RightForced(levels, output, request, l, last, last' - 1);
      TouchForced(levels, output, request, l, last' - 1, last');
    }
  }

  // ---------------------------------------------------------------- overlapping files below

  function OverlapNumbers(levels: Levels, h: Hull, low: int, high: int): set<nat> {
    set m, i | 0 <= m < |levels| && low <= m < high && 0 <= i < |levels[m]|
        && Overlaps(h, levels[m][i]) :: levels[m][i].number
  }

  ghost predicate NoOverlapBusy(levels: Levels, h: Hull, low: int, high: int) {
    forall m, i :: 0 <= m < |levels| && low <= m < high && 0 <= i < |levels[m]| && Overlaps(h, levels[m][i]) ==>
      !levels[m][i].beingCompacted
  }

  /** Chooses the overlapping files of one level. */
  method IncludeOverlapsOfLevel(levels: Levels, s: set<nat>, h: Hull, m: int)
    returns (ok: bool, s': set<nat>, busy: int)
    requires 0 <= m < |levels|
    ensures ok ==> s' == s + OverlapNumbers(levels, h, m, m + 1) && NoOverlapBusy(levels, h, m, m + 1)
    ensures !ok ==> 0 <= busy < |levels[m]| && Overlaps(h, levels[m][busy]) && levels[m][busy].beingCompacted
  {
    s', busy := s, 0;
    ghost var added: set<nat> := {};
    for i := 0 to |levels[m]|
      invariant added == set k | 0 <= k < i && Overlaps(h, levels[m][k]) :: levels[m][k].number
      invariant s' == s + added
      invariant forall k :: 0 <= k < i && Overlaps(h, levels[m][k]) ==> !levels[m][k].beingCompacted
    {
      if Overlaps(h, levels[m][i]) {
        if levels[m][i].beingCompacted {
          return false, s', i;
        }
        s' := s' + {levels[m][i].number};
        added := added + {levels[m][i].number};
      }
    }
    ok := true;
    assert added == OverlapNumbers(levels, h, m, m + 1);
  }

  /** Chooses the overlapping files of levels `low` to `output`. */
  method IncludeOverlaps(levels: Levels, s: set<nat>, h: Hull, low: int, output: nat)
    returns (ok: bool, s': set<nat>, busyLevel: int, busy: int)
    requires 0 <= low <= output + 1 && output < |levels|
    ensures ok ==> s' == s + OverlapNumbers(levels, h, low, output + 1) && NoOverlapBusy(levels, h, low, output + 1)
    ensures !ok ==> low <= busyLevel <= output && 0 <= busy < |levels[busyLevel]|
                    && Overlaps(h, levels[busyLevel][busy]) && levels[busyLevel][busy].beingCompacted
  {
    s', ok, busyLevel, busy := s, true, 0, 0;
    var m := low;
    while m <= output
      invariant low <= m <= output + 1
      invariant s' == s + OverlapNumbers(levels, h, low, m)
      invariant NoOverlapBusy(levels, h, low, m)
    {
      var before := s';
      ok, s', busy := IncludeOverlapsOfLevel(levels, s', h, m);
      if !ok {
        busyLevel := m;
        return;
      }
      assert OverlapNumbers(levels, h, low, m + 1)
             == OverlapNumbers(levels, h, low, m) + OverlapNumbers(levels, h, m, m + 1);
      m := m + 1;
    }
  }

  // ---------------------------------------------------------------- one level of the pass

  /** What holds when levels before `l` are done: the set is forced and closed so far, the
      hull is exact, and what overlaps it further down is chosen. */
  ghost predicate PassInv(levels: Levels, output: nat, request: set<nat>, s: set<nat>, l: int, h: Hull) {
    && request <= s && Forced(levels, output, request, s)
    && IsHull(levels, s, l, h)
    && NoneBusy(levels, s, l)
    && (l > 0 ==> Contiguous(levels, s))
    && (forall m :: 1 <= m < l ==> ClosedAt(levels, s, m))
    && (forall m, i :: l <= m && 1 <= m <= output && m < |levels| && 0 <= i < |levels[m]|
                       && Overlaps(h, levels[m][i]) ==>
          Chosen(levels, s, m, i))
  }

  lemma PassFacts(levels: Levels, output: nat, request: set<nat>, s: set<nat>, l: int, h: Hull)
    requires PassInv(levels, output, request, s, l, h)
    ensures Forced(levels, output, request, s) && (h.Hull? ==> h.lo <= h.hi)
  {
  }

  /** Adding numbers of files from level `l` on leaves the levels before alone. */
  ghost predicate SameBefore(levels: Levels, s: set<nat>, s': set<nat>, l: int) {
    forall k, i :: k < l ==> (Chosen(levels, s', k, i) <==> Chosen(levels, s, k, i))
  }

  lemma ClosedAtFrame(levels: Levels, s: set<nat>, s': set<nat>, l: int, m: int)
    requires SameBefore(levels, s, s', l) && ClosedAt(levels, s, m) && m < l
    ensures ClosedAt(levels, s', m)
  {
    forall i | 0 <= m < |levels| && 0 <= i < |levels[m]| && InHull(levels, s', m, levels[m][i])
      ensures Chosen(levels, s', m, i)
    {
      assert InHull(levels, s, m, levels[m][i]);
      assert Chosen(levels, s, m, i);
    }
  }

  /** A level without any chosen file needs no work. */
  lemma EmptyLevel(levels: Levels, output: nat, request: set<nat>, s: set<nat>, l: int, h: Hull)
    requires LevelsOk(levels) && 0 <= l <= output < |levels| && PassInv(levels, output, request, s, l, h)
    requires forall i :: 0 <= i < |levels[l]| ==> levels[l][i].number !in s
    ensures PassInv(levels, output, request, s, l + 1, h)
  {
    assert forall i :: !Chosen(levels, s, l, i);
    assert IsHull(levels, s, l + 1, h);
    if l >= 1 {
      forall i | 0 <= i < |levels[l]| && InHull(levels, s, l, levels[l][i])
        ensures Chosen(levels, s, l, i)
      {
        InHullIffOverlaps(levels, s, l, h, levels[l][i]);
      }
    }
  }

  /** `h'` is the hull of `h` and a run of files. */
  ghost predicate Extends(h: Hull, files: seq<SstFile>, first: int, last: int, h': Hull)
    requires 0 <= first <= last < |files|
  {
    && h'.Hull? && h'.lo <= h'.hi
    && (h.Hull? ==> h'.lo <= h.lo && h.hi <= h'.hi)
    && (forall i :: first <= i <= last ==> Within(h', files[i]))
    && ((h.Hull? && h.lo == h'.lo) || exists i :: first <= i <= last && files[i].smallest == h'.lo)
    && ((h.Hull? && h.hi == h'.hi) || exists i :: first <= i <= last && files[i].largest == h'.hi)
  }

  /** The new hull: over all files of the run in level 0, from its two ends otherwise. */
  method UpdateHull(levels: Levels, l: int, h: Hull, first: int, last: int) returns (h': Hull)
    requires LevelsOk(levels) && 0 <= l < |levels| && 0 <= first <= last < |levels[l]|
    requires h.Hull? ==> h.lo <= h.hi
    ensures Extends(h, levels[l], first, last, h')
    ensures l > 0 ==> h'.lo == if h.Hull? && h.lo <= levels[l][first].smallest then h.lo else levels[l][first].smallest
    ensures l > 0 ==> h'.hi == if h.Hull? && h.hi >= levels[l][last].largest then h.hi else levels[l][last].largest
  {
    var files := levels[l];
    if l == 0 {
      h' := if h.Hull? then h else Hull(files[first].smallest, files[first].largest);
      for f := first to last + 1
        invariant h'.Hull? && h'.lo <= h'.hi
        invariant h.Hull? ==> h'.lo <= h.lo && h.hi <= h'.hi
        invariant forall i :: first <= i < f ==> Within(h', files[i])
        invariant (h.Hull? && h.lo == h'.lo) || exists i :: first <= i <= last && files[i].smallest == h'.lo
        invariant (h.Hull? && h.hi == h'.hi) || exists i :: first <= i <= last && files[i].largest == h'.hi
      {
        if h'.lo > files[f].smallest {
          h' := h'.(lo := files[f].smallest);
        }
        if h'.hi < files[f].largest {
          h' := h'.(hi := files[f].largest);
        }
      }
    } else {
      var lo := if h.Hull? && h.lo <= files[first].smallest then h.lo else files[first].smallest;
      var hi := if h.Hull? && h.hi >= files[last].largest then h.hi else files[last].largest;
      h' := Hull(lo, hi);
      assert files[first].smallest <= files[last].largest;
    }
  }

  lemma AddingLater(levels: Levels, s: set<nat>, s': set<nat>, l: int)
    requires LevelsOk(levels) && s <= s'
    requires forall n :: n in s' ==>
             n in s || exists m, i :: l <= m < |levels| && 0 <= m && 0 <= i < |levels[m]| && levels[m][i].number == n
    ensures SameBefore(levels, s, s', l)
  {
  }

  /** Once the run is chosen, the hull is exact up to and including its level. */
  lemma RunHull(levels: Levels, s: set<nat>, s1: set<nat>, l: int, h: Hull, first: int, last: int, h': Hull)
    requires LevelsOk(levels) && 0 <= l < |levels| && 0 <= first <= last < |levels[l]|
    requires IsHull(levels, s, l, h) && Extends(h, levels[l], first, last, h')
    requires forall i :: Chosen(levels, s, l, i) ==> first <= i <= last
    requires s1 == s + RunNumbers(levels[l], first, last)
    ensures SameBefore(levels, s, s1, l)
    ensures forall i :: Chosen(levels, s1, l, i) <==> first <= i <= last
    ensures IsHull(levels, s1, l + 1, h')
  {
    AddingLater(levels, s, s1, l);
    forall i
      ensures Chosen(levels, s1, l, i) <==> first <= i <= last
    {
      if first <= i <= last {
        assert levels[l][i].number in RunNumbers(levels[l], first, last);
      }
      if Chosen(levels, s1, l, i) && !Chosen(levels, s, l, i) {
        var k :| 0 <= k < |levels[l]| && first <= k <= last && levels[l][k].number == levels[l][i].number;
      }
    }
    forall k, i | k < l + 1 && Chosen(levels, s1, k, i)
      ensures Within(h', levels[k][i])
    {
      if k < l {
        assert Chosen(levels, s, k, i);
      }
    }
    if h.Hull? && h.lo == h'.lo {
      var k, i :| k < l && Chosen(levels, s, k, i) && levels[k][i].smallest == h.lo;
      assert Chosen(levels, s1, k, i);
    } else {
      var i :| first <= i <= last && levels[l][i].smallest == h'.lo;
      assert Chosen(levels, s1, l, i);
    }
    if h.Hull? && h.hi == h'.hi {
      var k, i :| k < l && Chosen(levels, s, k, i) && levels[k][i].largest == h.hi;
      assert Chosen(levels, s1, k, i);
    } else {
      var i :| first <= i <= last && levels[l][i].largest == h'.hi;
      assert Chosen(levels, s1, l, i);
    }
  }

  /** A file of the level itself that overlaps the new hull lies inside it: it is in the
      run, or in the gap between the run and the old hull. */
  lemma GapInside(levels: Levels, s: set<nat>, l: int, h: Hull, first: int, last: int, h': Hull, i: int)
    requires LevelsOk(levels) && 1 <= l < |levels| && 0 <= first <= last < |levels[l]| && 0 <= i < |levels[l]|
    requires h.Hull? ==> h.lo <= h.hi
    requires Extends(h, levels[l], first, last, h')
    requires h'.lo == if h.Hull? && h.lo <= levels[l][first].smallest then h.lo else levels[l][first].smallest
    requires h'.hi == if h.Hull? && h.hi >= levels[l][last].largest then h.hi else levels[l][last].largest
    requires first > 0 ==> levels[l][first - 1].largest < levels[l][first].smallest
    requires last < |levels[l]| - 1 ==> levels[l][last + 1].smallest > levels[l][last].largest
    requires Overlaps(h, levels[l][i]) ==> first <= i <= last
    requires Overlaps(h', levels[l][i])
    ensures Within(h', levels[l][i])
  {
    var f := levels[l][i];
    OverlapIsSymmetric(h'.lo, h'.hi, f.smallest, f.largest);
    if h.Hull? {
      OverlapIsSymmetric(h.lo, h.hi, f.smallest, f.largest);
    }
    assert i > last + 1 ==> levels[l][last + 1].largest <= f.smallest;
    assert i < first - 1 ==> f.largest <= levels[l][first - 1].smallest;
  }

  /** What is chosen in level `l` after the overlapping files were added. */
  lemma ChosenAfterOverlaps(levels: Levels, s1: set<nat>, s2: set<nat>, l: int, low: int, output: nat, h: Hull, i: int)
    requires LevelsOk(levels) && 0 <= l <= output < |levels| && s2 == s1 + OverlapNumbers(levels, h, low, output + 1)
    ensures Chosen(levels, s2, l, i)
            <==> Chosen(levels, s1, l, i) || (low <= l && 0 <= i < |levels[l]| && Overlaps(h, levels[l][i]))
  {
    if Chosen(levels, s2, l, i) && !Chosen(levels, s1, l, i) {
      var m, k :| 0 <= m < |levels| && low <= m < output + 1 && 0 <= k < |levels[m]| && Overlaps(h, levels[m][k])
        && levels[m][k].number == levels[l][i].number;
    }
    if low <= l && 0 <= i < |levels[l]| && Overlaps(h, levels[l][i]) {
      assert levels[l][i].number in OverlapNumbers(levels, h, low, output + 1);
    }
  }

  /** The hull stays exact when the overlapping files are added. */
  lemma OverlapsKeepHull(levels: Levels, s1: set<nat>, s2: set<nat>, l: int, output: nat, h: Hull)
    requires LevelsOk(levels) && 0 <= l <= output < |levels|
    requires s2 == s1 + OverlapNumbers(levels, h, Max1(l), output + 1)
    requires IsHull(levels, s1, l + 1, h)
    requires l >= 1 ==> forall i :: 0 <= i < |levels[l]| && Overlaps(h, levels[l][i]) ==> Within(h, levels[l][i])
    ensures SameBefore(levels, s1, s2, l)
    ensures l == 0 ==> SameBefore(levels, s1, s2, 1)
    ensures IsHull(levels, s2, l + 1, h)
  {
    AddingLater(levels, s1, s2, Max1(l));
    forall k, i | k < l + 1 && Chosen(levels, s2, k, i)
      ensures Within(h, levels[k][i])
    {
      ChosenAfterOverlaps(levels, s1, s2, k, Max1(l), output, h, i);
    }
    if h.Hull? {
      var a, b :| a < l + 1 && Chosen(levels, s1, a, b) && levels[a][b].smallest == h.lo;
      assert Chosen(levels, s2, a, b);
      var c, d :| c < l + 1 && Chosen(levels, s1, c, d) && levels[c][d].largest == h.hi;
      assert Chosen(levels, s2, c, d);
    }
  }

  function Max1(l: int): int {
    if l >= 1 then l else 1
  }

  /** The level's work establishes the invariant for the next level. */
  lemma LevelDone(levels: Levels, output: nat, request: set<nat>, s: set<nat>, s1: set<nat>, s2: set<nat>, l: int,
                  h: Hull, first: int, last: int, h': Hull)
    requires LevelsOk(levels) && 0 <= l <= output < |levels|
    requires PassInv(levels, output, request, s, l, h)
    requires RunChosen(levels, output, request, s, s1, l, first, last, h')
    requires s2 == s1 + OverlapNumbers(levels, h', Max1(l), output + 1)
             && NoOverlapBusy(levels, h', Max1(l), output + 1)
    ensures PassInv(levels, output, request, s2, l + 1, h')
  {
    OverlapsKeepForced(levels, output, request, s1, l, h');
    OverlapsKeepHull(levels, s1, s2, l, output, h');
    assert SameBefore(levels, s, s2, l);
    forall k, i | k < l + 1 && Chosen(levels, s2, k, i)
      ensures !levels[k][i].beingCompacted
    {
      if k < l {
        assert Chosen(levels, s, k, i);
      } else {
        ChosenAfterOverlaps(levels, s1, s2, l, Max1(l), output, h', i);
      }
    }
    LevelDoneClosed(levels, output, request, s, s1, s2, l, h, first, last, h');
    forall m, i | l + 1 <= m <= output && 0 <= i < |levels[m]| && Overlaps(h', levels[m][i])
      ensures Chosen(levels, s2, m, i)
    {
      ChosenAfterOverlaps(levels, s1, s2, m, Max1(l), output, h', i);
    }
  }

  lemma LevelDoneClosed(levels: Levels, output: nat, request: set<nat>, s: set<nat>, s1: set<nat>, s2: set<nat>, l: int,
                        h: Hull, first: int, last: int, h': Hull)
    requires LevelsOk(levels) && 0 <= l <= output < |levels| && 0 <= first <= last < |levels[l]|
    requires PassInv(levels, output, request, s, l, h)
    requires SameBefore(levels, s, s2, l) && (forall i :: Chosen(levels, s1, l, i) <==> first <= i <= last)
    requires l == 0 ==> SameBefore(levels, s1, s2, 1)
    requires IsHull(levels, s2, l + 1, h') && s2 == s1 + OverlapNumbers(levels, h', Max1(l), output + 1)
    ensures Contiguous(levels, s2)
    ensures forall m :: 1 <= m < l + 1 ==> ClosedAt(levels, s2, m)
  {
    if l == 0 {
      assert forall i :: Chosen(levels, s2, 0, i) <==> first <= i <= last;
    } else {
      assert forall i :: Chosen(levels, s2, 0, i) <==> Chosen(levels, s, 0, i);
    }
    forall m | 1 <= m < l + 1
      ensures ClosedAt(levels, s2, m)
    {
      if m < l {
        ClosedAtFrame(levels, s, s2, l, m);
      } else {
        forall i | 0 <= i < |levels[l]| && InHull(levels, s2, l, levels[l][i])
          ensures Chosen(levels, s2, l, i)
        {
          InHullIffOverlaps(levels, s2, l, h', levels[l][i]);
          ChosenAfterOverlaps(levels, s1, s2, l, Max1(l), output, h', i);
        }
      }
    }
  }

  // ---------------------------------------------------------------- the pass

  /** All files of the widened run are forced. */
  lemma WidenedForced(levels: Levels, output: nat, request: set<nat>, s: set<nat>, l: int, first: int, last: int,
                      first': int, last': int)
    requires LevelsOk(levels) && 0 <= l <= output < |levels| && Forced(levels, output, request, s)
    requires 0 <= first' <= first <= last <= last' < |levels[l]|
    requires levels[l][first].number in s && levels[l][last].number in s
    requires l == 0 ==> first' == first && last' == last
    requires Touching(levels[l], first', first) && Touching(levels[l], last, last')
    ensures forall i :: first' <= i <= last' ==> ForcedFile(levels, output, request, levels[l][i])
  {
    assert ForcedFile(levels, output, request, levels[l][first])
           && ForcedFile(levels, output, request, levels[l][last]);
    if l > 0 {
      LeftForced(levels, output, request, l, first, first');
      RightForced(levels, output, request, l, last, last');
    }
    forall i | first' <= i <= last'
      ensures ForcedFile(levels, output, request, levels[l][i])
    {
      RunForced(levels, output, request, s, l, first', last', i);
    }
  }

  lemma RunKeepsForced(levels: Levels, output: nat, request: set<nat>, s: set<nat>, l: int, first: int, last: int)
    requires 0 <= l < |levels| && Forced(levels, output, request, s) && 0 <= first <= last < |levels[l]|
    requires forall i :: first <= i <= last ==> ForcedFile(levels, output, request, levels[l][i])
    ensures Forced(levels, output, request, s + RunNumbers(levels[l], first, last))
  {
    forall t: set<nat> | request <= t && Closed(levels, output, t)
      ensures s + RunNumbers(levels[l], first, last) <= t
    {
      assert s <= t;
    }
  }

  lemma OverlapsKeepForced(levels: Levels, output: nat, request: set<nat>, s: set<nat>, l: int, h: Hull)
    requires LevelsOk(levels) && 0 <= l <= output < |levels|
    requires Forced(levels, output, request, s) && IsHull(levels, s, l + 1, h)
    ensures Forced(levels, output, request, s + OverlapNumbers(levels, h, Max1(l), output + 1))
  {
    forall t: set<nat> | request <= t && Closed(levels, output, t)
      ensures s + OverlapNumbers(levels, h, Max1(l), output + 1) <= t
    {
      assert s <= t;
      forall n | n in OverlapNumbers(levels, h, Max1(l), output + 1)
        ensures n in t
      {
        var m, i :| 0 <= m < |levels| && Max1(l) <= m < output + 1 && 0 <= i < |levels[m]| && Overlaps(h, levels[m][i])
          && levels[m][i].number == n;
        OverlapForced(levels, output, request, s, l + 1, h, m, i);
      }
    }
  }

  /** The run of level `l` is chosen and `h'` is the hull with it. */
  ghost predicate RunChosen(levels: Levels, output: nat, request: set<nat>, s: set<nat>, s1: set<nat>, l: int,
                            first: int, last: int, h': Hull) {
    && 0 <= l < |levels| && 0 <= first <= last < |levels[l]|
    && s <= s1 && SameBefore(levels, s, s1, l) && (forall i :: Chosen(levels, s1, l, i) <==> first <= i <= last)
    && Forced(levels, output, request, s1)
    && IsHull(levels, s1, l + 1, h')
    && (forall i :: first <= i <= last ==> !levels[l][i].beingCompacted)
    && (l >= 1 ==> forall i :: 0 <= i < |levels[l]| && Overlaps(h', levels[l][i]) ==> Within(h', levels[l][i]))
  }

  lemma RunChosenHolds(levels: Levels, output: nat, request: set<nat>, s: set<nat>, s1: set<nat>, l: int, h: Hull,
                       first: int, last: int, h': Hull)
    requires LevelsOk(levels) && 0 <= l <= output < |levels| && 0 <= first <= last < |levels[l]|
    requires PassInv(levels, output, request, s, l, h)
    requires forall i :: Chosen(levels, s, l, i) ==> first <= i <= last
    requires forall i :: first <= i <= last ==>
             ForcedFile(levels, output, request, levels[l][i]) && !levels[l][i].beingCompacted
    requires s1 == s + RunNumbers(levels[l], first, last)
    requires Extends(h, levels[l], first, last, h')
    requires l > 0 ==> h'.lo == if h.Hull? && h.lo <= levels[l][first].smallest then h.lo else levels[l][first].smallest
    requires l > 0 ==> h'.hi == if h.Hull? && h.hi >= levels[l][last].largest then h.hi else levels[l][last].largest
    requires l > 0 && first > 0 ==> levels[l][first - 1].largest < levels[l][first].smallest
    requires l > 0 && last < |levels[l]| - 1 ==> levels[l][last + 1].smallest > levels[l][last].largest
    ensures RunChosen(levels, output, request, s, s1, l, first, last, h')
  {
    RunKeepsForced(levels, output, request, s, l, first, last);
    RunHull(levels, s, s1, l, h, first, last, h');
    if l >= 1 {
      forall i | 0 <= i < |levels[l]| && Overlaps(h', levels[l][i])
        ensures Within(h', levels[l][i])
      {
        assert Overlaps(h, levels[l][i]) ==> Chosen(levels, s, l, i);
        GapInside(levels, s, l, h, first, last, h', i);
      }
    }
  }

  /** Chooses the run of one level that has chosen files, and updates the hull. */
  method ChooseRun(levels: Levels, output: nat, ghost request: set<nat>, s: set<nat>, l: int, h: Hull, first0: int,
                   last0: int)
    returns (ok: bool, s1: set<nat>, h': Hull, ghost first: int, ghost last: int)
    requires LevelsOk(levels) && 0 <= l <= output < |levels| && PassInv(levels, output, request, s, l, h)
    requires 0 <= first0 <= last0 < |levels[l]| && levels[l][first0].number in s && levels[l][last0].number in s
    requires forall i :: Chosen(levels, s, l, i) ==> first0 <= i <= last0
    ensures ok ==> RunChosen(levels, output, request, s, s1, l, first, last, h')
    ensures !ok ==> Blocked(levels, output, request)
  {
    PassFacts(levels, output, request, s, l, h);
    hide PassInv, Forced, IsHull, SameBefore, RunChosen, Extends, Closed, RunNumbers, LevelsOk, ForcedFile, Chosen,
         Blocked, Touching;
    AloneTouching(levels[l], first0);
    AloneTouching(levels[l], last0);
    var low, high := first0, last0;
    if l != 0 {
      low, high := Widen(levels[l], first0, last0);
    }
    first, last := low, high;
    WidenedForced(levels, output, request, s, l, first0, last0, low, high);
    ok, s1 := IncludeRun(levels[l], s, low, high);
    h' := UpdateHull(levels, l, h, low, high);
    if ok {
      RunChosenHolds(levels, output, request, s, s1, l, h, low, high, h');
    } else {
      BlockedByRun(levels, output, request, l, low, high);
    }
  }

  lemma BlockedByRun(levels: Levels, output: nat, request: set<nat>, l: int, first: int, last: int)
    requires 0 <= l <= output < |levels| && 0 <= first <= last < |levels[l]|
    requires forall i :: first <= i <= last ==> ForcedFile(levels, output, request, levels[l][i])
    requires exists i :: first <= i <= last && levels[l][i].beingCompacted
    ensures Blocked(levels, output, request)
  {
    hide ForcedFile;
  }

  /** One round of the loop over the levels. */
  method PassLevel(levels: Levels, output: nat, ghost request: set<nat>, s: set<nat>, l: int, h: Hull)
    returns (ok: bool, s2: set<nat>, h': Hull)
    requires LevelsOk(levels) && 0 <= l <= output < |levels| && PassInv(levels, output, request, s, l, h)
    ensures ok ==> PassInv(levels, output, request, s2, l + 1, h')
    ensures !ok ==> Blocked(levels, output, request)
  {
    hide PassInv, Forced, IsHull, SameBefore, RunChosen, Closed, NoOverlapBusy, OverlapNumbers;
    var first0, last0 := FindChosen(levels[l], s);
    if last0 == -1 {
      EmptyLevel(levels, output, request, s, l, h);
      return true, s, h;
    }
    var s1: set<nat>;
    ghost var first, last;
    ok, s1, h', first, last := ChooseRun(levels, output, request, s, l, h, first0, last0);
    if !ok {
      return false, s1, h';
    }
    var busyLevel, busy;
    ok, s2, busyLevel, busy := IncludeOverlaps(levels, s1, h', Max1(l), output);
    if ok {
      LevelDone(levels, output, request, s, s1, s2, l, h, first, last, h');
    } else {
      BusyOverlap(levels, output, request, s, s1, l, first, last, h', busyLevel, busy);
    }
  }

  lemma BusyOverlap(levels: Levels, output: nat, request: set<nat>, s: set<nat>, s1: set<nat>, l: int, first: int,
                    last: int, h': Hull, m: int, i: int)
    requires LevelsOk(levels) && l <= output < |levels| && RunChosen(levels, output, request, s, s1, l, first, last, h')
    requires Max1(l) <= m <= output && 0 <= i < |levels[m]| && Overlaps(h', levels[m][i]) && levels[m][i].beingCompacted
    ensures Blocked(levels, output, request)
  {
    OverlapForced(levels, output, request, s1, l + 1, h', m, i);
  }

  /** Main result: the pass succeeds exactly when no file that must be compacted is being
      compacted already, and then it returns the least closed set containing the request. */
  method SanitizeCompactionInputFilesForAllLevels(levels: Levels, request: set<nat>, output: nat)
    returns (ok: bool, files: set<nat>)
    requires LevelsOk(levels) && output < |levels|
    ensures ok ==> request <= files && Closed(levels, output, files)
    ensures ok ==> Forced(levels, output, request, files)
    ensures ok ==> NoneBusy(levels, files, output + 1)
    ensures ok <==> !Blocked(levels, output, request)
  {
    files := request;
    var h := NoHull;
    var l := 0;
    while l <= output
      invariant 0 <= l <= output + 1
      invariant PassInv(levels, output, request, files, l, h)
    {
      ok, files, h := PassLevel(levels, output, request, files, l, h);
      if !ok {
        return;
      }
      l := l + 1;
    }
    ok := true;
    assert Closed(levels, output, files);
    NotBlocked(levels, output, request, files);
  }

  lemma NotBlocked(levels: Levels, output: nat, request: set<nat>, files: set<nat>)
    requires output < |levels| && request <= files && Closed(levels, output, files)
             && NoneBusy(levels, files, output + 1)
    ensures !Blocked(levels, output, request)
  {
    forall l, i | 0 <= l <= output && 0 <= i < |levels[l]| && levels[l][i].beingCompacted
      ensures !ForcedFile(levels, output, request, levels[l][i])
    {
      assert ForcedFile(levels, output, request, levels[l][i]) ==> Chosen(levels, files, l, i);
    }
  }
}
