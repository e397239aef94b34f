/**
  A compaction job: it picks boundaries that cut the key space into ranges of similar size,
  prepares one subcompaction per range, and runs the compaction iterator over each.
*/
module CompactionJob {
  import opened Basics
  import opened Records
  import opened LevelFiles
  import opened CompactionSpec
  import opened CompactionIterator
  import opened ReadPreservation
  import opened CompactionSegments
  import opened SplitCompaction
  import opened SplitVisibility

  // ---------------------------------------------------------------- candidate boundaries

  datatype InputLevel = InputLevel(level: nat, files: seq<File>)

  /** Both ends of every file. */
  function FileEnds(files: seq<File>): seq<int> {
    if files == [] then []
    else
      var last := files[|files| - 1];
      FileEnds(files[..|files| - 1]) + [last.smallest, last.largest]
  }

  function FileStarts(files: seq<File>): seq<int> {
    seq(|files|, i requires 0 <= i < |files| => files[i].smallest)
  }

  /** The keys one input level contributes: both ends of every file for level 0; both ends
      of the level otherwise, and each further file's start if it is the output level. */
  function LevelBounds(input: InputLevel, output: nat): seq<int> {
    var files := input.files;
    if files == [] then []
    else if input.level == 0 then FileEnds(files)
    else
      [files[0].smallest, files[|files| - 1].largest] + if input.level == output then FileStarts(files[1..]) else []
  }

  function BoundsOf(inputs: seq<InputLevel>, start: nat, output: nat): seq<int> {
    if inputs == [] then []
    else
      var last := inputs[|inputs| - 1];
      BoundsOf(inputs[..|inputs| - 1], start, output)
      + if start <= last.level <= output then LevelBounds(last, output) else []
  }

  /** A level offers a key as a boundary. */
  predicate Offers(input: InputLevel, output: nat, key: int) {
    && input.files != []
    && if input.level == 0 then exists f :: f in input.files && (key == f.smallest || key == f.largest)
       else
         || key == input.files[0].smallest || key == input.files[|input.files| - 1].largest
         || (input.level == output && exists f :: f in input.files && key == f.smallest)
  }

  /** An input level between the start and the output level offers the key. */
  predicate Candidate(inputs: seq<InputLevel>, start: nat, output: nat, key: int) {
    exists input :: input in inputs && start <= input.level <= output && Offers(input, output, key)
  }

  lemma {:induction false} EndsAreEnds(files: seq<File>, key: int)
    ensures key in FileEnds(files) <==> exists f :: f in files && (key == f.smallest || key == f.largest)
  {
    if files != [] {
      var rest, last := files[..|files| - 1], files[|files| - 1];
      assert files == rest + [last];
      EndsAreEnds(rest, key);
    }
  }

  lemma LevelOffers(input: InputLevel, output: nat, key: int)
    ensures key in LevelBounds(input, output) <==> Offers(input, output, key)
  {
    var files := input.files;
    EndsAreEnds(files, key);
    if files != [] {
      assert files == [files[0]] + files[1..];
      StartsAreStarts(files[1..], key);
    }
    hide FileEnds, FileStarts;
  }

  lemma StartsAreStarts(files: seq<File>, key: int)
    ensures key in FileStarts(files) <==> exists f :: f in files && key == f.smallest
  {
    if f :| f in files && key == f.smallest {
      var i :| 0 <= i < |files| && files[i] == f;
      assert FileStarts(files)[i] == key;
    }
  }

  lemma {:induction false} BoundsAreCandidates(inputs: seq<InputLevel>, start: nat, output: nat, key: int)
    ensures key in BoundsOf(inputs, start, output) <==> Candidate(inputs, start, output, key)
  {
    hide LevelBounds, Offers;
    if inputs != [] {
      var rest, last := inputs[..|inputs| - 1], inputs[|inputs| - 1];
      assert inputs == rest + [last];
      BoundsAreCandidates(rest, start, output, key);
      LevelOffers(last, output, key);
    }
  }

  method CollectBounds(inputs: seq<InputLevel>, start: nat, output: nat) returns (bounds: seq<int>)
    ensures bounds == BoundsOf(inputs, start, output)
    ensures forall key :: key in bounds <==> Candidate(inputs, start, output, key)
  {
    forall key
      ensures key in BoundsOf(inputs, start, output) <==> Candidate(inputs, start, output, key)
    {
      BoundsAreCandidates(inputs, start, output, key);
    }
    hide Candidate, LevelBounds;
    bounds := [];
    for i := 0 to |inputs|
      invariant bounds == BoundsOf(inputs[..i], start, output)
    {
      assert inputs[..i + 1][..i] == inputs[..i];
      if start <= inputs[i].level <= output {
        var more := CollectLevel(inputs[i], output);
        bounds := bounds + more;
      }
    }
    assert inputs[..|inputs|] == inputs;
  }

  method CollectLevel(input: InputLevel, output: nat) returns (bounds: seq<int>)
    ensures bounds == LevelBounds(input, output)
  {
    var files := input.files;
    bounds := [];
    if files == [] {
      return;
    }
    if input.level == 0 {
      for i := 0 to |files|
        invariant bounds == FileEnds(files[..i])
      {
        assert files[..i + 1][..i] == files[..i];
        bounds := bounds + [files[i].smallest] + [files[i].largest];
      }
      assert files[..|files|] == files;
    } else {
      bounds := [files[0].smallest, files[|files| - 1].largest];
      if input.level == output {
        for i := 1 to |files|
          invariant bounds == [files[0].smallest, files[|files| - 1].largest] + FileStarts(files[1..i])
        {
          assert FileStarts(files[1..i + 1]) == FileStarts(files[1..i]) + [files[i].smallest];
          bounds := bounds + [files[i].smallest];
        }
        assert files[1..|files|] == files[1..];
      }
    }
  }

  /** Adds a key to an increasing sequence, unless it is there already. */
  function AddBound(key: int, bounds: seq<int>): (r: seq<int>)
    requires Increasing(bounds)
    ensures Increasing(r)
    ensures forall k :: k in r <==> k == key || k in bounds
  {
    if bounds == [] then [key]
    else if key < bounds[0] then [key] + bounds
    else if key == bounds[0] then bounds
    else
      var rest := AddBound(key, bounds[1..]);
      assert bounds == [bounds[0]] + bounds[1..];
      IncreasingCons(bounds[0], rest, bounds[1..], key);
      [bounds[0]] + rest
  }

  lemma IncreasingCons(low: int, rest: seq<int>, tail: seq<int>, key: int)
    requires Increasing(rest) && low < key && forall i :: 0 <= i < |tail| ==> low < tail[i]
    requires forall k :: k in rest ==> k == key || k in tail
    ensures Increasing([low] + rest)
  {
    forall i | 0 <= i < |rest|
      ensures low < rest[i]
    {
      assert rest[i] in rest;
    }
  }

  /** Sorting the candidates and removing duplicates. */
  function SortUnique(keys: seq<int>): (r: seq<int>)
    ensures Increasing(r)
    ensures forall k :: k in r <==> k in keys
  {
    if keys == [] then []
    else
      assert keys == [keys[0]] + keys[1..];
      AddBound(keys[0], SortUnique(keys[1..]))
  }

  // ---------------------------------------------------------------- grouping ranges

  function Sum(sizes: seq<nat>): nat {
    if sizes == [] then 0 else Sum(sizes[..|sizes| - 1]) + sizes[|sizes| - 1]
  }

  lemma {:induction false} SumConcat(a: seq<nat>, b: seq<nat>)
    ensures Sum(a + b) == Sum(a) + Sum(b)
  {
    if b == [] {
      assert a + b == a;
    } else {
      assert (a + b)[..|a + b| - 1] == a + b[..|b| - 1];
      SumConcat(a, b[..|b| - 1]);
    }
  }

  function Mean(total: nat, groups: nat): (mean: real)
    requires groups > 0
    ensures mean * groups as real == total as real
  {
    total as real / groups as real
  }

  /** Group `g` joins the ranges from `cuts[g]` up to `cuts[g + 1]`. */
  ghost predicate GroupsAt(bounds: seq<int>, sizes: seq<nat>, cuts: seq<nat>, boundaries: seq<int>,
                           groupSizes: seq<nat>) {
    && |bounds| == |sizes| + 1 && |cuts| == |boundaries| + 1 && |groupSizes| == |boundaries|
    && cuts[0] == 0
    && (forall g :: 0 <= g < |cuts| ==> cuts[g] <= |sizes|)
    && (forall g, h :: 0 <= g < h < |cuts| ==> cuts[g] < cuts[h])
    && (forall g :: 0 <= g < |boundaries| ==> boundaries[g] == bounds[cuts[g + 1]])
    && (forall g :: 0 <= g < |boundaries| ==> groupSizes[g] == Sum(sizes[cuts[g]..cuts[g + 1]]))
  }

  /** A group opened at range `a` reaches the mean with range `b - 1`, and not before. */
  ghost predicate ClosesAt(sizes: seq<nat>, a: nat, b: nat, mean: real) {
    && a < b <= |sizes| && Sum(sizes[a..b]) as real >= mean
    && forall m :: a < m < b ==> (Sum(sizes[a..m]) as real) < mean
  }

  lemma ClosesUniquely(sizes: seq<nat>, a: nat, b: nat, b': nat, mean: real)
    requires ClosesAt(sizes, a, b, mean) && ClosesAt(sizes, a, b', mean)
    ensures b == b'
  {
    hide Sum;
  }

  /** A group is closed as soon as it reaches the mean. */
  ghost predicate Greedy(sizes: seq<nat>, cuts: seq<nat>, closed: nat, mean: real) {
    forall g {:trigger cuts[g + 1]} :: 0 <= g < closed && g + 1 < |cuts| ==> ClosesAt(sizes, cuts[g], cuts[g + 1], mean)
  }

  lemma SumSlice(sizes: seq<nat>, a: nat, b: nat)
    requires a <= b < |sizes|
    ensures Sum(sizes[a..b + 1]) == Sum(sizes[a..b]) + sizes[b]
  {
    assert sizes[a..b + 1][..b - a] == sizes[a..b];
  }

  lemma {:induction false} GroupSizesAddUp(bounds: seq<int>, sizes: seq<nat>, cuts: seq<nat>, boundaries: seq<int>,
                                           groupSizes: seq<nat>, n: nat)
    requires GroupsAt(bounds, sizes, cuts, boundaries, groupSizes) && n <= |boundaries|
    ensures Sum(groupSizes[..n]) == Sum(sizes[..cuts[n]])
  {
    if n > 0 {
      GroupSizesAddUp(bounds, sizes, cuts, boundaries, groupSizes, n - 1);
      assert groupSizes[..n][..n - 1] == groupSizes[..n - 1];
      SumConcat(sizes[..cuts[n - 1]], sizes[cuts[n - 1]..cuts[n]]);
      assert sizes[..cuts[n]] == sizes[..cuts[n - 1]] + sizes[cuts[n - 1]..cuts[n]];
    }
  }

  /** A group opened at range `open` has not reached the mean with the ranges before `i`. */
  ghost predicate BelowMean(sizes: seq<nat>, open: nat, i: nat, mean: real) {
    forall m :: open < m <= i && i <= |sizes| ==> (Sum(sizes[open..m]) as real) < mean
  }

  /** A group is closed only before the last range, and the last group is open to the end because no
      more are allowed or because it never reached the mean before the last range. */
  ghost predicate ClosedInTime(sizes: seq<nat>, cuts: seq<nat>, closed: nat, limit: nat, mean: real) {
    && closed < limit && closed < |cuts| && (forall g :: 0 <= g <= closed ==> cuts[g] < |sizes|)
    && (closed + 1 == limit || BelowMean(sizes, cuts[closed], |sizes| - 1, mean))
  }

  /** The division of ranges into groups: one group if no more are allowed; otherwise each group but
      the last ends at the first range with which it reaches the mean. */
  ghost predicate Grouped(bounds: seq<int>, sizes: seq<nat>, limit: nat, cuts: seq<nat>, boundaries: seq<int>,
                          groupSizes: seq<nat>) {
    && |groupSizes| == |boundaries| + 1 && GroupsAt(bounds, sizes, cuts, boundaries, groupSizes[..|boundaries|])
    && groupSizes[|boundaries|] == Sum(sizes[cuts[|boundaries|]..])
    && if limit <= 1 then boundaries == []
       else
         && Greedy(sizes, cuts, |boundaries|, Mean(Sum(sizes), limit))
         && ClosedInTime(sizes, cuts, |boundaries|, limit, Mean(Sum(sizes), limit))
  }

  lemma {:induction false} SameCuts(sizes: seq<nat>, mean: real, cuts: seq<nat>, n: nat, cuts': seq<nat>, n': nat,
                                    g: nat)
    requires n < |cuts| && n' < |cuts'| && g <= n && g <= n' && cuts[0] == cuts'[0]
    requires Greedy(sizes, cuts, n, mean) && Greedy(sizes, cuts', n', mean)
    ensures cuts[g] == cuts'[g]
  {
    hide ClosesAt;
    if g > 0 {
      var h := g - 1;
      SameCuts(sizes, mean, cuts, n, cuts', n', h);
      assert ClosesAt(sizes, cuts[h], cuts[h + 1], mean) && ClosesAt(sizes, cuts'[h], cuts'[h + 1], mean);
      ClosesUniquely(sizes, cuts[h], cuts[h + 1], cuts'[h + 1], mean);
    }
  }

  lemma NotClosed(sizes: seq<nat>, a: nat, b: nat, mean: real)
    requires b < |sizes| && BelowMean(sizes, a, |sizes| - 1, mean)
    ensures !ClosesAt(sizes, a, b, mean)
  {
    hide Sum;
  }

  /** No more groups are closed in one division than in another. */
  lemma NoFewerGroups(sizes: seq<nat>, limit: nat, mean: real, cuts: seq<nat>, n: nat, cuts': seq<nat>, n': nat)
    requires n < |cuts| && n' < |cuts'| && cuts[0] == cuts'[0]
    requires Greedy(sizes, cuts, n, mean) && Greedy(sizes, cuts', n', mean)
    requires ClosedInTime(sizes, cuts, n, limit, mean) && ClosedInTime(sizes, cuts', n', limit, mean)
    ensures n >= n'
  {
    hide ClosesAt, BelowMean;
    if n < n' {
      SameCuts(sizes, mean, cuts, n, cuts', n', n);
      NotClosed(sizes, cuts[n], cuts'[n + 1], mean);
    }
  }

  lemma SameGroups(bounds: seq<int>, sizes: seq<nat>, cuts: seq<nat>, boundaries: seq<int>,
                   groupSizes: seq<nat>, boundaries': seq<int>, groupSizes': seq<nat>)
    requires GroupsAt(bounds, sizes, cuts, boundaries, groupSizes)
    requires GroupsAt(bounds, sizes, cuts, boundaries', groupSizes')
    ensures boundaries == boundaries' && groupSizes == groupSizes'
  {
    forall g | 0 <= g < |groupSizes|
      ensures groupSizes[g] == groupSizes'[g] && boundaries[g] == boundaries'[g]
    {
      assert groupSizes[g] == Sum(sizes[cuts[g]..cuts[g + 1]]);
      assert groupSizes'[g] == Sum(sizes[cuts[g]..cuts[g + 1]]);
    }
  }

  /** The ranges and the limit determine the division. */
  lemma GroupedUnique(bounds: seq<int>, sizes: seq<nat>, limit: nat, cuts: seq<nat>, boundaries: seq<int>,
                      groupSizes: seq<nat>, cuts': seq<nat>, boundaries': seq<int>, groupSizes': seq<nat>)
    requires Grouped(bounds, sizes, limit, cuts, boundaries, groupSizes)
    requires Grouped(bounds, sizes, limit, cuts', boundaries', groupSizes')
    ensures boundaries == boundaries' && groupSizes == groupSizes'
  {
    var n, n' := |boundaries|, |boundaries'|;
    CutsStart(bounds, sizes, cuts, boundaries, groupSizes[..n]);
    CutsStart(bounds, sizes, cuts', boundaries', groupSizes'[..n']);
    hide Sum, GroupsAt, Greedy, ClosedInTime, Mean;
    if limit > 1 {
      var mean := Mean(Sum(sizes), limit);
      NoFewerGroups(sizes, limit, mean, cuts, n, cuts', n');
      NoFewerGroups(sizes, limit, mean, cuts', n', cuts, n);
      forall g: nat | g <= n
        ensures cuts[g] == cuts'[g]
      {
        SameCuts(sizes, mean, cuts, n, cuts', n', g);
      }
    }
    assert cuts == cuts';
    SameGroups(bounds, sizes, cuts, boundaries, groupSizes[..n], boundaries', groupSizes'[..n]);
    assert groupSizes == groupSizes[..n] + [groupSizes[n]] && groupSizes' == groupSizes'[..n] + [groupSizes'[n]];
  }

  lemma CutsStart(bounds: seq<int>, sizes: seq<nat>, cuts: seq<nat>, boundaries: seq<int>, groupSizes: seq<nat>)
    requires GroupsAt(bounds, sizes, cuts, boundaries, groupSizes)
    ensures |cuts| == |boundaries| + 1 && cuts[0] == 0
  {
  }

  lemma CloseGroup(bounds: seq<int>, sizes: seq<nat>, cuts: seq<nat>, boundaries: seq<int>, groupSizes: seq<nat>,
                   i: nat, mean: real)
    requires GroupsAt(bounds, sizes, cuts, boundaries, groupSizes) && Greedy(sizes, cuts, |boundaries|, mean)
    requires |cuts| == |boundaries| + 1 && cuts[|boundaries|] <= i < |sizes| && |bounds| == |sizes| + 1
    requires Sum(sizes[cuts[|boundaries|]..i + 1]) as real >= mean
    requires BelowMean(sizes, cuts[|boundaries|], i, mean)
    ensures GroupsAt(bounds, sizes, cuts + [i + 1], boundaries + [bounds[i + 1]], groupSizes
            + [Sum(sizes[cuts[|boundaries|]..i + 1])])
    ensures Greedy(sizes, cuts + [i + 1], |boundaries| + 1, mean)
  {
    hide Sum;
    var n := |boundaries|;
    var cuts' := cuts + [i + 1];
    assert forall g :: 0 <= g <= n ==> cuts'[g] == cuts[g];
    assert cuts'[n + 1] == i + 1;
    forall g | 0 <= g < n + 1
      ensures ClosesAt(sizes, cuts'[g], cuts'[g + 1], mean)
    {
      if g < n {
        assert cuts[g + 1] == cuts'[g + 1];
      }
    }
  }

  /** Groups consecutive ranges greedily into at most `limit` groups. */
  method GroupRanges(bounds: seq<int>, sizes: seq<nat>, limit: nat)
    returns (boundaries: seq<int>, groupSizes: seq<nat>, ghost cuts: seq<nat>)
    requires Increasing(bounds) && |bounds| == |sizes| + 1
    requires limit > 1 ==> |sizes| > 0
    ensures Increasing(boundaries) && |groupSizes| == |boundaries| + 1
    ensures forall g :: 0 <= g < |boundaries| ==> boundaries[g] in bounds[1..]
    ensures |groupSizes| <= if limit > 1 then limit else 1
    ensures Sum(groupSizes) == Sum(sizes)
    ensures GroupsAt(bounds, sizes, cuts, boundaries, groupSizes[..|boundaries|])
    ensures Grouped(bounds, sizes, limit, cuts, boundaries, groupSizes)
  {
    var total := Total(sizes);
    if limit <= 1 {
      boundaries, groupSizes, cuts := [], [total], [0];
      assert sizes[0..] == sizes && groupSizes[..0] == [];
      return;
    }
    var last: nat;
    boundaries, groupSizes, last, cuts := CloseGroups(bounds, sizes, limit, Mean(total, limit));
    LastGroup(bounds, sizes, cuts, boundaries, groupSizes);
    BoundariesIncrease(bounds, sizes, cuts, boundaries, groupSizes);
    ghost var closed := groupSizes;
    groupSizes := groupSizes + [last];
    assert groupSizes[..|boundaries|] == closed;
  }

  lemma EmptyGroup(sizes: seq<nat>, open: nat, mean: real)
    requires open <= |sizes|
    ensures BelowMean(sizes, open, open, mean) && Sum(sizes[open..open]) == 0
  {
    assert sizes[open..open] == [];
  }

  lemma NoGroups(bounds: seq<int>, sizes: seq<nat>, mean: real)
    requires |bounds| == |sizes| + 1
    ensures GroupsAt(bounds, sizes, [0], [], []) && Greedy(sizes, [0], 0, mean)
    ensures BelowMean(sizes, 0, 0, mean) && Sum(sizes[0..0]) == 0
  {
    EmptyGroup(sizes, 0, mean);
  }

  /** The loop that closes groups; `last` is the size of the group left open at the end. */
  method CloseGroups(bounds: seq<int>, sizes: seq<nat>, limit: nat, mean: real)
    returns (boundaries: seq<int>, groupSizes: seq<nat>, last: nat, ghost cuts: seq<nat>)
    requires |bounds| == |sizes| + 1 && limit > 1 && |sizes| > 0
    ensures GroupsAt(bounds, sizes, cuts, boundaries, groupSizes) && |boundaries| < limit
    ensures |cuts| == |boundaries| + 1 && cuts[|boundaries|] <= |sizes|
    ensures Greedy(sizes, cuts, |boundaries|, mean)
    ensures last == Sum(sizes[cuts[|boundaries|]..]) && ClosedInTime(sizes, cuts, |boundaries|, limit, mean)
  {
    hide GroupsAt, Greedy, Sum, BelowMean;
    boundaries, groupSizes, cuts := [], [], [0];
    ghost var open := 0;
    var left := limit;
    var sum := 0;
    NoGroups(bounds, sizes, mean);
    for i := 0 to |sizes| - 1
      invariant GroupsAt(bounds, sizes, cuts, boundaries, groupSizes)
      invariant |cuts| == |boundaries| + 1 && open == cuts[|boundaries|] <= i
      invariant forall g :: 0 <= g <= |boundaries| ==> cuts[g] < |sizes|
      invariant 1 <= left && left + |boundaries| == limit
      invariant sum == Sum(sizes[open..i])
      invariant Greedy(sizes, cuts, |boundaries|, mean)
      invariant left > 1 ==> BelowMean(sizes, open, i, mean)
    {
      SumSlice(sizes, open, i);
      sum := sum + sizes[i];
      if left == 1 {
        continue;
      }
      if sum as real >= mean {
        CloseGroup(bounds, sizes, cuts, boundaries, groupSizes, i, mean);
        boundaries := boundaries + [bounds[i + 1]];
        groupSizes := groupSizes + [sum];
        cuts := cuts + [i + 1];
        left := left - 1;
        sum := 0;
        open := i + 1;
        EmptyGroup(sizes, open, mean);
      } else {
        StillBelowMean(sizes, open, i, mean);
      }
    }
    SumSlice(sizes, open, |sizes| - 1);
    last := sum + sizes[|sizes| - 1];
    assert sizes[open..|sizes|] == sizes[open..];
  }

  lemma StillBelowMean(sizes: seq<nat>, open: nat, i: nat, mean: real)
    requires open <= i < |sizes| && BelowMean(sizes, open, i, mean) && (Sum(sizes[open..i + 1]) as real) < mean
    ensures BelowMean(sizes, open, i + 1, mean)
  {
    hide Sum;
  }

  lemma LastGroup(bounds: seq<int>, sizes: seq<nat>, cuts: seq<nat>, boundaries: seq<int>, groupSizes: seq<nat>)
    requires GroupsAt(bounds, sizes, cuts, boundaries, groupSizes)
    ensures Sum(groupSizes + [Sum(sizes[cuts[|boundaries|]..])]) == Sum(sizes)
  {
    var cut := cuts[|boundaries|];
    GroupSizesAddUp(bounds, sizes, cuts, boundaries, groupSizes, |boundaries|);
    assert groupSizes[..|boundaries|] == groupSizes;
    SumConcat(sizes[..cut], sizes[cut..]);
    assert sizes[..cut] + sizes[cut..] == sizes;
    SumConcat(groupSizes, [Sum(sizes[cut..])]);
  }

  lemma BoundariesIncrease(bounds: seq<int>, sizes: seq<nat>, cuts: seq<nat>, boundaries: seq<int>,
                           groupSizes: seq<nat>)
    requires Increasing(bounds) && GroupsAt(bounds, sizes, cuts, boundaries, groupSizes)
    ensures Increasing(boundaries)
    ensures forall g :: 0 <= g < |boundaries| ==> boundaries[g] in bounds[1..]
  {
    forall g | 0 <= g < |boundaries|
      ensures boundaries[g] in bounds[1..]
    {
      assert cuts[0] < cuts[g + 1];
      assert bounds[1..][cuts[g + 1] - 1] == boundaries[g];
    }
  }

  method Total(sizes: seq<nat>) returns (sum: nat)
    ensures sum == Sum(sizes)
  {
    sum := 0;
    for i := 0 to |sizes|
      invariant sum == Sum(sizes[..i])
    {
      assert sizes[..i + 1][..i] == sizes[..i];
      sum := sum + sizes[i];
    }
    assert sizes[..|sizes|] == sizes;
  }

  // ---------------------------------------------------------------- the job

  /** The smallest number of parts of size `b` that hold `a`. */
  function CeilDiv(a: nat, b: nat): (n: nat)
    requires b > 0
    ensures n * b >= a && (n > 0 ==> (n - 1) * b < a)
  {
    var n := (a + b - 1) / b;
    assert n * b <= a + b - 1 < n * b + b;
    n
  }

  function Min3(a: nat, b: nat, c: nat): (m: nat)
    ensures m <= a && m <= b && m <= c && (m == a || m == b || m == c)
  {
    var m := if a <= b then a else b;
    if m <= c then m else c
  }

  /** How many groups to form: the largest number that is not above the number of ranges, the
      allowed one, and the number of output files of four fifths of the target size needed. */
  predicate IsLimit(limit: nat, ranges: nat, maxSubcompactions: nat, total: nat, maxFileSize: nat) {
    && limit <= ranges && limit <= maxSubcompactions && (limit > 0 ==> (limit - 1) * (4 * maxFileSize) < 5 * total)
    && (limit == ranges || limit == maxSubcompactions || limit * (4 * maxFileSize) >= 5 * total)
  }

  lemma SumNext(sizes: seq<nat>, size: nat)
    ensures Sum([]) == 0 && Sum(sizes + [size]) == Sum(sizes) + size
  {
    assert (sizes + [size])[..|sizes|] == sizes;
  }

  /** The sizes of the data between neighbouring bounds. */
  predicate RangesOf(bounds: seq<int>, approximateSize: (int, int) -> nat, ranges: seq<nat>) {
    |bounds| == |ranges| + 1 && forall i :: 0 <= i < |ranges| ==> ranges[i] == approximateSize(bounds[i], bounds[i + 1])
  }

  /** The size of the data between each pair of neighbouring bounds, and the total. */
  method MeasureRanges(bounds: seq<int>, approximateSize: (int, int) -> nat) returns (ranges: seq<nat>, sum: nat)
    requires bounds != []
    ensures RangesOf(bounds, approximateSize, ranges) && sum == Sum(ranges)
  {
    hide Sum;
    ranges, sum := [], 0;
    SumNext([], 0);
    for i := 0 to |bounds| - 1
      invariant |ranges| == i && RangesOf(bounds[..i + 1], approximateSize, ranges) && sum == Sum(ranges)
    {
      var size := approximateSize(bounds[i], bounds[i + 1]);
      SumNext(ranges, size);
      ranges := ranges + [size];
      sum := sum + size;
    }
  }

  /** The files a compaction reads, and how far it may be split. */
  datatype Plan = Plan(inputs: seq<InputLevel>, start: nat, output: nat, split: bool, maxSubcompactions: nat,
                       maxFileSize: nat)

  predicate PlanOk(plan: Plan) {
    plan.split ==> BoundsOf(plan.inputs, plan.start, plan.output) != [] && plan.maxFileSize > 0
  }

  /** The candidates in order, the sizes between them, the number of groups allowed, and where the
      groups start. */
  datatype Division = Division(bounds: seq<int>, ranges: seq<nat>, limit: nat, cuts: seq<nat>)

  /** This is how the plan is divided. */
  ghost predicate Divides(plan: Plan, approximateSize: (int, int) -> nat, d: Division, boundaries: seq<int>,
                          sizes: seq<nat>) {
    && Increasing(d.bounds)
    && (forall key :: key in d.bounds <==> Candidate(plan.inputs, plan.start, plan.output, key))
    && RangesOf(d.bounds, approximateSize, d.ranges)
    && IsLimit(d.limit, |d.ranges|, plan.maxSubcompactions, Sum(d.ranges), plan.maxFileSize)
    && Grouped(d.bounds, d.ranges, d.limit, d.cuts, boundaries, sizes)
  }

  /** Boundaries strictly increase and are candidates, sizes add up to the total, the number of groups
      respects every limit, and the ranges are divided as the plan demands. */
  method GenSubcompactionBoundaries(plan: Plan, approximateSize: (int, int) -> nat)
    returns (boundaries: seq<int>, sizes: seq<nat>, ghost d: Division)
    requires plan.split && PlanOk(plan)
    ensures Divides(plan, approximateSize, d, boundaries, sizes)
    ensures Increasing(boundaries) && |sizes| == |boundaries| + 1
    ensures forall b :: b in boundaries ==> Candidate(plan.inputs, plan.start, plan.output, b)
    ensures Sum(sizes) == Sum(d.ranges) && |sizes| <= (if d.limit > 1 then d.limit else 1)
  {
    hide Sum, GroupsAt, Greedy, RangesOf, Grouped, Candidate, Min3, CeilDiv;
    var candidates := CollectBounds(plan.inputs, plan.start, plan.output);
    var bounds := SortUnique(candidates);
    assert candidates[0] in bounds;
    var ranges, sum := MeasureRanges(bounds, approximateSize);
    RangesShape(bounds, approximateSize, ranges);
    var limit := Min3(|ranges|, plan.maxSubcompactions, CeilDiv(5 * sum, 4 * plan.maxFileSize));
    LimitIs(limit, |ranges|, plan.maxSubcompactions, sum, plan.maxFileSize);
    ghost var cuts;
    boundaries, sizes, cuts := GroupRanges(bounds, ranges, limit);
    d := Division(bounds, ranges, limit, cuts);
    forall b | b in boundaries
      ensures Candidate(plan.inputs, plan.start, plan.output, b)
    {
      assert b in bounds[1..];
    }
  }

  lemma RangesShape(bounds: seq<int>, approximateSize: (int, int) -> nat, ranges: seq<nat>)
    requires RangesOf(bounds, approximateSize, ranges)
    ensures |bounds| == |ranges| + 1
  {
  }

  lemma RangesUnique(bounds: seq<int>, approximateSize: (int, int) -> nat, ranges: seq<nat>, ranges': seq<nat>)
    requires RangesOf(bounds, approximateSize, ranges) && RangesOf(bounds, approximateSize, ranges')
    ensures ranges == ranges'
  {
    forall i | 0 <= i < |ranges|
      ensures ranges[i] == ranges'[i]
    {
      assert ranges'[i] == approximateSize(bounds[i], bounds[i + 1]);
    }
  }

  lemma LimitIs(limit: nat, ranges: nat, maxSubcompactions: nat, total: nat, maxFileSize: nat)
    requires maxFileSize > 0 && limit == Min3(ranges, maxSubcompactions, CeilDiv(5 * total, 4 * maxFileSize))
    ensures IsLimit(limit, ranges, maxSubcompactions, total, maxFileSize)
  {
    var file, files := 4 * maxFileSize, CeilDiv(5 * total, 4 * maxFileSize);
    hide CeilDiv, Min3;
    if limit > 0 {
      SmallerProduct(limit - 1, files - 1, file);
    }
  }

  lemma SmallerProduct(a: nat, b: int, c: nat)
    requires a <= b
    ensures a * c <= b * c
  {
  }

  /** Plan and sizes determine the boundaries. */
  lemma DividesUniquely(plan: Plan, approximateSize: (int, int) -> nat, d: Division, boundaries: seq<int>,
                        sizes: seq<nat>, d': Division, boundaries': seq<int>, sizes': seq<nat>)
    requires plan.maxFileSize > 0
    requires Divides(plan, approximateSize, d, boundaries, sizes)
    requires Divides(plan, approximateSize, d', boundaries', sizes')
    ensures boundaries == boundaries' && sizes == sizes'
  {
    hide Grouped, Sum, IsLimit, Offers;
    forall i | 0 <= i < |d.bounds|
      ensures d.bounds[i] in d'.bounds
    {
      assert d.bounds[i] in d.bounds;
      assert Candidate(plan.inputs, plan.start, plan.output, d.bounds[i]);
    }
    forall i | 0 <= i < |d'.bounds|
      ensures d'.bounds[i] in d.bounds
    {
      assert d'.bounds[i] in d'.bounds;
      assert Candidate(plan.inputs, plan.start, plan.output, d'.bounds[i]);
    }
    IncreasingUnique(d.bounds, d'.bounds);
    RangesUnique(d.bounds, approximateSize, d.ranges, d'.ranges);
    LimitUnique(d.limit, d'.limit, |d.ranges|, plan.maxSubcompactions, Sum(d.ranges), plan.maxFileSize);
    GroupedUnique(d.bounds, d.ranges, d.limit, d.cuts, boundaries, sizes, d'.cuts, boundaries', sizes');
  }

  lemma LimitUnique(limit: nat, limit': nat, ranges: nat, maxSubcompactions: nat, total: nat, maxFileSize: nat)
    requires maxFileSize > 0 && IsLimit(limit, ranges, maxSubcompactions, total, maxFileSize)
    requires IsLimit(limit', ranges, maxSubcompactions, total, maxFileSize)
    ensures limit == limit'
  {
    if limit < limit' {
      SmallerProduct(limit, limit' - 1, 4 * maxFileSize);
    } else if limit' < limit {
      SmallerProduct(limit', limit - 1, 4 * maxFileSize);
    }
  }

  predicate SameKeys(a: seq<int>, b: seq<int>) {
    (forall i :: 0 <= i < |a| ==> a[i] in b) && (forall i :: 0 <= i < |b| ==> b[i] in a)
  }

  lemma SomeKey(a: seq<int>, b: seq<int>)
    requires a == [] && b != []
    ensures !SameKeys(a, b)
  {
    assert b[0] !in a;
  }

  lemma {:induction false} IncreasingUnique(a: seq<int>, b: seq<int>)
    requires Increasing(a) && Increasing(b) && SameKeys(a, b)
    ensures a == b
  {
    if a == [] {
      if b != [] {
        SomeKey(a, b);
      }
    } else {
      assert a[0] in b;
      SameTails(a, b);
      IncreasingUnique(a[1..], b[1..]);
      assert a == [a[0]] + a[1..] && b == [b[0]] + b[1..];
    }
  }

  lemma SameTails(a: seq<int>, b: seq<int>)
    requires Increasing(a) && Increasing(b) && SameKeys(a, b) && a != [] && b != []
    ensures a[0] == b[0] && Increasing(a[1..]) && Increasing(b[1..]) && SameKeys(a[1..], b[1..])
  {
    assert a[0] in b && b[0] in a;
    assert a[0] == b[0];
    TailKeys(a, b);
    TailKeys(b, a);
  }

  lemma TailKeys(a: seq<int>, b: seq<int>)
    requires Increasing(a) && a != [] && b != [] && a[0] == b[0] && forall i :: 0 <= i < |a| ==> a[i] in b
    ensures Increasing(a[1..]) && forall i :: 0 <= i < |a[1..]| ==> a[1..][i] in b[1..]
  {
    forall i | 0 <= i < |a[1..]|
      ensures a[1..][i] in b[1..]
    {
      assert a[i + 1] in b && a[i + 1] > a[0];
      assert b == [b[0]] + b[1..];
    }
  }

  /** One subcompaction: its key range and estimated size. */
  datatype SubCompaction = SubCompaction(start: Option<int>, end: Option<int>, size: nat)

  /** One subcompaction per range between consecutive boundaries. */
  method Prepare(boundaries: seq<int>, sizes: seq<nat>) returns (subs: seq<SubCompaction>)
    requires |sizes| == |boundaries| + 1
    ensures |subs| == |boundaries| + 1
    ensures forall i :: 0 <= i < |subs| ==>
            subs[i] == SubCompaction(RangeStart(boundaries, i), RangeEnd(boundaries, i), sizes[i])
  {
    subs := [];
    for i := 0 to |boundaries| + 1
      invariant |subs| == i
      invariant forall k :: 0 <= k < i ==>
                subs[k] == SubCompaction(RangeStart(boundaries, k), RangeEnd(boundaries, k), sizes[k])
    {
      var start := if i == 0 then None else Some(boundaries[i - 1]);
      var end := if i == |boundaries| then None else Some(boundaries[i]);
      subs := subs + [SubCompaction(start, end, sizes[i])];
    }
  }

  /** Runs the iterator from the start of a range to the first record at or beyond its end. */
  method ProcessKeyValueCompaction(cfg: Config, input: seq<Record>, start: Option<int>, end: Option<int>)
    returns (output: seq<Record>)
    requires ConfigOk(cfg) && InputOk(input)
    ensures output == RangeOutput(cfg, input, start, end)
  {
    var suffix := SeekSuffix(input, start);
    var it := new Iterator(cfg, suffix);
    it.SeekToFirst();
    output := Drain(it, end);
  }

  /** Takes what the iterator emits until it is exhausted or the range ends. */
  method Drain(it: Iterator, end: Option<int>) returns (output: seq<Record>)
    requires it.Valid()
    modifies it, it.levelPtrs
    ensures output == TakeBelow(old(it.Remaining()), end)
  {
    hide TakeBelow, Iterator.Valid, Iterator.Remaining;
    output := [];
    it.RemainingFirst();
    ghost var rest := it.Remaining();
    while it.valid && BelowEnd(it.current.key, end)
      invariant it.Valid() && rest == it.Remaining()
                && TakeBelow(old(it.Remaining()), end) == output + TakeBelow(rest, end)
      invariant if it.valid then rest != [] && rest[0] == it.current else rest == []
      decreases |rest|
    {
      TakeOne(rest, end);
      Reassociate(output, it.current, TakeBelow(rest[1..], end));
      output := output + [it.current];
      it.Next();
      assert rest[1..] == it.Remaining();
      rest := rest[1..];
      it.RemainingFirst();
    }
    TakeNone(rest, end);
  }

  lemma Reassociate(xs: seq<Record>, r: Record, ys: seq<Record>)
    ensures xs + ([r] + ys) == (xs + [r]) + ys
  {
  }

  /** The input from the start of a range on. */
  method SeekSuffix(input: seq<Record>, start: Option<int>) returns (suffix: seq<Record>)
    requires InputOk(input)
    ensures InputOk(suffix) && suffix == input[SeekTo(input, start)..]
  {
    var p := SeekTo(input, start);
    SortedFrom(input, p);
    suffix := input[p..];
  }

  lemma TakeOne(rs: seq<Record>, end: Option<int>)
    requires rs != [] && BelowEnd(rs[0].key, end)
    ensures TakeBelow(rs, end) == [rs[0]] + TakeBelow(rs[1..], end)
  {
  }

  lemma TakeNone(rs: seq<Record>, end: Option<int>)
    requires rs == [] || !BelowEnd(rs[0].key, end)
    ensures TakeBelow(rs, end) == []
  {
  }

  /** An order in which the threads get to run `n` subcompactions: no one is left out. */
  predicate Schedules(order: seq<nat>, n: nat) {
    (forall k :: 0 <= k < |order| ==> order[k] < n) && (forall i: nat :: i < n ==> i in order)
  }

  function OutputOf(cfg: Config, input: seq<Record>, boundaries: seq<int>, i: nat): seq<Record>
    requires Sorted(input) && i <= |boundaries|
  {
    RangeOutput(cfg, input, RangeStart(boundaries, i), RangeEnd(boundaries, i))
  }

  /** Runs the subcompactions, each of which writes an output of its own. */
  method RunSubcompactions(cfg: Config, input: seq<Record>, boundaries: seq<int>, sizes: seq<nat>, order: seq<nat>)
    returns (parts: seq<seq<Record>>)
    requires ConfigOk(cfg) && InputOk(input) && |sizes| == |boundaries| + 1 && Schedules(order, |sizes|)
    ensures |parts| == |boundaries| + 1
    ensures Sorted(input) && forall i :: 0 <= i < |parts| ==> parts[i] == OutputOf(cfg, input, boundaries, i)
  {
    hide RangeOutput, InputOk, ConfigOk, Sorted;
    InputSorted(input);
    var subs := Prepare(boundaries, sizes);
    parts := seq(|subs|, _ => []);
    for k := 0 to |order|
      invariant |parts| == |subs|
      invariant forall i :: 0 <= i < k ==> parts[order[i]] == OutputOf(cfg, input, boundaries, order[i])
    {
      var sub := subs[order[k]];
      var part := ProcessKeyValueCompaction(cfg, input, sub.start, sub.end);
      parts := parts[order[k] := part];
    }
    forall i: nat | i < |parts|
      ensures parts[i] == OutputOf(cfg, input, boundaries, i)
    {
      assert i in order;
    }
  }

  /** In whatever order the subcompactions run, the job writes the joined outputs of its ranges. */
  method RunJob(cfg: Config, input: seq<Record>, boundaries: seq<int>, sizes: seq<nat>, order: seq<nat>)
    returns (output: seq<Record>)
    requires ConfigOk(cfg) && InputOk(input) && |sizes| == |boundaries| + 1 && Schedules(order, |sizes|)
    ensures output == AllJoined(cfg, input, boundaries)
  {
    hide RangeOutput, InputOk, ConfigOk, Sorted, Schedules;
    InputSorted(input);
    var parts := RunSubcompactions(cfg, input, boundaries, sizes, order);
    output := [];
    for i := 0 to |parts|
      invariant output == Joined(cfg, input, boundaries, i)
    {
      output := output + parts[i];
    }
  }

  ghost predicate KeepsReads(cfg: Config, input: seq<Record>, deeper: seq<Record>, output: seq<Record>) {
    forall key: int, at: nat :: Live(cfg.snapshots, at) ==>
        Read(output, deeper, key, at) == Read(input, deeper, key, at)
  }

  /** Main result about the job: whatever boundaries it picks and in whatever order its
      subcompactions run, the output is strictly ordered, every record of it stems from the
      input, and every read at a live snapshot or the tip gives what it gave before. */
  method Compact(cfg: Config, input: seq<Record>, ghost deeper: seq<Record>, plan: Plan,
                 approximateSize: (int, int) -> nat, schedule: nat -> seq<nat>)
    returns (output: seq<Record>, boundaries: seq<int>, ghost sizes: seq<nat>, ghost d: Division)
    requires Setting(cfg, input, deeper) && PlanOk(plan)
    requires forall n: nat :: Schedules(schedule(n), n)
    ensures KeepsReads(cfg, input, deeper, output)
    ensures Sorted(output) && AllStem(input, 0, |input|, output)
    ensures !plan.split ==> output == Compacted(cfg, input)
    ensures if plan.split then Divides(plan, approximateSize, d, boundaries, sizes) else boundaries == []
    ensures Increasing(boundaries)
    ensures Sorted(input) && output == AllJoined(cfg, input, boundaries)
  {
    assert ConfigOk(cfg) && InputOk(input);
    hide Setting, ConfigOk, InputOk, AllJoined, Sorted, Schedules, Compacted, AllStem, StemsFrom, Divides, Sum,
         Candidate;
    InputSorted(input);
    var weights: seq<nat>;
    if plan.split {
      boundaries, weights, d := GenSubcompactionBoundaries(plan, approximateSize);
    } else {
      boundaries, weights, d := [], [0], Division([], [], 0, []);
      OneRange(cfg, input);
    }
    sizes := weights;
    output := RunJob(cfg, input, boundaries, weights, schedule(|weights|));
    SplitIsSorted(cfg, input, deeper, boundaries);
    ReadsKept(cfg, input, deeper, boundaries);
  }

  lemma ReadsKept(cfg: Config, input: seq<Record>, deeper: seq<Record>, boundaries: seq<int>)
    requires Setting(cfg, input, deeper) && Increasing(boundaries)
    ensures Sorted(input) && KeepsReads(cfg, input, deeper, AllJoined(cfg, input, boundaries))
  {
    SettingSorted(cfg, input, deeper);
    hide Setting, AllJoined, Increasing, Read, Sorted;
    forall key: int, at: nat | Live(cfg.snapshots, at)
      ensures Read(AllJoined(cfg, input, boundaries), deeper, key, at) == Read(input, deeper, key, at)
    {
      SplitPreservesReads(cfg, input, deeper, boundaries, key, at);
    }
  }

  /** A job that is not split runs once over the whole input. */
  lemma OneRange(cfg: Config, input: seq<Record>)
    requires Sorted(input)
    ensures AllJoined(cfg, input, []) == Compacted(cfg, input)
  {
    assert input[0..] == input;
    TakeAll(Compacted(cfg, input));
    assert Joined(cfg, input, [], 1) == [] + RangeOutput(cfg, input, None, None);
  }
}
