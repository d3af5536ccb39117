/** Completing the input files of a CompactFiles request (db/compaction_picker.cc: HaveOverlappingKeyRanges and
    SanitizeCompactionInputFilesForAllLevels). */
module Sanitize {
  import opened DbFormat

  datatype File = File(number: nat, smallest: UserKey, largest: UserKey, being: bool)

  /** The code's test, branch by branch. */
  predicate HaveOverlappingKeyRanges(a: File, b: File)
  {
    if a.smallest >= b.smallest && a.smallest <= b.largest then true
    else if a.smallest < b.smallest && a.largest >= b.smallest then true
    else if a.largest <= b.largest then a.largest >= b.smallest
    else a.smallest <= b.largest
  }

  predicate Overlap(lo: UserKey, hi: UserKey, f: File)
  {
    lo <= f.largest && f.smallest <= hi
  }

  lemma OverlapIff(a: File, b: File)
    requires a.smallest <= a.largest && b.smallest <= b.largest
    ensures HaveOverlappingKeyRanges(a, b) <==> Overlap(a.smallest, a.largest, b)
  {
  }

  // ---------------------------------------------------------------- levels and picks

  /** Below level 0 files are sorted and may share boundary keys; no two files have the same number. */
  ghost predicate Levels(levels: seq<seq<File>>)
  {
    && (forall l, i :: 0 <= l < |levels| && 0 <= i < |levels[l]| ==> levels[l][i].smallest <= levels[l][i].largest)
    && (forall l, i, j :: 1 <= l < |levels| && 0 <= i < j < |levels[l]| ==>
        levels[l][i].largest <= levels[l][j].smallest)
    && (forall l, m, i, j :: 0 <= l < |levels| && 0 <= m < |levels| && 0 <= i < |levels[l]| && 0 <= j < |levels[m]| ==>
          (levels[l][i].number == levels[m][j].number ==> l == m && i == j))
  }

  ghost predicate Picked(fs: seq<File>, s: set<nat>, i: int)
    requires 0 <= i < |fs|
  {
    fs[i].number in s
  }

  /** The picks of a level are the files from first to last. */
  ghost predicate IsRun(fs: seq<File>, s: set<nat>, first: int, last: int)
  {
    0 <= first && last < |fs| && forall i :: 0 <= i < |fs| ==> (Picked(fs, s, i) <==> first <= i <= last)
  }

  /** Files outside the run share no boundary user key with it. */
  ghost predicate Cut(fs: seq<File>, first: int, last: int)
  {
    && (0 < first <= last < |fs| ==> fs[first - 1].largest < fs[first].smallest)
    && (0 <= first <= last < |fs| - 1 ==> fs[last + 1].smallest > fs[last].largest)
  }

  /** [lo, hi] is the range of all picks in the levels up to l. */
  ghost predicate IsHull(levels: seq<seq<File>>, s: set<nat>, l: int, lo: UserKey, hi: UserKey)
    requires -1 <= l < |levels|
  {
    && (forall k, i :: 0 <= k <= l && 0 <= i < |levels[k]| && Picked(levels[k], s, i) ==>
          lo <= levels[k][i].smallest && levels[k][i].largest <= hi)
    && (exists k, i :: 0 <= k <= l && 0 <= i < |levels[k]| && Picked(levels[k], s, i) && levels[k][i].smallest == lo)
    && (exists k, i :: 0 <= k <= l && 0 <= i < |levels[k]| && Picked(levels[k], s, i) && levels[k][i].largest == hi)
  }

  /** Everything of the levels up to output below l that meets [lo, hi] is picked. */
  ghost predicate Closed(levels: seq<seq<File>>, s: set<nat>, l: int, output: int, lo: UserKey, hi: UserKey)
    requires -1 <= l && output < |levels|
  {
    forall m, i :: l < m <= output && 0 <= i < |levels[m]| && Overlap(lo, hi, levels[m][i]) ==> Picked(levels[m], s, i)
  }

  /** Level l is finished: one run, cut off from the rest below level 0, and what it forces deeper down is picked. */
  ghost predicate LevelDone(levels: seq<seq<File>>, s: set<nat>, l: int, output: int)
    requires 0 <= l <= output < |levels|
  {
    && (exists first, last :: IsRun(levels[l], s, first, last) && (l >= 1 ==> Cut(levels[l], first, last)))
    && (forall lo, hi :: IsHull(levels, s, l, lo, hi) ==> Closed(levels, s, l, output, lo, hi))
  }

  /** A set of files that a compaction of the request to the output level could take. */
  ghost predicate Complete(levels: seq<seq<File>>, input: set<nat>, s: set<nat>, output: int)
    requires 0 <= output < |levels|
  {
    input <= s && forall l :: 0 <= l <= output ==> LevelDone(levels, s, l, output)
  }

  ghost predicate Idle(levels: seq<seq<File>>, s: set<nat>, l: int)
    requires l < |levels|
  {
    forall k, i :: 0 <= k <= l && 0 <= i < |levels[k]| && Picked(levels[k], s, i) ==> !levels[k][i].being
  }

  // ---------------------------------------------------------------- one level

  /** The first and the last file of the level that is picked; the length and -1 when there is none. */
  method FindPicked(fs: seq<File>, s: set<nat>) returns (first: int, last: int)
    ensures 0 <= first <= |fs| && -1 <= last < |fs| && (last == -1 <==> first == |fs|)
    ensures forall i :: 0 <= i < |fs| && Picked(fs, s, i) ==> first <= i <= last
    ensures last >= 0 ==> first <= last && Picked(fs, s, first) && Picked(fs, s, last)
  {
    first, last := |fs|, -1;
    for f := 0 to |fs|
      invariant 0 <= first <= |fs| && -1 <= last < f && (last == -1 <==> first == |fs|)
      invariant forall i :: 0 <= i < f && Picked(fs, s, i) ==> first <= i <= last
      invariant last >= 0 ==> first <= last && Picked(fs, s, first) && Picked(fs, s, last)
    {
      if fs[f].number in s {
        first, last := if f < first then f else first, if last < f then f else last;
      }
    }
  }

  /** Each file of [first, last] outside [first0, last0] shares a boundary key with its neighbour on the inside. */
  ghost predicate Touching(fs: seq<File>, first: int, last: int, first0: int, last0: int)
    requires 0 <= first <= first0 <= last0 <= last < |fs|
  {
    && (forall i :: first < i <= first0 ==> !(fs[i - 1].largest < fs[i].smallest))
    && (forall i :: last0 <= i < last ==> !(fs[i + 1].smallest > fs[i].largest))
  }

  /** Takes in neighbours as long as they share a boundary key. */
  method Expand(fs: seq<File>, first0: int, last0: int) returns (first: int, last: int)
    requires 0 <= first0 <= last0 < |fs|
    ensures 0 <= first <= first0 && last0 <= last < |fs| && Cut(fs, first, last)
    ensures Touching(fs, first, last, first0, last0)
  {
    first, last := first0, last0;
    while first > 0
      invariant 0 <= first <= first0 && Touching(fs, first, last, first0, last0)
    {
      if fs[first - 1].largest < fs[first].smallest { break; }
      first := first - 1;
    }
    while last < |fs| - 1
      invariant last0 <= last < |fs| && Touching(fs, first, last, first0, last0)
      invariant 0 < first ==> fs[first - 1].largest < fs[first].smallest
    {
      if fs[last + 1].smallest > fs[last].largest { break; }
      last := last + 1;
    }
  }

  /** Everything between first and last joins, unless some of it is being compacted. */
  method Include(fs: seq<File>, s: set<nat>, first: int, last: int) returns (ok: bool, r: set<nat>)
    requires 0 <= first <= last < |fs|
    ensures ok <==> forall i :: first <= i <= last ==> !fs[i].being
    ensures ok ==> forall n :: n in r <==> n in s || exists i :: first <= i <= last && fs[i].number == n
  {
    r := s;
    for f := first to last + 1
      invariant forall i :: first <= i < f ==> !fs[i].being
      invariant forall n :: n in r <==> n in s || exists i :: first <= i < f && fs[i].number == n
    {
      if fs[f].being { return false, r; }
      r := r + {fs[f].number};
    }
    ok := true;
  }

  /** The key range grows by the files of the run; below level 0 its ends are those of the first and the last. */
  method Grow(level: nat, fs: seq<File>, first: int, last: int, lo0: UserKey, hi0: UserKey)
      returns (lo: UserKey, hi: UserKey)
    requires 0 <= first <= last < |fs| && (forall i :: 0 <= i < |fs| ==> fs[i].smallest <= fs[i].largest)
    requires level >= 1 ==> forall i, j :: 0 <= i < j < |fs| ==> fs[i].largest <= fs[j].smallest
    ensures lo <= lo0 && hi0 <= hi && forall i :: first <= i <= last ==> lo <= fs[i].smallest && fs[i].largest <= hi
    ensures lo == lo0 || exists i :: first <= i <= last && fs[i].smallest == lo
    ensures hi == hi0 || exists i :: first <= i <= last && fs[i].largest == hi
  {
    lo, hi := lo0, hi0;
    if level == 0 {
      for f := first to last + 1
        invariant lo <= lo0 && hi0 <= hi && forall i :: first <= i < f ==> lo <= fs[i].smallest && fs[i].largest <= hi
        invariant lo == lo0 || exists i :: first <= i < f && fs[i].smallest == lo
        invariant hi == hi0 || exists i :: first <= i < f && fs[i].largest == hi
      {
        if lo > fs[f].smallest { lo := fs[f].smallest; }
        if hi < fs[f].largest { hi := fs[f].largest; }
      }
    } else {
      if lo > fs[first].smallest { lo := fs[first].smallest; }
      if hi < fs[last].largest { hi := fs[last].largest; }
    }
  }

  /** One deeper level: the files that meet the range join, unless one is being compacted. */
  method IncludeOverlapping(fs: seq<File>, s: set<nat>, lo: UserKey, hi: UserKey) returns (ok: bool, r: set<nat>)
    requires lo <= hi && forall i :: 0 <= i < |fs| ==> fs[i].smallest <= fs[i].largest
    ensures s <= r
    ensures forall n :: n in r && n !in s ==> exists i :: 0 <= i < |fs| && fs[i].number == n && Overlap(lo, hi, fs[i])
    ensures ok ==> forall i :: 0 <= i < |fs| && Overlap(lo, hi, fs[i]) ==> Picked(fs, r, i) && !fs[i].being
    ensures !ok ==> exists i :: 0 <= i < |fs| && Overlap(lo, hi, fs[i]) && fs[i].being
  {
    r := s;
    var aggregated := File(0, lo, hi, false);
    for f := 0 to |fs|
      invariant s <= r && forall n :: n in r && n !in s ==>
        exists i :: 0 <= i < |fs| && fs[i].number == n && Overlap(lo, hi, fs[i])
      invariant forall i :: 0 <= i < f && Overlap(lo, hi, fs[i]) ==> Picked(fs, r, i) && !fs[i].being
    {
      OverlapIff(aggregated, fs[f]);
      if HaveOverlappingKeyRanges(aggregated, fs[f]) {
        if fs[f].being { return false, r; }
        r := r + {fs[f].number};
      }
    }
    ok := true;
  }

  // ---------------------------------------------------------------- all levels

  /** s and r pick the same files in the levels up to l, and r more below. */
  ghost predicate SameUpTo(levels: seq<seq<File>>, s: set<nat>, r: set<nat>, l: int)
    requires l < |levels|
  {
    s <= r && forall k, i :: 0 <= k <= l && 0 <= i < |levels[k]| ==>
      (Picked(levels[k], s, i) <==> Picked(levels[k], r, i))
  }

  lemma NumbersDiffer(levels: seq<seq<File>>, k: int, i: int, m: int)
    requires Levels(levels) && 0 <= k < m < |levels| && 0 <= i < |levels[k]|
    ensures forall j :: 0 <= j < |levels[m]| ==> levels[m][j].number != levels[k][i].number
  {
  }

  lemma AddedBelow(levels: seq<seq<File>>, s: set<nat>, r: set<nat>, l: int, m: int)
    requires Levels(levels) && -1 <= l < m < |levels| && s <= r
    requires forall n :: n in r && n !in s ==> exists i :: 0 <= i < |levels[m]| && levels[m][i].number == n
    ensures SameUpTo(levels, s, r, l)
  {
    forall k, i | 0 <= k <= l && 0 <= i < |levels[k]| ensures Picked(levels[k], s, i) <==> Picked(levels[k], r, i) {
      NumbersDiffer(levels, k, i, m);
    }
  }

  lemma HullSame(levels: seq<seq<File>>, s: set<nat>, r: set<nat>, l: int, lo: UserKey, hi: UserKey)
    requires -1 <= l < |levels| && SameUpTo(levels, s, r, l)
    ensures IsHull(levels, s, l, lo, hi) <==> IsHull(levels, r, l, lo, hi)
  {
  }

  lemma DoneStays(levels: seq<seq<File>>, s: set<nat>, r: set<nat>, l: int, output: int)
    requires 0 <= l <= output < |levels| && LevelDone(levels, s, l, output) && SameUpTo(levels, s, r, l)
    ensures LevelDone(levels, r, l, output)
  {
    var first, last :| IsRun(levels[l], s, first, last) && (l >= 1 ==> Cut(levels[l], first, last));
    assert IsRun(levels[l], r, first, last);
    forall lo, hi | IsHull(levels, r, l, lo, hi) ensures Closed(levels, r, l, output, lo, hi) {
      HullSame(levels, s, r, l, lo, hi);
    }
  }

  // ---------------------------------------------------------------- nothing more than is forced

  /** A complete set that has first and last of a level has everything between. */
  lemma LeastRun(levels: seq<seq<File>>, t: set<nat>, l: int, output: int, first: int, last: int)
    requires 0 <= l <= output < |levels| && LevelDone(levels, t, l, output)
    requires 0 <= first <= last < |levels[l]| && Picked(levels[l], t, first) && Picked(levels[l], t, last)
    ensures forall i :: first <= i <= last ==> Picked(levels[l], t, i)
    ensures l >= 1 && first > 0 && !(levels[l][first - 1].largest < levels[l][first].smallest) ==>
      Picked(levels[l], t, first - 1)
    ensures l >= 1 && last < |levels[l]| - 1 && !(levels[l][last + 1].smallest > levels[l][last].largest) ==>
      Picked(levels[l], t, last + 1)
  {
    var a, b :| IsRun(levels[l], t, a, b) && (l >= 1 ==> Cut(levels[l], a, b));
  }

  /** A larger set has a larger range, so it contains what a smaller range forces. */
  lemma LeastClosed(levels: seq<seq<File>>, s: set<nat>, t: set<nat>, l: int, output: int, lo: UserKey, hi: UserKey)
    requires 0 <= l <= output < |levels| && s <= t && LevelDone(levels, t, l, output) && IsHull(levels, s, l, lo, hi)
    ensures Closed(levels, t, l, output, lo, hi)
  {
    var k, i :| 0 <= k <= l && 0 <= i < |levels[k]| && Picked(levels[k], s, i) && levels[k][i].smallest == lo;
    assert Picked(levels[k], t, i);
    var k', i' :| 0 <= k' <= l && 0 <= i' < |levels[k']| && Picked(levels[k'], s, i') && levels[k'][i'].largest == hi;
    assert Picked(levels[k'], t, i');
    var lo', hi' := HullExists(levels, t, l, lo, hi);
    assert Closed(levels, t, l, output, lo', hi');
  }

  /** Nonempty picks have a range. */
  lemma {:induction false} HullExists(levels: seq<seq<File>>, t: set<nat>, l: int, lo0: UserKey, hi0: UserKey)
      returns (lo: UserKey, hi: UserKey)
    requires 0 <= l < |levels|
    requires exists k, i :: 0 <= k <= l && 0 <= i < |levels[k]| && Picked(levels[k], t, i)
    ensures IsHull(levels, t, l, lo, hi)
  {
    lo, hi := lo0, hi0;
    var found := false;
    var k := 0;
    while k <= l
      invariant 0 <= k <= l + 1
      invariant found ==> IsHull(levels, t, k - 1, lo, hi)
      invariant !found ==> forall m, i :: 0 <= m < k && 0 <= i < |levels[m]| ==> !Picked(levels[m], t, i)
    {
      found, lo, hi := HullLevel(levels, t, k, found, lo, hi);
      k := k + 1;
    }
  }

  lemma {:induction false} HullLevel(levels: seq<seq<File>>, t: set<nat>, k: int, found0: bool, lo0: UserKey,
                                     hi0: UserKey)
      returns (found: bool, lo: UserKey, hi: UserKey)
    requires 0 <= k < |levels| && (found0 ==> IsHull(levels, t, k - 1, lo0, hi0))
    requires !found0 ==> forall m, i :: 0 <= m < k && 0 <= i < |levels[m]| ==> !Picked(levels[m], t, i)
    ensures found ==> IsHull(levels, t, k, lo, hi)
    ensures !found ==> forall m, i :: 0 <= m <= k && 0 <= i < |levels[m]| ==> !Picked(levels[m], t, i)
  {
    found, lo, hi := found0, lo0, hi0;
    for j := 0 to |levels[k]|
      invariant found ==> PartHull(levels, t, k, j, lo, hi)
      invariant !found ==> forall m, i :: 0 <= m <= k && 0 <= i < (if m < k then |levels[m]| else j) ==>
        !Picked(levels[m], t, i)
    {
      var f := levels[k][j];
      if f.number in t {
        assert Picked(levels[k], t, j);
        if !found || f.smallest < lo { lo := f.smallest; }
        if !found || f.largest > hi { hi := f.largest; }
        found := true;
      }
    }
  }

  ghost predicate PartHull(levels: seq<seq<File>>, s: set<nat>, l: int, j: int, lo: UserKey, hi: UserKey)
    requires 0 <= l < |levels| && j <= |levels[l]|
  {
    && (forall k, i :: 0 <= k <= l && 0 <= i < (if k < l then |levels[k]| else j) && Picked(levels[k], s, i) ==>
          lo <= levels[k][i].smallest && levels[k][i].largest <= hi)
    && (exists k, i ::
          && 0 <= k <= l && 0 <= i < (if k < l then |levels[k]| else j)
          && Picked(levels[k], s, i) && levels[k][i].smallest == lo)
    && (exists k, i ::
          && 0 <= k <= l && 0 <= i < (if k < l then |levels[k]| else j)
          && Picked(levels[k], s, i) && levels[k][i].largest == hi)
  }

  lemma {:induction false} LeastLeft(levels: seq<seq<File>>, t: set<nat>, l: int, output: int, first: int, first0: int,
                                     last0: int)
    requires 1 <= l <= output < |levels| && LevelDone(levels, t, l, output)
    requires 0 <= first <= first0 <= last0 < |levels[l]|
    requires Picked(levels[l], t, first0) && Picked(levels[l], t, last0)
    requires forall i :: first < i <= first0 ==> !(levels[l][i - 1].largest < levels[l][i].smallest)
    ensures Picked(levels[l], t, first)
    decreases first0 - first
  {
    if first < first0 {
      LeastRun(levels, t, l, output, first0, last0);
      LeastLeft(levels, t, l, output, first, first0 - 1, last0);
    }
  }

  lemma {:induction false} LeastRight(levels: seq<seq<File>>, t: set<nat>, l: int, output: int, last: int, first0: int,
                                      last0: int)
    requires 1 <= l <= output < |levels| && LevelDone(levels, t, l, output)
    requires 0 <= first0 <= last0 <= last < |levels[l]|
    requires Picked(levels[l], t, first0) && Picked(levels[l], t, last0)
    requires forall i :: last0 <= i < last ==> !(levels[l][i + 1].smallest > levels[l][i].largest)
    ensures Picked(levels[l], t, last)
    decreases last - last0
  {
    if last0 < last {
      LeastRun(levels, t, l, output, first0, last0);
      LeastRight(levels, t, l, output, last, first0, last0 + 1);
    }
  }

  /** Every complete set has the whole run. */
  lemma LeastExpanded(levels: seq<seq<File>>, t: set<nat>, l: int, output: int, first: int, last: int, first0: int,
                      last0: int)
    requires 0 <= l <= output < |levels| && LevelDone(levels, t, l, output)
    requires 0 <= first <= first0 <= last0 <= last < |levels[l]|
    requires Picked(levels[l], t, first0) && Picked(levels[l], t, last0)
    requires Touching(levels[l], first, last, first0, last0)
    requires l == 0 ==> first == first0 && last == last0
    ensures forall i :: first <= i <= last ==> Picked(levels[l], t, i)
  {
    if l >= 1 {
      LeastLeft(levels, t, l, output, first, first0, last0);
      LeastRight(levels, t, l, output, last, first0, last0);
    }
    LeastRun(levels, t, l, output, first, last);
  }

  // ---------------------------------------------------------------- the whole function

  /** s is contained in every complete set. */
  ghost predicate Forced(levels: seq<seq<File>>, input: set<nat>, s: set<nat>, output: int)
    requires 0 <= output < |levels|
  {
    forall t :: Complete(levels, input, t, output) ==> s <= t
  }

  /** Every complete set has a file that is being compacted. */
  ghost predicate Blocked(levels: seq<seq<File>>, input: set<nat>, output: int)
    requires 0 <= output < |levels|
  {
    forall t :: Complete(levels, input, t, output) ==> !Idle(levels, t, output)
  }

  function AllFiles(levels: seq<seq<File>>): set<nat>
  {
    set l, i | 0 <= l < |levels| && 0 <= i < |levels[l]| :: levels[l][i].number
  }

  /** There is always a complete set: all the files. */
  lemma AllIsComplete(levels: seq<seq<File>>, input: set<nat>, output: int)
    requires 0 <= output < |levels|
    ensures Complete(levels, input, input + AllFiles(levels), output)
  {
    var s := input + AllFiles(levels);
    forall l | 0 <= l <= output ensures LevelDone(levels, s, l, output) {
      assert forall m, i :: 0 <= m < |levels| && 0 <= i < |levels[m]| ==> Picked(levels[m], s, i);
      assert IsRun(levels[l], s, 0, |levels[l]| - 1) && Cut(levels[l], 0, |levels[l]| - 1);
    }
  }

  datatype Range = NoRange | Range(lo: UserKey, hi: UserKey)

  ghost predicate RangeOk(levels: seq<seq<File>>, s: set<nat>, l: int, range: Range)
    requires -1 <= l < |levels|
  {
    match range
    case Range(lo, hi) => IsHull(levels, s, l, lo, hi)
    case NoRange => forall k, i :: 0 <= k <= l && 0 <= i < |levels[k]| ==> !Picked(levels[k], s, i)
  }

  /** The levels before l are finished and idle. */
  ghost predicate Progress(levels: seq<seq<File>>, input: set<nat>, s: set<nat>, l: int, output: int, range: Range)
    requires 0 <= l <= output + 1 && output < |levels| && output >= 0
  {
    && input <= s && (forall k :: 0 <= k < l ==> LevelDone(levels, s, k, output))
    && Idle(levels, s, l - 1) && RangeOk(levels, s, l - 1, range) && Forced(levels, input, s, output)
  }

  lemma NoPicks(levels: seq<seq<File>>, input: set<nat>, s: set<nat>, l: int, output: int, range: Range)
    requires 0 <= l <= output < |levels| && Progress(levels, input, s, l, output, range)
    requires forall i :: 0 <= i < |levels[l]| ==> !Picked(levels[l], s, i)
    ensures Progress(levels, input, s, l + 1, output, range)
  {
    assert IsRun(levels[l], s, |levels[l]|, -1);
    forall lo, hi | IsHull(levels, s, l, lo, hi) ensures Closed(levels, s, l, output, lo, hi) {
      HullWithout(levels, s, l, lo, hi);
      if l > 0 { assert LevelDone(levels, s, l - 1, output); }
    }
    if range.Range? { HullWithout(levels, s, l, range.lo, range.hi); }
  }

  lemma HullWithout(levels: seq<seq<File>>, s: set<nat>, l: int, lo: UserKey, hi: UserKey)
    requires 0 <= l < |levels| && forall i :: 0 <= i < |levels[l]| ==> !Picked(levels[l], s, i)
    ensures IsHull(levels, s, l, lo, hi) <==> IsHull(levels, s, l - 1, lo, hi)
  {
  }

  lemma RunForced(levels: seq<seq<File>>, input: set<nat>, s: set<nat>, l: int, output: int, first: int, last: int,
                  first0: int, last0: int)
    requires 0 <= l <= output < |levels| && Forced(levels, input, s, output)
    requires 0 <= first <= first0 <= last0 <= last < |levels[l]|
    requires Picked(levels[l], s, first0) && Picked(levels[l], s, last0)
    requires Touching(levels[l], first, last, first0, last0)
    requires l == 0 ==> first == first0 && last == last0
    ensures forall t :: Complete(levels, input, t, output) ==> forall i :: first <= i <= last ==>
      Picked(levels[l], t, i)
  {
    forall t | Complete(levels, input, t, output) ensures forall i :: first <= i <= last ==> Picked(levels[l], t, i) {
      LeastExpanded(levels, t, l, output, first, last, first0, last0);
    }
  }

  /** After the run of level l has joined: it is the run, and the levels before it are as they were. */
  lemma RunJoins(levels: seq<seq<File>>, s: set<nat>, r: set<nat>, l: int, first: int, last: int)
    requires Levels(levels) && 0 <= l < |levels| && 0 <= first <= last < |levels[l]|
    requires forall i :: 0 <= i < |levels[l]| && Picked(levels[l], s, i) ==> first <= i <= last
    requires forall n :: n in r <==> n in s || exists i :: first <= i <= last && levels[l][i].number == n
    ensures IsRun(levels[l], r, first, last) && SameUpTo(levels, s, r, l - 1)
  {
    AddedBelow(levels, s, r, l - 1, l);
    forall i | 0 <= i < |levels[l]| ensures Picked(levels[l], r, i) <==> first <= i <= last {
      var n := levels[l][i].number;
      if n in s {
        assert Picked(levels[l], s, i);
      } else if n in r {
        var j :| first <= j <= last && levels[l][j].number == n;
        assert i == j;
      }
      if first <= i <= last { assert n in r; }
    }
  }

  lemma HullGrows(levels: seq<seq<File>>, s: set<nat>, r: set<nat>, l: int, first: int, last: int, range: Range,
                  lo0: UserKey, hi0: UserKey, lo: UserKey, hi: UserKey)
    requires 0 <= l < |levels| && SameUpTo(levels, s, r, l - 1) && IsRun(levels[l], r, first, last)
    requires RangeOk(levels, s, l - 1, range)
    requires 0 <= first <= last && (if range.Range? then lo0 == range.lo && hi0 == range.hi
      else exists i :: first <= i <= last && levels[l][i].smallest == lo0 && levels[l][i].largest == hi0)
    requires lo <= lo0 && hi0 <= hi
    requires forall i :: first <= i <= last ==> lo <= levels[l][i].smallest && levels[l][i].largest <= hi
    requires lo == lo0 || exists i :: first <= i <= last && levels[l][i].smallest == lo
    requires hi == hi0 || exists i :: first <= i <= last && levels[l][i].largest == hi
    ensures IsHull(levels, r, l, lo, hi)
  {
    assert forall i :: first <= i <= last ==> Picked(levels[l], r, i);
    if range.Range? { HullSame(levels, s, r, l - 1, lo0, hi0); }
  }

  /** The run of level l joins, and the key range grows by it. */
  method TakeRun(levels: seq<seq<File>>, ghost input: set<nat>, s: set<nat>, l: nat, ghost output: int, range: Range,
                 first0: int, last0: int)
      returns (ok: bool, r: set<nat>, lo: UserKey, hi: UserKey)
    requires Levels(levels) && l <= output < |levels| && Progress(levels, input, s, l, output, range)
    requires 0 <= first0 <= last0 < |levels[l]| && Picked(levels[l], s, first0) && Picked(levels[l], s, last0)
    requires forall i :: 0 <= i < |levels[l]| && Picked(levels[l], s, i) ==> first0 <= i <= last0
    ensures !ok ==> Blocked(levels, input, output)
    ensures ok ==> SameUpTo(levels, s, r, l - 1) && IsHull(levels, r, l, lo, hi)
    ensures ok ==> Forced(levels, input, r, output) && Idle(levels, r, l)
    ensures ok ==> exists first, last :: IsRun(levels[l], r, first, last) && (l >= 1 ==> Cut(levels[l], first, last))
  {
    hide LevelDone, Complete, IsHull;
    var fs := levels[l];
    lo := if range.Range? then range.lo else fs[first0].smallest;
    hi := if range.Range? then range.hi else fs[first0].largest;
    ghost var lo0, hi0 := lo, hi;
    var first, last := first0, last0;
    if l != 0 { first, last := Expand(fs, first0, last0); }
    RunForced(levels, input, s, l, output, first, last, first0, last0);
    ok, r := Include(fs, s, first, last);
    if !ok {
      BlockedBy(levels, input, l, output, first, last);
      return;
    }
    RunJoins(levels, s, r, l, first, last);
    ForcedJoins(levels, input, s, r, l, output, first, last);
    lo, hi := Grow(l, fs, first, last, lo, hi);
    HullGrows(levels, s, r, l, first, last, range, lo0, hi0, lo, hi);
    IdleJoins(levels, s, r, l, first, last);
  }

  lemma BlockedBy(levels: seq<seq<File>>, input: set<nat>, l: int, output: int, first: int, last: int)
    requires 0 <= l <= output < |levels| && 0 <= first <= last < |levels[l]|
    requires forall t :: Complete(levels, input, t, output) ==> forall i :: first <= i <= last ==>
      Picked(levels[l], t, i)
    requires exists i :: first <= i <= last && levels[l][i].being
    ensures Blocked(levels, input, output)
  {
    var i :| first <= i <= last && levels[l][i].being;
    forall t | Complete(levels, input, t, output) ensures !Idle(levels, t, output) {
      assert Picked(levels[l], t, i);
    }
  }

  lemma ForcedJoins(levels: seq<seq<File>>, input: set<nat>, s: set<nat>, r: set<nat>, l: int, output: int, first: int,
                    last: int)
    requires 0 <= l <= output < |levels| && 0 <= first <= last < |levels[l]| && Forced(levels, input, s, output)
    requires forall t :: Complete(levels, input, t, output) ==> forall i :: first <= i <= last ==>
      Picked(levels[l], t, i)
    requires forall n :: n in r ==> n in s || exists i :: first <= i <= last && levels[l][i].number == n
    ensures Forced(levels, input, r, output)
  {
    forall t | Complete(levels, input, t, output) ensures r <= t {
      forall n | n in r ensures n in t {
        if n !in s {
          var i :| first <= i <= last && levels[l][i].number == n;
          assert Picked(levels[l], t, i);
        }
      }
    }
  }

  lemma IdleJoins(levels: seq<seq<File>>, s: set<nat>, r: set<nat>, l: int, first: int, last: int)
    requires 0 <= l < |levels| && Idle(levels, s, l - 1) && SameUpTo(levels, s, r, l - 1)
    requires IsRun(levels[l], r, first, last)
    requires 0 <= first <= last && forall i :: first <= i <= last ==> !levels[l][i].being
    ensures Idle(levels, r, l)
  {
  }

  lemma HullOrder(levels: seq<seq<File>>, s: set<nat>, l: int, lo: UserKey, hi: UserKey)
    requires Levels(levels) && 0 <= l < |levels| && IsHull(levels, s, l, lo, hi)
    ensures lo <= hi
  {
  }

  /** Every complete set has what the range meets. */
  ghost predicate AllClose(levels: seq<seq<File>>, input: set<nat>, l: int, output: int, lo: UserKey, hi: UserKey)
    requires 0 <= l <= output < |levels|
  {
    forall t :: Complete(levels, input, t, output) ==> Closed(levels, t, l, output, lo, hi)
  }

  lemma AllClosed(levels: seq<seq<File>>, input: set<nat>, s: set<nat>, l: int, output: int, lo: UserKey, hi: UserKey)
    requires 0 <= l <= output < |levels| && IsHull(levels, s, l, lo, hi) && Forced(levels, input, s, output)
    ensures AllClose(levels, input, l, output, lo, hi)
  {
    forall t | Complete(levels, input, t, output) ensures Closed(levels, t, l, output, lo, hi) {
      LeastClosed(levels, s, t, l, output, lo, hi);
    }
  }

  lemma BlockedBelow(levels: seq<seq<File>>, input: set<nat>, l: int, m: int, output: int, lo: UserKey, hi: UserKey)
    requires 0 <= l < m <= output < |levels| && AllClose(levels, input, l, output, lo, hi)
    requires exists i :: 0 <= i < |levels[m]| && Overlap(lo, hi, levels[m][i]) && levels[m][i].being
    ensures Blocked(levels, input, output)
  {
    var i :| 0 <= i < |levels[m]| && Overlap(lo, hi, levels[m][i]) && levels[m][i].being;
    forall t | Complete(levels, input, t, output) ensures !Idle(levels, t, output) {
      assert Closed(levels, t, l, output, lo, hi);
      assert Picked(levels[m], t, i);
    }
  }

  lemma ForcedBelow(levels: seq<seq<File>>, input: set<nat>, s: set<nat>, r: set<nat>, l: int, m: int, output: int,
                    lo: UserKey, hi: UserKey)
    requires 0 <= l < m <= output < |levels| && AllClose(levels, input, l, output, lo, hi)
    requires Forced(levels, input, s, output)
    requires forall n :: n in r && n !in s ==>
      exists i :: 0 <= i < |levels[m]| && levels[m][i].number == n && Overlap(lo, hi, levels[m][i])
    ensures Forced(levels, input, r, output)
  {
    forall t | Complete(levels, input, t, output) ensures r <= t {
      assert Closed(levels, t, l, output, lo, hi);
      forall n | n in r ensures n in t {
        if n !in s {
          var i :| 0 <= i < |levels[m]| && levels[m][i].number == n && Overlap(lo, hi, levels[m][i]);
          assert Picked(levels[m], t, i);
        }
      }
    }
  }

  /** What the range meets in the deeper levels joins. */
  method IncludeBelow(levels: seq<seq<File>>, ghost input: set<nat>, s: set<nat>, l: nat, output: int, lo: UserKey,
                      hi: UserKey)
      returns (ok: bool, r: set<nat>)
    requires Levels(levels) && l <= output < |levels| && IsHull(levels, s, l, lo, hi)
    requires Forced(levels, input, s, output)
    ensures !ok ==> Blocked(levels, input, output)
    ensures ok ==> SameUpTo(levels, s, r, l) && Closed(levels, r, l, output, lo, hi) && Forced(levels, input, r, output)
  {
    HullOrder(levels, s, l, lo, hi);
    hide Complete, IsHull;
    AllClosed(levels, input, s, l, output, lo, hi);
    r := s;
    for m := l + 1 to output + 1
      invariant SameUpTo(levels, s, r, l) && Closed(levels, r, l, m - 1, lo, hi) && Forced(levels, input, r, output)
    {
      ghost var before := r;
      var fine;
      fine, r := IncludeOverlapping(levels[m], r, lo, hi);
      if !fine {
        BlockedBelow(levels, input, l, m, output, lo, hi);
        return false, r;
      }
      AddedBelow(levels, before, r, l, m);
      ForcedBelow(levels, input, before, r, l, m, output, lo, hi);
    }
    ok := true;
  }

  lemma LevelFinished(levels: seq<seq<File>>, input: set<nat>, s: set<nat>, r1: set<nat>, r: set<nat>, l: int,
                      output: int, range: Range, lo: UserKey, hi: UserKey)
    requires 0 <= l <= output < |levels| && Progress(levels, input, s, l, output, range)
    requires SameUpTo(levels, s, r1, l - 1) && IsHull(levels, r1, l, lo, hi) && Idle(levels, r1, l)
    requires exists first, last :: IsRun(levels[l], r1, first, last) && (l >= 1 ==> Cut(levels[l], first, last))
    requires SameUpTo(levels, r1, r, l) && Closed(levels, r, l, output, lo, hi) && Forced(levels, input, r, output)
    ensures Progress(levels, input, r, l + 1, output, Range(lo, hi))
  {
    hide Forced, Closed;
    forall k | 0 <= k < l ensures LevelDone(levels, r, k, output) {
      assert SameUpTo(levels, s, r, k);
      DoneStays(levels, s, r, k, output);
    }
    HullSame(levels, r1, r, l, lo, hi);
    DoneNow(levels, r1, r, l, output, lo, hi);
  }

  lemma DoneNow(levels: seq<seq<File>>, r1: set<nat>, r: set<nat>, l: int, output: int, lo: UserKey, hi: UserKey)
    requires 0 <= l <= output < |levels| && SameUpTo(levels, r1, r, l) && IsHull(levels, r, l, lo, hi)
    requires Closed(levels, r, l, output, lo, hi)
    requires exists first, last :: IsRun(levels[l], r1, first, last) && (l >= 1 ==> Cut(levels[l], first, last))
    ensures LevelDone(levels, r, l, output)
  {
    var first, last :| IsRun(levels[l], r1, first, last) && (l >= 1 ==> Cut(levels[l], first, last));
    assert IsRun(levels[l], r, first, last);
    forall lo', hi' | IsHull(levels, r, l, lo', hi') ensures Closed(levels, r, l, output, lo', hi') {
      HullUnique(levels, r, l, lo, hi, lo', hi');
    }
  }

  lemma HullUnique(levels: seq<seq<File>>, s: set<nat>, l: int, lo: UserKey, hi: UserKey, lo': UserKey, hi': UserKey)
    requires 0 <= l < |levels| && IsHull(levels, s, l, lo, hi) && IsHull(levels, s, l, lo', hi')
    ensures lo == lo' && hi == hi'
  {
  }

  /** On success the result contains the request, is one run per level, shares no boundary key with the files left out
      below level 0, contains every deeper file that meets the range of the picks above it, holds nothing that is being
      compacted, and is the least such set; otherwise every such set has a file that is being compacted. */
  method SanitizeForAllLevels(levels: seq<seq<File>>, input: set<nat>, output: int) returns (ok: bool, s: set<nat>)
    requires Levels(levels) && 0 <= output < |levels|
    ensures ok ==> Complete(levels, input, s, output) && Idle(levels, s, output) && Forced(levels, input, s, output)
    ensures !ok ==> Blocked(levels, input, output)
  {
    hide LevelDone, IsHull, Idle, Levels, Closed, SameUpTo;
    s := input;
    var range := NoRange;
    StartProgress(levels, input, output);
    for l := 0 to output + 1
      invariant Progress(levels, input, s, l, output, range)
    {
      var first, last := FindPicked(levels[l], s);
      if last == -1 {
        NoPicks(levels, input, s, l, output, range);
      } else {
        var fine, r1, lo, hi := TakeRun(levels, input, s, l, output, range, first, last);
        if !fine { return false, r1; }
        var r;
        fine, r := IncludeBelow(levels, input, r1, l, output, lo, hi);
        if !fine { return false, r; }
        LevelFinished(levels, input, s, r1, r, l, output, range, lo, hi);
        s, range := r, Range(lo, hi);
      }
    }
    ok := true;
  }

  lemma StartProgress(levels: seq<seq<File>>, input: set<nat>, output: int)
    requires 0 <= output < |levels|
    ensures Progress(levels, input, input, 0, output, NoRange)
  {
  }
}
