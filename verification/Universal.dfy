/** Universal compaction picking (db/compaction_picker.cc, UniversalCompactionPicker): in every run of flushes, picks,
    finished and failed compactions, those in progress own disjoint contiguous runs of at least two files. */
module Universal {

  /** A level-0 file; being is being_compacted. */
  datatype File = File(number: nat, size: nat, compensated: nat, smallestSeqno: nat, largestSeqno: nat, being: bool)

  datatype Options = Options(trigger: nat, sizeRatio: nat, maxSizeAmp: nat, minMergeWidth: nat, maxMergeWidth: nat,
    similarSize: bool)

  const UINT_MAX: nat := 0xffff_ffff

  /** The last attempt admits sizes up to this many percent more than the run before it, that is 42 949 673.95 times. */
  ghost const MAX_RATIO: nat := 4294967295

  function Min(a: nat, b: nat): (r: nat)
    ensures r <= a && r <= b && (r == a || r == b)
  {
    if a < b then a else b
  }

  function Max(a: nat, b: nat): (r: nat)
    ensures r >= a && r >= b && (r == a || r == b)
  {
    if a < b then b else a
  }

  /** None of the files from a up to b is being compacted. */
  ghost predicate Free(files: seq<File>, a: nat, b: nat)
  {
    a <= b <= |files| && forall i :: a <= i < b ==> !files[i].being
  }

  function Mark(files: seq<File>, a: nat, b: nat, being: bool): (r: seq<File>)
    requires a <= b <= |files|
    ensures |r| == |files|
    ensures forall i :: 0 <= i < |files| ==> r[i] == if a <= i < b then files[i].(being := being) else files[i]
  {
    seq(|files|, i requires 0 <= i < |files| => if a <= i < b then files[i].(being := being) else files[i])
  }

  function Numbers(files: seq<File>): (r: seq<nat>)
    ensures |r| == |files| && forall i :: 0 <= i < |files| ==> r[i] == files[i].number
  {
    seq(|files|, i requires 0 <= i < |files| => files[i].number)
  }

  /** File i may join the candidate run that starts at `start` and reaches it: it is idle and not too large beside
      the run, or under the similar-size rule neither too large nor too small beside the file before it. */
  ghost predicate Joins(files: seq<File>, o: Options, ratio: nat, start: nat, i: nat)
    requires start < i < |files|
  {
    var size := if o.similarSize then files[i - 1].compensated else Total(files, start, i);
    && !files[i].being && size * (100 + ratio) >= files[i].size * 100
    && (o.similarSize ==> files[i].size * (100 + ratio) >= size * 100)
  }

  /** n files from `start` on: each joins those before it, and the run is as long as that and the width allow. */
  ghost predicate GreatestRun(files: seq<File>, o: Options, ratio: nat, maxFiles: nat, start: nat, n: nat)
  {
    && 1 <= n && start + n <= |files| && (n == 1 || n <= maxFiles)
    && (forall i :: start < i < start + n ==> Joins(files, o, ratio, start, i))
    && (n >= maxFiles || start + n == |files| || !Joins(files, o, ratio, start, start + n))
  }

  lemma {:induction false} ExtentIs(files: seq<File>, o: Options, ratio: nat, maxFiles: nat, start: nat, i: nat,
                                    count: nat, size: nat)
    requires start < i == start + count <= |files| && (count == 1 || count <= maxFiles)
    requires forall k :: start < k < i ==> Joins(files, o, ratio, start, k)
    requires size == if o.similarSize then files[i - 1].compensated else Total(files, start, i)
    ensures GreatestRun(files, o, ratio, maxFiles, start, Extent(files, o, ratio, maxFiles, i, count, size))
    decreases |files| - i
  {
    if count < maxFiles && i < |files| && Joins(files, o, ratio, start, i) {
      var next := if o.similarSize then files[i].compensated else size + files[i].compensated;
      ExtentIs(files, o, ratio, maxFiles, start, i + 1, count + 1, next);
    }
  }

  /** So in the last attempt an idle file joins whatever is at least a 42 949 673th of it. */
  lemma LastAdmits(files: seq<File>, o: Options, start: nat, i: nat)
    requires start < i < |files| && !o.similarSize && !files[i].being
    ensures files[i].size <= 42949673 * Total(files, start, i) ==> Joins(files, o, MAX_RATIO, start, i)
    ensures files[i].size >= 42949674 * Total(files, start, i) && files[i].size > 0 ==>
      !Joins(files, o, MAX_RATIO, start, i)
  {
  }

  lemma GreatestIsOne(files: seq<File>, o: Options, ratio: nat, maxFiles: nat, start: nat, n: nat, r: nat)
    requires GreatestRun(files, o, ratio, maxFiles, start, r) && 1 <= n < r
    ensures !GreatestRun(files, o, ratio, maxFiles, start, n)
  {
    assert Joins(files, o, ratio, start, start + n);
  }

  /** The run of candidates from an idle file is the greatest that its sizes and the width allow. */
  lemma RunIsGreatest(files: seq<File>, o: Options, ratio: nat, maxFiles: nat, start: nat, n: nat)
    requires start < |files|
    ensures n == RunFrom(files, o, ratio, maxFiles, start) <==> GreatestRun(files, o, ratio, maxFiles, start, n)
  {
    var r := RunFrom(files, o, ratio, maxFiles, start);
    assert Total(files, start, start) == 0;
    ExtentIs(files, o, ratio, maxFiles, start, start + 1, 1, files[start].compensated);
    if 1 <= n < r { GreatestIsOne(files, o, ratio, maxFiles, start, n, r); }
    if r < n && GreatestRun(files, o, ratio, maxFiles, start, n) {
      GreatestIsOne(files, o, ratio, maxFiles, start, r, n);
    }
  }

  /** An idle file whose run is wide enough to compact. */
  ghost predicate LongRun(files: seq<File>, o: Options, ratio: nat, maxNumber: nat, i: int)
  {
    && 0 <= i < |files| && !files[i].being
    && RunFrom(files, o, ratio, Min(o.maxMergeWidth, maxNumber), i) >= Max(o.minMergeWidth, 2)
  }

  ghost predicate FirstLong(files: seq<File>, o: Options, ratio: nat, maxNumber: nat, i: int)
  {
    LongRun(files, o, ratio, maxNumber, i) && forall k :: 0 <= k < i ==> !LongRun(files, o, ratio, maxNumber, k)
  }

  /** What PickCompaction takes, n files from i on: with size amplification everything from the first idle file; else
      the first run that the size ratio admits; else the first run of any sizes and no more files than exceed the
      trigger. */
  ghost predicate Chosen(files: seq<File>, o: Options, i: nat, n: nat)
  {
    if |files| < o.trigger then false
    else if exists k :: Amplified(files, o, k) then Amplified(files, o, i) && n == |files| - i
    else if exists k :: LongRun(files, o, o.sizeRatio, MAX_RATIO, k) then
      && FirstLong(files, o, o.sizeRatio, MAX_RATIO, i)
      && n == RunFrom(files, o, o.sizeRatio, Min(o.maxMergeWidth, MAX_RATIO), i)
    else
      var spare := |files| - o.trigger;
      FirstLong(files, o, MAX_RATIO, spare, i) && n == RunFrom(files, o, MAX_RATIO, Min(o.maxMergeWidth, spare), i)
  }

  /** How many files a candidate run has when it stands at i with `count` files of size `size`: it goes on while the
      next file is idle and not too large, and under the similar-size rule not too small either. */
  function Extent(files: seq<File>, o: Options, ratio: nat, maxFiles: nat, i: nat, count: nat, size: nat): (n: nat)
    decreases |files| - i
  {
    if count >= maxFiles || i >= |files| || files[i].being || size * (100 + ratio) < files[i].size * 100 then count
    else if o.similarSize && files[i].size * (100 + ratio) < size * 100 then count
    else
      var next := if o.similarSize then files[i].compensated else size + files[i].compensated;
      Extent(files, o, ratio, maxFiles, i + 1, count + 1, next)
  }

  /** The length of the run of candidates that starts at an idle file. */
  function RunFrom(files: seq<File>, o: Options, ratio: nat, maxFiles: nat, start: nat): (n: nat)
    requires start < |files|
  {
    Extent(files, o, ratio, maxFiles, start + 1, 1, files[start].compensated)
  }

  /** The total compensated size of the files from a up to b. */
  function Total(files: seq<File>, a: nat, b: nat): (n: nat)
    requires a <= b <= |files|
    decreases b - a
  {
    if a == b then 0 else Total(files, a, b - 1) + files[b - 1].compensated
  }

  /** The first idle file before the last, if there is one. */
  ghost predicate FirstIdle(files: seq<File>, start: int)
  {
    0 <= start < |files| - 1 && !files[start].being && forall i :: 0 <= i < start ==> files[i].being
  }

  /** The newer files, all idle from `start` on, outweigh the oldest one. */
  ghost predicate Amplified(files: seq<File>, o: Options, start: int)
  {
    && FirstIdle(files, start) && Free(files, start, |files| - 1)
    && Total(files, start, |files| - 1) * 100 >= o.maxSizeAmp * files[|files| - 1].size
  }

  // ---------------------------------------------------------------- who owns which files

  /** Distinct file numbers, and newest first with disjoint sequence number ranges. */
  ghost predicate Listed(files: seq<File>)
  {
    && (forall i, k :: 0 <= i < k < |files| ==> files[i].number != files[k].number)
    && (forall i :: 0 <= i < |files| ==> files[i].smallestSeqno <= files[i].largestSeqno)
    && (forall i, k :: 0 <= i < k < |files| ==> files[i].smallestSeqno > files[k].largestSeqno)
  }

  /** The inputs of a compaction are the files from a on, all marked. */
  ghost predicate Owns(files: seq<File>, inputs: seq<nat>, a: nat)
  {
    && |inputs| >= 2 && a + |inputs| <= |files|
    && (forall i :: 0 <= i < |inputs| ==> files[a + i].number == inputs[i])
    && (forall i :: a <= i < a + |inputs| ==> files[i].being)
  }

  ghost predicate Covers(jobs: map<nat, seq<nat>>, at: map<nat, nat>, j: nat, i: int)
  {
    j in jobs && j in at && at[j] <= i < at[j] + |jobs[j]|
  }

  ghost predicate Apart(jobs: map<nat, seq<nat>>, at: map<nat, nat>, j: nat, k: nat)
    requires j in jobs && k in jobs && j in at && k in at
  {
    at[j] + |jobs[j]| <= at[k] || at[k] + |jobs[k]| <= at[j]
  }

  /** Compactions in progress own disjoint contiguous runs of at least two files, and only their files are marked. */
  ghost predicate Owned(files: seq<File>, jobs: map<nat, seq<nat>>, at: map<nat, nat>)
  {
    && at.Keys == jobs.Keys && (forall j :: j in jobs ==> Owns(files, jobs[j], at[j]))
    && (forall j, k :: j in jobs && k in jobs && j != k ==> Apart(jobs, at, j, k))
    && (forall i :: 0 <= i < |files| && files[i].being ==> exists j :: Covers(jobs, at, j, i))
  }

  /** A compaction on the last file would also own the file before it. */
  lemma LastIsIdle(files: seq<File>, jobs: map<nat, seq<nat>>, at: map<nat, nat>)
    requires Owned(files, jobs, at) && |files| >= 2
    ensures files[|files| - 1].being ==> files[|files| - 2].being
  {
    var last := |files| - 1;
    if files[last].being {
      var j :| Covers(jobs, at, j, last);
      assert Owns(files, jobs[j], at[j]);
    }
  }

  /** Idle files meet no run in progress. */
  lemma FreeIsApart(files: seq<File>, jobs: map<nat, seq<nat>>, at: map<nat, nat>, a: nat, b: nat, j: nat)
    requires Owned(files, jobs, at) && Free(files, a, b) && a < b && j in jobs
    ensures at[j] + |jobs[j]| <= a || b <= at[j]
  {
    assert Owns(files, jobs[j], at[j]);
    var x := Max(at[j], a);
    assert x < at[j] + |jobs[j]| ==> files[x].being;
    assert x < b ==> !files[x].being;
  }

  lemma RegisterOwned(files: seq<File>, jobs: map<nat, seq<nat>>, at: map<nat, nat>, job: nat, a: nat, b: nat)
    requires Owned(files, jobs, at) && job !in jobs && Free(files, a, b) && b - a >= 2
    ensures Owned(Mark(files, a, b, true), jobs[job := Numbers(files[a..b])], at[job := a])
  {
    var files', jobs', at' := Mark(files, a, b, true), jobs[job := Numbers(files[a..b])], at[job := a];
    forall j | j in jobs' ensures Owns(files', jobs'[j], at'[j]) {
      if j != job { assert Owns(files, jobs[j], at[j]); }
    }
    forall j, k | j in jobs' && k in jobs' && j != k ensures Apart(jobs', at', j, k) {
      if j != job && k != job {
        assert Apart(jobs, at, j, k);
      } else {
        FreeIsApart(files, jobs, at, a, b, if j == job then k else j);
      }
    }
    forall i | 0 <= i < |files'| && files'[i].being ensures exists j :: Covers(jobs', at', j, i) {
      if a <= i < b {
        assert Covers(jobs', at', job, i);
      } else {
        var j :| Covers(jobs, at, j, i);
        assert Covers(jobs', at', j, i);
      }
    }
  }

  /** Two compactions in progress share no input. */
  lemma InputsDisjoint(files: seq<File>, jobs: map<nat, seq<nat>>, at: map<nat, nat>, j: nat, k: nat, n: nat)
    requires Listed(files) && Owned(files, jobs, at) && j in jobs && k in jobs && j != k && n in jobs[j]
    ensures n !in jobs[k]
  {
    assert Owns(files, jobs[j], at[j]) && Owns(files, jobs[k], at[k]) && Apart(jobs, at, j, k);
    var x :| 0 <= x < |jobs[j]| && jobs[j][x] == n;
    forall y | 0 <= y < |jobs[k]| ensures jobs[k][y] != n {
      assert files[at[j] + x].number == n && files[at[k] + y].number == jobs[k][y];
    }
  }

  lemma ReleaseOwned(files: seq<File>, jobs: map<nat, seq<nat>>, at: map<nat, nat>, job: nat)
    requires Owned(files, jobs, at) && job in jobs
    ensures at[job] + |jobs[job]| <= |files|
    ensures Owned(Mark(files, at[job], at[job] + |jobs[job]|, false), jobs - {job}, at - {job})
  {
    assert Owns(files, jobs[job], at[job]);
    var a, b := at[job], at[job] + |jobs[job]|;
    var files', jobs', at' := Mark(files, a, b, false), jobs - {job}, at - {job};
    forall j | j in jobs' ensures Owns(files', jobs'[j], at'[j]) {
      assert Apart(jobs, at, j, job);
      OthersStay(files, jobs[j], at[j], a, b);
    }
    hide Owns;
    forall j, k | j in jobs' && k in jobs' && j != k ensures Apart(jobs', at', j, k) {
      assert Apart(jobs, at, j, k);
    }
    forall i | 0 <= i < |files'| && files'[i].being ensures exists j :: Covers(jobs', at', j, i) {
      var j := CoveredBy(files, jobs, at, i);
      assert Covers(jobs', at', j, i);
    }
  }

  lemma OthersStay(files: seq<File>, inputs: seq<nat>, p: nat, a: nat, b: nat)
    requires Owns(files, inputs, p) && a <= b <= |files| && (p + |inputs| <= a || b <= p)
    ensures Owns(Mark(files, a, b, false), inputs, p)
  {
  }

  function Shift(at: map<nat, nat>, a: nat, n: nat, m: nat): map<nat, nat>
  {
    map j | j in at :: if at[j] < a || at[j] < n then at[j] else at[j] - n + m
  }

  function Replace(files: seq<File>, a: nat, n: nat, out: seq<File>): seq<File>
    requires a + n <= |files|
  {
    files[..a] + out + files[a + n..]
  }

  lemma ReplaceOwns(files: seq<File>, inputs: seq<nat>, p: nat, a: nat, n: nat, out: seq<File>)
    requires Owns(files, inputs, p) && a + n <= |files| && (p + |inputs| <= a || a + n <= p)
    ensures Owns(Replace(files, a, n, out), inputs, if p < a then p else p - n + |out|)
  {
    var r := Replace(files, a, n, out);
    if p + |inputs| <= a {
      assert forall i :: 0 <= i < a ==> r[i] == files[i];
    } else {
      assert forall i :: a + n <= i < |files| ==> r[i - n + |out|] == files[i];
      forall i | 0 <= i < |inputs| ensures r[p - n + |out| + i].number == inputs[i] {
        assert r[p - n + |out| + i] == files[p + i];
      }
      forall i | p - n + |out| <= i < p - n + |out| + |inputs| ensures r[i].being {
        assert r[i] == files[i + n - |out|];
      }
    }
  }

  lemma OwnsSome(files: seq<File>, inputs: seq<nat>, a: nat)
    requires Owns(files, inputs, a)
    ensures |inputs| > 0
  {
  }

  /** Idle files of a list are replaced by other idle files; the runs in progress keep their files. */
  lemma ReplaceOwned(files: seq<File>, jobs: map<nat, seq<nat>>, at: map<nat, nat>, a: nat, n: nat, out: seq<File>)
    requires Owned(files, jobs, at) && Free(files, a, a + n) && (n == 0 ==> a == 0) && Free(out, 0, |out|)
    ensures Owned(Replace(files, a, n, out), jobs, Shift(at, a, n, |out|))
  {
    hide Replace, Owns;
    var r, at' := Replace(files, a, n, out), Shift(at, a, n, |out|);
    forall j | j in jobs ensures |jobs[j]| > 0 && (at[j] + |jobs[j]| <= a || a + n <= at[j]) {
      OwnsSome(files, jobs[j], at[j]);
      if n > 0 { FreeIsApart(files, jobs, at, a, a + n, j); }
    }
    forall j | j in jobs ensures Owns(r, jobs[j], at'[j]) {
      ReplaceOwns(files, jobs[j], at[j], a, n, out);
    }
    forall j, k | j in jobs && k in jobs && j != k ensures Apart(jobs, at', j, k) {
      assert Apart(jobs, at, j, k);
    }
    forall i | 0 <= i < |r| && r[i].being ensures exists j :: Covers(jobs, at', j, i) {
      ReplaceCovers(files, jobs, at, a, n, out, i);
    }
  }

  lemma ReplaceCovers(files: seq<File>, jobs: map<nat, seq<nat>>, at: map<nat, nat>, a: nat, n: nat, out: seq<File>,
                      i: nat)
    requires Owned(files, jobs, at) && a + n <= |files| && Free(out, 0, |out|)
    requires forall j :: j in jobs ==> |jobs[j]| > 0 && (at[j] + |jobs[j]| <= a || a + n <= at[j])
    requires i < |Replace(files, a, n, out)| && Replace(files, a, n, out)[i].being
    ensures exists j :: Covers(jobs, Shift(at, a, n, |out|), j, i)
  {
    var i' := if i < a then i else i - |out| + n;
    assert i < a || i >= a + |out|;
    assert files[i'].being;
    hide Owned;
    var j := CoveredBy(files, jobs, at, i');
    assert Covers(jobs, Shift(at, a, n, |out|), j, i);
  }

  lemma CoveredBy(files: seq<File>, jobs: map<nat, seq<nat>>, at: map<nat, nat>, i: nat) returns (j: nat)
    requires Owned(files, jobs, at) && i < |files| && files[i].being
    ensures Covers(jobs, at, j, i)
  {
    j :| Covers(jobs, at, j, i);
  }

  /** What a compaction of the files from a to b may put in their place: one file, in their sequence number range. */
  ghost predicate Fits(files: seq<File>, a: nat, b: nat, f: File)
    requires a < b <= |files|
  {
    && !f.being && f.smallestSeqno <= f.largestSeqno <= files[a].largestSeqno
    && (b < |files| ==> files[b - 1].smallestSeqno <= f.smallestSeqno)
    && forall i :: 0 <= i < |files| && !(a <= i < b) ==> files[i].number != f.number
  }

  lemma FitsIdle(files: seq<File>, a: nat, b: nat, out: seq<File>)
    requires a < b <= |files| && |out| <= 1 && (out != [] ==> Fits(files, a, b, out[0]))
    ensures Free(out, 0, |out|)
  {
  }

  lemma ReplaceListed(files: seq<File>, a: nat, b: nat, out: seq<File>)
    requires Listed(files) && a < b <= |files| && |out| <= 1 && (out != [] ==> Fits(files, a, b, out[0]))
    ensures Listed(Replace(files, a, b - a, out))
  {
    var r := Replace(files, a, b - a, out);
    forall i, k | 0 <= i < k < |r| ensures r[i].number != r[k].number && r[i].smallestSeqno > r[k].largestSeqno {
      var i' := if i < a then i else i - |out| + (b - a);
      var k' := if k < a then k else k - |out| + (b - a);
      assert i < a || i >= a + |out| ==> r[i] == files[i'];
      assert k < a || k >= a + |out| ==> r[k] == files[k'];
    }
  }

  class Picker {
    const options: Options
    var files: seq<File>                  // level 0, newest first
    var jobs: map<nat, seq<nat>>          // compactions_in_progress_: the numbers of each one's inputs
    ghost var at: map<nat, nat>           // where each one's inputs start

    constructor (options: Options)
      ensures this.options == options && Valid() && files == [] && jobs == map[]
    {
      this.options, files, jobs, at := options, [], map[], map[];
    }

    ghost predicate Valid()
      reads this
    {
      Listed(files) && Owned(files, jobs, at)
    }

    // -------------------------------------------------------------- picking

    /** Files that follow the candidate at `loop` as long as their sizes fit. */
    method Extend(loop: nat, ratio: nat, maxFiles: nat) returns (count: nat)
      requires loop < |files| && !files[loop].being
      ensures 1 <= count && Free(files, loop, loop + count) && (count == 1 || count <= maxFiles)
      ensures count == RunFrom(files, options, ratio, maxFiles, loop)
      ensures GreatestRun(files, options, ratio, maxFiles, loop, count)
    {
      count := 1;
      var size: nat := files[loop].compensated;
      var i := loop + 1;
      while count < maxFiles && i < |files|
        invariant i == loop + count <= |files| && Free(files, loop, i) && (count == 1 || count <= maxFiles)
        invariant RunFrom(files, options, ratio, maxFiles, loop) ==
          Extent(files, options, ratio, maxFiles, i, count, size)
        decreases |files| - i
      {
        var f := files[i];
        if f.being || size * (100 + ratio) < f.size * 100 { break; }
        if options.similarSize {
          if f.size * (100 + ratio) < size * 100 { break; }
          size := f.compensated;
        } else {
          size := size + f.compensated;
        }
        count := count + 1;
        i := i + 1;
      }
      RunIsGreatest(files, options, ratio, maxFiles, loop, count);
    }

    /** PickCompactionUniversalReadAmp: the first idle file whose run is long enough; count is 0 when there is none. */
    method ReadAmp(ratio: nat, maxNumber: nat) returns (start: nat, count: nat)
      ensures count > 0 ==> count >= 2 && Free(files, start, start + count)
      ensures count > 0 ==> Max(options.minMergeWidth, 2) <= count <= Min(options.maxMergeWidth, maxNumber)
      ensures count > 0 ==> FirstLong(files, options, ratio, maxNumber, start)
      ensures count > 0 ==> count == RunFrom(files, options, ratio, Min(options.maxMergeWidth, maxNumber), start)
      ensures count == 0 ==> forall i :: !LongRun(files, options, ratio, maxNumber, i)
    {
      var maxFiles := Min(options.maxMergeWidth, maxNumber);
      var minWidth := Max(options.minMergeWidth, 2);
      var loop := 0;
      while loop < |files|
        invariant forall i :: 0 <= i < loop ==> !LongRun(files, options, ratio, maxNumber, i)
        decreases |files| - loop
      {
        while loop < |files| && files[loop].being
          invariant forall i :: 0 <= i < loop ==> !LongRun(files, options, ratio, maxNumber, i)
        {
          loop := loop + 1;
        }
        if loop < |files| {
          count := Extend(loop, ratio, maxFiles);
          if count >= minWidth { return loop, count; }
        }
        loop := loop + 1;
      }
      return 0, 0;
    }

    /** PickCompactionUniversalSizeAmp: everything from the first idle file to the last, whose mark is never read. */
    method SizeAmp() returns (start: nat, count: nat)
      requires Valid() && files != []
      ensures count > 0 ==> count >= 2 && start + count == |files| && Free(files, start, |files|)
      ensures count > 0 ==> Amplified(files, options, start)
      ensures count == 0 ==> forall i :: !Amplified(files, options, i)
    {
      hide Valid;
      start := 0;
      while start < |files| - 1 && files[start].being
        invariant start <= |files| - 1 && forall i :: 0 <= i < start ==> files[i].being
      {
        start := start + 1;
      }
      if start == |files| - 1 { return 0, 0; }
      assert forall i :: FirstIdle(files, i) ==> i == start;
      var size := 0;
      var loop := start;
      while loop < |files| - 1
        invariant start <= loop <= |files| - 1 && Free(files, start, loop) && size == Total(files, start, loop)
      {
        if files[loop].being { return 0, 0; }
        size := size + files[loop].compensated;
        loop := loop + 1;
      }
      if size * 100 < options.maxSizeAmp * files[|files| - 1].size { return 0, 0; }
      Idle(start);
      count := |files| - start;
    }

    lemma Idle(start: nat)
      requires Valid() && start < |files| - 1 && Free(files, start, |files| - 1)
      ensures Free(files, start, |files|)
    {
      LastIsIdle(files, jobs, at);
    }

    /** PickCompaction: it owns from then on what there is to take, and picks nothing exactly if there is nothing. */
    method Pick(job: nat) returns (picked: bool, ghost start: nat, ghost count: nat)
      requires Valid() && job !in jobs && options.trigger >= 1
      modifies this
      ensures Valid() && Numbers(files) == old(Numbers(files))
      ensures picked ==> Chosen(old(files), options, start, count) && start + count <= |old(files)|
      ensures picked ==> jobs == old(jobs)[job := Numbers(old(files)[start..start + count])]
      ensures !picked ==> jobs == old(jobs) && files == old(files) && forall i, n :: !Chosen(files, options, i, n)
    {
      hide Valid, Amplified, LongRun;
      if |files| < options.trigger { return false, 0, 0; }
      var a, n := SizeAmp();
      if n == 0 {
        a, n := ReadAmp(options.sizeRatio, UINT_MAX);
        if n == 0 {
          a, n := ReadAmp(UINT_MAX, |files| - options.trigger);
        }
      }
      if n == 0 { return false, 0, 0; }
      start, count := a, n;
      Register(job, a, n);
      picked := true;
    }

    /** MarkFilesBeingCompacted and the insertion into compactions_in_progress_. */
    method Register(job: nat, start: nat, count: nat)
      requires Valid() && job !in jobs && count >= 2 && Free(files, start, start + count)
      modifies this
      ensures Valid() && Numbers(files) == old(Numbers(files))
      ensures jobs == old(jobs)[job := Numbers(old(files)[start..start + count])]
    {
      hide Owned;
      RegisterOwned(files, jobs, at, job, start, start + count);
      jobs := jobs[job := Numbers(files[start..start + count])];
      files := Mark(files, start, start + count, true);
      at := at[job := start];
    }

    // -------------------------------------------------------------- the files change

    /** A flush adds the newest file. */
    method Flush(f: File)
      requires Valid() && !f.being && f.smallestSeqno <= f.largestSeqno
      requires forall i :: 0 <= i < |files| ==> files[i].number != f.number && files[i].largestSeqno < f.smallestSeqno
      modifies this
      ensures Valid() && files == [f] + old(files) && jobs == old(jobs)
    {
      hide Owned;
      ReplaceOwned(files, jobs, at, 0, 0, [f]);
      assert Replace(files, 0, 0, [f]) == [f] + files;
      files := [f] + files;
      at := Shift(at, 0, 0, 1);
    }

    /** ReleaseCompactionFiles after a failure: the files are idle again. */
    method Release(job: nat)
      requires Valid() && job in jobs
      modifies this
      ensures Valid() && jobs == old(jobs) - {job} && at == old(at) - {job}
      ensures old(at)[job] + |old(jobs)[job]| <= |files|
      ensures files == Mark(old(files), old(at)[job], old(at)[job] + |old(jobs)[job]|, false)
    {
      hide Owned;
      ReleaseOwned(files, jobs, at, job);
      var a := Find(job);
      files := Mark(files, a, a + |jobs[job]|, false);
      jobs := jobs - {job};
      at := at - {job};
    }

    /** Where the inputs of a compaction are. */
    method Find(job: nat) returns (a: nat)
      requires Valid() && job in jobs
      ensures a == at[job]
    {
      assert Owns(files, jobs[job], at[job]);
      assert files[at[job] + 0].number == jobs[job][0];
      a := 0;
      while files[a].number != jobs[job][0]
        invariant a <= at[job]
        decreases |files| - a
      {
        a := a + 1;
      }
    }

    /** A compaction ends well: its output, if any, takes the place of its inputs.  Level 0 has no file size limit, so
        there is at most one. */
    method Finish(job: nat, output: seq<File>)
      requires Valid() && job in jobs && |output| <= 1
      requires at[job] + |jobs[job]| <= |files| && |jobs[job]| > 0
      requires output != [] ==> Fits(files, at[job], at[job] + |jobs[job]|, output[0])
      modifies this
      ensures Valid() && jobs == old(jobs) - {job}
      ensures files == Replace(old(files), old(at)[job], |old(jobs)[job]|, output)
    {
      hide Owned, Listed, Fits;
      var a := Find(job);
      var n := |jobs[job]|;
      ReplaceListed(files, a, a + n, output);
      FitsIdle(files, a, a + n, output);
      Release(job);
      ReplaceOwned(files, jobs, at, a, n, output);
      assert Replace(files, a, n, output) == Replace(old(files), a, n, output);
      files := Replace(files, a, n, output);
      at := Shift(at, a, n, |output|);
    }
  }
}
