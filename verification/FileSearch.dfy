/** The level by level search with hints (FilePicker in db/version_set.cc): exactly which files it misses. */
module FileSearch {
  import opened DbFormat
  import opened FileIndexer

  /** The largest internal key of the file is at or past (key, seqno). */
  predicate Reaches(f: File, key: UserKey, seqno: nat)
  {
    f.largest > key || (f.largest == key && f.largestSeqno <= seqno)
  }

  predicate Holds(f: File, key: UserKey)
  {
    f.smallest <= key <= f.largest
  }

  /** Binary search: the first file of the range that reaches the internal key, or the last of the range. */
  method FindFileInRange(files: seq<File>, key: UserKey, seqno: nat, left: nat, right: nat) returns (r: nat)
    requires LevelSorted(files) && left <= right < |files|
    ensures left <= r <= right
    ensures forall i :: left <= i < r ==> !Reaches(files[i], key, seqno)
    ensures r < right ==> Reaches(files[r], key, seqno)
  {
    var lo, hi := left, right;
    while lo < hi
      invariant left <= lo <= hi <= right
      invariant forall i :: left <= i < lo ==> !Reaches(files[i], key, seqno)
      invariant hi < right ==> Reaches(files[hi], key, seqno)
    {
      var mid := (lo + hi) / 2;
      if !Reaches(files[mid], key, seqno) { lo := mid + 1; } else { hi := mid; }
    }
    r := hi;
  }

  datatype Probe = Probe(level: nat, index: nat)

  const LEVEL_MAX_INDEX := 0x7fff_ffff

  // ---------------------------------------------------------------- what a hint loses

  /** How many files of the level have this user key as their smallest, and how many as their largest. */
  function Starts(files: seq<File>, key: UserKey): int
  {
    AtMost(Smallest(files), key) - Below(Smallest(files), key)
  }

  function Ends(files: seq<File>, key: UserKey): int
  {
    AtMost(Largest(files), key) - Below(Largest(files), key)
  }

  /** A search for the key leaves the level on a file that starts with it: the last such file, unless it also ends
      with it and others follow. */
  predicate LeavesAtStart(files: seq<File>, key: UserKey)
  {
    var m := AtMost(Smallest(files), key) - 1;
    Starts(files, key) > 0 && 0 <= m < |files| && (m == |files| - 1 || files[m].largest > key)
  }

  /** How many of the lower level's files that end with the key the hint skips: as many as there are files of the
      upper level that share the bound the hint is taken from, less one. */
  function Lost(upper: seq<File>, lower: seq<File>, key: UserKey): int
  {
    var shared := if LeavesAtStart(upper, key) then Starts(upper, key) else Ends(upper, key);
    Min(Max(shared - 1, 0), Ends(lower, key))
  }

  /** The bounds keep every file that holds the key but the first `lost` of those that end with it. */
  ghost predicate Guards(files: seq<File>, key: UserKey, left: int, right: int, lost: int)
  {
    var p := Below(Largest(files), key);
    && 0 <= left <= right + 1 && right < |files| && 0 <= lost <= Ends(files, key) && (lost > 0 ==> p + lost <= left)
    && (forall j :: 0 <= j < left && j < |files| ==> files[j].largest <= key && j < p + lost)
    && (forall j :: 0 <= j < |files| && right < j ==> files[j].smallest > key)
  }

  lemma LevelCounts(files: seq<File>, key: UserKey)
    requires LevelSorted(files)
    ensures var s, b := Below(Smallest(files), key), Below(Largest(files), key);
      && 0 <= s <= AtMost(Smallest(files), key) <= |files| && b <= AtMost(Largest(files), key)
      && b <= s && AtMost(Largest(files), key) <= AtMost(Smallest(files), key)
    ensures forall i :: 0 <= i < |files| ==>
      && (i < Below(Smallest(files), key) <==> files[i].smallest < key)
      && (i < AtMost(Smallest(files), key) <==> files[i].smallest <= key)
      && (i < Below(Largest(files), key) <==> files[i].largest < key)
      && (i < AtMost(Largest(files), key) <==> files[i].largest <= key)
  {
    LevelRises(files);
    Counts(Smallest(files), key);
    Counts(Largest(files), key);
    hide Below, AtMost;
    var s, b, m := Below(Smallest(files), key), Below(Largest(files), key), AtMost(Largest(files), key);
    assert b > 0 ==> files[b - 1].largest < key;
    assert m > 0 ==> files[m - 1].largest <= key;
  }

  /** Whatever the index, a left bound skips only files that end at or below the key it was computed for. */
  lemma LeftSkipsUpTo(upper: seq<UserKey>, lower: seq<UserKey>, u: nat)
    requires Rising(upper) && Rising(lower) && u < |upper|
    ensures Below(lower, upper[u]) <= LeftIndex(upper, lower, u) <= AtMost(lower, upper[u]) <= |lower|
  {
    hide Below, AtMost;
    Counts(lower, upper[u]);
    Counts(upper, upper[u]);
  }

  lemma RightSkipsFrom(upper: seq<UserKey>, lower: seq<UserKey>, u: nat)
    requires Rising(upper) && Rising(lower) && u < |upper|
    ensures Below(lower, upper[u]) - 1 <= RightIndex(upper, lower, u) < AtMost(lower, upper[u]) <= |lower|
  {
    hide Below, AtMost;
    Counts(lower, upper[u]);
    Counts(upper, upper[u]);
  }

  /** v is where a search for the key leaves the level. */
  ghost predicate LeavesAt(fs: seq<File>, key: UserKey, v: nat)
  {
    && v < |fs| && (v > 0 ==> fs[v - 1].largest <= key) && (v == |fs| - 1 || fs[v].largest != key)
    && (fs[v].largest < key ==> forall j :: v < j < |fs| ==> fs[j].smallest > key)
  }

  /** The left end keeps everything that does not end with the key or before it. */
  ghost predicate LeftKeeps(fs: seq<File>, lower: seq<File>, key: UserKey, left: int)
  {
    var p, lost := Below(Largest(lower), key), Lost(fs, lower, key);
    0 <= left && 0 <= lost && if lost > 0 then left == p + lost else left <= p
  }

  lemma LeftBeforeFile(fs: seq<File>, lower: seq<File>, key: UserKey, v: nat)
    requires LevelSorted(fs) && LevelSorted(lower) && LeavesAt(fs, key, v) && key < fs[v].smallest
    ensures LeftKeeps(fs, lower, key, HintLeft(fs, lower, v, key))
  {
    LevelRises(fs);
    LevelRises(lower);
    AtMostIs(Largest(fs), key, v);
    AtMostIs(Smallest(fs), key, v);
    hide Below, AtMost, LevelSorted, Rising, RightIndex;
    Counts(Largest(lower), key);
    Counts(Largest(fs), key);
    Counts(Smallest(fs), key);
    if v == 0 {
    } else if fs[v - 1].largest < key {
      BelowIs(Largest(fs), key, v);
      BelowIs(Smallest(fs), key, v);
      LeftSkipsUpTo(Largest(fs), Largest(lower), v - 1);
      SmallerKey(Largest(lower), fs[v - 1].largest, key);
    }
  }

  lemma LeftAtStart(fs: seq<File>, lower: seq<File>, key: UserKey, v: nat)
    requires LevelSorted(fs) && LevelSorted(lower) && LeavesAt(fs, key, v) && key == fs[v].smallest
    ensures LeftKeeps(fs, lower, key, HintLeft(fs, lower, v, key))
  {
    LevelRises(fs);
    LevelRises(lower);
    AtMostIs(Smallest(fs), key, v + 1);
    hide Below, AtMost, LevelSorted, Rising, RightIndex;
    Counts(Largest(lower), key);
    Counts(Smallest(fs), key);
  }

  /** No file of the level shares a bound with the key, or only the last one, with its largest. */
  lemma NothingLost(fs: seq<File>, lower: seq<File>, key: UserKey)
    requires LevelSorted(lower) && Starts(fs, key) <= 0 && Ends(fs, key) <= 1
    ensures Lost(fs, lower, key) == 0
  {
    LevelRises(lower);
    hide Below, AtMost;
    Counts(Largest(lower), key);
  }

  lemma LeftInside(fs: seq<File>, lower: seq<File>, key: UserKey, v: nat)
    requires LevelSorted(fs) && LevelSorted(lower) && LeavesAt(fs, key, v) && fs[v].smallest < key <= fs[v].largest
    ensures LeftKeeps(fs, lower, key, HintLeft(fs, lower, v, key))
  {
    LevelRises(fs);
    LevelRises(lower);
    BelowIs(Largest(fs), key, v);
    AtMostIs(Largest(fs), key, if key == fs[v].largest then v + 1 else v);
    BelowIs(Smallest(fs), key, v + 1);
    AtMostIs(Smallest(fs), key, v + 1);
    NothingLost(fs, lower, key);
    hide Below, AtMost, LevelSorted, Rising, RightIndex, Lost;
    Counts(Largest(lower), key);
    LeftSkipsUpTo(Smallest(fs), Largest(lower), v);
    SmallerKey(Largest(lower), fs[v].smallest, key);
  }

  lemma LeftPast(fs: seq<File>, lower: seq<File>, key: UserKey, v: nat)
    requires LevelSorted(fs) && LevelSorted(lower) && LeavesAt(fs, key, v) && fs[v].largest < key
    ensures LeftKeeps(fs, lower, key, HintLeft(fs, lower, v, key))
  {
    LevelRises(fs);
    LevelRises(lower);
    BelowIs(Largest(fs), key, v + 1);
    AtMostIs(Largest(fs), key, v + 1);
    BelowIs(Smallest(fs), key, v + 1);
    AtMostIs(Smallest(fs), key, v + 1);
    NothingLost(fs, lower, key);
    hide Below, AtMost, LevelSorted, Rising, RightIndex, Lost;
    LeftSkipsUpTo(Largest(fs), Largest(lower), v);
    SmallerKey(Largest(lower), fs[v].largest, key);
  }

  lemma RightKeeps(fs: seq<File>, lower: seq<File>, key: UserKey, v: nat)
    requires LevelSorted(fs) && LevelSorted(lower) && LeavesAt(fs, key, v)
    ensures AtMost(Smallest(lower), key) - 1 <= HintRight(fs, lower, v, key) < |lower|
  {
    LevelRises(fs);
    LevelRises(lower);
    if key == fs[v].smallest { AtMostIs(Smallest(fs), key, v + 1); }
    if key == fs[v].largest { AtMostIs(Largest(fs), key, v + 1); }
    hide Below, AtMost, LevelSorted, Rising, LeftIndex;
    Counts(Smallest(lower), key);
    RightSkipsFrom(Smallest(fs), Smallest(lower), v);
    RightSkipsFrom(Largest(fs), Smallest(lower), v);
    if key < fs[v].smallest { SmallerKey(Smallest(lower), key, fs[v].smallest); }
    if key < fs[v].largest { SmallerKey(Smallest(lower), key, fs[v].largest); }
  }

  /** What the hint of the file at which the search leaves a level keeps and loses. */
  lemma HintGuards(fs: seq<File>, lower: seq<File>, key: UserKey, v: nat)
    requires LevelSorted(fs) && LevelSorted(lower) && LeavesAt(fs, key, v)
    ensures Guards(lower, key, HintLeft(fs, lower, v, key), HintRight(fs, lower, v, key), Lost(fs, lower, key))
  {
    RightKeeps(fs, lower, key, v);
    LevelCounts(lower, key);
    hide HintLeft, HintRight, Below, AtMost, LevelSorted;
    if key < fs[v].smallest {
      LeftBeforeFile(fs, lower, key, v);
    } else if key == fs[v].smallest {
      LeftAtStart(fs, lower, key, v);
    } else if key <= fs[v].largest {
      LeftInside(fs, lower, key, v);
    } else {
      LeftPast(fs, lower, key, v);
    }
  }

  lemma HintInRange(fs: seq<File>, lower: seq<File>, key: UserKey, i: nat)
    requires LevelSorted(fs) && LevelSorted(lower) && i < |fs|
    ensures 0 <= HintLeft(fs, lower, i, key) <= |lower| && -1 <= HintRight(fs, lower, i, key) < |lower|
  {
    LevelRises(fs);
    LevelRises(lower);
    hide Below, AtMost, LevelSorted, LeftIndex, RightIndex;
    LeftSkipsUpTo(Smallest(fs), Largest(lower), i);
    LeftSkipsUpTo(Largest(fs), Largest(lower), i);
    if i > 0 { LeftSkipsUpTo(Largest(fs), Largest(lower), i - 1); }
    RightSkipsFrom(Smallest(fs), Smallest(lower), i);
    RightSkipsFrom(Largest(fs), Smallest(lower), i);
  }

  // ---------------------------------------------------------------- one level

  /** The first `lost` files that end with the key. */
  ghost predicate IsLost(files: seq<File>, key: UserKey, lost: int, i: int)
    requires 0 <= i < |files|
  {
    files[i].largest == key && i < Below(Largest(files), key) + lost
  }

  /** The files looked into at one level hold the key, and those that may hold a visible version are looked into
      exactly if they are not lost. */
  ghost predicate ProbedBut(files: seq<File>, level: nat, key: UserKey, seqno: nat, probes: set<Probe>, lost: int)
  {
    && (forall i: nat :: Probe(level, i) in probes ==> i < |files| && Holds(files[i], key))
    && (forall i :: 0 <= i < |files| && Holds(files[i], key) && Reaches(files[i], key, seqno) ==>
        (Probe(level, i) in probes <==> !IsLost(files, key, lost, i)))
  }

  /** start is where the search of a level begins: the first file in the bounds that reaches the key, or their end. */
  ghost predicate Narrowed(fs: seq<File>, key: UserKey, seqno: nat, left: int, start: nat, top: int)
  {
    && LevelSorted(fs) && 0 <= left <= start <= top < |fs|
    && (forall i :: left <= i < start ==> !Reaches(fs[i], key, seqno))
    && (start < top ==> Reaches(fs[start], key, seqno))
  }

  /** The files visited: from start on while the key is their largest. */
  ghost predicate Visited(fs: seq<File>, key: UserKey, start: nat, v: nat)
  {
    start <= v < |fs| && (v == |fs| - 1 || key != fs[v].largest) && forall j :: start <= j < v ==> fs[j].largest == key
  }

  lemma VisitedLeaves(fs: seq<File>, key: UserKey, seqno: nat, left: int, start: nat, top: int, v: nat, lost: int)
    requires Narrowed(fs, key, seqno, left, start, top) && Visited(fs, key, start, v)
    requires Guards(fs, key, left, top, lost)
    ensures LeavesAt(fs, key, v)
  {
    hide Below;
  }

  lemma VisitedProbes(fs: seq<File>, key: UserKey, seqno: nat, left: int, start: nat, top: int, v: nat, lost: int,
                      level: nat, probes: set<Probe>)
    requires Narrowed(fs, key, seqno, left, start, top) && Visited(fs, key, start, v)
    requires Guards(fs, key, left, top, lost)
    requires forall j: nat :: Probe(level, j) in probes <==> start <= j <= v && Holds(fs[j], key)
    ensures ProbedBut(fs, level, key, seqno, probes, lost)
  {
    LevelCounts(fs, key);
    hide Below, AtMost;
    forall i | 0 <= i < |fs| && Holds(fs[i], key) && Reaches(fs[i], key, seqno)
      ensures Probe(level, i) in probes <==> !IsLost(fs, key, lost, i)
    {
      assert i <= v;
      assert i < start ==> i < left;
    }
  }

  /** A level in whose bounds no file lies. */
  lemma NothingInBounds(fs: seq<File>, key: UserKey, seqno: nat, left: int, right: int, lost: int, level: nat,
                        probes: set<Probe>)
    requires LevelSorted(fs) && Guards(fs, key, left, right, lost) && left > right
    requires forall j: nat :: Probe(level, j) !in probes
    ensures ProbedBut(fs, level, key, seqno, probes, lost)
    ensures lost == 0 ==> forall lower :: LevelSorted(lower) ==> Lost(fs, lower, key) == 0
  {
    LevelCounts(fs, key);
    hide Below, AtMost;
    forall lower | lost == 0 && LevelSorted(lower) ensures Lost(fs, lower, key) == 0 {
      LevelRises(fs);
      BelowIs(Largest(fs), key, left);
      AtMostIs(Largest(fs), key, left);
      BelowIs(Smallest(fs), key, left);
      AtMostIs(Smallest(fs), key, left);
      NothingLost(fs, lower, key);
    }
  }

  // ---------------------------------------------------------------- the walk

  /** How many files the hint into a level loses. */
  function LossInto(files: seq<seq<File>>, key: UserKey, level: nat): int
    requires level < |files|
  {
    if level <= 1 then 0 else Lost(files[level - 1], files[level], key)
  }

  ghost predicate CleanBefore(files: seq<seq<File>>, key: UserKey, level: nat)
    requires level <= |files|
  {
    forall l :: 1 <= l < level ==> LossInto(files, key, l) == 0
  }

  /** What the walk looks into: up to the first level into which a hint loses files nothing is missed, and in that level
      exactly those files are. */
  ghost predicate Searched(files: seq<seq<File>>, key: UserKey, seqno: nat, probes: set<Probe>)
  {
    forall level: nat :: 1 <= level < |files| && CleanBefore(files, key, level) ==>
      ProbedBut(files[level], level, key, seqno, probes, LossInto(files, key, level))
  }

  lemma LossIsNat(files: seq<seq<File>>, key: UserKey, level: nat)
    requires AllSorted(files) && level < |files|
    ensures LossInto(files, key, level) >= 0
  {
    if level > 1 { LevelCounts(files[level], key); }
  }

  lemma ProbedSame(files: seq<File>, level: nat, key: UserKey, seqno: nat, probes: set<Probe>, probes': set<Probe>,
                   lost: int)
    requires ProbedBut(files, level, key, seqno, probes, lost)
    requires forall p: Probe :: p.level == level ==> (p in probes <==> p in probes')
    ensures ProbedBut(files, level, key, seqno, probes', lost)
  {
  }

  /** FilePicker below level 0. */
  class FilePicker {
    const indexer: Indexer
    const files: seq<seq<File>>
    const key: UserKey
    const seqno: nat
    var left: int                 // search_left_bound_
    var right: int                // search_right_bound_
    var probes: set<Probe>

    constructor (indexer: Indexer, files: seq<seq<File>>, key: UserKey, seqno: nat)
      requires indexer.Built(files) && AllSorted(files)
      requires forall l :: 1 <= l < |files| ==> |files[l]| <= LEVEL_MAX_INDEX
      ensures this.files == files && this.key == key && this.seqno == seqno && this.indexer == indexer
      ensures probes == {} && Indexed() && left == 0 && right == LEVEL_MAX_INDEX
    {
      this.indexer, this.files, this.key, this.seqno := indexer, files, key, seqno;
      left, right, probes := 0, LEVEL_MAX_INDEX, {};
    }

    ghost predicate Indexed()
      reads indexer
    {
      indexer.Built(files) && AllSorted(files) && forall l :: 1 <= l < |files| ==> |files[l]| <= LEVEL_MAX_INDEX
    }

    /** The bounds fit the level about to be searched. */
    ghost predicate Bounded(level: nat)
      reads this
    {
      1 <= level < |files| ==>
        0 <= left <= |files[level]| && if right == LEVEL_MAX_INDEX then left == 0 else -1 <= right < |files[level]|
    }

    /** The bounds lose the first `lost` files of the level that end with the key, and nothing else that holds it. */
    ghost predicate GuardsAt(level: nat, lost: int)
      reads this
    {
      1 <= level < |files| ==>
        if right == LEVEL_MAX_INDEX then left == 0 && lost == 0 else Guards(files[level], key, left, right, lost)
    }

    /** One level: the start index within the bounds, then its files while they end with the key.  A lost of -1 says
        nothing about the bounds. */
    method SearchLevel(level: nat, ghost lost: int)
      requires Indexed() && Bounded(level) && 1 <= level < |files| && (forall i: nat :: Probe(level, i) !in probes)
      requires lost >= 0 ==> GuardsAt(level, lost)
      modifies this
      ensures Bounded(level + 1) && (forall p: Probe :: p.level != level ==> (p in probes <==> p in old(probes)))
      ensures lost >= 0 ==> ProbedBut(files[level], level, key, seqno, probes, lost)
      ensures lost == 0 && level + 1 < |files| ==> GuardsAt(level + 1, LossInto(files, key, level + 1))
    {
      hide ProbedBut, Lost;
      var fs := files[level];
      ghost var top := if right == LEVEL_MAX_INDEX then |fs| - 1 else right;
      if lost >= 0 { WholeLevel(fs, key, left, right, top, lost); }
      if |fs| == 0 || left > right {
        if lost >= 0 { NothingInBounds(fs, key, seqno, left, top, lost, level, probes); }
        left, right := 0, LEVEL_MAX_INDEX;
        return;
      }
      var start: nat;
      if left == right {
        start := left;
      } else {
        if right == LEVEL_MAX_INDEX { right := |fs| - 1; }
        start := FindFileInRange(fs, key, seqno, left, right);
      }
      SearchFiles(level, start, top, lost);
    }

    lemma WholeLevel(fs: seq<File>, key: UserKey, left: int, right: int, top: int, lost: int)
      requires top == (if right == LEVEL_MAX_INDEX then |fs| - 1 else right) && LevelSorted(fs)
      requires if right == LEVEL_MAX_INDEX then left == 0 && lost == 0 else Guards(fs, key, left, right, lost)
      ensures Guards(fs, key, left, top, lost)
    {
      LevelCounts(fs, key);
    }

    /** Compares the key with file i, takes the hint for the next level, and looks into the file if it holds the key. */
    method Visit(level: nat, i: nat) returns (more: bool)
      requires Indexed() && 1 <= level < |files| && i < |files[level]|
      modifies this
      ensures Bounded(level + 1) && (more <==> key == files[level][i].largest)
      ensures probes == old(probes) + (if Holds(files[level][i], key) then {Probe(level, i)} else {})
      ensures level + 1 < |files| ==>
        && left == HintLeft(files[level], files[level + 1], i, key)
        && right == HintRight(files[level], files[level + 1], i, key) && right != LEVEL_MAX_INDEX
    {
      hide Encloses, UnitOk, HintLeft, HintRight, LevelSorted, LevelBuilt;
      var f := files[level][i];
      var cmpSmallest := Sign(key, f.smallest);
      var cmpLargest := if cmpSmallest >= 0 then Sign(key, f.largest) else -1;
      left, right := indexer.GetNextLevelIndex(level, i, cmpSmallest, cmpLargest, files, key);
      if level + 1 < |files| { HintInRange(files[level], files[level + 1], key, i); }
      assert LevelSorted(files[level]);
      assert f.smallest <= f.largest by { RangeOf(files[level], i); }
      if cmpSmallest < 0 || cmpLargest > 0 { return false; }
      probes := probes + {Probe(level, i)};
      more := cmpLargest >= 0;
    }

    lemma RangeOf(fs: seq<File>, i: nat)
      requires LevelSorted(fs) && i < |fs|
      ensures fs[i].smallest <= fs[i].largest
    {
    }

    method SearchFiles(level: nat, start: nat, ghost top: int, ghost lost: int)
      requires Indexed() && 1 <= level < |files| && (forall i: nat :: Probe(level, i) !in probes)
      requires Narrowed(files[level], key, seqno, left, start, top)
      requires lost >= 0 ==> Guards(files[level], key, left, top, lost)
      modifies this
      ensures Bounded(level + 1) && (forall p: Probe :: p.level != level ==> (p in probes <==> p in old(probes)))
      ensures lost >= 0 ==> ProbedBut(files[level], level, key, seqno, probes, lost)
      ensures lost == 0 && level + 1 < |files| ==> GuardsAt(level + 1, LossInto(files, key, level + 1))
    {
      hide ProbedBut, Narrowed, Guards, Lost, HintLeft, HintRight, Indexed, Bounded;
      var fs := files[level];
      SortedAt(level);
      assert start < |fs| by { NarrowedStart(fs, key, seqno, left, start, top); }
      ghost var left0 := left;
      var more := Visit(level, start);
      var i := start + 1;
      while more && i < |fs|
        invariant start < i <= |fs| && Bounded(level + 1) && (more <==> key == fs[i - 1].largest)
        invariant level + 1 < |files| ==>
          && left == HintLeft(fs, files[level + 1], i - 1, key)
          && right == HintRight(fs, files[level + 1], i - 1, key) && right != LEVEL_MAX_INDEX
        invariant forall j :: start <= j < i - 1 ==> fs[j].largest == key
        invariant forall j: nat :: Probe(level, j) in probes <==> start <= j < i && Holds(fs[j], key)
        invariant forall p: Probe :: p.level != level ==> (p in probes <==> p in old(probes))
      {
        more := Visit(level, i);
        i := i + 1;
      }
      if lost >= 0 {
        VisitedProbes(fs, key, seqno, left0, start, top, i - 1, lost, level, probes);
        VisitedLeaves(fs, key, seqno, left0, start, top, i - 1, lost);
        if level + 1 < |files| { HintGuards(fs, files[level + 1], key, i - 1); }
      }
    }

    lemma SortedAt(level: nat)
      requires Indexed() && 1 <= level < |files|
      ensures LevelSorted(files[level]) && (level + 1 < |files| ==> LevelSorted(files[level + 1]))
    {
    }

    lemma NarrowedStart(fs: seq<File>, key: UserKey, seqno: nat, left: int, start: nat, top: int)
      requires Narrowed(fs, key, seqno, left, start, top)
      ensures start < |fs|
    {
    }

    lemma LossAt(level: nat)
      requires Indexed() && level < |files|
      ensures LossInto(files, key, level) >= 0
    {
      LossIsNat(files, key, level);
    }

    lemma StartsBounded()
      requires left == 0 && right == LEVEL_MAX_INDEX
      ensures Bounded(1) && (1 < |files| ==> GuardsAt(1, LossInto(files, key, 1)))
    {
    }

    /** The whole walk, on any sorted levels and the index built for them. */
    method Search()
      requires Indexed() && left == 0 && right == LEVEL_MAX_INDEX && probes == {}
      modifies this
      ensures Searched(files, key, seqno, probes)
    {
      hide ProbedBut, LossInto, Indexed, Bounded, GuardsAt;
      StartsBounded();
      var level: nat := 1;
      while level < |files|
        invariant 1 <= level && Indexed() && Bounded(level)
        invariant level < |files| && CleanBefore(files, key, level) ==> GuardsAt(level, LossInto(files, key, level))
        invariant forall p :: p in probes ==> p.level < level
        invariant forall l: nat :: 1 <= l < level && l < |files| && CleanBefore(files, key, l) ==>
          ProbedBut(files[l], l, key, seqno, probes, LossInto(files, key, l))
      {
        ghost var before := probes;
        ghost var lost := if CleanBefore(files, key, level) then LossInto(files, key, level) else -1;
        LossAt(level);
        SearchLevel(level, lost);
        forall l: nat | 1 <= l < level && CleanBefore(files, key, l)
          ensures ProbedBut(files[l], l, key, seqno, probes, LossInto(files, key, l))
        {
          ProbedSame(files[l], l, key, seqno, before, probes, LossInto(files, key, l));
        }
        level := level + 1;
      }
    }
  }

  // ---------------------------------------------------------------- when nothing is missed

  ghost predicate Missed(files: seq<seq<File>>, key: UserKey, seqno: nat, probes: set<Probe>, level: nat, i: nat)
    requires level < |files| && i < |files[level]|
  {
    Holds(files[level][i], key) && Reaches(files[level][i], key, seqno) && Probe(level, i) !in probes
  }

  /** No file below level 0 that may hold a visible version of the key is missed. */
  ghost predicate Complete(files: seq<seq<File>>, key: UserKey, seqno: nat, probes: set<Probe>)
  {
    forall level: nat, i: nat :: 1 <= level < |files| && i < |files[level]| ==>
      !Missed(files, key, seqno, probes, level, i)
  }

  /** Looking into everything but the files lost. */
  ghost function AllBut(files: seq<seq<File>>, key: UserKey, seqno: nat): set<Probe>
  {
    set level: nat, i: nat | 1 <= level < |files| && i < |files[level]| && Holds(files[level][i], key)
      && Reaches(files[level][i], key, seqno)
      && !IsLost(files[level], key, LossInto(files, key, level), i) :: Probe(level, i)
  }

  lemma AllButSearched(files: seq<seq<File>>, key: UserKey, seqno: nat)
    ensures Searched(files, key, seqno, AllBut(files, key, seqno))
  {
    hide IsLost, LossInto, Reaches;
    var probes := AllBut(files, key, seqno);
    forall level: nat | 1 <= level < |files| && CleanBefore(files, key, level)
      ensures ProbedBut(files[level], level, key, seqno, probes, LossInto(files, key, level))
    {
      forall i: nat | i < |files[level]| && Holds(files[level][i], key) && Reaches(files[level][i], key, seqno)
        ensures Probe(level, i) in probes <==> !IsLost(files[level], key, LossInto(files, key, level), i) { }
    }
  }

  /** A loss is the loss of a file that may hold a version of the key. */
  lemma LossIsReal(files: seq<seq<File>>, key: UserKey, level: nat) returns (i: nat)
    requires AllSorted(files) && 1 <= level < |files| && LossInto(files, key, level) > 0
    ensures i < |files[level]| && Holds(files[level][i], key) && files[level][i].largest == key
    ensures IsLost(files[level], key, LossInto(files, key, level), i)
  {
    LevelCounts(files[level], key);
    hide Below, AtMost;
    i := Below(Largest(files[level]), key);
  }

  lemma SearchedComplete(files: seq<seq<File>>, key: UserKey, seqno: nat, probes: set<Probe>)
    requires AllSorted(files) && CleanBefore(files, key, |files|) && Searched(files, key, seqno, probes)
    ensures Complete(files, key, seqno, probes)
  {
    hide Lost;
    forall level: nat, i: nat | 1 <= level < |files| && i < |files[level]|
      ensures !Missed(files, key, seqno, probes, level, i)
    {
      assert CleanBefore(files, key, level) && LossInto(files, key, level) == 0;
      assert ProbedBut(files[level], level, key, seqno, probes, 0);
      LevelCounts(files[level], key);
      hide Below, AtMost;
    }
  }

  lemma LossMisses(files: seq<seq<File>>, key: UserKey, level: nat) returns (seqno: nat, probes: set<Probe>)
    requires AllSorted(files) && 1 <= level < |files| && LossInto(files, key, level) > 0
    ensures Searched(files, key, seqno, probes) && !Complete(files, key, seqno, probes)
  {
    var i := LossIsReal(files, key, level);
    seqno := files[level][i].largestSeqno;
    probes := AllBut(files, key, seqno);
    AllButSearched(files, key, seqno);
    assert Probe(level, i) !in probes;
    assert Missed(files, key, seqno, probes, level, i);
  }

  /** The hinted search misses nothing, whatever the sequence number, if and only if no hint for the key loses a
      file: that is, wherever a level shares a bound with it more than once, no file of the next level ends with it. */
  lemma CompleteIff(files: seq<seq<File>>, key: UserKey)
    requires AllSorted(files)
    ensures CleanBefore(files, key, |files|) <==>
      forall seqno: nat, probes :: Searched(files, key, seqno, probes) ==> Complete(files, key, seqno, probes)
  {
    hide Searched, Complete;
    if CleanBefore(files, key, |files|) {
      forall seqno: nat, probes | Searched(files, key, seqno, probes) ensures Complete(files, key, seqno, probes) {
        SearchedComplete(files, key, seqno, probes);
      }
    } else {
      var level :| 1 <= level < |files| && LossInto(files, key, level) != 0;
      LossIsNat(files, key, level);
      var seqno, probes := LossMisses(files, key, level);
    }
  }

  /** Plain levels lose nothing, for any key. */
  lemma PlainLosesNothing(files: seq<seq<File>>, key: UserKey)
    requires AllSorted(files) && AllPlain(files)
    ensures CleanBefore(files, key, |files|)
  {
    forall level | 1 <= level < |files| ensures LossInto(files, key, level) == 0 {
      if level > 1 {
        assert PlainLevel(files[level - 1], files[level]) && LevelSorted(files[level - 1]) && LevelSorted(files[level]);
        PlainLost(files[level - 1], files[level], key);
      }
    }
  }

  lemma PlainLost(upper: seq<File>, lower: seq<File>, key: UserKey)
    requires LevelSorted(upper) && LevelSorted(lower) && PlainLevel(upper, lower)
    ensures Lost(upper, lower, key) == 0
  {
    LevelCounts(lower, key);
    hide Below, AtMost, PlainLevel;
    if Ends(lower, key) > 0 && (Starts(upper, key) >= 2 || Ends(upper, key) >= 2) {
      SharedIsNotPlain(upper, lower, key);
    }
  }

  lemma SharedIsNotPlain(upper: seq<File>, lower: seq<File>, key: UserKey)
    requires LevelSorted(upper) && LevelSorted(lower)
    requires Ends(lower, key) > 0 && (Starts(upper, key) >= 2 || Ends(upper, key) >= 2)
    ensures !PlainLevel(upper, lower)
  {
    LevelCounts(upper, key);
    LevelCounts(lower, key);
    hide Below, AtMost;
    assert Largest(lower)[Below(Largest(lower), key)] == key;
    var s, e := AtMost(Smallest(upper), key) - 1, AtMost(Largest(upper), key) - 1;
    if Starts(upper, key) >= 2 {
      assert Smallest(upper)[s - 1] == Smallest(upper)[s] == key;
      assert !Plain(upper, lower, s);
    } else {
      assert Largest(upper)[e - 1] == Largest(upper)[e] == key;
      assert !Plain(upper, lower, e);
    }
  }

  // ---------------------------------------------------------------- a key that is missed

  /** Three files of level 1 share key 5, and a file of level 2 ends with it: the search looks into the three and,
      coming from the third, misses the file of level 2. */
  method SharedKeyIsMissed() returns (picker: FilePicker)
    ensures |picker.files| == 3 && AllSorted(picker.files) && |picker.files[2]| == 1 && picker.key == 5
    ensures Searched(picker.files, 5, picker.seqno, picker.probes)
    ensures Missed(picker.files, 5, picker.seqno, picker.probes, 2, 0)
  {
    var files := [[], [File(1, 5, 9), File(5, 5, 8), File(5, 9, 1)], [File(0, 5, 3)]];
    assert LevelSorted(files[1]) && LevelSorted(files[2]);
    var indexer := new Indexer();
    indexer.UpdateIndex(files);
    picker := new FilePicker(indexer, files, 5, 9);
    picker.Search();
    SharedKeyLoss(files);
    assert ProbedBut(files[2], 2, 5, 9, picker.probes, LossInto(files, 5, 2));
  }

  lemma SharedKeyLoss(files: seq<seq<File>>)
    requires files == [[], [File(1, 5, 9), File(5, 5, 8), File(5, 9, 1)], [File(0, 5, 3)]]
    ensures CleanBefore(files, 5, 2) && IsLost(files[2], 5, LossInto(files, 5, 2), 0)
  {
    var upper, lower := files[1], files[2];
    assert LevelSorted(upper) && LevelSorted(lower);
    LevelRises(upper);
    LevelRises(lower);
    BelowIs(Smallest(upper), 5, 1);
    AtMostIs(Smallest(upper), 5, 3);
    BelowIs(Largest(lower), 5, 0);
    AtMostIs(Largest(lower), 5, 1);
  }

  /** How many files of the level hold the key. */
  function Holding(files: seq<File>, key: UserKey): int
  {
    AtMost(Smallest(files), key) - Below(Largest(files), key)
  }

  /** The file starts with the key, and the files before and after it that do so take more from the two ends of the
      range than lower files hold the key. */
  predicate Crosses(upper: seq<File>, lower: seq<File>, i: nat, key: UserKey)
    requires i < |upper|
  {
    var before, after := i - Below(Smallest(upper), key), AtMost(Smallest(upper), key) - 1 - i;
    && key == upper[i].smallest
    && Min(before, Ends(lower, key)) + Min(after, Starts(lower, key)) > Holding(lower, key)
  }

  lemma CrossAtStart(upper: seq<File>, lower: seq<File>, i: nat, key: UserKey)
    requires LevelSorted(upper) && LevelSorted(lower) && i < |upper| && key == upper[i].smallest
    ensures HintLeft(upper, lower, i, key) <= HintRight(upper, lower, i, key) + 1 <==> !Crosses(upper, lower, i, key)
  {
    LevelRises(upper);
    LevelRises(lower);
    hide Below, AtMost, LevelSorted, Rising;
    Counts(Largest(lower), key);
    Counts(Smallest(lower), key);
    Counts(Smallest(upper), key);
  }

  /** At or below the smaller key files end only if they start below the larger one. */
  lemma EndsBeforeStarts(lower: seq<File>, k: UserKey, k': UserKey)
    requires LevelSorted(lower) && k < k'
    ensures AtMost(Largest(lower), k) <= Below(Smallest(lower), k') <= |lower|
  {
    LevelCounts(lower, k);
    LevelCounts(lower, k');
    hide Below, AtMost;
    var m := AtMost(Largest(lower), k);
    assert m > 0 ==> lower[m - 1].largest <= k;
  }

  /** The bounds that the code asserts to meet do so exactly if they do not cross in this way. */
  lemma HintsMeetIff(upper: seq<File>, lower: seq<File>, i: nat, key: UserKey)
    requires LevelSorted(upper) && LevelSorted(lower) && i < |upper| && (i > 0 ==> upper[i - 1].largest <= key)
    ensures HintLeft(upper, lower, i, key) <= HintRight(upper, lower, i, key) + 1 <==> !Crosses(upper, lower, i, key)
  {
    LevelRises(upper);
    LevelRises(lower);
    var f := upper[i];
    assert f.smallest <= f.largest && (i > 0 ==> upper[i - 1].largest <= f.smallest);
    if key == f.largest > f.smallest {
      BelowIs(Largest(upper), key, i);
      LevelCounts(lower, key);
    }
    hide Below, AtMost, LevelSorted, Rising;
    if key == f.smallest {
      CrossAtStart(upper, lower, i, key);
    } else if key < f.smallest {
      RightSkipsFrom(Smallest(upper), Smallest(lower), i);
      if i > 0 {
        LeftSkipsUpTo(Largest(upper), Largest(lower), i - 1);
        EndsBeforeStarts(lower, upper[i - 1].largest, f.smallest);
      }
    } else if key <= f.largest {
      LeftSkipsUpTo(Smallest(upper), Largest(lower), i);
      LeftSkipsUpTo(Largest(upper), Largest(lower), i);
      RightSkipsFrom(Largest(upper), Smallest(lower), i);
      EndsBeforeStarts(lower, f.smallest, f.largest);
    } else {
      LeftSkipsUpTo(Largest(upper), Largest(lower), i);
    }
  }

  /** With three files that hold only key 5 over another, the hint of the second crosses: the bounds that the code
      asserts to meet are 1 and -1. */
  lemma HintsCross()
    ensures var fs, lower := [File(5, 5, 9), File(5, 5, 8), File(5, 5, 7)], [File(5, 5, 3)];
      && LevelSorted(fs) && LevelSorted(lower)
      && HintLeft(fs, lower, 1, 5) == 1 && HintRight(fs, lower, 1, 5) == -1
  {
    var fs, lower := [File(5, 5, 9), File(5, 5, 8), File(5, 5, 7)], [File(5, 5, 3)];
    assert LevelSorted(fs) && LevelSorted(lower);
    LevelRises(fs);
    LevelRises(lower);
    BelowIs(Smallest(fs), 5, 0);
    AtMostIs(Smallest(fs), 5, 3);
    BelowIs(Largest(lower), 5, 0);
    AtMostIs(Largest(lower), 5, 1);
    BelowIs(Smallest(lower), 5, 0);
    AtMostIs(Smallest(lower), 5, 1);
  }
}
