/** Search hints between levels (db/file_indexer.cc) and the level by level search that uses them
    (FilePicker in db/version_set.cc). */
module FileIndexer {
  import opened DbFormat

  /** A table file: its user key range, and the sequence number in its largest internal key. */
  datatype File = File(smallest: UserKey, largest: UserKey, largestSeqno: nat)

  ghost predicate Rising(keys: seq<UserKey>)
  {
    forall i, j :: 0 <= i < j < |keys| ==> keys[i] <= keys[j]
  }

  /** The files of a level at or below level 1 are in internal key order: neighbours may share a user key. */
  ghost predicate LevelSorted(files: seq<File>)
  {
    && (forall i :: 0 <= i < |files| ==> files[i].smallest <= files[i].largest)
    && (forall i, j :: 0 <= i < j < |files| ==> files[i].largest <= files[j].smallest)
    && (forall i, j :: 0 <= i < j < |files| && files[i].largest == files[j].largest ==>
        files[i].largestSeqno > files[j].largestSeqno)
  }

  function Smallest(files: seq<File>): (keys: seq<UserKey>)
    ensures |keys| == |files| && forall i :: 0 <= i < |files| ==> keys[i] == files[i].smallest
  {
    seq(|files|, i requires 0 <= i < |files| => files[i].smallest)
  }

  function Largest(files: seq<File>): (keys: seq<UserKey>)
    ensures |keys| == |files| && forall i :: 0 <= i < |files| ==> keys[i] == files[i].largest
  {
    seq(|files|, i requires 0 <= i < |files| => files[i].largest)
  }

  // ---------------------------------------------------------------- counting keys

  /** How many of the first keys are smaller than k. */
  function Below(keys: seq<UserKey>, k: UserKey): nat
  {
    if keys == [] || keys[0] >= k then 0 else 1 + Below(keys[1..], k)
  }

  /** How many of the first keys are not larger than k. */
  function AtMost(keys: seq<UserKey>, k: UserKey): nat
  {
    if keys == [] || keys[0] > k then 0 else 1 + AtMost(keys[1..], k)
  }

  /** In rising keys these are the numbers of smaller keys and of keys not larger. */
  lemma {:induction false} Counts(keys: seq<UserKey>, k: UserKey)
    requires Rising(keys)
    ensures Below(keys, k) <= AtMost(keys, k) <= |keys|
    ensures forall i :: 0 <= i < |keys| ==>
      (i < Below(keys, k) <==> keys[i] < k) && (i < AtMost(keys, k) <==> keys[i] <= k)
  {
    if keys != [] {
      var rest := keys[1..];
      Counts(rest, k);
      forall i | 0 <= i < |keys|
        ensures (i < Below(keys, k) <==> keys[i] < k) && (i < AtMost(keys, k) <==> keys[i] <= k)
      {
        assert i > 0 ==> keys[i] == rest[i - 1] && keys[0] <= keys[i];
      }
    }
  }

  lemma BelowIs(keys: seq<UserKey>, k: UserKey, n: nat)
    requires Rising(keys) && n <= |keys| && (n > 0 ==> keys[n - 1] < k) && (n < |keys| ==> k <= keys[n])
    ensures Below(keys, k) == n
  {
    hide Below, AtMost;
    Counts(keys, k);
  }

  lemma AtMostIs(keys: seq<UserKey>, k: UserKey, n: nat)
    requires Rising(keys) && n <= |keys| && (n > 0 ==> keys[n - 1] <= k) && (n < |keys| ==> k < keys[n])
    ensures AtMost(keys, k) == n
  {
    hide Below, AtMost;
    Counts(keys, k);
  }

  lemma SmallerKey(keys: seq<UserKey>, k: UserKey, k': UserKey)
    requires Rising(keys) && k < k'
    ensures AtMost(keys, k) <= Below(keys, k')
  {
    hide Below, AtMost;
    Counts(keys, k);
    Counts(keys, k');
    var m := AtMost(keys, k);
    assert m > 0 ==> keys[m - 1] <= k;
  }

  function Min(a: int, b: int): int
  {
    if a < b then a else b
  }

  function Max(a: int, b: int): int
  {
    if a < b then b else a
  }

  // ---------------------------------------------------------------- the two-pointer loops

  /** j is the leftmost key at or above k, or the length. */
  ghost predicate LeftBound(keys: seq<UserKey>, k: UserKey, j: int)
  {
    0 <= j <= |keys| && (forall i :: 0 <= i < j ==> keys[i] < k) && (j < |keys| ==> keys[j] >= k)
  }

  /** j is the rightmost key at or below k, or -1. */
  ghost predicate RightBound(keys: seq<UserKey>, k: UserKey, j: int)
  {
    -1 <= j < |keys| && (forall i :: j < i < |keys| ==> keys[i] > k) && (j >= 0 ==> keys[j] <= k)
  }

  /** The key at u repeats its left neighbour's and occurs in the other list. */
  predicate RepeatsLeft(upper: seq<UserKey>, lower: seq<UserKey>, u: int)
  {
    0 < u < |upper| && upper[u - 1] == upper[u] && upper[u] in lower
  }

  predicate RepeatsRight(upper: seq<UserKey>, lower: seq<UserKey>, u: int)
  {
    0 <= u < |upper| - 1 && upper[u + 1] == upper[u] && upper[u] in lower
  }

  ghost predicate LeftExact(upper: seq<UserKey>, lower: seq<UserKey>, u: int, j: int)
    requires 0 <= u < |upper|
  {
    0 <= j <= |lower| && (LeftBound(lower, upper[u], j) <==> !RepeatsLeft(upper, lower, u))
  }

  ghost predicate RightExact(upper: seq<UserKey>, lower: seq<UserKey>, u: int, j: int)
    requires 0 <= u < |upper|
  {
    -1 <= j < |lower| && (RightBound(lower, upper[u], j) <==> !RepeatsRight(upper, lower, u))
  }

  /** What the left loop computes: copies of a key in the upper list are matched one by one with those in the lower. */
  function LeftIndex(upper: seq<UserKey>, lower: seq<UserKey>, u: nat): int
    requires u < |upper|
  {
    Min(Below(lower, upper[u]) + (u - Below(upper, upper[u])), AtMost(lower, upper[u]))
  }

  function RightIndex(upper: seq<UserKey>, lower: seq<UserKey>, u: nat): int
    requires u < |upper|
  {
    Max(AtMost(lower, upper[u]) - (AtMost(upper, upper[u]) - u), Below(lower, upper[u]) - 1)
  }

  /** Where the left loop stands: at the index of the next file if that repeats its neighbour's key, else not past
      it. */
  ghost predicate PassedLeft(upper: seq<UserKey>, lower: seq<UserKey>, u: int, l: int)
  {
    && 0 <= u <= |upper| && 0 <= l <= |lower|
    && (u < |upper| ==>
          if u > Below(upper, upper[u]) then l == LeftIndex(upper, lower, u) else l <= Below(lower, upper[u]))
  }

  ghost predicate PassedRight(upper: seq<UserKey>, lower: seq<UserKey>, u: int, l: int)
  {
    && -1 <= u < |upper| && -1 <= l < |lower|
    && (0 <= u ==>
          if u < AtMost(upper, upper[u]) - 1 then l == RightIndex(upper, lower, u)
            else l >= AtMost(lower, upper[u]) - 1)
  }

  lemma LeftTakes(upper: seq<UserKey>, lower: seq<UserKey>, u: int, l: int)
    requires Rising(upper) && Rising(lower) && PassedLeft(upper, lower, u, l) && u < |upper|
    requires l < |lower| ==> upper[u] <= lower[l]
    ensures l == LeftIndex(upper, lower, u)
    ensures PassedLeft(upper, lower, u + 1, if l < |lower| && upper[u] == lower[l] then l + 1 else l)
  {
    hide Below, AtMost;
    Counts(lower, upper[u]);
    Counts(upper, upper[u]);
    if u + 1 < |upper| && upper[u] < upper[u + 1] {
      SmallerKey(lower, upper[u], upper[u + 1]);
      BelowIs(upper, upper[u + 1], u + 1);
    }
  }

  lemma LeftSkips(upper: seq<UserKey>, lower: seq<UserKey>, u: int, l: int)
    requires Rising(upper) && Rising(lower) && PassedLeft(upper, lower, u, l) && u < |upper|
    requires l < |lower| && upper[u] > lower[l]
    ensures PassedLeft(upper, lower, u, l + 1)
  {
    hide Below, AtMost;
    Counts(lower, upper[u]);
    Counts(upper, upper[u]);
  }

  lemma RightTakes(upper: seq<UserKey>, lower: seq<UserKey>, u: int, l: int)
    requires Rising(upper) && Rising(lower) && PassedRight(upper, lower, u, l) && 0 <= u
    requires 0 <= l ==> upper[u] >= lower[l]
    ensures l == RightIndex(upper, lower, u)
    ensures PassedRight(upper, lower, u - 1, if 0 <= l && upper[u] == lower[l] then l - 1 else l)
  {
    hide Below, AtMost;
    Counts(lower, upper[u]);
    Counts(upper, upper[u]);
    if 0 < u && upper[u - 1] < upper[u] {
      SmallerKey(lower, upper[u - 1], upper[u]);
      AtMostIs(upper, upper[u - 1], u);
    }
  }

  lemma RightSkips(upper: seq<UserKey>, lower: seq<UserKey>, u: int, l: int)
    requires Rising(upper) && Rising(lower) && PassedRight(upper, lower, u, l) && 0 <= u && 0 <= l
    requires upper[u] < lower[l]
    ensures PassedRight(upper, lower, u, l - 1)
  {
    hide Below, AtMost;
    Counts(lower, upper[u]);
    Counts(upper, upper[u]);
  }

  lemma LeftIsExact(upper: seq<UserKey>, lower: seq<UserKey>, u: nat)
    requires Rising(upper) && Rising(lower) && u < |upper|
    ensures LeftExact(upper, lower, u, LeftIndex(upper, lower, u))
  {
    hide Below, AtMost;
    Counts(lower, upper[u]);
    Counts(upper, upper[u]);
    if Below(lower, upper[u]) < AtMost(lower, upper[u]) { assert lower[Below(lower, upper[u])] == upper[u]; }
    if upper[u] in lower {
      var i :| 0 <= i < |lower| && lower[i] == upper[u];
      assert Below(lower, upper[u]) <= i < AtMost(lower, upper[u]);
    }
  }

  lemma RightIsExact(upper: seq<UserKey>, lower: seq<UserKey>, u: nat)
    requires Rising(upper) && Rising(lower) && u < |upper|
    ensures RightExact(upper, lower, u, RightIndex(upper, lower, u))
  {
    hide Below, AtMost;
    Counts(lower, upper[u]);
    Counts(upper, upper[u]);
    if Below(lower, upper[u]) < AtMost(lower, upper[u]) { assert lower[Below(lower, upper[u])] == upper[u]; }
    assert u < AtMost(upper, upper[u]) - 1 ==> upper[u + 1] == upper[u];
    if RepeatsRight(upper, lower, u) { assert u + 1 < AtMost(upper, upper[u]); }
    var q := AtMost(lower, upper[u]) - 1;
    assert q >= 0 ==> lower[q] <= upper[u];
    if upper[u] in lower {
      var i :| 0 <= i < |lower| && lower[i] == upper[u];
      assert Below(lower, upper[u]) <= i < AtMost(lower, upper[u]);
    }
  }

  method CalculateLB(upper: seq<UserKey>, lower: seq<UserKey>) returns (index: array<int>)
    requires Rising(upper) && Rising(lower)
    ensures fresh(index) && index.Length == |upper|
    ensures forall u :: 0 <= u < |upper| ==>
      index[u] == LeftIndex(upper, lower, u) && LeftExact(upper, lower, u, index[u])
  {
    hide LeftIndex, LeftExact, PassedLeft, Rising, Below, AtMost;
    index := new int[|upper|];
    var u, l := 0, 0;
    LeftStarts(upper, lower);
    while u < |upper| && l < |lower|
      invariant 0 <= u <= |upper| && 0 <= l <= |lower| && PassedLeft(upper, lower, u, l)
      invariant forall v :: 0 <= v < u ==> index[v] == LeftIndex(upper, lower, v)
      decreases |upper| - u + |lower| - l
    {
      if upper[u] == lower[l] {
        LeftTakes(upper, lower, u, l);
        index[u] := l;
        u, l := u + 1, l + 1;
      } else if upper[u] > lower[l] {
        LeftSkips(upper, lower, u, l);
        l := l + 1;
      } else {
        LeftTakes(upper, lower, u, l);
        index[u] := l;
        u := u + 1;
      }
    }
    while u < |upper|
      invariant 0 <= u <= |upper| && (u < |upper| ==> l == |lower| && PassedLeft(upper, lower, u, l))
      invariant forall v :: 0 <= v < u ==> index[v] == LeftIndex(upper, lower, v)
    {
      LeftTakes(upper, lower, u, l);
      index[u] := |lower|;
      u := u + 1;
    }
    forall v | 0 <= v < |upper| ensures LeftExact(upper, lower, v, LeftIndex(upper, lower, v)) {
      LeftIsExact(upper, lower, v);
    }
  }

  lemma LeftStarts(upper: seq<UserKey>, lower: seq<UserKey>)
    ensures PassedLeft(upper, lower, 0, 0)
  {
  }

  lemma RightStarts(upper: seq<UserKey>, lower: seq<UserKey>)
    requires Rising(upper) && Rising(lower)
    ensures PassedRight(upper, lower, |upper| - 1, |lower| - 1)
  {
    if upper != [] {
      var k := upper[|upper| - 1];
      AtMostIs(upper, k, |upper|);
      Counts(lower, k);
    }
  }

  method CalculateRB(upper: seq<UserKey>, lower: seq<UserKey>) returns (index: array<int>)
    requires Rising(upper) && Rising(lower)
    ensures fresh(index) && index.Length == |upper|
    ensures forall u :: 0 <= u < |upper| ==>
      index[u] == RightIndex(upper, lower, u) && RightExact(upper, lower, u, index[u])
  {
    hide RightIndex, RightExact, PassedRight, Rising, Below, AtMost;
    index := new int[|upper|];
    var u, l := |upper| - 1, |lower| - 1;
    RightStarts(upper, lower);
    while u >= 0 && l >= 0
      invariant -1 <= u < |upper| && -1 <= l < |lower| && PassedRight(upper, lower, u, l)
      invariant forall v :: u < v < |upper| ==> index[v] == RightIndex(upper, lower, v)
      decreases u + l
    {
      if upper[u] == lower[l] {
        RightTakes(upper, lower, u, l);
        index[u] := l;
        u, l := u - 1, l - 1;
      } else if upper[u] < lower[l] {
        RightSkips(upper, lower, u, l);
        l := l - 1;
      } else {
        RightTakes(upper, lower, u, l);
        index[u] := l;
        u := u - 1;
      }
    }
    while u >= 0
      invariant -1 <= u < |upper| && (u >= 0 ==> l == -1 && PassedRight(upper, lower, u, l))
      invariant forall v :: u < v < |upper| ==> index[v] == RightIndex(upper, lower, v)
    {
      RightTakes(upper, lower, u, l);
      index[u] := -1;
      u := u - 1;
    }
    forall v | 0 <= v < |upper| ensures RightExact(upper, lower, v, RightIndex(upper, lower, v)) {
      RightIsExact(upper, lower, v);
    }
  }

  // ---------------------------------------------------------------- the index

  datatype IndexUnit = IndexUnit(smallestLb: int, largestLb: int, smallestRb: int, largestRb: int)

  /** The exact bounds of one upper file in the level below. */
  ghost predicate UnitOk(f: File, lower: seq<File>, unit: IndexUnit)
  {
    && LeftBound(Largest(lower), f.smallest, unit.smallestLb) && LeftBound(Largest(lower), f.largest, unit.largestLb)
    && RightBound(Smallest(lower), f.smallest, unit.smallestRb)
    && RightBound(Smallest(lower), f.largest, unit.largestRb)
  }

  /** No key that the bounds of file u share with a neighbour's occurs among the bounds they are compared with. */
  ghost predicate Plain(upper: seq<File>, lower: seq<File>, u: int)
  {
    && !RepeatsLeft(Smallest(upper), Largest(lower), u) && !RepeatsLeft(Largest(upper), Largest(lower), u)
    && !RepeatsRight(Smallest(upper), Smallest(lower), u) && !RepeatsRight(Largest(upper), Smallest(lower), u)
  }

  /** What UpdateIndex computes for file u. */
  function UnitAt(upper: seq<File>, lower: seq<File>, u: nat): IndexUnit
    requires u < |upper|
  {
    IndexUnit(LeftIndex(Smallest(upper), Largest(lower), u), LeftIndex(Largest(upper), Largest(lower), u),
              RightIndex(Smallest(upper), Smallest(lower), u), RightIndex(Largest(upper), Smallest(lower), u))
  }

  lemma LevelRises(files: seq<File>)
    requires LevelSorted(files)
    ensures Rising(Smallest(files)) && Rising(Largest(files))
  {
  }

  /** All four bounds of a file are exact if and only if it is plain. */
  lemma UnitOkIff(upper: seq<File>, lower: seq<File>, u: nat)
    requires LevelSorted(upper) && LevelSorted(lower) && u < |upper|
    ensures UnitOk(upper[u], lower, UnitAt(upper, lower, u)) <==> Plain(upper, lower, u)
  {
    LevelRises(upper);
    LevelRises(lower);
    hide LeftIndex, RightIndex, Rising, LevelSorted, LeftBound, RightBound, RepeatsLeft, RepeatsRight;
    LeftIsExact(Smallest(upper), Largest(lower), u);
    LeftIsExact(Largest(upper), Largest(lower), u);
    RightIsExact(Smallest(upper), Smallest(lower), u);
    RightIsExact(Largest(upper), Smallest(lower), u);
  }

  ghost predicate PlainLevel(upper: seq<File>, lower: seq<File>)
  {
    forall u :: 0 <= u < |upper| ==> Plain(upper, lower, u)
  }

  ghost predicate AllPlain(files: seq<seq<File>>)
  {
    forall level :: 1 <= level < |files| - 1 ==> PlainLevel(files[level], files[level + 1])
  }

  /** Enough for it: no two files of a level have the same smallest key, or the same largest. */
  lemma DistinctIsPlain(files: seq<seq<File>>)
    requires forall level, i, j :: 1 <= level < |files| && 0 <= i < j < |files[level]| ==>
      files[level][i].smallest != files[level][j].smallest && files[level][i].largest != files[level][j].largest
    ensures AllPlain(files)
  {
  }

  ghost predicate AllSorted(files: seq<seq<File>>)
  {
    forall level :: 1 <= level < |files| ==> LevelSorted(files[level])
  }

  /** The index of one level. */
  ghost predicate LevelBuilt(upper: seq<File>, lower: seq<File>, us: seq<IndexUnit>)
  {
    |us| == |upper| && forall u :: 0 <= u < |upper| ==> us[u] == UnitAt(upper, lower, u)
  }

  class Indexer {
    var numLevels: nat
    var levelRb: seq<int>
    var units: seq<seq<IndexUnit>>      // next_level_index_

    constructor ()
      ensures numLevels == 0
    {
      numLevels, levelRb, units := 0, [], [];
    }

    /** The index was built for these files. */
    ghost predicate Built(files: seq<seq<File>>)
      reads this
    {
      && numLevels == |files| == |levelRb| == |units|
      && (forall level :: 1 <= level < |files| ==> levelRb[level] == |files[level]| - 1)
      && (forall level :: 1 <= level < |files| - 1 ==> LevelBuilt(files[level], files[level + 1], units[level]))
    }

    /** It has the exact bounds for every file of the levels 1 to the last but one. */
    ghost predicate Indexes(files: seq<seq<File>>)
      reads this
    {
      && Built(files)
      && (forall level, u :: 1 <= level < |files| - 1 && 0 <= u < |files[level]| ==>
            UnitOk(files[level][u], files[level + 1], units[level][u]))
    }

    /** The index is exact if and only if no bound repeated within a level occurs among the next level's. */
    method UpdateIndex(files: seq<seq<File>>)
      requires AllSorted(files)
      modifies this
      ensures numLevels == |files|
      ensures |files| > 1 ==> Built(files) && (Indexes(files) <==> AllPlain(files))
    {
      hide UnitAt, LevelSorted;
      numLevels := |files|;
      if numLevels == 0 { return; }
      levelRb := seq(numLevels, i => -1);
      units := seq(numLevels, i => []);
      var level := 1;
      while level < numLevels - 1
        invariant level == 1 || 1 < level <= numLevels - 1
        invariant numLevels == |files| == |levelRb| == |units|
        invariant forall l :: 1 <= l < level ==> levelRb[l] == |files[l]| - 1
        invariant forall l :: level <= l < |files| ==> units[l] == []
        invariant forall l :: 1 <= l < level ==> LevelBuilt(files[l], files[l + 1], units[l])
      {
        var upper := files[level];
        levelRb := levelRb[level := |upper| - 1];
        if |upper| > 0 {
          var us := IndexLevel(upper, files[level + 1]);
          units := units[level := us];
        }
        level := level + 1;
      }
      levelRb := levelRb[numLevels - 1 := |files[numLevels - 1]| - 1];
      if numLevels > 1 { IndexesIff(files); }
    }

    lemma IndexesIff(files: seq<seq<File>>)
      requires Built(files) && AllSorted(files)
      ensures Indexes(files) <==> AllPlain(files)
    {
      hide UnitOk, Plain, UnitAt, LevelSorted;
      if Indexes(files) {
        forall level | 1 <= level < |files| - 1 ensures PlainLevel(files[level], files[level + 1]) {
          var upper, lower := files[level], files[level + 1];
          forall u | 0 <= u < |upper| ensures Plain(upper, lower, u) {
            UnitOkIff(upper, lower, u);
            assert LevelBuilt(upper, lower, units[level]);
            assert UnitOk(files[level][u], lower, units[level][u]);
          }
        }
      }
      if AllPlain(files) {
        forall level, u | 1 <= level < |files| - 1 && 0 <= u < |files[level]|
          ensures UnitOk(files[level][u], files[level + 1], units[level][u])
        {
          var upper, lower := files[level], files[level + 1];
          assert PlainLevel(upper, lower) && LevelBuilt(upper, lower, units[level]);
          assert Plain(upper, lower, u);
          UnitOkIff(upper, lower, u);
        }
      }
    }

    method IndexLevel(upper: seq<File>, lower: seq<File>) returns (us: seq<IndexUnit>)
      requires LevelSorted(upper) && LevelSorted(lower)
      ensures LevelBuilt(upper, lower, us)
    {
      LevelRises(upper);
      LevelRises(lower);
      hide LeftIndex, RightIndex, LeftExact, RightExact;
      var a := CalculateLB(Smallest(upper), Largest(lower));
      var b := CalculateLB(Largest(upper), Largest(lower));
      var c := CalculateRB(Smallest(upper), Smallest(lower));
      var d := CalculateRB(Largest(upper), Smallest(lower));
      us := seq(|upper|, i requires 0 <= i < |upper| reads a, b, c, d => IndexUnit(a[i], b[i], c[i], d[i]));
    }

    /** The range of the next level to search, from comparing the key with file i: where the index is exact, no file
        holding the key lies outside it. */
    method GetNextLevelIndex(level: nat, i: nat, cmpSmallest: int, cmpLargest: int, ghost files: seq<seq<File>>,
                             ghost key: UserKey)
        returns (left: int, right: int)
      requires Built(files) && 1 <= level < |files| && i < |files[level]| && AllSorted(files)
      requires cmpSmallest == Sign(key, files[level][i].smallest)
      requires cmpSmallest >= 0 ==> cmpLargest == Sign(key, files[level][i].largest)
      ensures level == |files| - 1 ==> left == 0 && right == -1
      ensures level < |files| - 1 ==>
        && left == HintLeft(files[level], files[level + 1], i, key)
        && right == HintRight(files[level], files[level + 1], i, key)
      ensures level < |files| - 1 && Indexes(files) && (i > 0 ==> files[level][i - 1].largest <= key) ==>
        0 <= left <= right + 1 && right < |files[level + 1]| && Encloses(files[level + 1], key, left, right)
    {
      if level == numLevels - 1 { return 0, -1; }
      assert LevelBuilt(files[level], files[level + 1], units[level]);
      var unit := units[level][i];
      hide UnitAt, Encloses, UnitOk, LevelSorted;
      if Indexes(files) && (i > 0 ==> files[level][i - 1].largest <= key) {
        assert i > 0 ==> UnitOk(files[level][i - 1], files[level + 1], units[level][i - 1]);
        HintEncloses(files[level], files[level + 1], i, key);
      }
      if cmpSmallest < 0 {
        left := if level > 0 && i > 0 then units[level][i - 1].largestLb else 0;
        right := unit.smallestRb;
      } else if cmpSmallest == 0 {
        left, right := unit.smallestLb, unit.smallestRb;
      } else if cmpLargest < 0 {
        left, right := unit.smallestLb, unit.largestRb;
      } else if cmpLargest == 0 {
        left, right := unit.largestLb, unit.largestRb;
      } else {
        left, right := unit.largestLb, levelRb[level + 1];
      }
    }
  }

  /** The left end of the hint that file i gives for a key. */
  function HintLeft(upper: seq<File>, lower: seq<File>, i: nat, key: UserKey): int
    requires i < |upper|
  {
    if key < upper[i].smallest then if i > 0 then UnitAt(upper, lower, i - 1).largestLb else 0
    else if key == upper[i].smallest || key < upper[i].largest then UnitAt(upper, lower, i).smallestLb
    else UnitAt(upper, lower, i).largestLb
  }

  function HintRight(upper: seq<File>, lower: seq<File>, i: nat, key: UserKey): int
    requires i < |upper|
  {
    if key <= upper[i].smallest then UnitAt(upper, lower, i).smallestRb
    else if key <= upper[i].largest then UnitAt(upper, lower, i).largestRb
    else |lower| - 1
  }

  /** Where its own bounds and its left neighbour's are exact, a file's hint encloses every file that holds the key. */
  lemma HintEncloses(upper: seq<File>, lower: seq<File>, i: nat, key: UserKey)
    requires LevelSorted(upper) && LevelSorted(lower) && i < |upper| && UnitOk(upper[i], lower, UnitAt(upper, lower, i))
    requires i > 0 ==> UnitOk(upper[i - 1], lower, UnitAt(upper, lower, i - 1)) && upper[i - 1].largest <= key
    ensures var left, right := HintLeft(upper, lower, i, key), HintRight(upper, lower, i, key);
      0 <= left <= right + 1 && right < |lower| && Encloses(lower, key, left, right)
  {
    hide UnitAt;
    var f, unit := upper[i], UnitAt(upper, lower, i);
    BoundsMeet(lower, f.smallest, f.smallest, unit.smallestLb, unit.smallestRb);
    BoundsMeet(lower, f.smallest, f.largest, unit.smallestLb, unit.largestRb);
    BoundsMeet(lower, f.largest, f.largest, unit.largestLb, unit.largestRb);
    if i > 0 {
      BoundsMeet(lower, upper[i - 1].largest, f.smallest, UnitAt(upper, lower, i - 1).largestLb, unit.smallestRb);
    }
  }

  lemma BoundsMeet(lower: seq<File>, x: UserKey, y: UserKey, l: int, r: int)
    requires LevelSorted(lower) && x <= y && LeftBound(Largest(lower), x, l) && RightBound(Smallest(lower), y, r)
    ensures l <= r + 1
  {
    if r + 1 < |lower| {
      assert Smallest(lower)[r + 1] > y && Largest(lower)[r + 1] >= Smallest(lower)[r + 1];
    }
  }

  function Sign(a: UserKey, b: UserKey): int
  {
    if a < b then -1 else if a == b then 0 else 1
  }

  /** Files left of the range lie below the key, files right of it above. */
  ghost predicate Encloses(files: seq<File>, key: UserKey, left: int, right: int)
  {
    && (forall j :: 0 <= j < left && j < |files| ==> files[j].largest < key)
    && (forall j :: 0 <= j < |files| && right < j ==> files[j].smallest > key)
  }
}
