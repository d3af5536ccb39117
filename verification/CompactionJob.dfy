/**
 The stateful side of a compaction (rocksdb-3.9/db/compaction.cc, compaction_job.cc):
 the moving cursors of Compaction, the output files, and the main loop.
 */
module CompactionJob {
  import opened DbFormat
  import opened Compaction

  /** findEarliestVisibleSnapshot: the earliest snapshot that sees `x`, and the one before it. */
  method FindEarliestVisibleSnapshot(x: nat, snapshots: seq<nat>) returns (visible: nat, prev: nat)
    requires snapshots != [] && x <= snapshots[|snapshots| - 1]
    requires forall i, j :: 0 <= i < j < |snapshots| ==> snapshots[i] <= snapshots[j]
    ensures visible == EarliestVisible(x, snapshots)
    ensures visible in snapshots && x <= visible
    ensures forall s :: s in snapshots && x <= s ==> visible <= s
    ensures forall s :: s in snapshots && s < x ==> s <= prev
    ensures prev == 0 || (prev in snapshots && prev < x)
  {
    EarliestVisibleIsLeast(x, snapshots);
    prev := 0;
    var i := 0;
    while snapshots[i] < x
      invariant 0 <= i < |snapshots|
      invariant EarliestVisible(x, snapshots) == EarliestVisible(x, snapshots[i..])
      invariant forall j :: 0 <= j < i ==> snapshots[j] <= prev
      invariant if i == 0 then prev == 0 else prev == snapshots[i-1] < x
      decreases |snapshots| - i
    {
      prev := snapshots[i];
      assert snapshots[i..][1..] == snapshots[i+1..];
      i := i + 1;
    }
    visible := snapshots[i];
    forall s | s in snapshots && s < x ensures s <= prev {
      var j :| 0 <= j < |snapshots| && snapshots[j] == s;
    }
  }

  function TotalSize(files: seq<FileMeta>): (r: nat)
  {
    if files == [] then 0 else TotalSize(files[..|files| - 1]) + files[|files| - 1].size
  }

  // ---------------------------------------------------------------- where the grandparents ask for a new file

  /** How many of the files, from the front, end before the key. */
  function Passed(g: seq<FileMeta>, key: InternalKey): (n: nat)
    ensures n <= |g|
  {
    if g == [] || !After(key, g[0].largest) then 0 else 1 + Passed(g[1..], key)
  }

  lemma {:induction false} PassedIs(g: seq<FileMeta>, key: InternalKey, n: nat)
    requires n <= |g| && (forall i :: 0 <= i < n ==> After(key, g[i].largest))
    requires n < |g| ==> !After(key, g[n].largest)
    ensures Passed(g, key) == n
  {
    if n > 0 { PassedIs(g[1..], key, n - 1); }
  }

  lemma {:induction false} PassedEnd(g: seq<FileMeta>, key: InternalKey, i: nat)
    requires i < Passed(g, key)
    ensures After(key, g[i].largest)
  {
    if i > 0 { PassedEnd(g[1..], key, i - 1); }
  }

  /** The total size of the files that end before key b and not before key a. */
  function Overlap(g: seq<FileMeta>, a: InternalKey, b: InternalKey): (n: nat)
  {
    if Passed(g, a) <= Passed(g, b) then TotalSize(g[Passed(g, a)..Passed(g, b)]) else 0
  }

  lemma {:induction false} TotalAppend(a: seq<FileMeta>, b: seq<FileMeta>)
    ensures TotalSize(a + b) == TotalSize(a) + TotalSize(b)
    decreases |b|
  {
    if b == [] {
      assert a + b == a;
    } else {
      assert (a + b)[..|a + b| - 1] == a + b[..|b| - 1];
      TotalAppend(a, b[..|b| - 1]);
    }
  }

  /** What bounds the output files of a compaction of es. */
  datatype Limits = Limits(grandparents: seq<FileMeta>, maxOverlap: nat, maxSize: nat, fileSize: seq<Entry> -> nat)

  /** The grandparents passed since the last stop before entry n, or since the first entry, are too large. */
  ghost predicate StopsAt(l: Limits, es: seq<Entry>, n: nat)
    requires n < |es|
    decreases n, 1
  {
    n > 0 && Overlap(l.grandparents, KeyOf(es[LastStop(l, es, n)]), KeyOf(es[n])) > l.maxOverlap
  }

  /** The last stop before entry n, or 0. */
  ghost function LastStop(l: Limits, es: seq<Entry>, n: nat): (m: nat)
    requires 0 < n <= |es|
    ensures m < n
    decreases n, 0
  {
    if n == 1 then 0 else if StopsAt(l, es, n - 1) then n - 1 else LastStop(l, es, n - 1)
  }

  lemma PassedOn(g: seq<FileMeta>, es: seq<Entry>, n: nat, from: nat, to: nat)
    requires Sorted(es) && n < |es| && from == (if n == 0 then 0 else Passed(g, KeyOf(es[n - 1]))) && from <= to <= |g|
    requires forall i :: from <= i < to ==> After(KeyOf(es[n]), g[i].largest)
    requires to < |g| ==> !After(KeyOf(es[n]), g[to].largest)
    ensures Passed(g, KeyOf(es[n])) == to
  {
    forall i | 0 <= i < to ensures After(KeyOf(es[n]), g[i].largest) {
      if i < from {
        PassedEnd(g, KeyOf(es[n - 1]), i);
        assert InternalLess(es[n - 1], es[n]);
      }
    }
    PassedIs(g, KeyOf(es[n]), to);
  }

  lemma {:induction false} PassedRises(g: seq<FileMeta>, a: InternalKey, b: InternalKey)
    requires a == b || After(b, a)
    ensures Passed(g, a) <= Passed(g, b)
  {
    if g != [] { PassedRises(g[1..], a, b); }
  }

  lemma OverlapAdds(g: seq<FileMeta>, a: InternalKey, b: InternalKey, d: InternalKey)
    requires (a == b || After(b, a)) && After(d, b)
    ensures Passed(g, b) <= Passed(g, d)
    ensures Overlap(g, a, d) == Overlap(g, a, b) + TotalSize(g[Passed(g, b)..Passed(g, d)])
  {
    PassedRises(g, a, b);
    PassedRises(g, b, d);
    var x, y, z := Passed(g, a), Passed(g, b), Passed(g, d);
    TotalAppend(g[x..y], g[y..z]);
    assert g[x..y] + g[y..z] == g[x..z];
  }

  /** Where the cursor stands and how much it has passed after entry n, if it stood right before. */
  lemma StopIs(l: Limits, es: seq<Entry>, n: nat, from: nat, to: nat, bytes: nat, total: nat)
    requires Sorted(es) && n < |es| && from <= to <= |l.grandparents|
    requires from == (if n == 0 then 0 else Passed(l.grandparents, KeyOf(es[n - 1])))
    requires forall i :: from <= i < to ==> After(KeyOf(es[n]), l.grandparents[i].largest)
    requires to < |l.grandparents| ==> !After(KeyOf(es[n]), l.grandparents[to].largest)
    requires bytes == if n == 0 then 0 else Overlap(l.grandparents, KeyOf(es[LastStop(l, es, n)]), KeyOf(es[n - 1]))
    requires total == bytes + if n == 0 then 0 else TotalSize(l.grandparents[from..to])
    ensures to == Passed(l.grandparents, KeyOf(es[n])) && (total > l.maxOverlap <==> StopsAt(l, es, n))
    ensures Overlap(l.grandparents, KeyOf(es[LastStop(l, es, n + 1)]), KeyOf(es[n])) ==
      if total > l.maxOverlap then 0 else total
  {
    var g := l.grandparents;
    PassedOn(g, es, n, from, to);
    hide Passed;
    if n > 0 {
      var m := LastStop(l, es, n);
      assert m < n - 1 ==> InternalLess(es[m], es[n - 1]);
      assert InternalLess(es[n - 1], es[n]);
      OverlapAdds(g, KeyOf(es[m]), KeyOf(es[n - 1]), KeyOf(es[n]));
      assert g[to..to] == [];
    } else {
      assert g[to..to] == [];
    }
  }

  /** No entry after a and before b is stopped at. */
  ghost predicate NoStop(l: Limits, es: seq<Entry>, a: nat, b: nat)
    requires b <= |es|
  {
    forall i :: a < i < b ==> !StopsAt(l, es, i)
  }

  /** Class Compaction: cursors that only move forward while the loop runs. */
  class Cursors {
    const c: Setup
    const grandparents: seq<FileMeta>
    const maxGrandparentOverlapBytes: nat
    var levelPtrs: seq<nat>
    var grandparentIndex: nat
    var seenKey: bool
    var overlappedBytes: nat

    constructor (c: Setup, grandparents: seq<FileMeta>, maxOverlap: nat)
      ensures this.c == c && this.grandparents == grandparents && this.maxGrandparentOverlapBytes == maxOverlap
      ensures Valid() && (forall k :: PassedBefore(k)) && grandparentIndex == 0 && !seenKey && overlappedBytes == 0
    {
      this.c := c;
      this.grandparents := grandparents;
      this.maxGrandparentOverlapBytes := maxOverlap;
      levelPtrs := seq(|c.beyond|, _ => 0);
      grandparentIndex := 0;
      seenKey := false;
      overlappedBytes := 0;
    }

    ghost predicate Valid()
      reads this
    {
      && |levelPtrs| == |c.beyond|
      && (forall l :: 0 <= l < |levelPtrs| ==> levelPtrs[l] <= |c.beyond[l]|)
      && grandparentIndex <= |grandparents|
    }

    /** Every file a cursor has passed ends before key k. */
    ghost predicate PassedBefore(k: UserKey)
      reads this
      requires Valid()
    {
      forall l, i :: 0 <= l < |levelPtrs| && 0 <= i < levelPtrs[l] ==> c.beyond[l][i].largest.key < k
    }

    /** Where the grandparent cursor stands after the first n entries. */
    ghost predicate At(l: Limits, es: seq<Entry>, n: nat)
      reads this
      requires n <= |es|
    {
      && l.grandparents == grandparents && l.maxOverlap == maxGrandparentOverlapBytes && (seenKey <==> n > 0)
      && grandparentIndex == (if n == 0 then 0 else Passed(grandparents, KeyOf(es[n - 1])))
      && overlappedBytes ==
           if n == 0 then 0 else Overlap(grandparents, KeyOf(es[LastStop(l, es, n)]), KeyOf(es[n - 1]))
    }

    /**
     KeyNotExistsBeyondOutputLevel: for keys asked in nondecreasing order the cursors give the
     answer a scan of every file beyond the output level would give.
     */
    method KeyNotExistsBeyondOutputLevel(k: UserKey) returns (gone: bool)
      requires Valid() && c.Valid() && PassedBefore(k)
      modifies this`levelPtrs
      ensures Valid() && PassedBefore(k)
      ensures gone <==> c.KeyGone(k)
    {
      if c.universal {
        return c.bottommost;
      }
      var l := 0;
      while l < |c.beyond|
        invariant 0 <= l <= |c.beyond|
        invariant Valid() && PassedBefore(k)
        invariant forall m, i :: 0 <= m < l && 0 <= i < |c.beyond[m]| ==> !Covers(c.beyond[m][i], k)
      {
        var hit := AdvanceLevel(l, k);
        if hit {
          return false;
        }
        l := l + 1;
      }
      return true;
    }

    /** One turn of the loop over levels: skip the files that end before k, then test the next one. */
    method AdvanceLevel(l: nat, k: UserKey) returns (hit: bool)
      requires Valid() && c.Valid() && PassedBefore(k) && l < |c.beyond|
      modifies this`levelPtrs
      ensures Valid() && PassedBefore(k)
      ensures hit <==> exists i :: 0 <= i < |c.beyond[l]| && Covers(c.beyond[l][i], k)
    {
      var files := c.beyond[l];
      assert LevelOrdered(files);
      while levelPtrs[l] < |files|
        invariant Valid() && PassedBefore(k)
        decreases |files| - levelPtrs[l]
      {
        var f := files[levelPtrs[l]];
        if k <= f.largest.key {
          if k >= f.smallest.key {
            assert Covers(files[levelPtrs[l]], k);
            return true;
          }
          return false;
        }
        levelPtrs := levelPtrs[l := levelPtrs[l] + 1];
      }
      return false;
    }

    /** ShouldStopBefore: true when the grandparent files passed since the last cut are too large. */
    method ShouldStopBefore(key: InternalKey) returns (stop: bool)
      requires Valid()
      modifies this`grandparentIndex, this`seenKey, this`overlappedBytes
      ensures Valid() && seenKey
      ensures old(grandparentIndex) <= grandparentIndex
      ensures forall i :: old(grandparentIndex) <= i < grandparentIndex ==> After(key, grandparents[i].largest)
      ensures grandparentIndex < |grandparents| ==> !After(key, grandparents[grandparentIndex].largest)
      ensures var passed := if old(seenKey) then TotalSize(grandparents[old(grandparentIndex)..grandparentIndex])
        else 0;
              && (stop <==> old(overlappedBytes) + passed > maxGrandparentOverlapBytes)
              && overlappedBytes == if stop then 0 else old(overlappedBytes) + passed
    {
      while grandparentIndex < |grandparents| && After(key, grandparents[grandparentIndex].largest)
        invariant Valid() && old(grandparentIndex) <= grandparentIndex && seenKey == old(seenKey)
        invariant forall i :: old(grandparentIndex) <= i < grandparentIndex ==> After(key, grandparents[i].largest)
        invariant overlappedBytes == old(overlappedBytes) +
                    if seenKey then TotalSize(grandparents[old(grandparentIndex)..grandparentIndex]) else 0
      {
        if seenKey {
          overlappedBytes := overlappedBytes + grandparents[grandparentIndex].size;
        }
        ghost var span := grandparents[old(grandparentIndex)..grandparentIndex + 1];
        assert span[..|span| - 1] == grandparents[old(grandparentIndex)..grandparentIndex];
        grandparentIndex := grandparentIndex + 1;
      }
      seenKey := true;
      if overlappedBytes > maxGrandparentOverlapBytes {
        overlappedBytes := 0;
        stop := true;
      } else {
        stop := false;
      }
    }
  }

  // ---------------------------------------------------------------- output files

  /** CompactionState::Output with the entries its builder received. */
  datatype OutputFile = OutputFile(
    smallest: InternalKey, largest: InternalKey,
    smallestSeqno: nat, largestSeqno: nat,
    entries: seq<Entry>)

  /** The recorded metadata is exactly that of the contents. */
  ghost predicate Described(o: OutputFile)
  {
    && o.entries != []
    && o.smallest == KeyOf(o.entries[0])
    && o.largest == KeyOf(o.entries[|o.entries| - 1])
    && (forall i :: 0 <= i < |o.entries| ==> o.smallestSeqno <= o.entries[i].seqno <= o.largestSeqno)
    && (exists i :: 0 <= i < |o.entries| && o.entries[i].seqno == o.smallestSeqno)
    && (exists i :: 0 <= i < |o.entries| && o.entries[i].seqno == o.largestSeqno)
  }

  function Contents(os: seq<OutputFile>): (r: seq<Entry>)
  {
    if os == [] then [] else Contents(os[..|os| - 1]) + os[|os| - 1].entries
  }

  lemma {:induction false} ContentsLast(os: seq<OutputFile>, o: OutputFile)
    ensures Contents(os + [o]) == Contents(os) + o.entries
  {
    assert (os + [o])[..|os|] == os;
  }

  lemma {:induction false} ExtendLast(os: seq<OutputFile>, o: OutputFile, e: Entry)
    requires os != [] && o.entries == os[|os| - 1].entries + [e]
    ensures Contents(os[..|os| - 1] + [o]) == Contents(os) + [e]
  {
    var init := os[..|os| - 1];
    ContentsLast(init, o);
    assert Contents(init) + (os[|os| - 1].entries + [e]) == (Contents(init) + os[|os| - 1].entries) + [e];
  }

  lemma {:induction false} InContents(os: seq<OutputFile>, f: nat, i: nat) returns (p: nat)
    requires f < |os| && i < |os[f].entries|
    ensures p < |Contents(os)| && Contents(os)[p] == os[f].entries[i]
  {
    var last := |os| - 1;
    if f == last {
      p := |Contents(os[..last])| + i;
    } else {
      p := InContents(os[..last], f, i);
    }
  }

  /** A file's recorded key range encloses its contents. */
  ghost predicate Encloses(o: OutputFile)
  {
    forall i :: 0 <= i < |o.entries| ==>
      !After(o.smallest, KeyOf(o.entries[i])) && !After(KeyOf(o.entries[i]), o.largest)
  }

  lemma SortedEncloses(o: OutputFile)
    requires Described(o) && Sorted(o.entries)
    ensures Encloses(o)
  {
    forall i | 0 <= i < |o.entries|
      ensures !After(o.smallest, KeyOf(o.entries[i])) && !After(KeyOf(o.entries[i]), o.largest)
    {
      assert 0 < i ==> InternalLess(o.entries[0], o.entries[i]);
      assert i < |o.entries| - 1 ==> InternalLess(o.entries[i], o.entries[|o.entries| - 1]);
    }
  }

  /** A later file starts after an earlier one ends. */
  lemma {:induction false} FilesInOrder(os: seq<OutputFile>, f: nat, g: nat)
    requires Sorted(Contents(os)) && f < g < |os| && Described(os[f]) && Described(os[g])
    ensures After(os[g].smallest, os[f].largest)
  {
    var last := |os| - 1;
    var head := Contents(os[..last]);
    assert Contents(os)[..|head|] == head;
    if g < last {
      FilesInOrder(os[..last], f, g);
    } else {
      var p := InContents(os[..last], f, |os[f].entries| - 1);
      assert InternalLess(Contents(os)[p], Contents(os)[|head|]);
    }
  }

  lemma {:induction false} FilesSorted(os: seq<OutputFile>, f: nat)
    requires Sorted(Contents(os)) && f < |os|
    ensures Sorted(os[f].entries)
  {
    var last := |os| - 1;
    var head := Contents(os[..last]);
    assert Contents(os)[..|head|] == head && Contents(os)[|head|..] == os[last].entries;
    if f < last { FilesSorted(os[..last], f); }
  }

  /** Sorted contents cut into described files: each range encloses its file, and ranges do not touch. */
  lemma {:induction false} FilesSeparated(os: seq<OutputFile>)
    requires Sorted(Contents(os)) && forall f :: 0 <= f < |os| ==> Described(os[f])
    ensures forall f :: 0 <= f < |os| ==> Encloses(os[f])
    ensures forall f, g :: 0 <= f < g < |os| ==> After(os[g].smallest, os[f].largest)
  {
    forall f | 0 <= f < |os| ensures Encloses(os[f]) {
      FilesSorted(os, f);
      SortedEncloses(os[f]);
    }
    forall f, g | 0 <= f < g < |os| ensures After(os[g].smallest, os[f].largest) {
      FilesInOrder(os, f, g);
    }
  }

  // ---------------------------------------------------------------- where files are cut

  ghost predicate IsFull(l: Limits, entries: seq<Entry>)
  {
    l.fileSize(entries) >= l.maxSize
  }

  /** A file goes on while it is not full and nothing stops it: src gives the input entry behind each of its entries. */
  ghost predicate GoesOn(l: Limits, es: seq<Entry>, o: OutputFile, src: seq<nat>)
  {
    && |src| == |o.entries| > 0 && (forall i :: 0 <= i < |src| ==> src[i] < |es|)
    && (forall i :: 0 < i < |src| ==> src[i - 1] < src[i])
    && (forall i :: 0 < i < |src| ==> !IsFull(l, o.entries[..i]) && NoStop(l, es, src[i - 1], src[i] + 1))
  }

  /** A full file or a stop after entry a and not after entry b. */
  ghost predicate Ends(l: Limits, es: seq<Entry>, o: OutputFile, a: nat, b: nat)
  {
    a < b < |es| && (IsFull(l, o.entries) || !NoStop(l, es, a, b + 1))
  }

  function LastOf(src: seq<nat>): nat
  {
    if src == [] then 0 else src[|src| - 1]
  }

  /** The output files after n input entries, with stops known before entry m: each holds written input entries and
      goes on to its end, the next one begins where it must, and the last one is open exactly if a further entry would
      still go into it. */
  ghost predicate Filed(l: Limits, c: Setup, es: seq<Entry>, os: seq<OutputFile>, src: seq<seq<nat>>, open: bool,
                        n: nat, m: nat)
  {
    && |src| == |os| && n <= m <= |es|
    && (forall f :: 0 <= f < |os| ==> Holds(l, c, es, os[f], src[f], n))
    && (forall f :: 0 < f < |os| ==> src[f] != [] && Ends(l, es, os[f - 1], LastOf(src[f - 1]), src[f][0]))
    && (open <==> os != [] && !IsFull(l, os[|os| - 1].entries) && NoStop(l, es, LastOf(src[|src| - 1]), m))
  }

  ghost predicate Holds(l: Limits, c: Setup, es: seq<Entry>, o: OutputFile, src: seq<nat>, n: nat)
  {
    && GoesOn(l, es, o, src) && LastOf(src) < n
    && forall i :: 0 <= i < |src| ==> o.entries[i] == Written(c, es[src[i]])
  }

  lemma HoldsLonger(l: Limits, c: Setup, es: seq<Entry>, o: OutputFile, src: seq<nat>, n: nat)
    requires Holds(l, c, es, o, src, n)
    ensures Holds(l, c, es, o, src, n + 1)
  {
  }

  /** The test before entry n closes the file if it stops there. */
  lemma FiledStop(l: Limits, c: Setup, es: seq<Entry>, os: seq<OutputFile>, src: seq<seq<nat>>, open: bool, n: nat)
    requires Filed(l, c, es, os, src, open, n, n) && n < |es|
    ensures Filed(l, c, es, os, src, open && !StopsAt(l, es, n), n, n + 1)
  {
    if os != [] { assert Holds(l, c, es, os[|os| - 1], src[|os| - 1], n); }
    hide GoesOn, Ends, IsFull, StopsAt;
  }

  lemma FiledSkip(l: Limits, c: Setup, es: seq<Entry>, os: seq<OutputFile>, src: seq<seq<nat>>, open: bool, n: nat)
    requires Filed(l, c, es, os, src, open, n, n + 1)
    ensures Filed(l, c, es, os, src, open, n + 1, n + 1)
  {
    hide Holds, Ends, IsFull, NoStop;
    forall f | 0 <= f < |os| ensures Holds(l, c, es, os[f], src[f], n + 1) { HoldsLonger(l, c, es, os[f], src[f], n); }
  }

  lemma FiledNew(l: Limits, c: Setup, es: seq<Entry>, os: seq<OutputFile>, src: seq<seq<nat>>, o: OutputFile, n: nat)
    requires Filed(l, c, es, os, src, false, n, n + 1) && o.entries == [Written(c, es[n])]
    ensures Filed(l, c, es, os + [o], src + [[n]], !IsFull(l, o.entries), n + 1, n + 1)
  {
    if os != [] { assert Holds(l, c, es, os[|os| - 1], src[|os| - 1], n); }
    assert Holds(l, c, es, o, [n], n + 1);
    assert NoStop(l, es, n, n + 1);
    assert os != [] ==> Ends(l, es, os[|os| - 1], LastOf(src[|os| - 1]), n);
    FiledSkip(l, c, es, os, src, false, n);
    hide Holds, Ends, IsFull, NoStop, Written;
  }

  lemma HoldsMore(l: Limits, c: Setup, es: seq<Entry>, last: OutputFile, src: seq<nat>, o: OutputFile, n: nat)
    requires Holds(l, c, es, last, src, n) && n < |es| && o.entries == last.entries + [Written(c, es[n])]
    requires !IsFull(l, last.entries) && NoStop(l, es, LastOf(src), n + 1)
    ensures Holds(l, c, es, o, src + [n], n + 1)
  {
    hide IsFull, NoStop, Written;
    var from := src + [n];
    forall i | 0 < i < |from| ensures !IsFull(l, o.entries[..i]) && NoStop(l, es, from[i - 1], from[i] + 1) {
      assert o.entries[..i] == last.entries[..i];
      assert last.entries[..|last.entries|] == last.entries;
    }
  }

  lemma FiledMore(l: Limits, c: Setup, es: seq<Entry>, os: seq<OutputFile>, src: seq<seq<nat>>, o: OutputFile, n: nat)
    requires Filed(l, c, es, os, src, true, n, n + 1) && os != []
    requires o.entries == os[|os| - 1].entries + [Written(c, es[n])]
    ensures var k := |os| - 1;
      |src| == k + 1 && Filed(l, c, es, os[..k] + [o], src[..k] + [src[k] + [n]], !IsFull(l, o.entries), n + 1, n + 1)
  {
    var k := |os| - 1;
    assert Holds(l, c, es, os[k], src[k], n);
    HoldsMore(l, c, es, os[k], src[k], o, n);
    assert NoStop(l, es, n, n + 1);
    assert src[k] != [];
    FiledSkip(l, c, es, os, src, true, n);
    hide Holds, Ends, IsFull, NoStop, Written;
  }

  class Job {
    const c: Setup
    const cursors: Cursors
    const maxOutputFileSize: nat
    const fileSize: seq<Entry> -> nat      // TableBuilder::FileSize of the entries added so far
    var outputs: seq<OutputFile>
    var open: bool                         // builder != nullptr: the last output is being written
    ghost var sources: seq<seq<nat>>       // the input entry behind each entry of each output

    constructor (cursors: Cursors, maxOutputFileSize: nat, fileSize: seq<Entry> -> nat)
      ensures this.c == cursors.c && this.cursors == cursors && this.maxOutputFileSize == maxOutputFileSize
      ensures this.fileSize == fileSize && outputs == [] && sources == [] && !open && Valid()
    {
      this.c := cursors.c;
      this.cursors := cursors;
      this.maxOutputFileSize := maxOutputFileSize;
      this.fileSize := fileSize;
      outputs, sources := [], [];
      open := false;
    }

    ghost function Bounds(): Limits
    {
      Limits(cursors.grandparents, cursors.maxGrandparentOverlapBytes, maxOutputFileSize, fileSize)
    }

    ghost predicate Valid()
      reads this
    {
      && c == cursors.c
      && (open ==> outputs != [])
      && forall f :: 0 <= f < |outputs| ==> Described(outputs[f])
    }

    /** Writes one entry: opens an output file if needed, keeps its bounds, closes it when full. */
    method Add(e: Entry)
      requires Valid()
      modifies this`outputs, this`open
      ensures Valid()
      ensures Contents(outputs) == old(Contents(outputs)) + [e] && outputs != []
      ensures var k := |outputs| - 1;
        if old(open) then
          && k == old(|outputs|) - 1 && outputs == old(outputs)[..k] + [outputs[k]]
          && outputs[k].entries == old(outputs[|outputs| - 1].entries) + [e]
        else outputs == old(outputs) + [outputs[k]] && outputs[k].entries == [e]
      ensures open <==> fileSize(outputs[|outputs| - 1].entries) < maxOutputFileSize
    {
      hide Described, Contents;
      var k := KeyOf(e);
      if !open {
        var o := OutputFile(k, k, e.seqno, e.seqno, [e]);
        OneDescribed(o, e);
        ContentsLast(outputs, o);
        outputs := outputs + [o];
      } else {
        var last := outputs[|outputs| - 1];
        var o := last.(largest := k, entries := last.entries + [e],
                       smallestSeqno := if e.seqno < last.smallestSeqno then e.seqno else last.smallestSeqno,
                       largestSeqno := if e.seqno > last.largestSeqno then e.seqno else last.largestSeqno);
        StaysDescribed(last, o, e);
        ExtendLast(outputs, o, e);
        outputs := outputs[..|outputs| - 1] + [o];
      }
      open := fileSize(outputs[|outputs| - 1].entries) < maxOutputFileSize;
    }

    static lemma OneDescribed(o: OutputFile, e: Entry)
      requires o == OutputFile(KeyOf(e), KeyOf(e), e.seqno, e.seqno, [e])
      ensures Described(o)
    {
      assert o.entries[0].seqno == e.seqno;
    }

    static lemma StaysDescribed(last: OutputFile, o: OutputFile, e: Entry)
      requires Described(last) && o.entries == last.entries + [e]
      requires o.smallest == last.smallest && o.largest == KeyOf(e)
      requires o.smallestSeqno == if e.seqno < last.smallestSeqno then e.seqno else last.smallestSeqno
      requires o.largestSeqno == if e.seqno > last.largestSeqno then e.seqno else last.largestSeqno
      ensures Described(o)
    {
      var n := |last.entries|;
      var i :| 0 <= i < n && last.entries[i].seqno == last.smallestSeqno;
      var j :| 0 <= j < n && last.entries[j].seqno == last.largestSeqno;
      assert o.entries[i].seqno == last.smallestSeqno && o.entries[j].seqno == last.largestSeqno;
      assert o.entries[n].seqno == e.seqno;
    }

    /** Decides one entry: rule (A) against the previous version, then the obsolete-tombstone rule. */
    method Drops(e: Entry, visible: nat, visibleInSnapshot: nat) returns (drop: bool)
      requires Valid() && c.Valid() && cursors.Valid() && cursors.PassedBefore(e.key)
      modifies cursors`levelPtrs
      ensures cursors.Valid() && cursors.PassedBefore(e.key)
      ensures drop <==> visibleInSnapshot == visible || Obsolete(c, e)
    {
      if visibleInSnapshot == visible {
        return true;
      }
      if e.kind == Deletion && e.seqno <= c.Earliest() {
        drop := cursors.KeyNotExistsBeyondOutputLevel(e.key);
      } else {
        drop := false;
      }
    }

    /** Closes the file before entry n if the grandparents ask for it. */
    method CutBefore(input: seq<Entry>, n: nat)
      requires Valid() && cursors.Valid() && n < |input| && Sorted(input)
      requires cursors.At(Bounds(), input, n) && Filed(Bounds(), c, input, outputs, sources, open, n, n)
      modifies this`open, cursors`grandparentIndex, cursors`seenKey, cursors`overlappedBytes
      ensures Valid() && cursors.Valid() && open == (old(open) && !StopsAt(Bounds(), input, n))
      ensures cursors.At(Bounds(), input, n + 1) && Filed(Bounds(), c, input, outputs, sources, open, n, n + 1)
    {
      hide Filed, StopsAt, Described, Passed;
      ghost var l, from, bytes := Bounds(), cursors.grandparentIndex, cursors.overlappedBytes;
      FiledStop(l, c, input, outputs, sources, open, n);
      var stop := cursors.ShouldStopBefore(KeyOf(input[n]));
      StopIs(l, input, n, from, cursors.grandparentIndex, bytes,
        bytes + if n == 0 then 0 else TotalSize(l.grandparents[from..cursors.grandparentIndex]));
      if stop && open {
        open := false;
      }
    }

    /** Writes entry n. */
    method Write(input: seq<Entry>, n: nat)
      requires Valid() && n < |input| && Filed(Bounds(), c, input, outputs, sources, open, n, n + 1)
      modifies this
      ensures Valid() && Contents(outputs) == old(Contents(outputs)) + [Written(c, input[n])]
      ensures Filed(Bounds(), c, input, outputs, sources, open, n + 1, n + 1)
    {
      hide Filed, Contents, Described, Written;
      ghost var l, os, k := Bounds(), outputs, |outputs| - 1;
      Add(Written(c, input[n]));
      if old(open) {
        FiledMore(l, c, input, os, sources, outputs[k], n);
        sources := sources[..k] + [sources[k] + [n]];
      } else {
        FiledNew(l, c, input, os, sources, outputs[k + 1], n);
        sources := sources + [[n]];
      }
    }

    /** The loop has dealt with the first n entries. */
    ghost predicate Reached(input: seq<Entry>, n: nat)
      reads this, cursors
    {
      && Valid() && n <= |input| && Contents(outputs) == Output(c, input, n)
      && cursors.At(Bounds(), input, n) && Filed(Bounds(), c, input, outputs, sources, open, n, n)
    }

    /** One turn of the loop: cut the file if needed, decide the entry, write it if it survives. */
    method ProcessEntry(input: seq<Entry>, n: nat, visible: nat, visibleInSnapshot: nat)
      requires c.Valid() && c.Input(input) && n < |input| && Reached(input, n)
      requires cursors.Valid() && cursors.PassedBefore(input[n].key)
      requires visibleInSnapshot == visible <==> Hidden(c, input, n)
      modifies this, cursors
      ensures Reached(input, n + 1) && cursors.Valid() && cursors.PassedBefore(input[n].key)
    {
      hide Filed, Contents, StopsAt, Obsolete, Hidden, Passed, Described, Written;
      CutBefore(input, n);
      var drop := Drops(input[n], visible, visibleInSnapshot);
      if !drop {
        Write(input, n);
      } else {
        FiledSkip(Bounds(), c, input, outputs, sources, open, n);
      }
    }

    /**
     ProcessKeyValueCompaction on put and delete entries: the files written hold, in order,
     exactly the surviving entries, their bounds describe them, and a new file begins exactly
     after a full one or where the grandparents ask for it.
     */
    method ProcessKeyValueCompaction(input: seq<Entry>)
      requires Valid() && c.Valid() && c.Input(input) && outputs == [] && sources == [] && !open
      requires cursors.Valid() && (forall k :: cursors.PassedBefore(k)) && cursors.At(Bounds(), input, 0)
      modifies this, cursors
      ensures Valid()
      ensures Contents(outputs) == Output(c, input, |input|)
      ensures Filed(Bounds(), c, input, outputs, sources, open, |input|, |input|)
      ensures Sorted(Contents(outputs))
      ensures forall f :: 0 <= f < |outputs| ==> Described(outputs[f]) && Encloses(outputs[f])
      ensures forall f, g :: 0 <= f < g < |outputs| ==> After(outputs[g].smallest, outputs[f].largest)
    {
      assert Reached(input, 0);
      ProcessEntries(input);
      hide Filed, Contents, Described, Output, Encloses, After, Sorted;
      OutputSorted(c, input, |input|);
      FilesSeparated(outputs);
    }

    /** The loop. */
    method ProcessEntries(input: seq<Entry>)
      requires c.Valid() && c.Input(input) && Reached(input, 0)
      requires cursors.Valid() && (forall k :: cursors.PassedBefore(k))
      modifies this, cursors
      ensures Reached(input, |input|)
    {
      hide Reached;
      var hasCurrentUserKey, currentUserKey, visibleInSnapshot := false, 0, MAX_SEQUENCE;
      var n := 0;
      while n < |input|
        invariant 0 <= n <= |input| && cursors.Valid()
        invariant n < |input| ==> cursors.PassedBefore(input[n].key)
        invariant hasCurrentUserKey <==> n > 0
        invariant n > 0 ==> currentUserKey == input[n-1].key && visibleInSnapshot == SeenBy(c, input[n-1].seqno)
        invariant Reached(input, n)
      {
        var e := input[n];
        if !hasCurrentUserKey || e.key != currentUserKey {
          currentUserKey := e.key;
          hasCurrentUserKey := true;
          visibleInSnapshot := MAX_SEQUENCE;
        }
        var visible := VisibleFor(e);
        ProcessEntry(input, n, visible, visibleInSnapshot);
        visibleInSnapshot := visible;
        n := n + 1;
        if n < |input| {
          assert InternalLess(input[n-1], input[n]);
        }
      }
    }

    /** The snapshot an entry belongs to: the tip when there are no snapshots, else a search. */
    method VisibleFor(e: Entry) returns (visible: nat)
      requires c.Valid() && e.seqno <= c.lastSequence
      ensures visible == SeenBy(c, e.seqno) && visible < MAX_SEQUENCE
    {
      SeenByFacts(c, e.seqno);
      if |c.snapshots| == 0 {
        visible := c.lastSequence;
      } else {
        var prev;
        visible, prev := FindEarliestVisibleSnapshot(e.seqno, c.Existing());
      }
    }
  }
}
