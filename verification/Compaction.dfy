/**
 What a compaction must produce (rocksdb-3.9/db/compaction_job.cc).

 Which input entries survive is stated here by a rule that looks only at an entry and
 its predecessor, and proved to keep the output sorted.  That it keeps every read is in
 CompactionReads.dfy, the stateful loop that computes it in CompactionJob.dfy.
 */
module Compaction {
  import opened DbFormat

  /** An encoded internal key: a user key and its packed sequence number and type. */
  datatype InternalKey = InternalKey(key: UserKey, packed: nat)

  function KeyOf(e: Entry): (k: InternalKey)
  {
    InternalKey(e.key, Pack(e.seqno, e.kind))
  }

  /** InternalKeyComparator::Compare(a, b) > 0. */
  predicate After(a: InternalKey, b: InternalKey)
  {
    Before(b.key, b.packed, a.key, a.packed)
  }

  datatype FileMeta = FileMeta(smallest: InternalKey, largest: InternalKey, size: nat)

  /** Files of one level: well-formed ranges in user-key order; neighbours may share a user key. */
  ghost predicate LevelOrdered(files: seq<FileMeta>)
  {
    && (forall i :: 0 <= i < |files| ==> files[i].smallest.key <= files[i].largest.key)
    && (forall i, j :: 0 <= i < j < |files| ==> files[i].largest.key <= files[j].smallest.key)
  }

  predicate Covers(f: FileMeta, k: UserKey)
  {
    f.smallest.key <= k <= f.largest.key
  }

  /** What is fixed before the loop runs: the snapshots and the shape of the tree. */
  datatype Setup = Setup(
    snapshots: seq<nat>,            // live snapshots, oldest first
    lastSequence: nat,              // VersionSet::LastSequence at Prepare
    universal: bool,                // compaction_style == kCompactionStyleUniversal
    bottommost: bool,               // bottommost_level_
    beyond: seq<seq<FileMeta>>)     // files of each level beyond the output level
  {
    ghost predicate Valid()
    {
      && 0 < lastSequence < MAX_SEQUENCE
      && (forall i :: 0 <= i < |snapshots| ==> 0 < snapshots[i] <= lastSequence)
      && (forall i, j :: 0 <= i < j < |snapshots| ==> snapshots[i] <= snapshots[j])
      && (forall l :: 0 <= l < |beyond| ==> LevelOrdered(beyond[l]))
      && (!universal ==> (bottommost <==> forall l :: 0 <= l < |beyond| ==> beyond[l] == []))
    }

    /** existing_snapshots: the snapshots followed by the virtual one at LastSequence. */
    function Existing(): (r: seq<nat>)
    {
      snapshots + [lastSequence]
    }

    /** earliest_snapshot_. */
    function Earliest(): (r: nat)
    {
      Existing()[0]
    }

    /** A sequence number that some reader holds now or may take later. */
    ghost predicate Live(s: nat)
    {
      s in snapshots || lastSequence <= s
    }

    /** No file beyond the output level can hold key k. */
    ghost predicate KeyGone(k: UserKey)
    {
      if universal then bottommost
      else forall l, i :: 0 <= l < |beyond| && 0 <= i < |beyond[l]| ==> !Covers(beyond[l][i], k)
    }

    /**
     The clean-cut hypothesis on data older than the inputs: in the level style it lies in
     the files beyond the output level; in the universal style there is none when the oldest
     file is an input.
     */
    ghost predicate CleanCut(older: seq<Entry>)
    {
      forall i :: 0 <= i < |older| ==> !KeyGone(older[i].key)
    }

    /** The loop's input: sorted, committed, and free of merge operands. */
    ghost predicate Input(es: seq<Entry>)
    {
      && Sorted(es)
      && (forall i :: 0 <= i < |es| ==> es[i].seqno <= lastSequence && es[i].kind != Merge)
    }
  }

  /** The least element of ascending `snaps` that is at least x, or 0 when there is none. */
  function EarliestVisible(x: nat, snaps: seq<nat>): (v: nat)
  {
    if snaps == [] then 0
    else if x <= snaps[0] then snaps[0]
    else EarliestVisible(x, snaps[1..])
  }

  lemma {:induction false} EarliestVisibleIsLeast(x: nat, snaps: seq<nat>)
    requires snaps != [] && x <= snaps[|snaps| - 1]
    requires forall i, j :: 0 <= i < j < |snaps| ==> snaps[i] <= snaps[j]
    ensures EarliestVisible(x, snaps) in snaps
    ensures x <= EarliestVisible(x, snaps)
    ensures forall s :: s in snaps && x <= s ==> EarliestVisible(x, snaps) <= s
  {
    if snaps[0] < x {
      EarliestVisibleIsLeast(x, snaps[1..]);
      assert snaps == [snaps[0]] + snaps[1..];
    }
  }

  /** The earliest snapshot that sees sequence number x. */
  function SeenBy(c: Setup, x: nat): (v: nat)
  {
    EarliestVisible(x, c.Existing())
  }

  /** Facts about SeenBy that the proofs below share. */
  lemma SeenByFacts(c: Setup, x: nat)
    requires c.Valid() && x <= c.lastSequence
    ensures x <= SeenBy(c, x) <= c.lastSequence
    ensures c.Live(SeenBy(c, x))
    ensures forall s :: c.Live(s) && x <= s ==> SeenBy(c, x) <= s
    ensures x <= c.Earliest() ==> SeenBy(c, x) == c.Earliest()
    ensures forall s :: c.Live(s) ==> c.Earliest() <= s
  {
    var snaps := c.Existing();
    EarliestVisibleIsLeast(x, snaps);
    assert SeenBy(c, x) == EarliestVisible(x, snaps);
    assert snaps[|snaps| - 1] == c.lastSequence;
    assert SeenBy(c, x) <= c.lastSequence;
    forall s | c.Live(s) ensures c.Earliest() <= s && (x <= s ==> SeenBy(c, x) <= s) {
      if s in c.snapshots {
        var i :| 0 <= i < |c.snapshots| && c.snapshots[i] == s;
        assert snaps[i] == s && s in snaps;
      }
    }
  }

  // ---------------------------------------------------------------- the rule

  /** Rule (A): the entry just before is a version of the same key seen by the same snapshot. */
  predicate Hidden(c: Setup, es: seq<Entry>, i: nat)
    requires i < |es|
  {
    0 < i && es[i-1].key == es[i].key && SeenBy(c, es[i-1].seqno) == SeenBy(c, es[i].seqno)
  }

  /** A tombstone every live reader sees and that has nothing left to delete. */
  ghost predicate Obsolete(c: Setup, e: Entry)
  {
    e.kind == Deletion && e.seqno <= c.Earliest() && c.KeyGone(e.key)
  }

  ghost predicate Survives(c: Setup, es: seq<Entry>, i: nat)
    requires i < |es|
  {
    !Hidden(c, es, i) && !Obsolete(c, es[i])
  }

  predicate IsZeroed(c: Setup, e: Entry)
  {
    c.bottommost && e.seqno < c.Earliest() && e.kind != Merge
  }

  /** The written form of an entry: at the bottommost level old sequence numbers become zero. */
  function Written(c: Setup, e: Entry): (r: Entry)
  {
    if IsZeroed(c, e) then e.(seqno := 0) else e
  }

  /** What the loop has written after the first n input entries. */
  ghost function Output(c: Setup, es: seq<Entry>, n: nat): (r: seq<Entry>)
    requires n <= |es|
  {
    if n == 0 then []
    else if Survives(c, es, n - 1) then Output(c, es, n - 1) + [Written(c, es[n-1])]
    else Output(c, es, n - 1)
  }

  // ---------------------------------------------------------------- shape of the output

  lemma SameKeyBetween(es: seq<Entry>, i: nat, j: nat)
    requires Sorted(es) && i < j < |es| && es[i].key == es[j].key
    ensures forall m :: i <= m <= j ==> es[m].key == es[i].key && es[j].seqno <= es[m].seqno <= es[i].seqno
  {
    forall m | i <= m <= j
      ensures es[m].key == es[i].key && es[j].seqno <= es[m].seqno <= es[i].seqno
    {
      assert i < m ==> InternalLess(es[i], es[m]);
      assert m < j ==> InternalLess(es[m], es[j]);
      PackOrders(es[i].seqno, es[i].kind, es[m].seqno, es[m].kind);
      PackOrders(es[m].seqno, es[m].kind, es[j].seqno, es[j].kind);
    }
  }

  /** Once a version is visible to every live reader, all older versions of its key are hidden. */
  lemma OlderIsHidden(c: Setup, es: seq<Entry>, i: nat, j: nat)
    requires c.Valid() && c.Input(es) && i < j < |es|
    requires es[i].key == es[j].key && es[i].seqno <= c.Earliest()
    ensures Hidden(c, es, j)
  {
    SameKeyBetween(es, i, j);
    SeenByFacts(c, es[j-1].seqno);
    SeenByFacts(c, es[j].seqno);
  }

  /** Every output entry is the written form of a surviving input entry. */
  lemma {:induction false} OutputOrigin(c: Setup, es: seq<Entry>, n: nat, p: nat) returns (i: nat)
    requires n <= |es| && p < |Output(c, es, n)|
    ensures i < n && Survives(c, es, i) && Output(c, es, n)[p] == Written(c, es[i])
  {
    if Survives(c, es, n - 1) && p == |Output(c, es, n - 1)| {
      i := n - 1;
    } else {
      i := OutputOrigin(c, es, n - 1, p);
    }
  }

  /** A surviving later entry is written after every earlier surviving one, zeroed or not. */
  lemma WrittenOrdered(c: Setup, es: seq<Entry>, i: nat, j: nat)
    requires c.Valid() && c.Input(es) && i < j < |es| && Survives(c, es, j)
    ensures InternalLess(Written(c, es[i]), Written(c, es[j]))
    ensures IsZeroed(c, es[i]) ==> es[i].key < es[j].key
  {
    assert InternalLess(es[i], es[j]);
    if es[i].key == es[j].key && es[i].seqno <= c.Earliest() {
      OlderIsHidden(c, es, i, j);
    }
    PackOrders(es[i].seqno, es[i].kind, es[j].seqno, es[j].kind);
    PackOrders(es[i].seqno, es[i].kind, 0, es[j].kind);
  }

  /** The output is strictly increasing in internal-key order. */
  lemma {:induction false} OutputSorted(c: Setup, es: seq<Entry>, n: nat)
    requires c.Valid() && c.Input(es) && n <= |es|
    ensures Sorted(Output(c, es, n))
  {
    if n > 0 {
      OutputSorted(c, es, n - 1);
      var out := Output(c, es, n - 1);
      if Survives(c, es, n - 1) {
        forall p | 0 <= p < |out| ensures InternalLess(out[p], Written(c, es[n-1])) {
          var i := OutputOrigin(c, es, n - 1, p);
          WrittenOrdered(c, es, i, n - 1);
        }
      }
    }
  }
}
