/**
 What the rule of a compaction keeps (rocksdb-3.9/db/compaction_job.cc): every read at every
 live sequence number, and nothing that no live reader could see.
 */
module CompactionReads {
  import opened DbFormat
  import opened Compaction

  // ---------------------------------------------------------------- reading

  predicate Matches(e: Entry, k: UserKey, s: nat)
  {
    e.key == k && e.seqno <= s
  }

  /** The entry a read of k at sequence number s finds in one sorted run. */
  function Lookup(es: seq<Entry>, k: UserKey, s: nat): (r: Option<Entry>)
  {
    if es == [] then None
    else if Matches(es[0], k, s) then Some(es[0])
    else Lookup(es[1..], k, s)
  }

  lemma {:induction false} LookupAppend(a: seq<Entry>, b: seq<Entry>, k: UserKey, s: nat)
    ensures Lookup(a + b, k, s) == if Lookup(a, k, s).Some? then Lookup(a, k, s) else Lookup(b, k, s)
  {
    if a == [] {
      assert a + b == b;
    } else {
      assert (a + b)[1..] == a[1..] + b;
      LookupAppend(a[1..], b, k, s);
    }
  }

  lemma {:induction false} LookupNone(es: seq<Entry>, k: UserKey, s: nat)
    requires forall i :: 0 <= i < |es| ==> !Matches(es[i], k, s)
    ensures Lookup(es, k, s) == None
  {
    if es != [] { LookupNone(es[1..], k, s); }
  }

  lemma {:induction false} LookupAt(es: seq<Entry>, k: UserKey, s: nat, i: nat)
    requires i < |es| && Matches(es[i], k, s)
    requires forall j :: 0 <= j < i ==> !Matches(es[j], k, s)
    ensures Lookup(es, k, s) == Some(es[i])
  {
    if i > 0 { LookupAt(es[1..], k, s, i - 1); }
  }

  /** What a reader gets from runs ordered newest first: the first hit decides. */
  function Get(runs: seq<seq<Entry>>, k: UserKey, s: nat): (r: Option<Bytes>)
  {
    if runs == [] then None
    else
      match Lookup(runs[0], k, s)
      case Some(e) => if e.kind == Deletion then None else Some(e.value)
      case None => Get(runs[1..], k, s)
  }

  // ---------------------------------------------------------------- rule (A) is exact

  /** i is the version of its key that a reader at s sees. */
  ghost predicate SeenAt(es: seq<Entry>, i: nat, s: nat)
    requires i < |es|
  {
    es[i].seqno <= s && forall j :: 0 <= j < i && es[j].key == es[i].key ==> s < es[j].seqno
  }

  lemma SeenIsNotHidden(c: Setup, es: seq<Entry>, i: nat, s: nat)
    requires c.Valid() && c.Input(es) && i < |es| && c.Live(s) && SeenAt(es, i, s)
    ensures !Hidden(c, es, i)
  {
    SeenByFacts(c, es[i].seqno);
    if 0 < i && es[i-1].key == es[i].key {
      SeenByFacts(c, es[i-1].seqno);
    }
  }

  /** Rule (A) drops exactly the versions that no live reader can see. */
  lemma HiddenIffUnseen(c: Setup, es: seq<Entry>, i: nat)
    requires c.Valid() && c.Input(es) && i < |es|
    ensures Hidden(c, es, i) <==> forall s :: c.Live(s) ==> !SeenAt(es, i, s)
  {
    forall s | c.Live(s) && SeenAt(es, i, s) ensures !Hidden(c, es, i) {
      SeenIsNotHidden(c, es, i, s);
    }
    if !Hidden(c, es, i) {
      var s := SeenBy(c, es[i].seqno);
      SeenByFacts(c, es[i].seqno);
      forall j | 0 <= j < i && es[j].key == es[i].key ensures s < es[j].seqno {
        SameKeyBetween(es, j, i);
        SeenByFacts(c, es[i-1].seqno);
      }
      assert SeenAt(es, i, s);
    }
  }

  // ---------------------------------------------------------------- reads are kept

  /** Writing an entry changes neither its key nor whether a live reader matches it. */
  lemma WrittenMatches(c: Setup, e: Entry, k: UserKey, s: nat)
    requires c.Valid() && e.seqno <= c.lastSequence && c.Live(s)
    ensures Matches(Written(c, e), k, s) <==> Matches(e, k, s)
  {
    SeenByFacts(c, e.seqno);
  }

  /** Nothing before n matches: neither does anything written so far. */
  lemma {:induction false} OutputMisses(c: Setup, es: seq<Entry>, n: nat, k: UserKey, s: nat)
    requires c.Valid() && c.Input(es) && n <= |es| && c.Live(s)
    requires forall j :: 0 <= j < n ==> !Matches(es[j], k, s)
    ensures Lookup(Output(c, es, n), k, s) == None
  {
    if n > 0 {
      OutputMisses(c, es, n - 1, k, s);
      WrittenMatches(c, es[n-1], k, s);
      LookupAppend(Output(c, es, n - 1), [Written(c, es[n-1])], k, s);
    }
  }

  /** i is the first match: the output answers with i's written form, or not at all if i is obsolete. */
  lemma {:induction false} OutputHits(c: Setup, es: seq<Entry>, n: nat, k: UserKey, s: nat, i: nat)
    requires c.Valid() && c.Input(es) && i < n <= |es| && c.Live(s)
    requires Matches(es[i], k, s) && forall j :: 0 <= j < i ==> !Matches(es[j], k, s)
    ensures Lookup(Output(c, es, n), k, s) ==
            if Obsolete(c, es[i]) then None else Some(Written(c, es[i]))
  {
    WrittenMatches(c, es[n-1], k, s);
    LookupAppend(Output(c, es, n - 1), [Written(c, es[n-1])], k, s);
    if n == i + 1 {
      OutputMisses(c, es, i, k, s);
      assert SeenAt(es, i, s);
      SeenIsNotHidden(c, es, i, s);
    } else {
      OutputHits(c, es, n - 1, k, s, i);
      if Obsolete(c, es[i]) && es[n-1].key == k {
        OlderIsHidden(c, es, i, n - 1);
      }
    }
  }

  ghost predicate HasMatch(es: seq<Entry>, k: UserKey, s: nat)
  {
    exists i :: 0 <= i < |es| && Matches(es[i], k, s)
  }

  lemma {:induction false} FirstMatch(es: seq<Entry>, k: UserKey, s: nat) returns (i: nat)
    requires HasMatch(es, k, s)
    ensures i < |es| && Matches(es[i], k, s)
    ensures forall j :: 0 <= j < i ==> !Matches(es[j], k, s)
  {
    i := 0;
    while !Matches(es[i], k, s)
      invariant i < |es| && HasMatch(es, k, s)
      invariant forall j :: 0 <= j < i ==> !Matches(es[j], k, s)
      decreases |es| - i
    {
      i := i + 1;
    }
  }

  lemma {:induction false} GoneBelow(c: Setup, below: seq<seq<Entry>>, k: UserKey, s: nat)
    requires c.KeyGone(k) && forall l :: 0 <= l < |below| ==> c.CleanCut(below[l])
    ensures Get(below, k, s) == None
  {
    if below != [] {
      LookupNone(below[0], k, s);
      GoneBelow(c, below[1..], k, s);
    }
  }

  /** Replacing a run by an equivalent one, given what lies below it, keeps the read of the whole stack. */
  lemma {:induction false} GetUnder(above: seq<seq<Entry>>, a: seq<seq<Entry>>, b: seq<seq<Entry>>, k: UserKey, s: nat)
    requires Get(a, k, s) == Get(b, k, s)
    ensures Get(above + a, k, s) == Get(above + b, k, s)
  {
    if above == [] {
      assert above + a == a && above + b == b;
    } else {
      assert (above + a)[1..] == above[1..] + a && (above + b)[1..] == above[1..] + b;
      GetUnder(above[1..], a, b, k, s);
    }
  }

  /**
   Compaction preserves meaning: whatever newer runs lie above the inputs and whatever
   clean-cut runs lie below, every key reads the same at every live sequence number.
   */
  lemma CompactionPreservesReads(c: Setup, above: seq<seq<Entry>>, es: seq<Entry>, below: seq<seq<Entry>>,
                                 k: UserKey, s: nat)
    requires c.Valid() && c.Input(es) && c.Live(s)
    requires forall l :: 0 <= l < |below| ==> c.CleanCut(below[l])
    ensures Get(above + ([es] + below), k, s) == Get(above + ([Output(c, es, |es|)] + below), k, s)
  {
    var out := Output(c, es, |es|);
    assert ([es] + below)[1..] == below && ([out] + below)[1..] == below;
    if HasMatch(es, k, s) {
      var i := FirstMatch(es, k, s);
      LookupAt(es, k, s, i);
      OutputHits(c, es, |es|, k, s, i);
      if Obsolete(c, es[i]) { GoneBelow(c, below, k, s); }
    } else {
      LookupNone(es, k, s);
      OutputMisses(c, es, |es|, k, s);
    }
    GetUnder(above, [es] + below, [out] + below, k, s);
  }

  /** Of each key at most one version is zeroed, it is the last one written, and it is a value: no tombstone is
      zeroed. */
  lemma {:induction false} ZeroedVersions(c: Setup, es: seq<Entry>, i: nat, j: nat)
    requires c.Valid() && c.Input(es) && i < |es| && j < |es|
    requires Survives(c, es, i) && Survives(c, es, j) && IsZeroed(c, es[i]) && es[i].key == es[j].key
    ensures j <= i && (IsZeroed(c, es[j]) ==> i == j)
    ensures es[i].kind == Put
  {
    if i < j { WrittenOrdered(c, es, i, j); }
    if j < i && IsZeroed(c, es[j]) { WrittenOrdered(c, es, j, i); }
  }
}
