/**
 What a reader that merges all runs by internal key sees before and after a compaction
 (rocksdb-3.9/db/compaction_job.cc with db_iter.cc): unlike a lookup that asks one run after
 the other, it compares sequence numbers across runs, so zeroing one matters.
 */
module CompactionView {
  import opened DbFormat
  import opened Compaction
  import opened CompactionReads
  import opened VisibleMap

  // ---------------------------------------------------------------- sorted lists and their members

  lemma {:induction false} SortedSame(a: seq<Entry>, b: seq<Entry>)
    requires Sorted(a) && Sorted(b) && forall e :: e in a <==> e in b
    ensures a == b
    decreases |a|
  {
    SomeMember(b);
    if a != [] {
      assert a[0] in b;
      assert b[0] in a;
      FirstIsLeast(a, b[0]);
      FirstIsLeast(b, a[0]);
      assert a[0] == b[0];
      TailHas(a);
      TailHas(b);
      SortedSame(a[1..], b[1..]);
    }
  }

  lemma SomeMember(b: seq<Entry>)
    ensures b == [] || exists e :: e in b
  {
    if b != [] { assert b[0] in b; }
  }

  lemma FirstIsLeast(a: seq<Entry>, e: Entry)
    requires Sorted(a) && e in a
    ensures e == a[0] || InternalLess(a[0], e)
  {
  }

  lemma TailHas(a: seq<Entry>)
    requires Sorted(a) && a != []
    ensures Sorted(a[1..]) && forall e :: e in a[1..] <==> e in a && e != a[0]
  {
    forall e ensures e in a[1..] <==> e in a && e != a[0] {
      if e in a && e != a[0] {
        var i :| 0 <= i < |a| && a[i] == e;
        assert a[1..][i - 1] == e;
      }
      if e in a[1..] {
        var i :| 0 <= i < |a| - 1 && a[1..][i] == e;
        assert InternalLess(a[0], a[i + 1]);
      }
    }
  }

  /** The entries of es that are in `which`. */
  ghost function Only(es: seq<Entry>, which: iset<Entry>): seq<Entry>
  {
    if es == [] then [] else (if es[0] in which then [es[0]] else []) + Only(es[1..], which)
  }

  lemma {:induction false} OnlyIs(es: seq<Entry>, which: iset<Entry>)
    requires Sorted(es)
    ensures Sorted(Only(es, which)) && forall e :: e in Only(es, which) <==> e in es && e in which
  {
    if es != [] {
      OnlyIs(es[1..], which);
      TailHas(es);
      var rest := Only(es[1..], which);
      forall i | 0 <= i < |rest| ensures InternalLess(es[0], rest[i]) {
        assert rest[i] in es[1..];
        var j :| 0 <= j < |es| - 1 && es[1..][j] == rest[i];
        assert es[j + 1] == rest[i];
      }
    }
  }

  // ---------------------------------------------------------------- the value as a fold

  /** What the versions of one key, newest first, amount to. */
  function Folded(vs: seq<Entry>): (c: Versions)
  {
    if vs == [] then Versions(None, [])
    else match vs[0].kind
      case Put => Versions(Some(vs[0].value), [])
      case Deletion => Versions(None, [])
      case Merge => var c := Folded(vs[1..]); c.(operands := c.operands + [vs[0].value])
  }

  lemma {:induction false} FoldUnder(a: seq<Entry>, x: seq<Entry>, y: seq<Entry>)
    requires Folded(x) == Folded(y)
    ensures Folded(a + x) == Folded(a + y)
  {
    if a == [] {
      assert a + x == x && a + y == y;
    } else {
      assert (a + x)[1..] == a[1..] + x && (a + y)[1..] == a[1..] + y;
      FoldUnder(a[1..], x, y);
    }
  }

  lemma {:induction false} ChainFolds(es: seq<Entry>, i: nat, j: nat, k: UserKey)
    requires i <= j <= |es| && (forall m :: i <= m < j ==> es[m].key == k) && (j == |es| || es[j].key != k)
    ensures Chain(es, i, k) == Folded(es[i..j])
    decreases j - i
  {
    if i < j {
      assert es[i..j][1..] == es[i + 1..j];
      ChainFolds(es, i + 1, j, k);
    }
  }

  lemma {:induction false} KeyEnd(es: seq<Entry>, i: nat, k: UserKey) returns (j: nat)
    requires i <= |es|
    ensures i <= j <= |es| && (forall m :: i <= m < j ==> es[m].key == k) && (j == |es| || es[j].key != k)
  {
    j := i;
    while j < |es| && es[j].key == k
      invariant i <= j <= |es| && forall m :: i <= m < j ==> es[m].key == k
    {
      j := j + 1;
    }
  }

  lemma SliceSorted(es: seq<Entry>, i: nat, j: nat)
    requires Sorted(es) && i <= j <= |es|
    ensures Sorted(es[i..j])
  {
  }

  lemma BeyondKey(all: seq<Entry>, s: nat, k: UserKey, j: nat, m: nat)
    requires Sorted(all) && Start(all, k, s) <= j <= m < |all| && all[j].key != k
    requires forall i :: Start(all, k, s) <= i < j ==> all[i].key == k
    ensures all[m].key > k
  {
    var i := Start(all, k, s);
    StartFacts(all, k, s);
    assert i < j ==> InternalLess(all[i], all[j]);
    assert j < m ==> InternalLess(all[j], all[m]);
  }

  lemma WithinKey(all: seq<Entry>, s: nat, k: UserKey, m: nat)
    requires Sorted(all) && Start(all, k, s) <= m < |all| && all[Start(all, k, s)].key == k == all[m].key
    ensures all[m].seqno <= s
  {
    var i := Start(all, k, s);
    StartFacts(all, k, s);
    if i < m {
      assert InternalLess(all[i], all[m]);
      PackOrders(all[i].seqno, all[i].kind, all[m].seqno, all[m].kind);
    }
  }

  /** The entries of k that a reader at s may see lie together. */
  lemma VisibleSlice(all: seq<Entry>, s: nat, k: UserKey, j: nat, e: Entry)
    requires Sorted(all) && Start(all, k, s) <= j <= |all|
    requires (forall m :: Start(all, k, s) <= m < j ==> all[m].key == k) && (j == |all| || all[j].key != k)
    ensures e in all[Start(all, k, s)..j] <==> e in all && Matches(e, k, s)
  {
    var i := Start(all, k, s);
    StartFacts(all, k, s);
    forall m | j <= m < |all| ensures all[m].key > k { BeyondKey(all, s, k, j, m); }
    forall m | i <= m < j ensures all[m].seqno <= s { WithinKey(all, s, k, m); }
    hide Sorted, Start;
    if e in all[i..j] {
      var m :| 0 <= m < j - i && all[i..j][m] == e;
      assert all[i + m] == e;
    }
    if e in all && Matches(e, k, s) {
      var m :| 0 <= m < |all| && all[m] == e;
      assert i <= m < j;
      assert all[i..j][m - i] == e;
    }
  }

  /** A sorted list of exactly the versions of k that a reader at s may see gives its value there. */
  lemma ValueFolds(all: seq<Entry>, op: FullMerge, s: nat, k: UserKey, vs: seq<Entry>)
    requires Sorted(all) && Sorted(vs) && forall e :: e in vs <==> e in all && Matches(e, k, s)
    ensures ValueAt(all, op, s, k) == Combine(op, k, Folded(vs))
  {
    var i := Start(all, k, s);
    var j := KeyEnd(all, i, k);
    SliceSorted(all, i, j);
    forall e ensures e in all[i..j] <==> e in vs { VisibleSlice(all, s, k, j, e); }
    SortedSame(all[i..j], vs);
    ChainFolds(all, i, j, k);
  }

  // ---------------------------------------------------------------- the view is kept

  /** Of each key the versions in a are newer than those in b. */
  ghost predicate Newer(a: iset<Entry>, b: iset<Entry>)
  {
    forall x, y :: x in a && y in b && x.key == y.key ==> x.seqno > y.seqno
  }

  ghost function Members(es: seq<Entry>): iset<Entry>
  {
    iset e | e in es
  }

  /** The entries of the set that are versions of k at or below s. */
  ghost function Seen(which: iset<Entry>, k: UserKey, s: nat): iset<Entry>
  {
    iset e | e in which && Matches(e, k, s)
  }

  lemma {:induction false} LookupIsFirst(es: seq<Entry>, which: iset<Entry>, k: UserKey, s: nat)
    requires forall e :: e in es ==> (e in which <==> Matches(e, k, s))
    ensures Lookup(es, k, s) == if Only(es, which) == [] then None else Some(Only(es, which)[0])
  {
    if es != [] {
      assert forall e :: e in es[1..] ==> e in es;
      LookupIsFirst(es[1..], which, k, s);
    }
  }

  lemma JoinSorted(a: seq<Entry>, b: seq<Entry>, k: UserKey)
    requires Sorted(a) && Sorted(b) && Newer(Members(a), Members(b))
    requires (forall e :: e in a ==> e.key == k) && (forall e :: e in b ==> e.key == k)
    ensures Sorted(a + b)
  {
    forall i, j | 0 <= i < |a| && 0 <= j < |b| ensures InternalLess(a[i], b[j]) {
      assert a[i] in Members(a) && b[j] in Members(b);
      PackOrders(b[j].seqno, b[j].kind, a[i].seqno, a[i].kind);
    }
  }

  /** The versions of k in a merged list of three layers: those of the newest layer, the middle one and the oldest. */
  lemma LayersFold(all: seq<Entry>, above: iset<Entry>, mid: seq<Entry>, below: iset<Entry>, op: FullMerge, k: UserKey,
                   s: nat, a: seq<Entry>, m: seq<Entry>, b: seq<Entry>)
    requires Sorted(all) && Sorted(mid) && forall e :: e in all <==> e in above || e in mid || e in below
    requires Newer(above, Members(mid)) && Newer(Members(mid), below) && Newer(above, below)
    requires Sorted(a) && forall e :: e in a <==> e in Seen(above, k, s)
    requires Sorted(m) && forall e :: e in m <==> e in Seen(Members(mid), k, s)
    requires Sorted(b) && forall e :: e in b <==> e in Seen(below, k, s)
    ensures ValueAt(all, op, s, k) == Combine(op, k, Folded(a + (m + b)))
  {
    hide Sorted, ValueAt, Combine, Folded;
    JoinSorted(m, b, k);
    JoinSorted(a, m + b, k);
    ValueFolds(all, op, s, k, a + (m + b));
  }

  /** Written entries are no newer than their originals, and older only where nothing lies below. */
  lemma OutputLayered(c: Setup, above: iset<Entry>, es: seq<Entry>, below: iset<Entry>)
    requires c.Valid() && Newer(above, Members(es)) && Newer(Members(es), below)
    requires forall e :: e in below ==> !c.KeyGone(e.key)
    ensures Newer(above, Members(Output(c, es, |es|))) && Newer(Members(Output(c, es, |es|)), below)
  {
    var out := Output(c, es, |es|);
    forall o | o in out
      ensures forall x :: x in above && x.key == o.key ==> x.seqno > o.seqno
      ensures forall y :: y in below && y.key == o.key ==> o.seqno > y.seqno
    {
      var p :| 0 <= p < |out| && out[p] == o;
      var i := OutputOrigin(c, es, |es|, p);
      assert es[i] in Members(es);
      if IsZeroed(c, es[i]) { assert forall k :: c.KeyGone(k); }
    }
  }

  /** Above data that is gone below the inputs, the output amounts to what the inputs do. */
  lemma OutputFolds(c: Setup, es: seq<Entry>, k: UserKey, s: nat, m: seq<Entry>, o: seq<Entry>, b: seq<Entry>)
    requires c.Valid() && c.Input(es) && c.Live(s)
    requires Lookup(es, k, s) == if m == [] then None else Some(m[0])
    requires Lookup(Output(c, es, |es|), k, s) == if o == [] then None else Some(o[0])
    requires c.KeyGone(k) ==> b == []
    ensures Folded(m + b) == Folded(o + b)
  {
    if HasMatch(es, k, s) {
      var i := FirstMatch(es, k, s);
      LookupAt(es, k, s, i);
      OutputHits(c, es, |es|, k, s, i);
    } else {
      LookupNone(es, k, s);
      OutputMisses(c, es, |es|, k, s);
      assert m == [] && o == [];
    }
  }

  /**
   A reader that merges everything by internal key sees the same before and after, at every live sequence number:
   `all` and `all'` are the merged lists, `above` and `below` the entries of the newer and older runs, of any kind.
   */
  lemma CompactionPreservesView(c: Setup, above: iset<Entry>, es: seq<Entry>, below: iset<Entry>, all: seq<Entry>,
                                all': seq<Entry>, op: FullMerge, k: UserKey, s: nat)
    requires c.Valid() && c.Input(es) && c.Live(s) && Sorted(all) && Sorted(all')
    requires forall e :: e in all <==> e in above || e in es || e in below
    requires forall e :: e in all' <==> e in above || e in Output(c, es, |es|) || e in below
    requires Newer(above, Members(es)) && Newer(Members(es), below) && Newer(above, below)
    requires forall e :: e in below ==> !c.KeyGone(e.key)
    ensures ValueAt(all, op, s, k) == ValueAt(all', op, s, k)
  {
    hide Sorted, ValueAt, Folded, Output, Only, Lookup, Combine;
    var out := Output(c, es, |es|);
    OutputSorted(c, es, |es|);
    OutputLayered(c, above, es, below);
    var a, b := Only(all, Seen(above, k, s)), Only(all, Seen(below, k, s));
    var m, o := Only(es, Seen(Members(es), k, s)), Only(out, Seen(Members(out), k, s));
    OnlyIs(all, Seen(above, k, s));
    OnlyIs(all, Seen(below, k, s));
    OnlyIs(es, Seen(Members(es), k, s));
    OnlyIs(out, Seen(Members(out), k, s));
    LookupIsFirst(es, Seen(Members(es), k, s), k, s);
    LookupIsFirst(out, Seen(Members(out), k, s), k, s);
    assert c.KeyGone(k) ==> b == [] by { assert b != [] ==> b[0] in b; }
    OutputFolds(c, es, k, s, m, o, b);
    FoldUnder(a, m + b, o + b);
    LayersFold(all, above, es, below, op, k, s, a, m, b);
    LayersFold(all', above, out, below, op, k, s, a, o, b);
  }

  // ---------------------------------------------------------------- lookups and merged readers agree

  /** The entries of the runs from a up to b. */
  ghost function Union(runs: seq<seq<Entry>>, a: nat, b: nat): iset<Entry>
  {
    iset e, i | a <= i < b && i < |runs| && e in runs[i] :: e
  }

  /** Sorted runs of puts and tombstones, newest first. */
  ghost predicate Stacked(runs: seq<seq<Entry>>)
  {
    && (forall i :: 0 <= i < |runs| ==> Sorted(runs[i]) && forall e :: e in runs[i] ==> e.kind != Merge)
    && (forall i, j :: 0 <= i < j < |runs| ==> Newer(Members(runs[i]), Members(runs[j])))
  }

  lemma {:induction false} GetSkips(runs: seq<seq<Entry>>, k: UserKey, s: nat, i: nat)
    requires i <= |runs| && forall j :: 0 <= j < i ==> Lookup(runs[j], k, s).None?
    ensures Get(runs, k, s) == Get(runs[i..], k, s)
    decreases i
  {
    if i > 0 {
      assert runs[1..][i - 1..] == runs[i..];
      GetSkips(runs[1..], k, s, i - 1);
    } else {
      assert runs[0..] == runs;
    }
  }

  lemma {:induction false} FirstHit(runs: seq<seq<Entry>>, k: UserKey, s: nat) returns (i: nat)
    ensures i <= |runs| && (forall j :: 0 <= j < i ==> Lookup(runs[j], k, s).None?)
    ensures i < |runs| ==> Lookup(runs[i], k, s).Some?
  {
    i := 0;
    while i < |runs| && Lookup(runs[i], k, s).None?
      invariant i <= |runs| && forall j :: 0 <= j < i ==> Lookup(runs[j], k, s).None?
    {
      i := i + 1;
    }
  }

  lemma {:induction false} LookupMisses(es: seq<Entry>, k: UserKey, s: nat, e: Entry)
    requires Lookup(es, k, s).None? && e in es
    ensures !Matches(e, k, s)
  {
    if e != es[0] { LookupMisses(es[1..], k, s, e); }
  }

  lemma UnionMisses(runs: seq<seq<Entry>>, k: UserKey, s: nat, i: nat)
    requires i <= |runs| && forall j :: 0 <= j < i ==> Lookup(runs[j], k, s).None?
    ensures forall e :: e !in Seen(Union(runs, 0, i), k, s)
  {
    forall e | e in Union(runs, 0, i) ensures !Matches(e, k, s) {
      var j :| 0 <= j < i && e in runs[j];
      LookupMisses(runs[j], k, s, e);
    }
  }

  /** With the middle one of three layers hit first, its first match is the value. */
  lemma HitIsValue(all: seq<Entry>, above: iset<Entry>, mid: seq<Entry>, below: iset<Entry>, op: FullMerge, k: UserKey,
                   s: nat)
    requires Sorted(all) && Sorted(mid) && forall e :: e in all <==> e in above || e in mid || e in below
    requires Newer(above, Members(mid)) && Newer(Members(mid), below) && Newer(above, below)
    requires (forall e :: e !in Seen(above, k, s)) && Lookup(mid, k, s).Some? && Lookup(mid, k, s).value.kind != Merge
    ensures var e := Lookup(mid, k, s).value;
      ValueAt(all, op, s, k) == if e.kind == Deletion then None else Some(e.value)
  {
    hide Sorted, ValueAt, Only, Lookup;
    var m, b := Only(mid, Seen(Members(mid), k, s)), Only(all, Seen(below, k, s));
    OnlyIs(mid, Seen(Members(mid), k, s));
    OnlyIs(all, Seen(below, k, s));
    LookupIsFirst(mid, Seen(Members(mid), k, s), k, s);
    assert Sorted([]) by { EmptySorted(); }
    LayersFold(all, above, mid, below, op, k, s, [], m, b);
    assert [] + (m + b) == m + b;
  }

  lemma EmptySorted()
    ensures Sorted([])
  {
  }

  lemma NothingSeen(all: seq<Entry>, op: FullMerge, k: UserKey, s: nat)
    requires Sorted(all) && forall e :: e in all ==> !Matches(e, k, s)
    ensures ValueAt(all, op, s, k) == None
  {
    ValueFolds(all, op, s, k, []);
  }

  lemma {:induction false} LookupIn(es: seq<Entry>, k: UserKey, s: nat)
    requires Lookup(es, k, s).Some?
    ensures Lookup(es, k, s).value in es
  {
    if !Matches(es[0], k, s) { LookupIn(es[1..], k, s); }
  }

  /** Asking one run after the other gives what the merge of all runs shows. */
  lemma LookupsAgree(runs: seq<seq<Entry>>, all: seq<Entry>, op: FullMerge, k: UserKey, s: nat)
    requires Stacked(runs) && Sorted(all) && forall e :: e in all <==> e in Union(runs, 0, |runs|)
    ensures Get(runs, k, s) == ValueAt(all, op, s, k)
  {
    hide Sorted, Newer, ValueAt, Lookup;
    var i := FirstHit(runs, k, s);
    GetSkips(runs, k, s, i);
    UnionMisses(runs, k, s, i);
    if i == |runs| {
      assert forall e :: e in all && Matches(e, k, s) ==> e in Seen(Union(runs, 0, i), k, s);
      NothingSeen(all, op, k, s);
      assert runs[i..] == [];
    } else {
      UnionSplits(runs, i);
      UnionLayered(runs, i);
      LookupIn(runs[i], k, s);
      HitIsValue(all, Union(runs, 0, i), runs[i], Union(runs, i + 1, |runs|), op, k, s);
      assert runs[i..][0] == runs[i];
    }
  }

  lemma UnionSplits(runs: seq<seq<Entry>>, i: nat)
    requires i < |runs|
    ensures forall e :: e in Union(runs, 0, |runs|) <==>
      e in Union(runs, 0, i) || e in runs[i] || e in Union(runs, i + 1, |runs|)
  {
  }

  lemma UnionLayered(runs: seq<seq<Entry>>, i: nat)
    requires Stacked(runs) && i < |runs|
    ensures Newer(Union(runs, 0, i), Members(runs[i])) && Newer(Members(runs[i]), Union(runs, i + 1, |runs|))
    ensures Newer(Union(runs, 0, i), Union(runs, i + 1, |runs|))
  {
    hide Sorted;
    forall a, b, x, y | 0 <= a < b < |runs| && x in runs[a] && y in runs[b] && x.key == y.key
      ensures x.seqno > y.seqno
    {
      assert Newer(Members(runs[a]), Members(runs[b])) && x in Members(runs[a]) && y in Members(runs[b]);
    }
  }

  // ---------------------------------------------------------------- which sequence numbers change

  /** An entry is written with sequence number 0 if the level is the bottommost and every live reader is past it, and
      otherwise as it is. */
  lemma WrittenIs(c: Setup, e: Entry)
    requires c.Valid() && e.seqno <= c.lastSequence && e.kind != Merge
    ensures Written(c, e) == if c.bottommost && (forall s :: c.Live(s) ==> e.seqno < s) then e.(seqno := 0) else e
  {
    SeenByFacts(c, e.seqno);
    assert c.Live(c.Earliest());
  }

  /** Every surviving entry is written, in order: the output has it at the count of those before it. */
  lemma {:induction false} SurvivorIsWritten(c: Setup, es: seq<Entry>, n: nat, i: nat)
    requires c.Valid() && c.Input(es) && i < n <= |es| && Survives(c, es, i)
    ensures |Output(c, es, i)| < |Output(c, es, n)|
    ensures Output(c, es, n)[|Output(c, es, i)|] ==
      if c.bottommost && (forall s :: c.Live(s) ==> es[i].seqno < s) then es[i].(seqno := 0) else es[i]
  {
    WrittenIs(c, es[i]);
    if i < n - 1 { SurvivorIsWritten(c, es, n - 1, i); }
  }
}
