/**
 The map a reader sees at one sequence number: the meaning that iterators and point
 lookups must agree with.

 Entries are ordered by user key, and for one key from newest to oldest.  A key's value
 is decided by its versions at or below the sequence number: merge operands are collected
 down to the first put, tombstone or the end of the key, and combined oldest first.
 */
module VisibleMap {
  import opened DbFormat

  /** MergeOperator::FullMerge: user key, existing value if any, operands oldest first. */
  type FullMerge = (UserKey, Option<Bytes>, seq<Bytes>) -> Bytes

  /** User key ascending, sequence number strictly descending within a key. */
  ghost predicate Ordered(es: seq<Entry>)
  {
    forall i, j :: 0 <= i < j < |es| ==>
      es[i].key < es[j].key || (es[i].key == es[j].key && es[i].seqno > es[j].seqno)
  }

  /** Where an internal iterator's Seek(k, n) stops: past every entry before the target. */
  function SeekIndex(es: seq<Entry>, k: UserKey, n: nat, from: nat): (p: nat)
    requires from <= |es|
    ensures from <= p <= |es|
    ensures forall i :: from <= i < p ==> Before(es[i].key, Pack(es[i].seqno, es[i].kind), k, n)
    ensures p < |es| ==> !Before(es[p].key, Pack(es[p].seqno, es[p].kind), k, n)
    decreases |es| - from
  {
    if from < |es| && Before(es[from].key, Pack(es[from].seqno, es[from].kind), k, n)
    then SeekIndex(es, k, n, from + 1) else from
  }

  /** The first entry of key k that a reader at s may see, if k has one; otherwise where it would be. */
  function Start(es: seq<Entry>, k: UserKey, s: nat): (p: nat)
    ensures p <= |es|
  {
    SeekIndex(es, k, Pack(s, TYPE_FOR_SEEK), 0)
  }

  /** What decides a key: the value under its merge operands, and the operands oldest first. */
  datatype Versions = Versions(base: Option<Bytes>, operands: seq<Bytes>)

  /** The versions of key k from entry i on, newest first. */
  function Chain(es: seq<Entry>, i: nat, k: UserKey): (c: Versions)
    requires i <= |es|
    decreases |es| - i
  {
    if i == |es| || es[i].key != k then Versions(None, [])
    else match es[i].kind
      case Put => Versions(Some(es[i].value), [])
      case Deletion => Versions(None, [])
      case Merge => var c := Chain(es, i + 1, k); c.(operands := c.operands + [es[i].value])
  }

  /** Where folding the operands of key k from entry i on leaves off: past the operands and the version below them. */
  function FoldEnd(es: seq<Entry>, i: nat, k: UserKey): (p: nat)
    requires i <= |es|
    ensures i <= p <= |es|
    decreases |es| - i
  {
    if i == |es| || es[i].key != k then i else if es[i].kind == Merge then FoldEnd(es, i + 1, k) else i + 1
  }

  function Combine(op: FullMerge, k: UserKey, c: Versions): (v: Option<Bytes>)
  {
    if c.operands == [] then c.base else Some(op(k, c.base, c.operands))
  }

  /** The value of k at sequence number s, if k is visible there. */
  function ValueAt(es: seq<Entry>, op: FullMerge, s: nat, k: UserKey): (v: Option<Bytes>)
  {
    Combine(op, k, Chain(es, Start(es, k, s), k))
  }

  // ---------------------------------------------------------------- facts about positions

  /** Start is where the invisible versions of k and all smaller keys end. */
  lemma StartFacts(es: seq<Entry>, k: UserKey, s: nat)
    ensures forall i :: 0 <= i < Start(es, k, s) ==> es[i].key < k || (es[i].key == k && es[i].seqno > s)
    ensures Start(es, k, s) < |es| ==>
      var e := es[Start(es, k, s)]; e.key > k || (e.key == k && e.seqno <= s)
  {
    var p := Start(es, k, s);
    forall i | 0 <= i < p ensures es[i].key < k || (es[i].key == k && es[i].seqno > s) {
      PackOrders(s, TYPE_FOR_SEEK, es[i].seqno, es[i].kind);
    }
    if p < |es| { PackOrders(s, TYPE_FOR_SEEK, es[p].seqno, es[p].kind); }
  }

  /** The only place with those facts is Start. */
  lemma StartIs(es: seq<Entry>, k: UserKey, s: nat, p: nat)
    requires p < |es| && es[p].key == k && es[p].seqno <= s
    requires forall i :: 0 <= i < p ==> es[i].key < k || (es[i].key == k && es[i].seqno > s)
    ensures Start(es, k, s) == p
  {
    StartFacts(es, k, s);
  }

  /** A visible key has a visible version, and it sits at Start. */
  lemma VisibleHasVersion(es: seq<Entry>, op: FullMerge, s: nat, k: UserKey)
    requires ValueAt(es, op, s, k).Some?
    ensures Start(es, k, s) < |es| && es[Start(es, k, s)].key == k && es[Start(es, k, s)].seqno <= s
  {
    StartFacts(es, k, s);
  }

  /** The kind of the newest visible version decides visibility. */
  lemma VisibleByKind(es: seq<Entry>, op: FullMerge, s: nat, k: UserKey)
    requires Start(es, k, s) < |es| && es[Start(es, k, s)].key == k
    ensures ValueAt(es, op, s, k).Some? <==> es[Start(es, k, s)].kind != Deletion
    ensures es[Start(es, k, s)].kind == Put ==> ValueAt(es, op, s, k) == Some(es[Start(es, k, s)].value)
  {
  }

  // ---------------------------------------------------------------- merged values

  /** Entries from i up to j are merge operands of k and entry j is none. */
  ghost predicate OperandsOf(es: seq<Entry>, i: nat, j: nat, k: UserKey)
  {
    && i <= j <= |es| && (forall m :: i <= m < j ==> es[m].key == k && es[m].kind == Merge)
    && (j == |es| || es[j].key != k || es[j].kind != Merge)
  }

  /** The value that entry j puts under the operands before it, if any. */
  function PutAt(es: seq<Entry>, j: nat, k: UserKey): Option<Bytes>
  {
    if j < |es| && es[j].key == k && es[j].kind == Put then Some(es[j].value) else None
  }

  /** The values of the entries from i up to j, last one first. */
  function Backward(es: seq<Entry>, i: nat, j: nat): (r: seq<Bytes>)
    requires i <= j <= |es|
    ensures |r| == j - i && forall m :: 0 <= m < j - i ==> r[m] == es[j - 1 - m].value
  {
    seq(j - i, m requires 0 <= m < j - i => es[j - 1 - m].value)
  }

  lemma {:induction false} ChainOf(es: seq<Entry>, i: nat, j: nat, k: UserKey)
    requires OperandsOf(es, i, j, k)
    ensures Chain(es, i, k) == Versions(PutAt(es, j, k), Backward(es, i, j))
    decreases j - i
  {
    hide Backward;
    if i < j {
      ChainOf(es, i + 1, j, k);
      assert Backward(es, i, j) == Backward(es, i + 1, j) + [es[i].value];
    }
  }

  /** Operands m1 to mn, oldest first, over a put of v show op(k, Some(v), [m1, ..., mn]); over a tombstone or nothing
      they show op(k, None, [m1, ..., mn]); without operands the put itself is shown. */
  lemma MergedValue(es: seq<Entry>, op: FullMerge, s: nat, k: UserKey, j: nat)
    requires OperandsOf(es, Start(es, k, s), j, k)
    ensures var i := Start(es, k, s);
      ValueAt(es, op, s, k) ==
        if i == j then PutAt(es, j, k) else Some(op(k, PutAt(es, j, k), Backward(es, i, j)))
  {
    ChainOf(es, Start(es, k, s), j, k);
    hide Backward;
  }

  // ---------------------------------------------------------------- the sorted listing

  datatype Pair = Pair(key: UserKey, value: Bytes)

  predicate FirstOfKey(es: seq<Entry>, i: nat)
    requires i < |es|
  {
    i == 0 || es[i-1].key != es[i].key
  }

  /** The visible pairs whose key's entries begin at index i or later, in key order. */
  function Listing(es: seq<Entry>, op: FullMerge, s: nat, i: nat): (r: seq<Pair>)
    requires i <= |es|
    decreases |es| - i
  {
    if i == |es| then []
    else if FirstOfKey(es, i) && ValueAt(es, op, s, es[i].key).Some? then
      [Pair(es[i].key, ValueAt(es, op, s, es[i].key).value)] + Listing(es, op, s, i + 1)
    else Listing(es, op, s, i + 1)
  }

  /** Stretches without a visible key list nothing. */
  lemma {:induction false} ListingSkips(es: seq<Entry>, op: FullMerge, s: nat, i: nat, j: nat)
    requires i <= j <= |es|
    requires forall m :: i <= m < j && FirstOfKey(es, m) ==> ValueAt(es, op, s, es[m].key).None?
    ensures Listing(es, op, s, i) == Listing(es, op, s, j)
    decreases j - i
  {
    if i < j { ListingSkips(es, op, s, i + 1, j); }
  }

  function Reverse<T>(xs: seq<T>): (r: seq<T>)
  {
    if xs == [] then [] else Reverse(xs[1..]) + [xs[0]]
  }

  /** Every listed pair is a visible key with its value, at the first entry of that key. */
  lemma {:induction false} ListedAt(es: seq<Entry>, op: FullMerge, s: nat, i: nat, a: nat) returns (m: nat)
    requires i <= |es| && a < |Listing(es, op, s, i)|
    ensures i <= m < |es| && FirstOfKey(es, m)
    ensures Listing(es, op, s, i)[a].key == es[m].key
    ensures ValueAt(es, op, s, es[m].key) == Some(Listing(es, op, s, i)[a].value)
    decreases |es| - i
  {
    if FirstOfKey(es, i) && ValueAt(es, op, s, es[i].key).Some? {
      if a == 0 { m := i; } else { m := ListedAt(es, op, s, i + 1, a - 1); }
    } else {
      m := ListedAt(es, op, s, i + 1, a);
    }
  }

  lemma {:induction false} ListingHas(es: seq<Entry>, op: FullMerge, s: nat, i: nat, m: nat) returns (a: nat)
    requires i <= m < |es| && FirstOfKey(es, m) && ValueAt(es, op, s, es[m].key).Some?
    ensures a < |Listing(es, op, s, i)| && Listing(es, op, s, i)[a].key == es[m].key
    decreases m - i
  {
    hide ValueAt;
    if i == m {
      a := 0;
    } else {
      a := ListingHas(es, op, s, i + 1, m);
      if FirstOfKey(es, i) && ValueAt(es, op, s, es[i].key).Some? { a := a + 1; }
    }
  }

  lemma NewKeyIsLarger(es: seq<Entry>, i: nat, m: nat)
    requires Ordered(es) && i < m < |es| && FirstOfKey(es, m)
    ensures es[i].key < es[m].key
  {
    assert es[i].key <= es[m-1].key < es[m].key;
  }

  lemma {:induction false} ListingAscends(es: seq<Entry>, op: FullMerge, s: nat, i: nat, a: nat, b: nat)
    requires Ordered(es) && i <= |es| && a < b < |Listing(es, op, s, i)|
    ensures Listing(es, op, s, i)[a].key < Listing(es, op, s, i)[b].key
    decreases |es| - i
  {
    hide Ordered, ValueAt;
    if FirstOfKey(es, i) && ValueAt(es, op, s, es[i].key).Some? {
      if a == 0 {
        var m := ListedAt(es, op, s, i + 1, b - 1);
        NewKeyIsLarger(es, i, m);
      } else {
        ListingAscends(es, op, s, i + 1, a - 1, b - 1);
      }
    } else {
      ListingAscends(es, op, s, i + 1, a, b);
    }
  }

  lemma {:induction false} FirstEntryOf(es: seq<Entry>, p: nat) returns (m: nat)
    requires Ordered(es) && p < |es|
    ensures m <= p && es[m].key == es[p].key && FirstOfKey(es, m)
  {
    if FirstOfKey(es, p) { m := p; } else { m := FirstEntryOf(es, p - 1); }
  }

  /** The whole listing is the visible map: ascending keys, exactly the visible ones, with their values. */
  lemma {:induction false} ListingIsVisibleMap(es: seq<Entry>, op: FullMerge, s: nat)
    requires Ordered(es)
    ensures var l := Listing(es, op, s, 0);
            && (forall a, b :: 0 <= a < b < |l| ==> l[a].key < l[b].key)
            && (forall a :: 0 <= a < |l| ==> ValueAt(es, op, s, l[a].key) == Some(l[a].value))
    ensures forall k :: ValueAt(es, op, s, k).Some? ==>
              exists a :: 0 <= a < |Listing(es, op, s, 0)| && Listing(es, op, s, 0)[a].key == k
  {
    var l := Listing(es, op, s, 0);
    forall a, b | 0 <= a < b < |l| ensures l[a].key < l[b].key {
      ListingAscends(es, op, s, 0, a, b);
    }
    forall a | 0 <= a < |l| ensures ValueAt(es, op, s, l[a].key) == Some(l[a].value) {
      var m := ListedAt(es, op, s, 0, a);
    }
    forall k | ValueAt(es, op, s, k).Some? ensures exists a :: 0 <= a < |l| && l[a].key == k {
      VisibleHasVersion(es, op, s, k);
      var m := FirstEntryOf(es, Start(es, k, s));
      var a := ListingHas(es, op, s, 0, m);
    }
  }
}
