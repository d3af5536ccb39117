/** Any run of iterator commands, against a cursor over the sorted list of visible pairs (db/db_iter.cc). */
module DbCursor {
  import opened DbFormat
  import opened VisibleMap
  import opened DbIter

  datatype Command = SeekToFirst | SeekToLast | Seek(target: UserKey) | Next | Prev

  // ---------------------------------------------------------------- the reference

  ghost predicate Ascending(l: seq<Pair>)
  {
    forall a, b :: 0 <= a < b < |l| ==> l[a].key < l[b].key
  }

  /** The first index whose key is at least k. */
  function Lower(l: seq<Pair>, k: UserKey): (p: nat)
    ensures p <= |l| && (forall a :: 0 <= a < p ==> l[a].key < k) && (p < |l| ==> k <= l[p].key)
  {
    if l == [] || k <= l[0].key then 0 else 1 + Lower(l[1..], k)
  }

  /** A cursor over a list is an index; it is valid inside the list, and Next and Prev are issued only there. */
  function Move(l: seq<Pair>, at: int, c: Command): (r: int)
    requires -1 <= at <= |l|
    ensures -1 <= r <= |l|
  {
    match c
    case SeekToFirst => 0
    case SeekToLast => |l| - 1
    case Seek(k) => Lower(l, k)
    case Next => if 0 <= at < |l| then at + 1 else at
    case Prev => if 0 <= at < |l| then at - 1 else at
  }

  function Reading(l: seq<Pair>, at: int): (r: Option<Pair>)
  {
    if 0 <= at < |l| then Some(l[at]) else None
  }

  /** What is read after each command. */
  function Trace(l: seq<Pair>, at: int, cs: seq<Command>): (r: seq<Option<Pair>>)
    requires -1 <= at <= |l|
    decreases |cs|
  {
    if cs == [] then [] else [Reading(l, Move(l, at, cs[0]))] + Trace(l, Move(l, at, cs[0]), cs[1..])
  }

  lemma {:induction false} TraceAppend(l: seq<Pair>, at: int, cs: seq<Command>, c: Command) returns (end: int)
    requires -1 <= at <= |l|
    ensures end == After(l, at, cs) && Trace(l, at, cs + [c]) == Trace(l, at, cs) + [Reading(l, Move(l, end, c))]
    ensures After(l, at, cs + [c]) == Move(l, end, c)
    decreases |cs|
  {
    if cs == [] {
      end := at;
    } else {
      assert (cs + [c])[1..] == cs[1..] + [c];
      end := TraceAppend(l, Move(l, at, cs[0]), cs[1..], c);
    }
  }

  /** Where the commands lead. */
  function After(l: seq<Pair>, at: int, cs: seq<Command>): (r: int)
    requires -1 <= at <= |l|
    ensures -1 <= r <= |l|
    decreases |cs|
  {
    if cs == [] then at else After(l, Move(l, at, cs[0]), cs[1..])
  }

  // ---------------------------------------------------------------- the iterator follows it

  /** l lists exactly the visible pairs. */
  ghost predicate Lists(it: DBIter, l: seq<Pair>)
  {
    && Ascending(l)
    && (forall a :: 0 <= a < |l| ==> it.Shown(l[a].key) == Some(l[a].value))
    && (forall k :: it.Shown(k).Some? ==> exists a :: 0 <= a < |l| && l[a].key == k)
  }

  /** The iterator stands where the reference cursor does. */
  ghost predicate StandsAt(it: DBIter, l: seq<Pair>, at: int)
    reads it
  {
    it.Good() && (it.valid <==> 0 <= at < |l|) && (it.valid ==> it.savedKey == l[at].key)
  }

  lemma ListingLists(it: DBIter)
    requires it.Store()
    ensures Lists(it, Listing(it.es, it.op, it.sequence, 0))
  {
    ListingIsVisibleMap(it.es, it.op, it.sequence);
  }

  lemma NotBetween(it: DBIter, l: seq<Pair>, a: int, b: int)
    requires Lists(it, l) && 0 <= a < b < |l|
    ensures l[a].key < l[b].key && it.Shown(l[a].key).Some? && it.Shown(l[b].key).Some?
  {
  }

  /** The least visible key of a range that is the list from p on is the one at p. */
  lemma FirstIs(it: DBIter, l: seq<Pair>, b: Bound, p: nat)
    requires Lists(it, l) && it.OnFirst(b) && p <= |l|
    requires forall a :: 0 <= a < |l| ==> (Within(b, l[a].key) <==> p <= a)
    ensures StandsAt(it, l, p)
  {
    assert p < |l| ==> it.Shown(l[p].key).Some? && Within(b, l[p].key);
    if it.valid {
      var a :| 0 <= a < |l| && l[a].key == it.savedKey;
      if p < a { NotBetween(it, l, p, a); }
    }
  }

  /** The greatest visible key of a range that is the list up to p is the one at p. */
  lemma LastIs(it: DBIter, l: seq<Pair>, b: Bound, p: int)
    requires Lists(it, l) && it.OnLast(b) && -1 <= p < |l|
    requires forall a :: 0 <= a < |l| ==> (Within(b, l[a].key) <==> a <= p)
    ensures StandsAt(it, l, p)
  {
    assert p >= 0 ==> it.Shown(l[p].key).Some? && Within(b, l[p].key);
    if it.valid {
      var a :| 0 <= a < |l| && l[a].key == it.savedKey;
      if a < p { NotBetween(it, l, a, p); }
    }
  }

  // ---------------------------------------------------------------- where Prev can be trusted

  /** Folding the newest visible versions of k stops on an older entry of k, or at the end of a store with nothing
      visible below k. */
  ghost predicate FoldStays(it: DBIter, k: UserKey)
  {
    var start := Start(it.es, k, it.sequence);
    start < |it.es| && it.es[start].kind == Merge && it.Shown(k).Some? ==>
      var p := FoldEnd(it.es, start, k);
      if p < |it.es| then it.es[p].key == k else forall j :: j < k ==> it.Shown(j).None?
  }

  ghost predicate Reversible(it: DBIter)
  {
    forall k :: FoldStays(it, k)
  }

  lemma WithoutMerges(it: DBIter)
    requires forall i :: 0 <= i < |it.es| ==> it.es[i].kind != Merge
    ensures Reversible(it)
    ensures it.Good() && it.valid ==> it.Steady()
  {
  }

  // ---------------------------------------------------------------- every run

  method Back(it: DBIter, ghost l: seq<Pair>, ghost at: int)
    requires -1 <= at <= |l| && Lists(it, l) && StandsAt(it, l, at) && it.valid && Reversible(it)
    modifies it
    ensures StandsAt(it, l, at - 1)
  {
    hide ValueAt, Ordered, SeekIndex, FoldEnd;
    assert FoldStays(it, it.savedKey);
    it.Prev();
    LastIs(it, l, LessThan(l[at].key), at - 1);
  }

  method Perform(it: DBIter, c: Command, ghost l: seq<Pair>, ghost at: int)
    requires -1 <= at <= |l| && Lists(it, l) && StandsAt(it, l, at) && (c.Prev? ==> Reversible(it))
    modifies it
    ensures StandsAt(it, l, Move(l, at, c))
  {
    hide ValueAt, Ordered, SeekIndex, Reversible, FoldEnd;
    match c {
      case SeekToFirst => it.SeekToFirst(); FirstIs(it, l, Everything, 0);
      case SeekToLast => it.SeekToLast(); LastIs(it, l, Everything, |l| - 1);
      case Seek(k) => it.Seek(k); FirstIs(it, l, AtLeast(k), Lower(l, k));
      case Next =>
        if it.valid { it.Next(); FirstIs(it, l, MoreThan(l[at].key), at + 1); }
      case Prev =>
        if it.valid { Back(it, l, at); }
    }
  }

  /** Whatever the commands and however they change direction, the iterator reads what the cursor over the visible map
      reads; with Prev among them, if every fold stays on its key. */
  method Run(it: DBIter, cs: seq<Command>) returns (out: seq<Option<Pair>>)
    requires it.Good() && !it.valid && (Prev in cs ==> Reversible(it))
    modifies it
    ensures out == Trace(Listing(it.es, it.op, it.sequence, 0), -1, cs)
  {
    ghost var l := Listing(it.es, it.op, it.sequence, 0);
    ListingLists(it);
    ghost var at := -1;
    out := [];
    for i := 0 to |cs|
      invariant -1 <= at <= |l| && at == After(l, -1, cs[..i]) && out == Trace(l, -1, cs[..i])
      invariant StandsAt(it, l, at)
    {
      Perform(it, cs[i], l, at);
      assert cs[..i + 1] == cs[..i] + [cs[i]];
      var end := TraceAppend(l, -1, cs[..i], cs[i]);
      at := Move(l, at, cs[i]);
      out := out + [if it.valid then Some(Pair(it.savedKey, it.Value())) else None];
    }
    assert cs[..|cs|] == cs;
  }

  /** Where a fold leaves its key, seeking that key and going back reads a key not below it, or nothing although a key
      below it is visible. */
  method SeekAndBack(it: DBIter, k: UserKey) returns (out: seq<Option<Pair>>)
    requires it.Good() && !FoldStays(it, k)
    modifies it
    ensures |out| == 2 && it.Shown(k).Some?
    ensures if out[1].Some? then k <= out[1].value.key else exists j :: j < k && it.Shown(j).Some?
  {
    it.Seek(k);
    assert Within(AtLeast(k), k);
    out := [Some(Pair(it.savedKey, it.Value()))];
    it.Prev();
    out := out + [if it.valid then Some(Pair(it.savedKey, it.savedValue)) else None];
  }

  lemma BackIsBelow(it: DBIter, l: seq<Pair>, k: UserKey, out: seq<Option<Pair>>)
    requires Lists(it, l) && it.Shown(k).Some? && |out| == 2
    requires if out[1].Some? then k <= out[1].value.key else exists j :: j < k && it.Shown(j).Some?
    ensures out != Trace(l, -1, [Seek(k), Prev])
  {
    var cs, at := [Seek(k), Prev], Lower(l, k);
    assert cs[1..] == [Prev] && cs[1..][1..] == [];
    assert Trace(l, at, [Prev]) == [Reading(l, Move(l, at, Prev))];
    assert Trace(l, -1, cs)[1] == Reading(l, Move(l, at, Prev));
    var b :| 0 <= b < |l| && l[b].key == k;
    if out[1].None? {
      var j :| j < k && it.Shown(j).Some?;
      var a :| 0 <= a < |l| && l[a].key == j;
    }
  }

  /** The condition of Run is exact: a store is not Reversible if and only if some fold leaves its key, and then two
      commands read something else than the visible map. */
  method Unfaithful(it: DBIter, k: UserKey) returns (out: seq<Option<Pair>>)
    requires it.Good() && !FoldStays(it, k)
    modifies it
    ensures out != Trace(Listing(it.es, it.op, it.sequence, 0), -1, [Seek(k), Prev])
  {
    hide Lists, FoldStays, Trace;
    ListingLists(it);
    out := SeekAndBack(it, k);
    BackIsBelow(it, Listing(it.es, it.op, it.sequence, 0), k, out);
  }
}
