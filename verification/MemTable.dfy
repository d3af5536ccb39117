/** Memtables and the lookup through a stack of them (db/memtable.cc, db/memtable_list.cc, db/db_impl.cc GetImpl). */
module MemTables {
  import opened DbFormat
  import opened VisibleMap
  import opened DbIter

  // ---------------------------------------------------------------- what a lookup finds

  /** Merge operands only, oldest first, or those and what lies under them: a value or a tombstone. */
  datatype Outcome = Pending(operands: seq<Bytes>) | Resolved(base: Option<Bytes>, operands: seq<Bytes>)

  /** The versions of k from entry i on, newest first, until one decides. */
  function Lookup(es: seq<Entry>, i: nat, k: UserKey): (o: Outcome)
    requires i <= |es|
    decreases |es| - i
  {
    if i == |es| || es[i].key != k then Pending([])
    else match es[i].kind
      case Put => Resolved(Some(es[i].value), [])
      case Deletion => Resolved(None, [])
      case Merge => Lookup(es, i + 1, k).(operands := Lookup(es, i + 1, k).operands + [es[i].value])
  }

  /** A lookup continued in older entries, with the operands found so far. */
  function Then(newer: Outcome, older: Outcome): (o: Outcome)
  {
    if newer.Resolved? then newer else older.(operands := older.operands + newer.operands)
  }

  /** One memtable after the other, newest first, sharing one merge context. */
  function Stacked(tables: seq<seq<Entry>>, k: UserKey, s: nat): (o: Outcome)
  {
    if tables == [] then Pending([])
    else Then(Lookup(tables[0], Start(tables[0], k, s), k), Stacked(tables[1..], k, s))
  }

  lemma ThenAssociates(a: Outcome, b: Outcome, c: Outcome)
    ensures Then(Then(a, b), c) == Then(a, Then(b, c))
  {
    if a.Pending? && b.Pending? {
      assert c.operands + (b.operands + a.operands) == c.operands + b.operands + a.operands;
    }
  }

  lemma ThenNothing(a: Outcome)
    ensures Then(Pending([]), a) == a && Then(a, Pending([])) == a
  {
    assert a.operands + [] == a.operands && [] + a.operands == a.operands;
  }

  // ---------------------------------------------------------------- the versions in question

  /** The entries of k from index i on that a reader at s may see, newest first. */
  function Seen(es: seq<Entry>, i: nat, k: UserKey, s: nat): (r: seq<Entry>)
    requires i <= |es|
    decreases |es| - i
  {
    if i == |es| then [] else (if es[i].key == k && es[i].seqno <= s then [es[i]] else []) + Seen(es, i + 1, k, s)
  }

  /** Looking through a list of versions of one key. */
  function Decide(vs: seq<Entry>): (o: Outcome)
  {
    if vs == [] then Pending([])
    else match vs[0].kind
      case Put => Resolved(Some(vs[0].value), [])
      case Deletion => Resolved(None, [])
      case Merge => Then(Pending([vs[0].value]), Decide(vs[1..]))
  }

  lemma {:induction false} DecideAppend(a: seq<Entry>, b: seq<Entry>)
    ensures Decide(a + b) == Then(Decide(a), Decide(b))
    decreases |a|
  {
    if a == [] {
      assert a + b == b;
      ThenNothing(Decide(b));
    } else {
      assert (a + b)[0] == a[0] && (a + b)[1..] == a[1..] + b;
      DecideAppend(a[1..], b);
      ThenAssociates(Pending([a[0].value]), Decide(a[1..]), Decide(b));
    }
  }

  lemma {:induction false} SeenNone(es: seq<Entry>, i: nat, k: UserKey, s: nat)
    requires i <= |es| && forall j :: i <= j < |es| ==> es[j].key != k || es[j].seqno > s
    ensures Seen(es, i, k, s) == []
    decreases |es| - i
  {
    if i < |es| { SeenNone(es, i + 1, k, s); }
  }

  lemma {:induction false} SeenSkips(es: seq<Entry>, i: nat, p: nat, k: UserKey, s: nat)
    requires i <= p <= |es| && forall j :: i <= j < p ==> es[j].key != k || es[j].seqno > s
    ensures Seen(es, i, k, s) == Seen(es, p, k, s)
    decreases p - i
  {
    if i < p { SeenSkips(es, i + 1, p, k, s); }
  }

  /** From the first visible version on, a sorted table's entries of k are exactly the versions in question. */
  lemma {:induction false} LookupFrom(es: seq<Entry>, i: nat, k: UserKey, s: nat)
    requires Ordered(es) && i <= |es| && (i < |es| ==> es[i].key > k || (es[i].key == k && es[i].seqno <= s))
    ensures Lookup(es, i, k) == Decide(Seen(es, i, k, s))
    decreases |es| - i
  {
    if i == |es| {
    } else if es[i].key != k {
      SeenNone(es, i, k, s);
    } else {
      LookupFrom(es, i + 1, k, s);
      assert Seen(es, i, k, s) == [es[i]] + Seen(es, i + 1, k, s);
      assert Seen(es, i, k, s)[1..] == Seen(es, i + 1, k, s);
    }
  }

  lemma LookupDecides(es: seq<Entry>, k: UserKey, s: nat)
    requires Ordered(es)
    ensures Lookup(es, Start(es, k, s), k) == Decide(Seen(es, 0, k, s))
  {
    StartFacts(es, k, s);
    LookupFrom(es, Start(es, k, s), k, s);
    SeenSkips(es, 0, Start(es, k, s), k, s);
  }

  // ---------------------------------------------------------------- a stack of memtables is one memtable

  ghost predicate Newer(newer: seq<Entry>, older: seq<Entry>)
  {
    forall a, b :: a in newer && b in older ==> a.seqno > b.seqno
  }

  /** Sorted tables, newest first: memtables are filled one after the other with rising sequence numbers. */
  ghost predicate NewestFirst(tables: seq<seq<Entry>>)
  {
    && (forall i :: 0 <= i < |tables| ==> Ordered(tables[i]))
    && (forall i, j :: 0 <= i < j < |tables| ==> Newer(tables[i], tables[j]))
  }

  /** all is a single table holding the entries of every table. */
  ghost predicate Union(all: seq<Entry>, tables: seq<seq<Entry>>)
  {
    forall e :: e in all <==> exists i :: 0 <= i < |tables| && e in tables[i]
  }

  function SeenIn(tables: seq<seq<Entry>>, k: UserKey, s: nat): (r: seq<Entry>)
  {
    if tables == [] then [] else Seen(tables[0], 0, k, s) + SeenIn(tables[1..], k, s)
  }

  ghost predicate Falling(vs: seq<Entry>)
  {
    forall i, j :: 0 <= i < j < |vs| ==> vs[i].seqno > vs[j].seqno
  }

  lemma {:induction false} SeenMembers(es: seq<Entry>, i: nat, k: UserKey, s: nat)
    requires i <= |es|
    ensures forall e :: e in Seen(es, i, k, s) <==> e in es[i..] && e.key == k && e.seqno <= s
    decreases |es| - i
  {
    if i < |es| {
      SeenMembers(es, i + 1, k, s);
      assert es[i..] == [es[i]] + es[i + 1..];
    }
  }

  lemma {:induction false} SeenFalls(es: seq<Entry>, i: nat, k: UserKey, s: nat)
    requires Ordered(es) && i <= |es|
    ensures Falling(Seen(es, i, k, s))
    decreases |es| - i
  {
    if i < |es| {
      SeenFalls(es, i + 1, k, s);
      var rest := Seen(es, i + 1, k, s);
      SeenMembers(es, i + 1, k, s);
      forall j | 0 <= j < |rest| && es[i].key == k ensures es[i].seqno > rest[j].seqno {
        assert rest[j] in es[i + 1..];
      }
    }
  }

  lemma {:induction false} SeenInIs(tables: seq<seq<Entry>>, k: UserKey, s: nat)
    requires NewestFirst(tables)
    ensures Falling(SeenIn(tables, k, s))
    ensures forall e :: e in SeenIn(tables, k, s) <==>
      (exists i :: 0 <= i < |tables| && e in tables[i]) && e.key == k && e.seqno <= s
    decreases |tables|
  {
    if tables != [] {
      var rest := tables[1..];
      assert forall i :: 0 <= i < |rest| ==> rest[i] == tables[i + 1];
      SeenMembers(tables[0], 0, k, s);
      SeenFalls(tables[0], 0, k, s);
      assert tables[0][0..] == tables[0];
      SeenInIs(rest, k, s);
      var a, b := Seen(tables[0], 0, k, s), SeenIn(rest, k, s);
      forall e ensures e in a + b <==> (exists i :: 0 <= i < |tables| && e in tables[i]) && e.key == k && e.seqno <= s {
        SeenSplit(tables, e);
      }
      forall x, y | x in a && y in b ensures x.seqno > y.seqno {
        SeenSplit(tables, y);
      }
      FallingAppend(a, b);
    }
  }

  lemma SeenSplit(tables: seq<seq<Entry>>, e: Entry)
    requires tables != []
    ensures (exists i :: 0 <= i < |tables| && e in tables[i])
            <==> e in tables[0] || exists i :: 0 <= i < |tables[1..]| && e in tables[1..][i]
  {
    if i :| 0 <= i < |tables| && e in tables[i] && i > 0 {
      assert tables[1..][i - 1] == tables[i];
    }
    if i :| 0 <= i < |tables[1..]| && e in tables[1..][i] {
      assert tables[i + 1] == tables[1..][i];
    }
  }

  lemma FallingAppend(a: seq<Entry>, b: seq<Entry>)
    requires Falling(a) && Falling(b) && forall x, y :: x in a && y in b ==> x.seqno > y.seqno
    ensures Falling(a + b)
  {
  }

  lemma Member(a: seq<Entry>) returns (e: Entry)
    requires a != []
    ensures e in a
  {
    e := a[0];
  }

  /** Two falling lists with the same members are the same list. */
  lemma {:induction false} FallingUnique(a: seq<Entry>, b: seq<Entry>)
    requires Falling(a) && Falling(b) && forall e :: e in a <==> e in b
    ensures a == b
    decreases |a|
  {
    if a == [] {
      if b != [] {
        var e := Member(b);
        assert false;
      }
    } else {
      assert a[0] in b && b[0] in a;
      assert a[0] == b[0];
      forall e ensures e in a[1..] <==> e in b[1..] {
        TailMembers(a, e);
        TailMembers(b, e);
      }
      FallingUnique(a[1..], b[1..]);
    }
  }

  lemma TailMembers(a: seq<Entry>, e: Entry)
    requires Falling(a) && a != []
    ensures e in a[1..] <==> e in a && e != a[0]
  {
    assert a == [a[0]] + a[1..];
  }

  lemma {:induction false} StackedDecides(tables: seq<seq<Entry>>, k: UserKey, s: nat)
    requires NewestFirst(tables)
    ensures Stacked(tables, k, s) == Decide(SeenIn(tables, k, s))
    decreases |tables|
  {
    if tables != [] {
      var rest := tables[1..];
      assert forall i :: 0 <= i < |rest| ==> rest[i] == tables[i + 1];
      StackedDecides(rest, k, s);
      LookupDecides(tables[0], k, s);
      DecideAppend(Seen(tables[0], 0, k, s), SeenIn(rest, k, s));
    }
  }

  /** Looking a key up through the memtables newest first finds the same value, deletion or pending operands as one
      lookup in a single table of all their entries. */
  lemma StackIsOneTable(tables: seq<seq<Entry>>, all: seq<Entry>, k: UserKey, s: nat)
    requires NewestFirst(tables) && Ordered(all) && Union(all, tables)
    ensures Stacked(tables, k, s) == Lookup(all, Start(all, k, s), k)
  {
    StackedDecides(tables, k, s);
    LookupDecides(all, k, s);
    SeenInIs(tables, k, s);
    SeenMembers(all, 0, k, s);
    SeenFalls(all, 0, k, s);
    assert all[0..] == all;
    FallingUnique(SeenIn(tables, k, s), Seen(all, 0, k, s));
  }

  // ---------------------------------------------------------------- a lookup is what the iterator shows

  lemma {:induction false} LookupChain(es: seq<Entry>, i: nat, k: UserKey)
    requires i <= |es|
    ensures var o := Lookup(es, i, k);
      Chain(es, i, k) == Versions(if o.Resolved? then o.base else None, o.operands)
    decreases |es| - i
  {
    if i < |es| && es[i].key == k && es[i].kind == Merge { LookupChain(es, i + 1, k); }
  }

  /** The value a resolved lookup gives: none for a tombstone. */
  function Answer(op: FullMerge, k: UserKey, o: Outcome): (v: Option<Bytes>)
    requires o.Resolved?
  {
    Combine(op, k, Versions(o.base, o.operands))
  }

  /** A resolved lookup agrees with the visible map of all the entries. */
  lemma AnswerIsVisible(tables: seq<seq<Entry>>, all: seq<Entry>, op: FullMerge, k: UserKey, s: nat)
    requires NewestFirst(tables) && Ordered(all) && Union(all, tables) && Stacked(tables, k, s).Resolved?
    ensures Answer(op, k, Stacked(tables, k, s)) == ValueAt(all, op, s, k)
  {
    StackIsOneTable(tables, all, k, s);
    LookupChain(all, Start(all, k, s), k);
  }

  // ---------------------------------------------------------------- the code

  datatype Status = Ok | NotFound | MergeInProgress

  /** The in and out parameters of a Get: the status, the value, and the merge context, whose front is the oldest
      operand. */
  class Reader {
    const op: FullMerge
    const key: UserKey
    const sequence: nat
    var status: Status
    var value: Bytes
    var operands: seq<Bytes>
    var found: bool               // found_final_value
    var merging: bool             // merge_in_progress

    constructor (op: FullMerge, key: UserKey, sequence: nat)
      ensures this.op == op && this.key == key && this.sequence == sequence && Has(Pending([]))
    {
      this.op, this.key, this.sequence := op, key, sequence;
      status, value, operands, found, merging := Ok, "", [], false, false;
    }

    /** The outcome that the fields represent, between two memtables. */
    ghost predicate Has(o: Outcome)
      reads this
    {
      && found == o.Resolved?
      && (o.Pending? ==> operands == o.operands && status == if operands == [] then Ok else MergeInProgress)
      && (o.Resolved? ==> match Answer(op, key, o)
            case Some(v) => status == Ok && value == v
            case None => status == NotFound)
    }

    /** The callback SaveValue: whether the scan of the memtable goes on. */
    method SaveValue(e: Entry) returns (more: bool)
      requires !found && merging == (operands != [])
      modifies this
      ensures more <==> e.key == key && e.kind == Merge
      ensures more ==> !found && merging && operands == [e.value] + old(operands) && status == old(status)
      ensures !more && e.key != key ==>
        !found && merging == old(merging) && operands == old(operands) && status == old(status)
      ensures !more && e.key == key ==> Has(Resolved(if e.kind == Put then Some(e.value) else None, old(operands)))
    {
      if e.key != key { return false; }
      match e.kind {
        case Put =>
          value := if merging then op(key, Some(e.value), operands) else e.value;
          status, found := Ok, true;
          return false;
        case Deletion =>
          if merging {
            value := op(key, None, operands);
            status := Ok;
          } else {
            status := NotFound;
          }
          found := true;
          return false;
        case Merge =>
          merging := true;
          operands := [e.value] + operands;
          return true;
      }
    }
  }

  class MemTable {
    var entries: seq<Entry>       // the skip list, in order
    var numEntries: nat
    var firstSeqno: nat

    constructor ()
      ensures Valid() && entries == []
    {
      entries, numEntries, firstSeqno := [], 0, 0;
    }

    ghost predicate Valid()
      reads this
    {
      && Ordered(entries) && numEntries == |entries|
      && (firstSeqno == 0 <==> entries == [])
      && (forall e :: e in entries ==> firstSeqno <= e.seqno)
    }

    /** Add one entry; sequence numbers are given out in rising order, starting at 1. */
    method Add(s: nat, kind: ValueType, key: UserKey, value: Bytes)
      requires Valid() && s > 0 && forall e :: e in entries ==> e.seqno < s
      modifies this
      ensures Valid() && multiset(entries) == multiset(old(entries)) + multiset{Entry(key, s, kind, value)}
      ensures firstSeqno == (if old(entries) == [] then s else old(firstSeqno))
    {
      hide Ordered;
      var e := Entry(key, s, kind, value);
      var p := SeekIndex(entries, key, Pack(s, kind), 0);
      InsertOrdered(entries, e, p);
      InsertMembers(entries, e, p);
      entries := entries[..p] + [e] + entries[p..];
      numEntries := numEntries + 1;
      if firstSeqno == 0 { firstSeqno := s; }
    }

    static lemma InsertMembers(es: seq<Entry>, e: Entry, p: nat)
      requires p <= |es|
      ensures multiset(es[..p] + [e] + es[p..]) == multiset(es) + multiset{e}
      ensures forall x :: x in es[..p] + [e] + es[p..] <==> x in es || x == e
    {
      assert es == es[..p] + es[p..];
    }

    static lemma InsertOrdered(es: seq<Entry>, e: Entry, p: nat)
      requires Ordered(es) && (forall x :: x in es ==> x.seqno < e.seqno)
      requires p == SeekIndex(es, e.key, Pack(e.seqno, e.kind), 0)
      ensures Ordered(es[..p] + [e] + es[p..])
    {
      if p < |es| {
        assert es[p] in es;
        PackOrders(es[p].seqno, es[p].kind, e.seqno, e.kind);
      }
      forall i | 0 <= i < p ensures es[i].key < e.key {
        assert es[i] in es;
        PackOrders(es[i].seqno, es[i].kind, e.seqno, e.kind);
      }
      InsertBetween(es, e, p);
    }

    static lemma InsertBetween(es: seq<Entry>, e: Entry, p: nat)
      requires Ordered(es) && p <= |es| && (forall x :: x in es ==> x.seqno < e.seqno)
      requires (forall i :: 0 <= i < p ==> es[i].key < e.key) && (p < |es| ==> es[p].key >= e.key)
      ensures Ordered(es[..p] + [e] + es[p..])
    {
      var r := es[..p] + [e] + es[p..];
      assert forall i :: p <= i < |es| ==> es[i] in es && es[i].key >= e.key;
      forall i, j | 0 <= i < j < |r| ensures r[i].key < r[j].key || (r[i].key == r[j].key && r[i].seqno > r[j].seqno) {
        var i', j' := if i < p then i else i - 1, if j < p then j else j - 1;
      }
    }

    /** Get: continues the lookup in this memtable. */
    method Get(r: Reader, ghost before: Outcome) returns (final: bool)
      requires Valid() && before.Pending? && r.Has(before)
      modifies r
      ensures r.Has(Then(before, Lookup(entries, Start(entries, r.key, r.sequence), r.key))) && final == r.found
    {
      ghost var start := Start(entries, r.key, r.sequence);
      if firstSeqno == 0 {
        ThenNothing(before);
        return false;
      }
      r.merging := r.status == MergeInProgress;
      var i := Start(entries, r.key, r.sequence);
      var more := i < |entries|;
      while more
        invariant start <= i <= |entries| && (more ==> i < |entries| && !r.found)
        invariant !r.found ==>
          r.merging == (r.operands != []) && r.status == (if before.operands == [] then Ok else MergeInProgress)
        invariant !r.found && (more || i == |entries|) ==>
          Then(before, Lookup(entries, start, r.key)) == Then(Pending(r.operands), Lookup(entries, i, r.key))
        invariant !r.found && !more ==> Then(before, Lookup(entries, start, r.key)) == Pending(r.operands)
        invariant r.found ==> r.Has(Then(before, Lookup(entries, start, r.key)))
        decreases |entries| - i, more
      {
        ghost var ops := r.operands;
        more := r.SaveValue(entries[i]);
        if more {
          ThenAssociates(Pending(ops), Pending([entries[i].value]), Lookup(entries, i + 1, r.key));
          assert [entries[i].value] + ops == r.operands;
          i := i + 1;
          more := i < |entries|;
          if !more { ThenNothing(Pending(r.operands)); }
        } else {
          ThenNothing(Pending(ops));
          assert [] + ops == ops;
        }
      }
      if !r.found && r.merging { r.status := MergeInProgress; }
      final := r.found;
    }
  }

  ghost function Contents(ts: seq<MemTable>): seq<seq<Entry>>
    reads ts
  {
    seq(|ts|, i requires 0 <= i < |ts| reads ts => ts[i].entries)
  }

  /** The memtable part of GetImpl: the active memtable, then the immutable ones, newest first. */
  method Get(mem: MemTable, imm: seq<MemTable>, r: Reader) returns (final: bool)
    requires mem.Valid() && (forall i :: 0 <= i < |imm| ==> imm[i].Valid()) && r.Has(Pending([]))
    modifies r
    ensures r.Has(Stacked(Contents([mem] + imm), r.key, r.sequence)) && final == r.found
  {
    hide Lookup, Start, Stacked, Then, Answer, Ordered;
    ghost var all := Contents([mem] + imm);
    assert all[0] == mem.entries;
    ghost var o := Lookup(mem.entries, Start(mem.entries, r.key, r.sequence), r.key);
    ThenNothing(o);
    final := mem.Get(r, Pending([]));
    var i := 0;
    ThenNothing(o);
    assert all[..1] == [mem.entries];
    StackedOne(mem.entries, r.key, r.sequence);
    while i < |imm| && !final
      invariant 0 <= i <= |imm| && final == r.found
      invariant r.Has(Stacked(all[..i + 1], r.key, r.sequence))
    {
      ghost var before := Stacked(all[..i + 1], r.key, r.sequence);
      final := imm[i].Get(r, before);
      assert all[..i + 2] == all[..i + 1] + [imm[i].entries];
      StackedAppend(all[..i + 1], [imm[i].entries], r.key, r.sequence);
      StackedOne(imm[i].entries, r.key, r.sequence);
      i := i + 1;
    }
    assert all == all[..i + 1] + all[i + 1..];
    StackedAppend(all[..i + 1], all[i + 1..], r.key, r.sequence);
    StackedEnds(all[..i + 1], all[i + 1..], r.key, r.sequence);
  }

  lemma StackedEnds(a: seq<seq<Entry>>, b: seq<seq<Entry>>, k: UserKey, s: nat)
    requires Stacked(a, k, s).Resolved? || b == []
    ensures Then(Stacked(a, k, s), Stacked(b, k, s)) == Stacked(a, k, s)
  {
    if b == [] { ThenNothing(Stacked(a, k, s)); }
  }

  lemma StackedOne(es: seq<Entry>, k: UserKey, s: nat)
    ensures Stacked([es], k, s) == Lookup(es, Start(es, k, s), k)
  {
    assert [es][1..] == [];
    ThenNothing(Lookup(es, Start(es, k, s), k));
  }

  lemma {:induction false} StackedAppend(a: seq<seq<Entry>>, b: seq<seq<Entry>>, k: UserKey, s: nat)
    ensures Stacked(a + b, k, s) == Then(Stacked(a, k, s), Stacked(b, k, s))
    decreases |a|
  {
    if a == [] {
      assert a + b == b;
      ThenNothing(Stacked(b, k, s));
    } else {
      assert (a + b)[0] == a[0] && (a + b)[1..] == a[1..] + b;
      StackedAppend(a[1..], b, k, s);
      ThenAssociates(Lookup(a[0], Start(a[0], k, s), k), Stacked(a[1..], k, s), Stacked(b, k, s));
    }
  }

  /** What Get resolves is what an iterator over all the entries shows when it seeks to the key. */
  method GetThenSeek(mem: MemTable, imm: seq<MemTable>, all: seq<Entry>, op: FullMerge, k: UserKey, s: nat,
                     maxSkip: nat)
      returns (r: Reader, it: DBIter)
    requires mem.Valid() && (forall i :: 0 <= i < |imm| ==> imm[i].Valid())
    requires Ordered(all) && NewestFirst(Contents([mem] + imm)) && Union(all, Contents([mem] + imm))
    requires maxSkip >= 1 && s <= MAX_SEQUENCE && forall e :: e in all ==> e.seqno <= MAX_SEQUENCE
    ensures r.key == k && r.sequence == s && r.op == op && r.Has(Stacked(Contents([mem] + imm), k, s))
    ensures it.es == all && it.op == op && it.sequence == s && it.OnFirst(AtLeast(k))
    ensures r.found && r.status == NotFound ==> !(it.valid && it.savedKey == k)
    ensures it.Good() && (r.found && r.status != NotFound ==> it.valid && it.savedKey == k && it.Value() == r.value)
  {
    hide Ordered, NewestFirst, Union, ValueAt, Stacked, Start, Answer, Lookup;
    ghost var tables := Contents([mem] + imm);
    ghost var o := Stacked(tables, k, s);
    if o.Resolved? { AnswerIsVisible(tables, all, op, k, s); }
    r := new Reader(op, k, s);
    var final := Get(mem, imm, r);
    assert Contents([mem] + imm) == tables;
    it := new DBIter(all, op, s, maxSkip);
    it.Seek(k);
    assert Within(AtLeast(k), k);
  }
}
