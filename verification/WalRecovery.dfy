/** The loops of RecoverLogFiles (db/db_impl.cc): reading the logs record by record gives each family its replay. */
module WalRecovery {
  import opened Wal

  /** Inserts a record into the memtables of the families that have not flushed past its log. */
  function InsertInto(rec: Rec, log: nat, disk: map<Cf, Saved>, mems: map<Cf, seq<nat>>): map<Cf, seq<nat>>
    requires mems.Keys <= disk.Keys
  {
    map cf | cf in mems :: if cf in rec.cfs && !(log < disk[cf].log) then mems[cf] + [rec.id] else mems[cf]
  }

  /** The scheduled memtables are written to tables, which join the family's edit, and start again empty. */
  function FlushInto(edits: map<Cf, seq<nat>>, mems: map<Cf, seq<nat>>, full: set<Cf>): map<Cf, seq<nat>>
    requires edits.Keys == mems.Keys
  {
    map cf | cf in edits :: if cf in full then edits[cf] + mems[cf] else edits[cf]
  }

  function Cleared(mems: map<Cf, seq<nat>>, full: set<Cf>): map<Cf, seq<nat>>
  {
    map cf | cf in mems :: if cf in full then [] else mems[cf]
  }

  /** What a family has after the logs before i and the first j records of log i. */
  ghost function Sofar(logs: seq<Log>, i: nat, j: nat, from: nat, cf: Cf): seq<nat>
    requires i < |logs| && j <= |logs[i].recs|
  {
    Replay(logs[..i], from, cf) + (if logs[i].number < from then [] else IdsOf(logs[i].recs[..j], cf))
  }

  lemma SofarNext(logs: seq<Log>, i: nat, j: nat, from: nat, cf: Cf)
    requires i < |logs| && j < |logs[i].recs|
    ensures var rec := logs[i].recs[j];
      Sofar(logs, i, j + 1, from, cf) ==
        Sofar(logs, i, j, from, cf) + (if cf in rec.cfs && !(logs[i].number < from) then [rec.id] else [])
  {
    var recs := logs[i].recs;
    assert recs[..j + 1][..j] == recs[..j];
  }

  lemma SofarWhole(logs: seq<Log>, i: nat, from: nat, cf: Cf)
    requires i < |logs|
    ensures Sofar(logs, i, |logs[i].recs|, from, cf) == Replay(logs[..i + 1], from, cf)
    ensures Sofar(logs, i, 0, from, cf) == Replay(logs[..i], from, cf)
  {
    assert logs[..i + 1][..i] == logs[..i];
    assert logs[i].recs[..|logs[i].recs|] == logs[i].recs;
  }

  /** One record: inserted, then the memtables that became full are flushed. */
  lemma RecordKeeps(logs: seq<Log>, i: nat, j: nat, disk: map<Cf, Saved>, edits: map<Cf, seq<nat>>,
                    mems: map<Cf, seq<nat>>, full: set<Cf>, cf: Cf)
    requires i < |logs| && j < |logs[i].recs| && edits.Keys == mems.Keys == disk.Keys && cf in disk
    requires edits[cf] + mems[cf] == Sofar(logs, i, j, disk[cf].log, cf)
    ensures var mems' := InsertInto(logs[i].recs[j], logs[i].number, disk, mems);
      FlushInto(edits, mems', full)[cf] + Cleared(mems', full)[cf] == Sofar(logs, i, j + 1, disk[cf].log, cf)
  {
    SofarNext(logs, i, j, disk[cf].log, cf);
    hide Sofar;
    var rec := logs[i].recs[j];
    if cf in rec.cfs && !(logs[i].number < disk[cf].log) {
      assert edits[cf] + (mems[cf] + [rec.id]) == edits[cf] + mems[cf] + [rec.id];
    }
  }

  /** full(n) is the set of families whose memtable the n-th record read fills up; the result is what each family's
      version edit adds to its tables. */
  method RecoverLogFiles(logs: seq<Log>, disk: map<Cf, Saved>, full: nat -> set<Cf>) returns (edits: map<Cf, seq<nat>>)
    ensures edits.Keys == disk.Keys
    ensures forall cf :: cf in disk ==> edits[cf] == Replay(logs, disk[cf].log, cf)
  {
    edits := map cf | cf in disk :: [];
    var mems: map<Cf, seq<nat>> := map cf | cf in disk :: [];
    var n := 0;
    for i := 0 to |logs|
      invariant edits.Keys == mems.Keys == disk.Keys
      invariant forall cf :: cf in disk ==> edits[cf] + mems[cf] == Replay(logs[..i], disk[cf].log, cf)
    {
      forall cf | cf in disk ensures Sofar(logs, i, 0, disk[cf].log, cf) == Replay(logs[..i], disk[cf].log, cf) {
        SofarWhole(logs, i, disk[cf].log, cf);
      }
      for j := 0 to |logs[i].recs|
        invariant edits.Keys == mems.Keys == disk.Keys
        invariant forall cf :: cf in disk ==> edits[cf] + mems[cf] == Sofar(logs, i, j, disk[cf].log, cf)
      {
        forall cf | cf in disk
          ensures var mems' := InsertInto(logs[i].recs[j], logs[i].number, disk, mems);
            FlushInto(edits, mems', full(n))[cf] + Cleared(mems', full(n))[cf] ==
              Sofar(logs, i, j + 1, disk[cf].log, cf)
        {
          RecordKeeps(logs, i, j, disk, edits, mems, full(n), cf);
        }
        mems := InsertInto(logs[i].recs[j], logs[i].number, disk, mems);
        edits, mems := FlushInto(edits, mems, full(n)), Cleared(mems, full(n));
        n := n + 1;
      }
      forall cf | cf in disk
        ensures Sofar(logs, i, |logs[i].recs|, disk[cf].log, cf) == Replay(logs[..i + 1], disk[cf].log, cf) {
        SofarWhole(logs, i, disk[cf].log, cf);
      }
    }
    assert logs[..|logs|] == logs;
    edits := map cf | cf in disk :: edits[cf] + mems[cf];
  }
}
