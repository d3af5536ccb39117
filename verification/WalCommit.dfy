/** Committing flushes in order: the manifest record keeps what recovery finds exactly if it steps over nothing, and the
    change in memory keeps it always. */
module WalCommit {
  import opened Wal
  import opened WalInvariant

  function Written(f: Family): Family
    requires f.commit.Committing? && f.imm != []
  {
    f.(imm := MarkSaved(f.imm, f.imm[0].status), commit := Applying(f.commit.file, f.imm[0].edit))
  }

  function Manifest(f: Family, d: Saved): Saved
    requires f.imm != []
  {
    if f.imm[0].edit.Edit? then AddEdit(d, f.imm[0].edit) else d
  }

  /** No memtable with batches that the manifest has not lies before a memtable of status st, but those of st. */
  ghost predicate Clear(ms: seq<Mem>, st: Status)
  {
    forall i, j :: 0 <= i < j < |ms| && ms[j].status == st && ms[i].status != st && !ms[i].saved ==> ms[i].ids == []
  }

  // ---------------------------------------------------------------- the manifest record

  /** The oldest memtable's batch: what its edit describes, and where it ends. */
  lemma FirstBatch(f: Family, next: nat) returns (k: nat)
    requires Batches(f, next) && f.imm != [] && f.imm[0].edit.Edit?
    ensures k < |f.imm| && f.imm[k].status == f.imm[0].status && !f.imm[0].status.Waiting?
    ensures forall i :: k < i < |f.imm| ==> f.imm[i].status != f.imm[0].status
    ensures f.imm[0].edit == Edit(f.imm[k].nextLog, GroupIds(f.imm, f.imm[0].status))
    ensures forall i :: 0 <= i < |f.imm| && f.imm[i].status == f.imm[0].status ==> !f.imm[i].saved
  {
    assert EditOk(f.imm, 0);
    k := LastOf(f.imm, f.imm[0].status, 0);
  }

  lemma WriteEdits(f: Family, next: nat, i: nat)
    requires Batches(f, next) && f.commit.Committing? && f.imm != [] && i < |f.imm|
    ensures EditOk(Written(f).imm, i)
  {
    hide GroupIds, GroupLog;
    var ms, ms' := f.imm, Written(f).imm;
    assert EditOk(ms, i);
    if ms[i].status != ms[0].status && !ms[i].status.Waiting? {
      EditKept(ms, ms', i);
    }
  }

  /** A memtable left over from a batch already in the manifest: its empty edit changes nothing. */
  lemma LeftOver(f: Family, next: nat)
    requires Batches(f, next) && f.commit.Committing? && f.imm != [] && f.imm[0].edit.NoEdit?
    ensures Written(f).imm == f.imm && f.imm[0].saved
  {
    assert EditOk(f.imm, 0);
    var ms, ms' := f.imm, Written(f).imm;
    forall i | 0 <= i < |ms| ensures ms'[i] == ms[i] { assert EditOk(ms, i); }
  }

  lemma WriteShape(f: Family, next: nat)
    requires Batches(f, next) && f.commit.Committing? && f.imm != []
    ensures Shape(Written(f).imm)
  {
    hide EditOk;
  }

  lemma WriteBatches(f: Family, next: nat)
    requires Batches(f, next) && f.commit.Committing? && f.imm != []
    ensures Batches(Written(f), next)
  {
    hide EditOk, Shape;
    WriteShape(f, next);
    forall i | 0 <= i < |f.imm| ensures EditOk(Written(f).imm, i) {
      WriteEdits(f, next, i);
    }
  }

  lemma UnsettledBefore(ms: seq<Mem>, st: Status, j: nat)
    requires Unsettled(MarkSaved(ms, st), j)
    ensures Unsettled(ms, j) && forall i :: j <= i < |ms| ==> ms[i].status != st
  {
    forall i | j <= i < |ms| ensures !ms[i].saved && ms[i].status != st {
      assert !MarkSaved(ms, st)[i].saved;
    }
  }

  /** Where the log numbers stand after a record of a batch that ends at k. */
  lemma RiseMarked(f: Family, f': Family, d: Saved, d': Saved, cur: nat, k: nat)
    requires LogsRise(f, d, cur) && k < |f.imm| && f'.log == f.log && f'.imm == MarkSaved(f.imm, f.imm[k].status)
    requires (forall i :: k < i < |f.imm| ==> f.imm[i].status != f.imm[k].status)
    requires d'.log == Max(d.log, f.imm[k].nextLog)
    requires f'.commit.Applying? && f'.commit.edit.Edit? ==> f'.commit.edit.log == f.imm[k].nextLog
    ensures LogsRise(f', d', cur)
  {
    var ms, ms', st := f.imm, f'.imm, f.imm[k].status;
    assert f.log <= d'.log by {
      if !Unsettled(ms, k) { var i :| k <= i < |ms| && ms[i].saved; }
    }
    forall j | 0 <= j < |ms'| && Unsettled(ms', j) ensures f.log <= ms'[j].nextLog && d'.log <= ms'[j].nextLog {
      UnsettledBefore(ms, st, j);
      assert j > k;
    }
  }

  lemma WriteRise(f: Family, d: Saved, cur: nat, next: nat)
    requires Batches(f, next) && f.commit.Committing? && f.imm != [] && LogsRise(f, d, cur)
    ensures LogsRise(Written(f), Manifest(f, d), cur)
  {
    hide Batches, MarkSaved;
    if f.imm[0].edit.Edit? {
      hide LogsRise;
      var k := FirstBatch(f, next);
      RiseMarked(f, Written(f), d, Manifest(f, d), cur, k);
    } else {
      LeftOver(f, next);
    }
  }

  lemma ClearTail(ms: seq<Mem>, st: Status)
    requires ms != [] && Clear(ms, st)
    ensures Clear(ms[1..], st)
    ensures ms[0].status != st && !ms[0].saved && ms[0].ids != [] ==> forall i :: 0 <= i < |ms[1..]| ==>
      ms[1..][i].status != st
  {
  }

  /** A clear batch comes first among the unsaved ones. */
  lemma {:induction false} PullOut(ms: seq<Mem>, st: Status)
    requires Clear(ms, st) && forall i :: 0 <= i < |ms| && ms[i].status == st ==> !ms[i].saved
    ensures Unsaved(ms) == GroupIds(ms, st) + Unsaved(MarkSaved(ms, st))
    decreases |ms|
  {
    if ms != [] {
      ClearTail(ms, st);
      PullOut(ms[1..], st);
      assert MarkSaved(ms, st)[1..] == MarkSaved(ms[1..], st);
      hide MarkSaved;
      if ms[0].status != st && !ms[0].saved && ms[0].ids != [] { GroupIdsNone(ms[1..], st); }
    }
  }

  lemma CutsMarked(logs: seq<Log>, ms: seq<Mem>, st: Status, tail: seq<nat>, cf: Cf)
    requires Cuts(logs, ms, tail, cf)
    ensures Cuts(logs, MarkSaved(ms, st), tail, cf)
  {
    hide Ids, Replay;
    var ms' := MarkSaved(ms, st);
    forall j | 0 <= j < |ms'| && Unsettled(ms', j) ensures CutAt(logs, ms', tail, cf, j) {
      UnsettledBefore(ms, st, j);
      assert CutAt(logs, ms, tail, cf, j);
      IdsSame(ms[j + 1..], ms'[j + 1..]);
    }
  }

  lemma {:induction false} UnsavedEmpty(ms: seq<Mem>)
    requires forall i :: 0 <= i < |ms| && !ms[i].saved ==> ms[i].ids == []
    ensures Unsaved(ms) == []
  {
    if ms != [] { UnsavedEmpty(ms[1..]); }
  }

  /** Past the last memtable of a clear batch, if nothing younger is in the manifest, lies exactly what is unsaved
      then. */
  lemma UnsavedPast(ms: seq<Mem>, st: Status, k: nat)
    requires Clear(ms, st) && k < |ms| && Unsettled(ms, k) && ms[k].status == st
    requires forall i :: k < i < |ms| ==> ms[i].status != st
    ensures Unsaved(MarkSaved(ms, st)) == Ids(ms[k + 1..])
  {
    hide Unsaved, Ids;
    var ms' := MarkSaved(ms, st);
    assert ms' == ms'[..k + 1] + ms'[k + 1..] && ms'[k + 1..] == ms[k + 1..];
    UnsavedAppend(ms'[..k + 1], ms'[k + 1..]);
    UnsavedEmpty(ms'[..k + 1]);
    UnsavedAll(ms[k + 1..]);
  }

  lemma Regrouped(a: seq<nat>, b: seq<nat>, c: seq<nat>, d: seq<nat>)
    ensures a + (b + c + d) == a + b + (c + d)
  {
  }

  /** What the replay from the new log number gives. */
  lemma WriteReplay(logs: seq<Log>, f: Family, d: Saved, h: seq<nat>, tail: seq<nat>, cf: Cf, cur: nat, next: nat,
                    k: nat)
    requires Agrees(logs, f, d, h, tail, cf, cur, next) && f.imm != [] && f.imm[0].edit.Edit?
    requires Clear(f.imm, f.imm[0].status)
    requires k < |f.imm| && f.imm[k].status == f.imm[0].status
    requires forall i :: k < i < |f.imm| ==> f.imm[i].status != f.imm[0].status
    requires f.imm[0].edit == Edit(f.imm[k].nextLog, GroupIds(f.imm, f.imm[0].status))
    requires forall i :: 0 <= i < |f.imm| && f.imm[i].status == f.imm[0].status ==> !f.imm[i].saved
    ensures Replay(logs, Manifest(f, d).log, cf) == Unsaved(MarkSaved(f.imm, f.imm[0].status)) + tail
  {
    hide Batches, MarkSaved, Ids, Replay, Unsaved;
    var ms, st := f.imm, f.imm[0].status;
    if Unsettled(ms, k) {
      assert CutAt(logs, ms, tail, cf, k);
      UnsavedPast(ms, st, k);
    } else {
      var j :| k <= j < |ms| && ms[j].saved;
      PullOut(ms, st);
      GroupEmpty(ms, st, j);
    }
  }

  lemma {:induction false} GroupIdsEmpty(ms: seq<Mem>, st: Status)
    requires forall i :: 0 <= i < |ms| && ms[i].status == st ==> ms[i].ids == []
    ensures GroupIds(ms, st) == []
  {
    if ms != [] { GroupIdsEmpty(ms[1..], st); }
  }

  lemma GroupEmpty(ms: seq<Mem>, st: Status, j: nat)
    requires SkippedEmpty(ms) && j < |ms| && ms[j].saved
    requires forall i :: 0 <= i < |ms| && ms[i].status == st ==> !ms[i].saved && i < j
    ensures GroupIds(ms, st) == []
  {
    GroupIdsEmpty(ms, st);
  }

  lemma SkippedMarked(ms: seq<Mem>, st: Status)
    requires SkippedEmpty(ms) && Clear(ms, st)
    ensures SkippedEmpty(MarkSaved(ms, st))
  {
  }

  lemma WriteSplit(logs: seq<Log>, f: Family, d: Saved, h: seq<nat>, tail: seq<nat>, cf: Cf, cur: nat, next: nat)
    requires Agrees(logs, f, d, h, tail, cf, cur, next) && f.commit.Committing? && f.imm != []
    requires Clear(f.imm, f.imm[0].status)
    ensures Split(logs, Written(f), Manifest(f, d), h, tail, cf)
  {
    hide Batches, LogsRise, MarkSaved, Ids, Replay, Unsaved;
    var ms, st := f.imm, f.imm[0].status;
    if ms[0].edit.Edit? {
      WriteQuiet(f, d, cur, next);
      CutsMarked(logs, ms, st, tail, cf);
      SkippedMarked(ms, st);
      var k := FirstBatch(f, next);
      WriteReplay(logs, f, d, h, tail, cf, cur, next, k);
      PullOut(ms, st);
      Regrouped(d.tables, GroupIds(ms, st), Unsaved(MarkSaved(ms, st)), tail);
    } else {
      LeftOver(f, next);
    }
  }

  lemma WriteQuiet(f: Family, d: Saved, cur: nat, next: nat)
    requires Batches(f, next) && f.commit.Committing? && f.imm != [] && LogsRise(f, d, cur) && f.imm[0].edit.Edit?
    ensures f.log <= Manifest(f, d).log
  {
    WriteRise(f, d, cur, next);
    var k := FirstBatch(f, next);
    assert Written(f).imm[0].saved;
  }

  /** LogAndApply's manifest record keeps the agreement: what it adds to the tables leaves the replay. */
  lemma WriteAgrees(logs: seq<Log>, f: Family, d: Saved, h: seq<nat>, tail: seq<nat>, cf: Cf, cur: nat, next: nat)
    requires Agrees(logs, f, d, h, tail, cf, cur, next) && f.commit.Committing? && f.imm != []
    requires Clear(f.imm, f.imm[0].status)
    ensures Agrees(logs, Written(f), Manifest(f, d), h, tail, cf, cur, next)
  {
    hide Batches, LogsRise, Split;
    WriteBatches(f, next);
    WriteRise(f, d, cur, next);
    WriteSplit(logs, f, d, h, tail, cf, cur, next);
  }

  // ---------------------------------------------------------------- the manifest record is exact

  /** A group holds all the unsaved batches exactly if the other unsaved memtables are empty. */
  lemma {:induction false} GroupLength(ms: seq<Mem>, st: Status)
    requires forall i :: 0 <= i < |ms| && ms[i].status == st ==> !ms[i].saved
    ensures |GroupIds(ms, st)| <= |Unsaved(ms)|
    ensures |GroupIds(ms, st)| == |Unsaved(ms)| ==> forall i :: 0 <= i < |ms| && ms[i].status != st && !ms[i].saved ==>
      ms[i].ids == []
    decreases |ms|
  {
    if ms != [] {
      GroupLength(ms[1..], st);
      if |GroupIds(ms, st)| == |Unsaved(ms)| {
        forall i | 0 <= i < |ms| && ms[i].status != st && !ms[i].saved ensures ms[i].ids == [] {
          assert i == 0 || ms[i] == ms[1..][i - 1];
        }
      }
    }
  }

  /** If the record of a batch with nothing younger in the manifest loses nothing, the batch is clear. */
  lemma LosslessIsClear(ms: seq<Mem>, st: Status, k: nat, a: seq<nat>, tail: seq<nat>)
    requires k < |ms| && Unsettled(ms, k) && ms[k].status == st && forall i :: k < i < |ms| ==> ms[i].status != st
    requires forall i :: 0 <= i < |ms| && ms[i].status == st ==> !ms[i].saved
    requires a + GroupIds(ms, st) + (Ids(ms[k + 1..]) + tail) == a + (Unsaved(ms) + tail)
    ensures Clear(ms, st)
  {
    hide Unsaved, Ids, GroupIds;
    var before, past := ms[..k + 1], ms[k + 1..];
    assert ms == before + past;
    GroupIdsAppend(before, past, st);
    GroupIdsNone(past, st);
    UnsavedAppend(before, past);
    UnsavedAll(past);
    Lengths(a, GroupIds(ms, st), Ids(past), tail, Unsaved(ms));
    GroupLength(before, st);
    forall i, j | 0 <= i < j < |ms| && ms[j].status == st && ms[i].status != st && !ms[i].saved
      ensures ms[i].ids == [] {
      assert before[i] == ms[i];
    }
  }

  lemma Lengths(a: seq<nat>, b: seq<nat>, c: seq<nat>, d: seq<nat>, e: seq<nat>)
    requires a + b + (c + d) == a + (e + d)
    ensures |b| + |c| == |e|
  {
    assert |a + b + (c + d)| == |a + (e + d)|;
  }

  lemma SkippedIsClear(ms: seq<Mem>, st: Status, k: nat)
    requires SkippedEmpty(ms) && k < |ms| && !Unsettled(ms, k) && forall i :: k < i < |ms| ==> ms[i].status != st
    ensures Clear(ms, st)
  {
    var j :| k <= j < |ms| && ms[j].saved;
  }

  lemma SavedIsClear(ms: seq<Mem>, st: Status)
    requires SkippedEmpty(ms) && forall i :: 0 <= i < |ms| && ms[i].status == st ==> ms[i].saved
    ensures Clear(ms, st)
  {
  }

  /** The manifest record of the oldest memtable's batch leaves the family recoverable if and only if the batch steps
      over no memtable with batches that the manifest has not. */
  lemma RecordIsSafeIff(logs: seq<Log>, f: Family, d: Saved, h: seq<nat>, tail: seq<nat>, cf: Cf, cur: nat, next: nat)
    requires Agrees(logs, f, d, h, tail, cf, cur, next) && f.commit.Committing? && f.imm != []
    ensures Manifest(f, d).tables + Replay(logs, Manifest(f, d).log, cf) == h <==> Clear(f.imm, f.imm[0].status)
  {
    hide Batches, Unsaved, Ids, Replay, GroupIds, MarkSaved;
    var ms, st := f.imm, f.imm[0].status;
    if Clear(ms, st) {
      WriteSplit(logs, f, d, h, tail, cf, cur, next);
    } else if ms[0].edit.NoEdit? {
      LeftOver(f, next);
      AllSaved(f, next);
      SavedIsClear(ms, st);
    } else {
      var k := FirstBatch(f, next);
      if !Unsettled(ms, k) {
        SkippedIsClear(ms, st, k);
      } else if Manifest(f, d).tables + Replay(logs, Manifest(f, d).log, cf) == h {
        assert CutAt(logs, ms, tail, cf, k);
        LosslessIsClear(ms, st, k, d.tables, tail);
      }
    }
  }

  lemma AllSaved(f: Family, next: nat)
    requires Batches(f, next) && f.imm != [] && f.imm[0].saved
    ensures forall i :: 0 <= i < |f.imm| && f.imm[i].status == f.imm[0].status ==> f.imm[i].saved
  {
  }

  // ---------------------------------------------------------------- the change in memory

  lemma {:induction false} DropIs(ms: seq<Mem>, file: nat) returns (c: nat)
    ensures c <= |ms| && DropSame(ms, file) == ms[c..]
    ensures (forall i :: 0 <= i < c ==> ms[i].status == Done(file)) && (c < |ms| ==> ms[c].status != Done(file))
    decreases |ms|
  {
    c := 0;
    if ms != [] && ms[0].status == Done(file) {
      var c' := DropIs(ms[1..], file);
      c := c' + 1;
    }
  }

  /** The loop removes only memtables that the manifest has, and what is left of the committing thread's file it has
      too. */
  lemma InstallDrops(f: Family, next: nat) returns (r: nat)
    requires Batches(f, next) && f.commit.Applying? && f.imm != []
    ensures 0 < r <= |f.imm| && InstallCommit(f) == Family(
      if f.commit.edit.Edit? then f.commit.edit.log else f.log, f.mem, f.imm[r..],
      if r < |f.imm| && f.imm[r].status.Done? then Committing(f.commit.file) else NotCommitting)
    ensures forall i :: 0 <= i < r ==> f.imm[i].saved
    ensures FileSaved(f.imm[r..], f.commit.file) && (r < |f.imm| ==> f.imm[r].status != Done(f.commit.file))
  {
    hide EditOk;
    var ms, file := f.imm, f.commit.file;
    var c := DropIs(ms[1..], file);
    r := c + 1;
    assert ms[1..][c..] == ms[r..];
    assert FileSaved(ms, file);
    forall i | 1 <= i < r ensures ms[i].saved { assert ms[1..][i - 1].status == Done(file); }
  }

  lemma DropEdit(ms: seq<Mem>, r: nat, i: nat)
    requires r <= |ms| && Shape(ms) && i < |ms| - r && EditOk(ms, r + i) && forall j :: 0 <= j < r ==> ms[j].saved
    ensures EditOk(ms[r..], i)
  {
    var b, st := ms[r..], ms[r + i].status;
    assert b[i] == ms[r + i];
    if !st.Waiting? && !ms[r + i].saved {
      hide GroupIds, GroupLog, OneStatus;
      forall j | 0 <= j < r ensures ms[j].status != st { }
      assert Head(b, i) <==> Head(ms, r + i) by {
        assert forall j :: 0 <= j < i ==> b[j] == ms[r + j];
        assert forall j :: r <= j < r + i ==> ms[j] == b[j - r];
      }
      DropGroup(ms, r, st, r + i);
    }
  }

  lemma DropGroup(ms: seq<Mem>, r: nat, st: Status, i: nat)
    requires r <= i < |ms| && ms[i].status == st && forall j :: 0 <= j < r ==> ms[j].status != st
    ensures GroupIds(ms[r..], st) == GroupIds(ms, st) && GroupLog(ms[r..], st) == GroupLog(ms, st)
  {
    hide GroupIds, GroupLog;
    assert ms == ms[..r] + ms[r..];
    GroupIdsAppend(ms[..r], ms[r..], st);
    GroupIdsNone(ms[..r], st);
    var k := LastOf(ms, st, i);
    assert ms[r..][k - r] == ms[k];
    GroupLogIs(ms[r..], st, k - r);
  }

  lemma DropShape(ms: seq<Mem>, r: nat)
    requires Shape(ms) && r <= |ms|
    ensures Shape(ms[r..])
  {
  }

  lemma InstallBatches(f: Family, next: nat, r: nat)
    requires Batches(f, next) && f.commit.Applying? && f.imm != []
    requires 0 < r <= |f.imm| && (forall i :: 0 <= i < r ==> f.imm[i].saved) && FileSaved(f.imm[r..], f.commit.file)
    requires InstallCommit(f).imm == f.imm[r..] && (r < |f.imm| ==> f.imm[r].status != Done(f.commit.file))
    ensures Batches(InstallCommit(f), next)
  {
    hide Shape, EditOk, DropSame;
    var ms := f.imm;
    DropShape(ms, r);
    forall i | 0 <= i < |ms[r..]| ensures EditOk(ms[r..], i) {
      DropEdit(ms, r, i);
    }
  }

  lemma UnsettledDrop(ms: seq<Mem>, r: nat, j: nat)
    requires r <= |ms| && Unsettled(ms[r..], j)
    ensures Unsettled(ms, r + j)
  {
    forall i | r + j <= i < |ms| ensures !ms[i].saved { assert ms[i] == ms[r..][i - r]; }
  }

  lemma DropCuts(logs: seq<Log>, ms: seq<Mem>, r: nat, tail: seq<nat>, cf: Cf)
    requires Cuts(logs, ms, tail, cf) && r <= |ms|
    ensures Cuts(logs, ms[r..], tail, cf)
  {
    hide Ids, Replay;
    forall j | 0 <= j < |ms[r..]| && Unsettled(ms[r..], j) ensures CutAt(logs, ms[r..], tail, cf, j) {
      UnsettledDrop(ms, r, j);
      assert CutAt(logs, ms, tail, cf, r + j);
      assert ms[r..][j + 1..] == ms[r + j + 1..];
      assert ms[r..][j] == ms[r + j];
    }
  }

  lemma DropUnsaved(ms: seq<Mem>, r: nat)
    requires r <= |ms| && forall i :: 0 <= i < r ==> ms[i].saved
    ensures Unsaved(ms[r..]) == Unsaved(ms)
  {
    hide Unsaved;
    UnsavedAppend(ms[..r], ms[r..]);
    UnsavedNone(ms[..r]);
    assert ms == ms[..r] + ms[r..];
  }

  lemma InstallRise(f: Family, d: Saved, cur: nat, r: nat)
    requires LogsRise(f, d, cur) && f.commit.Applying? && f.imm != [] && f.imm[0].saved && r <= |f.imm|
    requires InstallCommit(f).imm == f.imm[r..]
    ensures LogsRise(InstallCommit(f), d, cur) && f.log <= d.log
  {
    hide DropSame;
    var ms := f.imm[r..];
    forall j | 0 <= j < |ms| && Unsettled(ms, j) ensures d.log <= ms[j].nextLog {
      UnsettledDrop(f.imm, r, j);
      assert ms[j] == f.imm[r + j];
    }
  }

  lemma InstallSplit(logs: seq<Log>, f: Family, d: Saved, h: seq<nat>, tail: seq<nat>, cf: Cf, cur: nat, r: nat)
    requires Split(logs, f, d, h, tail, cf) && f.commit.Applying? && f.imm != [] && r <= |f.imm| && LogsRise(f, d, cur)
    requires f.imm[0].saved
    requires InstallCommit(f).imm == f.imm[r..] && forall i :: 0 <= i < r ==> f.imm[i].saved
    ensures Split(logs, InstallCommit(f), d, h, tail, cf)
  {
    hide DropSame, Cuts, Ids, Replay, Unsaved, IdsOf;
    DropUnsaved(f.imm, r);
    DropCuts(logs, f.imm, r, tail, cf);
  }

  /** Removing the committed memtables and setting the log number in memory keeps the agreement. */
  lemma InstallAgrees(logs: seq<Log>, f: Family, d: Saved, h: seq<nat>, tail: seq<nat>, cf: Cf, cur: nat, next: nat)
    requires Agrees(logs, f, d, h, tail, cf, cur, next) && f.commit.Applying? && f.imm != []
    ensures Agrees(logs, InstallCommit(f), d, h, tail, cf, cur, next) && f.log <= d.log
  {
    hide InstallCommit, LogsRise, Split, Shape, EditOk, Below;
    var r := InstallDrops(f, next);
    InstallBatches(f, next, r);
    InstallRise(f, d, cur, r);
    InstallSplit(logs, f, d, h, tail, cf, cur, r);
  }
}
