/** What every step of the write path keeps: each family's log number separates its flushed batches from the others. */
module WalInvariant {
  import opened Wal

  // ---------------------------------------------------------------- flush batches

  /** The batches of the memtables with one status, oldest first: those flushed into one file, or those not picked. */
  function GroupIds(ms: seq<Mem>, st: Status): seq<nat>
  {
    if ms == [] then [] else (if ms[0].status == st then ms[0].ids else []) + GroupIds(ms[1..], st)
  }

  /** The next log number of the last of them. */
  function GroupLog(ms: seq<Mem>, st: Status): nat
  {
    if ms == [] then 0
    else if ms[|ms| - 1].status == st then ms[|ms| - 1].nextLog
    else GroupLog(ms[..|ms| - 1], st)
  }

  ghost predicate Head(ms: seq<Mem>, i: nat)
    requires i < |ms|
  {
    forall j :: 0 <= j < i ==> ms[j].status != ms[i].status
  }

  /** Only the first memtable flushed into a file carries the edit, and only until the manifest has it. */
  ghost predicate EditOk(ms: seq<Mem>, i: nat)
    requires i < |ms|
  {
    ms[i].edit ==
      if ms[i].status.Waiting? || ms[i].saved || !Head(ms, i) then NoEdit
      else Edit(GroupLog(ms, ms[i].status), GroupIds(ms, ms[i].status))
  }

  ghost predicate OneStatus(ms: seq<Mem>)
  {
    forall i, j :: 0 <= i < |ms| && 0 <= j < |ms| && !ms[i].status.Waiting? && !ms[j].status.Waiting? ==>
      (ms[i].status.file == ms[j].status.file ==> ms[i].status == ms[j].status)
  }

  ghost predicate SavedOk(ms: seq<Mem>)
  {
    && (forall i :: 0 <= i < |ms| && ms[i].saved ==> ms[i].status.Done?)
    && (forall i, j :: 0 <= i < |ms| && 0 <= j < |ms| && !ms[i].status.Waiting? && ms[i].status == ms[j].status ==>
          ms[i].saved == ms[j].saved)
  }

  ghost predicate Shape(ms: seq<Mem>)
  {
    OneStatus(ms) && SavedOk(ms)
  }

  ghost predicate NoFile(ms: seq<Mem>, file: nat)
  {
    forall i :: 0 <= i < |ms| && !ms[i].status.Waiting? ==> ms[i].status.file != file
  }

  /** The manifest has every memtable of the file. */
  ghost predicate FileSaved(ms: seq<Mem>, file: nat)
  {
    forall i :: 0 <= i < |ms| && !ms[i].status.Waiting? && ms[i].status.file == file ==> ms[i].saved
  }

  ghost predicate Below(f: Family, next: nat)
  {
    && (forall i :: 0 <= i < |f.imm| && !f.imm[i].status.Waiting? ==> f.imm[i].status.file < next)
    && (!f.commit.NotCommitting? ==> f.commit.file < next)
  }

  /** A commit is under way exactly while the oldest memtable is flushed, and it started with the committing thread's
      batch. */
  ghost predicate CommitOk(f: Family)
  {
    && (f.imm != [] && f.imm[0].status.Done? <==> !f.commit.NotCommitting?)
    && (!f.commit.NotCommitting? ==> f.imm[0].status == Done(f.commit.file) || FileSaved(f.imm, f.commit.file))
    && (f.commit.Applying? ==> f.imm[0].saved)
    && (f.commit.Committing? && f.imm[0].status == Done(f.commit.file) ==> !f.imm[0].saved)
  }

  ghost predicate Batches(f: Family, next: nat)
  {
    && (forall i {:trigger EditOk(f.imm, i)} :: 0 <= i < |f.imm| ==> EditOk(f.imm, i))
    && Shape(f.imm) && Below(f, next) && CommitOk(f)
  }

  // ---------------------------------------------------------------- what the log numbers mean

  /** Neither this memtable nor a younger one is in the manifest. */
  ghost predicate Unsettled(ms: seq<Mem>, j: nat)
  {
    forall i :: j <= i < |ms| ==> !ms[i].saved
  }

  /** A memtable that a committed batch has stepped over is empty. */
  ghost predicate SkippedEmpty(ms: seq<Mem>)
  {
    forall i, j :: 0 <= i < j < |ms| && ms[j].saved && !ms[i].saved ==> ms[i].ids == []
  }

  /** Past a memtable's next log number the logs hold exactly what is younger than it. */
  ghost predicate CutAt(logs: seq<Log>, imm: seq<Mem>, tail: seq<nat>, cf: Cf, j: nat)
    requires j < |imm|
  {
    Replay(logs, imm[j].nextLog, cf) == Ids(imm[j + 1..]) + tail
  }

  ghost predicate Cuts(logs: seq<Log>, imm: seq<Mem>, tail: seq<nat>, cf: Cf)
  {
    forall j {:trigger CutAt(logs, imm, tail, cf, j)} :: 0 <= j < |imm| && Unsettled(imm, j) ==>
      CutAt(logs, imm, tail, cf, j)
  }

  /** The log numbers of the manifest and of memory lie between those of the memtables in the manifest and the
      others. */
  ghost predicate LogsRise(f: Family, d: Saved, cur: nat)
  {
    && f.log <= cur && d.log <= cur
    && (forall j :: 0 <= j < |f.imm| ==> f.imm[j].nextLog <= cur)
    && (forall j :: 0 <= j < |f.imm| && f.imm[j].saved ==> f.imm[j].nextLog <= d.log && f.log <= d.log)
    && (forall j {:trigger Unsettled(f.imm, j)} :: 0 <= j < |f.imm| && Unsettled(f.imm, j) ==>
        f.log <= f.imm[j].nextLog && d.log <= f.imm[j].nextLog)
    && (forall i, j :: 0 <= i < j < |f.imm| ==> f.imm[i].nextLog <= f.imm[j].nextLog)
    && (f.commit.Applying? && f.commit.edit.Edit? ==> f.commit.edit.log <= d.log)
  }

  /** Between the manifest's log number and the one in memory no log has a record of the family. */
  ghost predicate Quiet(logs: seq<Log>, lo: nat, hi: nat, cf: Cf)
  {
    forall i :: 0 <= i < |logs| && lo <= logs[i].number < hi ==> IdsOf(logs[i].recs, cf) == []
  }

  function Pending(phase: Phase, cf: Cf): seq<nat>
  {
    if phase.Logged? && cf in phase.rec.cfs then [phase.rec.id] else []
  }

  /** A family's history is its tables and then its unflushed batches, which are exactly what its logs replay. */
  ghost predicate Split(logs: seq<Log>, f: Family, d: Saved, h: seq<nat>, tail: seq<nat>, cf: Cf)
  {
    && h == d.tables + (Unsaved(f.imm) + tail)
    && Replay(logs, d.log, cf) == Unsaved(f.imm) + tail
    && Cuts(logs, f.imm, tail, cf)
    && Quiet(logs, d.log, f.log, cf)
    && SkippedEmpty(f.imm)
  }

  /** A family, its manifest entry and its history agree with the logs. */
  ghost predicate Agrees(logs: seq<Log>, f: Family, d: Saved, h: seq<nat>, tail: seq<nat>, cf: Cf, cur: nat, next: nat)
  {
    Batches(f, next) && LogsRise(f, d, cur) && Split(logs, f, d, h, tail, cf)
  }

  ghost predicate FamilyOk(s: State, cf: Cf)
    requires cf in s.families && cf in s.disk && cf in s.history
  {
    Agrees(s.logs, s.families[cf], s.disk[cf], s.history[cf], s.families[cf].mem + Pending(s.phase, cf), cf, s.curLog,
      s.nextFile)
  }

  /** What recovery would make of the files on disk. */
  ghost function Durable(s: State, cf: Cf): seq<nat>
    requires cf in s.disk
  {
    s.disk[cf].tables + Replay(s.logs, s.disk[cf].log, cf)
  }

  ghost predicate DiskOk(s: State)
  {
    && Ascending(s.logs) && s.disk.Keys == s.history.Keys && s.disk != map[]
    && (forall cf :: cf in s.disk ==> s.disk[cf].log < s.diskNext)
    && (forall cf :: cf in s.disk ==> Durable(s, cf) == s.history[cf])
  }

  ghost predicate LogOk(s: State)
  {
    && s.diskNext <= s.nextFile && s.curLog < s.nextFile
    && (forall i :: 0 <= i < |s.logs| ==> s.logs[i].number < s.nextFile)
    && s.logs != []
    && (if s.phase.LogMade? then
          s.curLog < s.phase.number && s.logs[|s.logs| - 1] == Log(s.phase.number, []) && s.phase.cf in s.families
        else s.logs[|s.logs| - 1].number == s.curLog && (s.logEmpty ==> s.logs[|s.logs| - 1].recs == []))
  }

  ghost predicate ModeOk(s: State)
    requires s.disk.Keys == s.history.Keys
  {
    match s.mode
    case Down => s.phase.Ready? && s.purging == {}
    case Recovering(todo, top) =>
      && s.phase.Ready? && s.purging == {}
      && s.diskNext <= s.nextFile
      && (forall cf :: cf in todo ==> cf in s.disk && s.disk[cf].log <= top)
      && (forall i :: 0 <= i < |s.logs| ==> s.logs[i].number < s.nextFile)
      && (forall cf, i :: cf in s.disk && 0 <= i < |s.logs| ==>
          s.logs[i].number < (if cf in todo then top + 1 else s.disk[cf].log))
    case Running =>
      && s.families.Keys == s.disk.Keys && LogOk(s)
      && (forall cf {:trigger FamilyOk(s, cf)} :: cf in s.families ==> FamilyOk(s, cf))
      && (forall n, cf :: n in s.purging && cf in s.families ==> n < Max(s.families[cf].log, s.disk[cf].log))
  }

  ghost predicate Inv(s: State)
  {
    DiskOk(s) && ModeOk(s)
  }

  // ---------------------------------------------------------------- memtable lists

  lemma {:induction false} IdsAppend(a: seq<Mem>, b: seq<Mem>)
    ensures Ids(a + b) == Ids(a) + Ids(b)
    decreases |a|
  {
    if a == [] {
      assert a + b == b;
    } else {
      assert (a + b)[1..] == a[1..] + b;
      IdsAppend(a[1..], b);
    }
  }

  lemma {:induction false} UnsavedAppend(a: seq<Mem>, b: seq<Mem>)
    ensures Unsaved(a + b) == Unsaved(a) + Unsaved(b)
    decreases |a|
  {
    if a == [] {
      assert a + b == b;
    } else {
      assert (a + b)[1..] == a[1..] + b;
      UnsavedAppend(a[1..], b);
    }
  }

  ghost predicate SameIds(a: seq<Mem>, b: seq<Mem>)
  {
    |a| == |b| && forall i :: 0 <= i < |a| ==> a[i].ids == b[i].ids
  }

  lemma {:induction false} IdsSame(a: seq<Mem>, b: seq<Mem>)
    requires SameIds(a, b)
    ensures Ids(a) == Ids(b)
    decreases |a|
  {
    if a != [] { IdsSame(a[1..], b[1..]); }
  }

  lemma {:induction false} UnsavedSame(a: seq<Mem>, b: seq<Mem>)
    requires SameIds(a, b) && forall i :: 0 <= i < |a| ==> a[i].saved == b[i].saved
    ensures Unsaved(a) == Unsaved(b)
    decreases |a|
  {
    if a != [] { UnsavedSame(a[1..], b[1..]); }
  }

  lemma {:induction false} UnsavedAll(ms: seq<Mem>)
    requires forall i :: 0 <= i < |ms| ==> !ms[i].saved
    ensures Unsaved(ms) == Ids(ms)
  {
    if ms != [] { UnsavedAll(ms[1..]); }
  }

  lemma {:induction false} UnsavedNone(ms: seq<Mem>)
    requires forall i :: 0 <= i < |ms| ==> ms[i].saved
    ensures Unsaved(ms) == []
  {
    if ms != [] { UnsavedNone(ms[1..]); }
  }

  /** Relabelling memtables keeps what the logs say about them. */
  ghost predicate SameData(a: seq<Mem>, b: seq<Mem>)
  {
    SameIds(a, b) && forall i :: 0 <= i < |a| ==> a[i].nextLog == b[i].nextLog && a[i].saved == b[i].saved
  }

  lemma SplitSame(logs: seq<Log>, f: Family, f': Family, d: Saved, h: seq<nat>, tail: seq<nat>, cf: Cf)
    requires Split(logs, f, d, h, tail, cf) && SameData(f.imm, f'.imm) && f'.log == f.log
    ensures Split(logs, f', d, h, tail, cf)
  {
    hide Ids, Replay, Unsaved;
    UnsavedSame(f.imm, f'.imm);
    forall j | 0 <= j < |f'.imm| && Unsettled(f'.imm, j) ensures CutAt(logs, f'.imm, tail, cf, j) {
      assert Unsettled(f.imm, j);
      assert CutAt(logs, f.imm, tail, cf, j);
      IdsSame(f.imm[j + 1..], f'.imm[j + 1..]);
    }
  }

  lemma RiseSame(f: Family, f': Family, d: Saved, cur: nat)
    requires LogsRise(f, d, cur) && SameData(f.imm, f'.imm) && f'.log == f.log
    requires (f'.commit.Applying? ==> f'.commit == f.commit)
    ensures LogsRise(f', d, cur)
  {
    forall j | 0 <= j < |f'.imm| && Unsettled(f'.imm, j)
      ensures f'.log <= f'.imm[j].nextLog && d.log <= f'.imm[j].nextLog {
      assert Unsettled(f.imm, j);
    }
  }

  // ---------------------------------------------------------------- groups

  /** st' in ms' labels the memtables that st labels in ms. */
  ghost predicate Renamed(ms: seq<Mem>, st: Status, ms': seq<Mem>, st': Status)
  {
    && SameIds(ms, ms') && (forall j :: 0 <= j < |ms| ==> ms'[j].nextLog == ms[j].nextLog)
    && forall j :: 0 <= j < |ms| ==> (ms'[j].status == st' <==> ms[j].status == st)
  }

  lemma {:induction false} GroupIdsSame(ms: seq<Mem>, st: Status, ms': seq<Mem>, st': Status)
    requires Renamed(ms, st, ms', st')
    ensures GroupIds(ms, st) == GroupIds(ms', st')
    decreases |ms|
  {
    if ms != [] { GroupIdsSame(ms[1..], st, ms'[1..], st'); }
  }

  lemma {:induction false} GroupLogSame(ms: seq<Mem>, st: Status, ms': seq<Mem>, st': Status)
    requires Renamed(ms, st, ms', st')
    ensures GroupLog(ms, st) == GroupLog(ms', st')
    decreases |ms|
  {
    if ms != [] { GroupLogSame(ms[..|ms| - 1], st, ms'[..|ms| - 1], st'); }
  }

  lemma {:induction false} GroupIdsAppend(a: seq<Mem>, b: seq<Mem>, st: Status)
    ensures GroupIds(a + b, st) == GroupIds(a, st) + GroupIds(b, st)
    decreases |a|
  {
    if a == [] {
      assert a + b == b;
    } else {
      assert (a + b)[1..] == a[1..] + b;
      GroupIdsAppend(a[1..], b, st);
    }
  }

  lemma {:induction false} GroupIdsNone(ms: seq<Mem>, st: Status)
    requires forall i :: 0 <= i < |ms| ==> ms[i].status != st
    ensures GroupIds(ms, st) == []
  {
    if ms != [] { GroupIdsNone(ms[1..], st); }
  }

  lemma {:induction false} GroupLogIs(ms: seq<Mem>, st: Status, k: nat)
    requires k < |ms| && ms[k].status == st && forall i :: k < i < |ms| ==> ms[i].status != st
    ensures GroupLog(ms, st) == ms[k].nextLog
    decreases |ms|
  {
    if k < |ms| - 1 { GroupLogIs(ms[..|ms| - 1], st, k); }
  }

  lemma {:induction false} LastOf(ms: seq<Mem>, st: Status, i: nat) returns (k: nat)
    requires i < |ms| && ms[i].status == st
    ensures i <= k < |ms| && ms[k].status == st && forall j :: k < j < |ms| ==> ms[j].status != st
    ensures GroupLog(ms, st) == ms[k].nextLog
  {
    k := |ms| - 1;
    while ms[k].status != st
      invariant i <= k < |ms| && forall j :: k < j < |ms| ==> ms[j].status != st
      decreases k
    {
      k := k - 1;
    }
    GroupLogIs(ms, st, k);
  }

  ghost predicate SameGroup(ms: seq<Mem>, ms': seq<Mem>, i: nat)
    requires i < |ms| == |ms'|
  {
    forall j :: 0 <= j < |ms| ==> (ms'[j].status == ms'[i].status <==> ms[j].status == ms[i].status)
  }

  /** A batch whose members stay the same keeps its edit. */
  lemma EditKept(ms: seq<Mem>, ms': seq<Mem>, i: nat)
    requires SameIds(ms, ms') && (forall j :: 0 <= j < |ms| ==> ms'[j].nextLog == ms[j].nextLog)
    requires i < |ms| && EditOk(ms, i) && SameGroup(ms, ms', i)
    requires !ms[i].status.Waiting? && !ms'[i].status.Waiting? && ms'[i].saved == ms[i].saved
    requires ms'[i].edit == ms[i].edit
    ensures EditOk(ms', i)
  {
    hide GroupIds, GroupLog;
    GroupIdsSame(ms, ms[i].status, ms', ms'[i].status);
    GroupLogSame(ms, ms[i].status, ms', ms'[i].status);
    assert Head(ms, i) <==> Head(ms', i);
  }

  // ---------------------------------------------------------------- picking memtables to flush

  ghost predicate NoneWaiting(ms: seq<Mem>, i: nat)
  {
    forall j :: 0 <= j < i && j < |ms| ==> !ms[j].status.Waiting?
  }

  ghost function Labelled(ms: seq<Mem>, file: nat, edit: Edit, i: nat): Mem
    requires i < |ms|
  {
    if !ms[i].status.Waiting? then ms[i]
    else ms[i].(status := Flushing(file), edit := if NoneWaiting(ms, i) then edit else NoEdit)
  }

  /** What Pick makes of the list. */
  ghost predicate Marked(ms: seq<Mem>, ms': seq<Mem>, file: nat, edit: Edit)
  {
    && |ms'| == |ms|
    && forall i :: 0 <= i < |ms| ==> ms'[i] == Labelled(ms, file, edit, i)
  }

  lemma {:induction false} MarkAt(ms: seq<Mem>, file: nat, edit: Edit, i: nat)
    requires i < |ms|
    ensures |Mark(ms, file, edit)| == |ms|
    ensures Mark(ms, file, edit)[i] == Labelled(ms, file, edit, i)
    decreases |ms|
  {
    if |ms| > 1 {
      var e := if ms[0].status.Waiting? then NoEdit else edit;
      MarkAt(ms[1..], file, e, if i == 0 then 0 else i - 1);
      assert i > 0 && ms[0].status.Waiting? ==> !NoneWaiting(ms, i);
      assert i > 0 && !ms[0].status.Waiting? ==> (NoneWaiting(ms, i) <==> NoneWaiting(ms[1..], i - 1));
    }
  }

  lemma {:induction false} PickedIs(ms: seq<Mem>)
    ensures Ids(Picked(ms)) == GroupIds(ms, Waiting)
    decreases |ms|
  {
    if ms != [] {
      PickedIs(ms[1..]);
      if ms[0].status.Waiting? {
        assert Picked(ms)[1..] == Picked(ms[1..]);
      } else {
        assert Picked(ms) == Picked(ms[1..]);
      }
    }
  }

  lemma {:induction false} PickedLast(ms: seq<Mem>, i: nat)
    requires i < |ms| && ms[i].status.Waiting?
    ensures Picked(ms) != [] && Picked(ms)[|Picked(ms)| - 1].nextLog == GroupLog(ms, Waiting)
    decreases |ms|
  {
    var k := LastOf(ms, Waiting, i);
    PickedEnds(ms, k);
  }

  lemma {:induction false} PickedEnds(ms: seq<Mem>, k: nat)
    requires k < |ms| && ms[k].status.Waiting? && forall i :: k < i < |ms| ==> !ms[i].status.Waiting?
    ensures Picked(ms) != [] && Picked(ms)[|Picked(ms)| - 1] == ms[k]
    decreases |ms|
  {
    if k == 0 { PickedNone(ms[1..]); } else { PickedEnds(ms[1..], k - 1); }
  }

  lemma {:induction false} PickedNone(ms: seq<Mem>)
    requires forall i :: 0 <= i < |ms| ==> !ms[i].status.Waiting?
    ensures Picked(ms) == []
  {
    if ms != [] { PickedNone(ms[1..]); }
  }

  lemma MarkIs(ms: seq<Mem>, file: nat, edit: Edit)
    requires ms != []
    ensures Marked(ms, Mark(ms, file, edit), file, edit)
  {
    hide Mark;
    MarkAt(ms, file, edit, 0);
    forall i | 0 <= i < |ms|
      ensures Mark(ms, file, edit)[i] == Labelled(ms, file, edit, i)
    {
      MarkAt(ms, file, edit, i);
    }
  }

  lemma PickMarks(f: Family, file: nat)
    requires AnyWaiting(f.imm)
    ensures var f' := StartFlush(f, file);
      f' == f.(imm := f'.imm) && Marked(f.imm, f'.imm, file, Edit(GroupLog(f.imm, Waiting), GroupIds(f.imm, Waiting)))
  {
    hide GroupIds, GroupLog, Ids, Picked, Mark, Marked;
    var w :| 0 <= w < |f.imm| && f.imm[w].status == Waiting;
    PickedIs(f.imm);
    PickedLast(f.imm, w);
    MarkIs(f.imm, file, Edit(GroupLog(f.imm, Waiting), GroupIds(f.imm, Waiting)));
  }

  lemma MarkedEdit(ms: seq<Mem>, ms': seq<Mem>, file: nat, i: nat)
    requires Marked(ms, ms', file, Edit(GroupLog(ms, Waiting), GroupIds(ms, Waiting)))
    requires NoFile(ms, file) && i < |ms| && EditOk(ms, i) && Shape(ms)
    ensures EditOk(ms', i)
  {
    hide OneStatus, GroupIds, GroupLog;
    if ms[i].status.Waiting? {
      GroupIdsSame(ms, Waiting, ms', Flushing(file));
      GroupLogSame(ms, Waiting, ms', Flushing(file));
      assert NoneWaiting(ms, i) <==> Head(ms', i);
    } else {
      EditKept(ms, ms', i);
    }
  }

  lemma MarkedShape(ms: seq<Mem>, ms': seq<Mem>, file: nat, edit: Edit)
    requires Marked(ms, ms', file, edit) && NoFile(ms, file) && Shape(ms)
    ensures Shape(ms') && SameData(ms, ms')
  {
  }

  lemma PickBatches(f: Family, next: nat)
    requires Batches(f, next) && AnyWaiting(f.imm)
    ensures Batches(StartFlush(f, next), next + 1) && SameData(f.imm, StartFlush(f, next).imm)
  {
    hide StartFlush, EditOk, Shape, GroupIds, GroupLog;
    PickMarks(f, next);
    var ms, ms' := f.imm, StartFlush(f, next).imm;
    MarkedShape(ms, ms', next, Edit(GroupLog(ms, Waiting), GroupIds(ms, Waiting)));
    forall i | 0 <= i < |ms'| ensures EditOk(ms', i) {
      MarkedEdit(ms, ms', next, i);
    }
  }

  // ---------------------------------------------------------------- finishing or rolling back a flush

  lemma RelabelShape(ms: seq<Mem>, file: nat, to: Status, keepEdit: bool)
    requires Shape(ms) && AnyFlushing(ms, file) && (to == Waiting || to == Done(file))
    ensures Shape(Relabel(ms, file, to, keepEdit)) && SameData(ms, Relabel(ms, file, to, keepEdit))
  {
    hide SavedOk;
    RelabelSaved(ms, file, to, keepEdit);
  }

  lemma RelabelSaved(ms: seq<Mem>, file: nat, to: Status, keepEdit: bool)
    requires SavedOk(ms) && OneStatus(ms) && AnyFlushing(ms, file) && (to == Waiting || to == Done(file))
    ensures SavedOk(Relabel(ms, file, to, keepEdit))
  {
  }

  lemma SavedDone(ms: seq<Mem>, i: nat)
    requires Shape(ms) && i < |ms| && !ms[i].status.Done?
    ensures !ms[i].saved
  {
  }

  lemma RelabelBatches(f: Family, next: nat, file: nat)
    requires Batches(f, next) && AnyFlushing(f.imm, file)
    ensures Batches(f.(imm := Relabel(f.imm, file, Waiting, false)), next)
    ensures SameData(f.imm, Relabel(f.imm, file, Waiting, false))
  {
    hide EditOk, Shape;
    var ms, ms' := f.imm, Relabel(f.imm, file, Waiting, false);
    RelabelShape(ms, file, Waiting, false);
    forall i | 0 <= i < |ms'| ensures EditOk(ms', i) {
      if ms'[i].status.Waiting? { EditWaiting(ms, ms', i); } else { EditKept(ms, ms', i); }
    }
  }

  lemma EditWaiting(ms: seq<Mem>, ms': seq<Mem>, i: nat)
    requires i < |ms| == |ms'| && EditOk(ms, i) && ms'[i].status.Waiting?
    requires (ms[i].status.Waiting? ==> ms'[i].edit == ms[i].edit)
    requires !ms[i].status.Waiting? ==> ms'[i].edit == NoEdit
    ensures EditOk(ms', i)
  {
  }

  lemma FinishGroup(ms: seq<Mem>, file: nat, i: nat)
    requires Shape(ms) && AnyFlushing(ms, file) && i < |ms|
    ensures SameGroup(ms, Relabel(ms, file, Done(file), true), i)
  {
  }

  lemma FinishCommit(f: Family, next: nat, file: nat)
    requires Batches(f, next) && AnyFlushing(f.imm, file)
    ensures CommitOk(FinishFlush(f, file)) && Below(FinishFlush(f, file), next)
  {
    hide EditOk;
    if f.imm[0].status.Flushing? { SavedDone(f.imm, 0); }
  }

  lemma FinishBatches(f: Family, next: nat, file: nat)
    requires Batches(f, next) && AnyFlushing(f.imm, file)
    ensures Batches(FinishFlush(f, file), next) && SameData(f.imm, FinishFlush(f, file).imm)
  {
    FinishCommit(f, next, file);
    hide EditOk, Shape, CommitOk, Below;
    var ms, ms' := f.imm, FinishFlush(f, file).imm;
    RelabelShape(ms, file, Done(file), true);
    forall i | 0 <= i < |ms| && !ms[i].status.Waiting? ensures SameGroup(ms, ms', i) { FinishGroup(ms, file, i); }
    forall i | 0 <= i < |ms'| ensures EditOk(ms', i) {
      if ms'[i].status.Waiting? { EditWaiting(ms, ms', i); } else { EditKept(ms, ms', i); }
    }
  }
}
