/** Every run of the write path: recovery replays exactly the unflushed batches. */
module WalRuns {
  import opened Wal
  import opened WalInvariant
  import opened WalCommit

  // ---------------------------------------------------------------- logging a write

  lemma Regroup(a: seq<nat>, b: seq<nat>, c: seq<nat>, d: seq<nat>)
    ensures a + (b + (c + d)) == a + (b + c) + d && b + (c + d) == b + c + d
  {
  }

  lemma WriteSplits(logs: seq<Log>, f: Family, d: Saved, h: seq<nat>, tail: seq<nat>, cf: Cf, cur: nat, rec: Rec)
    requires Split(logs, f, d, h, tail, cf) && LogsRise(f, d, cur) && logs != [] && logs[|logs| - 1].number == cur
    ensures var add := if cf in rec.cfs then [rec.id] else [];
      Split(AddRecord(logs, rec), f, d, h + add, tail + add, cf)
  {
    hide Replay, Ids, Unsaved, IdsOf;
    var add := if cf in rec.cfs then [rec.id] else [];
    var logs' := AddRecord(logs, rec);
    ReplayWrite(logs, rec, d.log, cf);
    Regroup(d.tables, Unsaved(f.imm), tail, add);
    forall j | 0 <= j < |f.imm| && Unsettled(f.imm, j) ensures CutAt(logs', f.imm, tail + add, cf, j) {
      assert CutAt(logs, f.imm, tail, cf, j);
      ReplayWrite(logs, rec, f.imm[j].nextLog, cf);
      Regroup([], Ids(f.imm[j + 1..]), tail, add);
    }
    forall i | 0 <= i < |logs'| && d.log <= logs'[i].number < f.log ensures IdsOf(logs'[i].recs, cf) == [] {
      assert i < |logs| - 1 && logs'[i] == logs[i];
    }
  }

  // ---------------------------------------------------------------- a new log file

  lemma MakeLogSplits(logs: seq<Log>, f: Family, d: Saved, h: seq<nat>, tail: seq<nat>, cf: Cf, number: nat)
    requires Split(logs, f, d, h, tail, cf)
    ensures Split(logs + [Log(number, [])], f, d, h, tail, cf)
  {
    hide Replay, Ids, Unsaved;
    var logs' := logs + [Log(number, [])];
    ReplayMakeLog(logs, number, d.log, cf);
    forall j | 0 <= j < |f.imm| && Unsettled(f.imm, j) ensures CutAt(logs', f.imm, tail, cf, j) {
      assert CutAt(logs, f.imm, tail, cf, j);
      ReplayMakeLog(logs, number, f.imm[j].nextLog, cf);
    }
  }

  /** Moving an empty family's log number, in memory only, skips no record of it. */
  lemma BumpAgrees(logs: seq<Log>, f: Family, d: Saved, h: seq<nat>, cf: Cf, cur: nat, next: nat, log: nat)
    requires Agrees(logs, f, d, h, f.mem, cf, cur, next) && cur <= log
    ensures Agrees(logs, Bump(f, log), d, h, f.mem, cf, log, next) && Bump(f, log).log >= f.log
  {
    hide Replay, Ids, Shape, EditOk;
    if f.mem == [] && f.imm == [] {
      forall i | 0 <= i < |logs| && d.log <= logs[i].number < log ensures IdsOf(logs[i].recs, cf) == [] {
        ReplayEmpty(logs, d.log, cf, i);
      }
    }
  }

  lemma RetireGroup(ms: seq<Mem>, m: Mem, i: nat)
    requires m.status.Waiting? && i < |ms| && !ms[i].status.Waiting?
    ensures GroupIds(ms + [m], ms[i].status) == GroupIds(ms, ms[i].status)
    ensures GroupLog(ms + [m], ms[i].status) == GroupLog(ms, ms[i].status)
  {
    hide GroupIds, GroupLog;
    GroupIdsAppend(ms, [m], ms[i].status);
    GroupIdsNone([m], ms[i].status);
    var k := LastOf(ms, ms[i].status, i);
    GroupLogIs(ms + [m], ms[i].status, k);
  }

  lemma RetireEdit(ms: seq<Mem>, m: Mem, i: nat)
    requires m.status.Waiting? && m.edit.NoEdit? && i <= |ms| && (i < |ms| ==> EditOk(ms, i))
    ensures EditOk(ms + [m], i)
  {
    hide GroupIds, GroupLog;
    var ms' := ms + [m];
    if i < |ms| && !ms[i].status.Waiting? {
      RetireGroup(ms, m, i);
      assert forall j :: 0 <= j <= i ==> ms'[j] == ms[j];
      assert Head(ms, i) <==> Head(ms', i);
    }
  }

  lemma RetireShape(ms: seq<Mem>, m: Mem)
    requires m.status.Waiting? && !m.saved && Shape(ms)
    ensures Shape(ms + [m])
  {
  }

  lemma RetireBatches(f: Family, next: nat, log: nat)
    requires Batches(f, next)
    ensures Batches(Retire(f, log), next)
  {
    hide EditOk, Shape;
    var m := Mem(f.mem, log, Waiting, NoEdit, false);
    RetireShape(f.imm, m);
    forall i | 0 <= i <= |f.imm| ensures EditOk(f.imm + [m], i) {
      RetireEdit(f.imm, m, i);
    }
  }

  lemma UnsettledWith(ms: seq<Mem>, m: Mem, j: nat)
    requires Unsettled(ms + [m], j)
    ensures Unsettled(ms, j)
  {
    forall i | j <= i < |ms| ensures !ms[i].saved { assert ms[i] == (ms + [m])[i]; }
  }

  lemma RetireRise(f: Family, d: Saved, log: nat)
    requires LogsRise(f, d, log)
    ensures LogsRise(Retire(f, log), d, log)
  {
    var m := Mem(f.mem, log, Waiting, NoEdit, false);
    var ms' := f.imm + [m];
    forall j | 0 <= j < |ms'| && Unsettled(ms', j) ensures f.log <= ms'[j].nextLog && d.log <= ms'[j].nextLog {
      UnsettledWith(f.imm, m, j);
    }
  }

  lemma RetireSplits(logs: seq<Log>, f: Family, d: Saved, h: seq<nat>, cf: Cf, log: nat)
    requires Split(logs, f, d, h, f.mem, cf) && Replay(logs, log, cf) == []
    ensures Split(logs, Retire(f, log), d, h, [], cf)
  {
    hide Replay, IdsOf;
    var m := Mem(f.mem, log, Waiting, NoEdit, false);
    var ms, ms' := f.imm, f.imm + [m];
    UnsavedAppend(ms, [m]);
    assert Unsaved([m]) == f.mem + [];
    forall j | 0 <= j < |ms'| && Unsettled(ms', j) ensures CutAt(logs, ms', [], cf, j) {
      if j < |ms| {
        UnsettledWith(ms, m, j);
        assert CutAt(logs, ms, f.mem, cf, j);
        assert ms'[j + 1..] == ms[j + 1..] + [m];
        IdsAppend(ms[j + 1..], [m]);
        assert Ids([m]) == f.mem + [];
      } else {
        assert ms'[j + 1..] == [];
      }
    }
  }

  // ---------------------------------------------------------------- deleting a log

  lemma DeleteSplits(logs: seq<Log>, f: Family, d: Saved, h: seq<nat>, tail: seq<nat>, cf: Cf, cur: nat, n: nat)
    requires Split(logs, f, d, h, tail, cf) && LogsRise(f, d, cur) && n < Max(f.log, d.log) && Ascending(logs)
    ensures Split(Without(logs, n), f, d, h, tail, cf)
  {
    hide Replay, Ids, Unsaved, IdsOf, Without;
    var logs' := Without(logs, n);
    WithoutIs(logs, n);
    ReplayDelete(logs, n, d.log, cf);
    forall j | 0 <= j < |f.imm| && Unsettled(f.imm, j) ensures CutAt(logs', f.imm, tail, cf, j) {
      assert CutAt(logs, f.imm, tail, cf, j);
      ReplayDelete(logs, n, f.imm[j].nextLog, cf);
    }
    forall i | 0 <= i < |logs'| && d.log <= logs'[i].number < f.log ensures IdsOf(logs'[i].recs, cf) == [] {
      assert logs'[i] in logs;
    }
  }

  // ---------------------------------------------------------------- the running database

  lemma AgreesLater(logs: seq<Log>, f: Family, d: Saved, h: seq<nat>, tail: seq<nat>, cf: Cf, cur: nat, next: nat,
                    next': nat)
    requires Agrees(logs, f, d, h, tail, cf, cur, next) && next <= next'
    ensures Agrees(logs, f, d, h, tail, cf, cur, next')
  {
    hide Shape, EditOk, Split, LogsRise;
  }

  lemma SameDataAgrees(logs: seq<Log>, f: Family, f': Family, d: Saved, h: seq<nat>, tail: seq<nat>, cf: Cf,
                       cur: nat, next: nat, next': nat)
    requires Agrees(logs, f, d, h, tail, cf, cur, next) && Batches(f', next') && SameData(f.imm, f'.imm)
    requires f'.log == f.log && (f'.commit.Applying? ==> f'.commit == f.commit)
    ensures Agrees(logs, f', d, h, tail, cf, cur, next')
  {
    hide Batches, Split, LogsRise;
    SplitSame(logs, f, f', d, h, tail, cf);
    RiseSame(f, f', d, cur);
  }

  ghost predicate RunningOk(s: State)
  {
    && s.mode.Running? && Ascending(s.logs) && s.disk != map[]
    && s.families.Keys == s.disk.Keys == s.history.Keys && LogOk(s)
    && (forall cf :: cf in s.disk ==> s.disk[cf].log < s.diskNext)
    && (forall cf {:trigger FamilyOk(s, cf)} :: cf in s.families ==> FamilyOk(s, cf))
    && (forall n, cf :: n in s.purging && cf in s.families ==> n < Max(s.families[cf].log, s.disk[cf].log))
  }

  lemma RunningInv(s: State)
    requires RunningOk(s)
    ensures Inv(s)
  {
    hide Batches, LogsRise, Cuts, Replay, Unsaved, Ascending, LogOk;
    forall cf | cf in s.disk ensures Durable(s, cf) == s.history[cf] {
      assert FamilyOk(s, cf);
    }
  }

  lemma InvRunning(s: State)
    requires Inv(s) && s.mode.Running?
    ensures RunningOk(s)
  {
    hide Agrees, Replay, Unsaved, Ascending, LogOk;
  }

  /** A step that changes one family, its manifest entry and file numbers. */
  lemma OneFamily(s: State, s': State, cf: Cf, f: Family, d: Saved)
    requires RunningOk(s) && cf in s.families && Max(f.log, d.log) >= Max(s.families[cf].log, s.disk[cf].log)
    requires s' == s.(families := s.families[cf := f], disk := s.disk[cf := d], nextFile := s'.nextFile,
      diskNext := s'.diskNext)
    requires s.nextFile <= s'.nextFile && s.diskNext <= s'.diskNext <= s'.nextFile && d.log < s'.diskNext
    requires Agrees(s.logs, f, d, s.history[cf], f.mem + Pending(s.phase, cf), cf, s.curLog, s'.nextFile)
    ensures RunningOk(s')
  {
    hide Agrees, Ascending, Pending;
    forall c | c in s'.families ensures FamilyOk(s', c) {
      if c != cf {
        assert FamilyOk(s, c);
        var tail := s.families[c].mem + Pending(s.phase, c);
        AgreesLater(s.logs, s.families[c], s.disk[c], s.history[c], tail, c, s.curLog, s.nextFile, s'.nextFile);
      }
    }
  }

  lemma KeepsPick(s: State, cf: Cf)
    requires Enabled(s, Pick(cf)) && RunningOk(s)
    ensures RunningOk(Apply(s, Pick(cf)))
  {
    hide StartFlush, Ascending, LogOk, Batches, LogsRise, Split, SameData;
    assert FamilyOk(s, cf);
    var f := s.families[cf];
    var f' := StartFlush(f, s.nextFile);
    PickKeeps(f, s.nextFile);
    PickBatches(f, s.nextFile);
    SameDataAgrees(s.logs, f, f', s.disk[cf], s.history[cf], f.mem + Pending(s.phase, cf), cf, s.curLog, s.nextFile,
      s.nextFile + 1);
    AnyDisk(s, cf);
    OneFamily(s, Apply(s, Pick(cf)), cf, f', s.disk[cf]);
  }

  lemma PickKeeps(f: Family, file: nat)
    requires AnyWaiting(f.imm)
    ensures var f' := StartFlush(f, file); f'.log == f.log && f'.mem == f.mem && f'.commit == f.commit
  {
  }

  lemma AnyDisk(s: State, cf: Cf)
    requires RunningOk(s) && cf in s.disk
    ensures s.disk[cf := s.disk[cf]] == s.disk && s.diskNext <= s.nextFile && s.disk[cf].log < s.diskNext
  {
    hide FamilyOk, Ascending;
  }

  lemma KeepsRollback(s: State, cf: Cf, file: nat)
    requires RunningOk(s) && Enabled(s, Rollback(cf, file))
    ensures RunningOk(Apply(s, Rollback(cf, file)))
  {
    hide Relabel, Ascending, LogOk, Batches, LogsRise, Split, SameData;
    assert FamilyOk(s, cf);
    var f := s.families[cf];
    var f' := f.(imm := Relabel(f.imm, file, Waiting, false));
    RelabelBatches(f, s.nextFile, file);
    SameDataAgrees(s.logs, f, f', s.disk[cf], s.history[cf], f.mem + Pending(s.phase, cf), cf, s.curLog, s.nextFile,
      s.nextFile);
    AnyDisk(s, cf);
    OneFamily(s, Apply(s, Rollback(cf, file)), cf, f', s.disk[cf]);
  }

  lemma KeepsFinish(s: State, cf: Cf, file: nat)
    requires RunningOk(s) && Enabled(s, Finish(cf, file))
    ensures RunningOk(Apply(s, Finish(cf, file)))
  {
    hide Relabel, Ascending, LogOk, Batches, LogsRise, Split, SameData;
    assert FamilyOk(s, cf);
    var f := s.families[cf];
    var f' := FinishFlush(f, file);
    FinishBatches(f, s.nextFile, file);
    SameDataAgrees(s.logs, f, f', s.disk[cf], s.history[cf], f.mem + Pending(s.phase, cf), cf, s.curLog, s.nextFile,
      s.nextFile);
    AnyDisk(s, cf);
    OneFamily(s, Apply(s, Finish(cf, file)), cf, f', s.disk[cf]);
  }

  lemma KeepsCommitWrite(s: State, cf: Cf)
    requires RunningOk(s) && Enabled(s, CommitWrite(cf)) && Clear(s.families[cf].imm, s.families[cf].imm[0].status)
    ensures RunningOk(Apply(s, CommitWrite(cf)))
  {
    hide Batches, LogsRise, Split, Ascending, MarkSaved;
    assert FamilyOk(s, cf);
    var f := s.families[cf];
    WriteAgrees(s.logs, f, s.disk[cf], s.history[cf], f.mem + Pending(s.phase, cf), cf, s.curLog, s.nextFile);
    LogNumber(Written(f), Manifest(f, s.disk[cf]), s.curLog);
    AnyDisk(s, cf);
    OneFamily(s, Apply(s, CommitWrite(cf)), cf, Written(f), Manifest(f, s.disk[cf]));
  }

  lemma KeepsCommitInstall(s: State, cf: Cf)
    requires RunningOk(s) && Enabled(s, CommitInstall(cf))
    ensures RunningOk(Apply(s, CommitInstall(cf)))
  {
    hide Batches, LogsRise, Split, Ascending, InstallCommit;
    assert FamilyOk(s, cf);
    var f := s.families[cf];
    InstallKeeps(f);
    InstallAgrees(s.logs, f, s.disk[cf], s.history[cf], f.mem + Pending(s.phase, cf), cf, s.curLog, s.nextFile);
    AnyDisk(s, cf);
    OneFamily(s, Apply(s, CommitInstall(cf)), cf, InstallCommit(f), s.disk[cf]);
  }

  lemma InstallKeeps(f: Family)
    requires f.commit.Applying? && f.imm != []
    ensures InstallCommit(f).mem == f.mem
  {
  }

  lemma KeepsWrite(s: State, rec: Rec)
    requires Enabled(s, Write(rec)) && RunningOk(s)
    ensures RunningOk(Apply(s, Write(rec)))
  {
    hide Batches, LogsRise, Split, Ascending;
    var s' := Apply(s, Write(rec));
    AddRecordIs(s.logs, rec);
    forall cf | cf in s'.families ensures FamilyOk(s', cf) {
      assert FamilyOk(s, cf);
      var f := s.families[cf];
      assert f.mem + Pending(s.phase, cf) == f.mem;
      WriteSplits(s.logs, f, s.disk[cf], s.history[cf], f.mem, cf, s.curLog, rec);
      assert s.history[cf] + [] == s.history[cf];
    }
  }

  lemma AddRecordIs(logs: seq<Log>, rec: Rec)
    requires logs != []
    ensures var logs' := AddRecord(logs, rec);
      && |logs'| == |logs| && (forall i :: 0 <= i < |logs| ==> logs'[i].number == logs[i].number)
      && (Ascending(logs) ==> Ascending(logs'))
  {
  }

  lemma InsertAgrees(logs: seq<Log>, f: Family, f': Family, d: Saved, h: seq<nat>, tail: seq<nat>, cf: Cf, cur: nat,
                     next: nat)
    requires Agrees(logs, f, d, h, tail, cf, cur, next) && f' == f.(mem := f'.mem)
    ensures Agrees(logs, f', d, h, tail, cf, cur, next)
  {
    hide Shape, EditOk, Replay, Ids, Unsaved;
  }

  lemma KeepsInsert(s: State)
    requires Enabled(s, Insert) && RunningOk(s)
    ensures RunningOk(Apply(s, Insert))
  {
    hide Agrees, Ascending;
    var s', rec := Apply(s, Insert), s.phase.rec;
    forall cf | cf in s'.families ensures FamilyOk(s', cf) {
      assert FamilyOk(s, cf);
      var f, f' := s.families[cf], s'.families[cf];
      assert f'.mem + Pending(s'.phase, cf) == f.mem + Pending(s.phase, cf);
      InsertAgrees(s.logs, f, f', s.disk[cf], s.history[cf], f.mem + Pending(s.phase, cf), cf, s.curLog, s.nextFile);
    }
  }

  lemma KeepsMakeLog(s: State, cf: Cf)
    requires Enabled(s, MakeLog(cf)) && RunningOk(s)
    ensures RunningOk(Apply(s, MakeLog(cf)))
  {
    hide Batches, LogsRise, Split;
    var s' := Apply(s, MakeLog(cf));
    forall c | c in s'.families ensures FamilyOk(s', c) {
      assert FamilyOk(s, c);
      var f, tail := s.families[c], s.families[c].mem + Pending(s.phase, c);
      MakeLogSplits(s.logs, f, s.disk[c], s.history[c], tail, c, s.nextFile);
      AgreesLater(s'.logs, f, s.disk[c], s.history[c], tail, c, s.curLog, s.nextFile, s'.nextFile);
    }
  }

  /** Nothing is logged past a log file just made, or past the current one while it is empty. */
  lemma NothingPast(logs: seq<Log>, cf: Cf)
    requires Ascending(logs) && logs != [] && logs[|logs| - 1].recs == []
    ensures Replay(logs, logs[|logs| - 1].number, cf) == []
  {
    ReplayNone(logs, logs[|logs| - 1].number, cf);
  }

  function SwitchLog(s: State): nat
  {
    if s.phase.LogMade? then s.phase.number else s.curLog
  }

  /** What a switch leaves of family c when family cf's memtable becomes immutable. */
  function Switched(s: State, c: Cf, cf: Cf): Family
    requires c in s.families
  {
    var f := if s.phase.LogMade? then Bump(s.families[c], SwitchLog(s)) else s.families[c];
    if c == cf then Retire(f, SwitchLog(s)) else f
  }

  lemma SwitchAgrees(s: State, cf: Cf, c: Cf)
    requires Enabled(s, Switch(cf)) && RunningOk(s) && c in s.families
    ensures var f := Switched(s, c, cf);
      && Agrees(s.logs, f, s.disk[c], s.history[c], f.mem, c, SwitchLog(s), s.nextFile) && f.log >= s.families[c].log
  {
    hide Agrees, Ascending;
    assert FamilyOk(s, c);
    var f, log := s.families[c], SwitchLog(s);
    assert f.mem + Pending(s.phase, c) == f.mem;
    NothingPast(s.logs, c);
    if s.phase.LogMade? {
      hide Bump;
      BumpAgrees(s.logs, f, s.disk[c], s.history[c], c, s.curLog, s.nextFile, log);
      f := Bump(f, log);
    }
    if c == cf { RetireAgrees(s.logs, f, s.disk[c], s.history[c], c, s.nextFile, log); }
  }

  lemma RetireAgrees(logs: seq<Log>, f: Family, d: Saved, h: seq<nat>, cf: Cf, next: nat, log: nat)
    requires Agrees(logs, f, d, h, f.mem, cf, log, next) && Replay(logs, log, cf) == []
    ensures Agrees(logs, Retire(f, log), d, h, [], cf, log, next)
  {
    hide Batches, Split, LogsRise, Replay;
    RetireRise(f, d, log);
    RetireBatches(f, next, log);
    RetireSplits(logs, f, d, h, cf, log);
  }

  lemma SwitchIs(s: State, cf: Cf, c: Cf)
    requires Enabled(s, Switch(cf)) && c in s.families
    ensures Apply(s, Switch(cf)).families[c] == Switched(s, c, cf)
  {
  }

  lemma SwitchLogOk(s: State, cf: Cf)
    requires Enabled(s, Switch(cf)) && LogOk(s)
    ensures var s' := Apply(s, Switch(cf));
      LogOk(s') && s'.families.Keys == s.families.Keys && s'.curLog == SwitchLog(s)
    ensures Apply(s, Switch(cf)) ==
      s.(families := Apply(s, Switch(cf)).families, curLog := SwitchLog(s), logEmpty := true, phase := Ready)
  {
  }

  lemma KeepsSwitch(s: State, cf: Cf)
    requires Enabled(s, Switch(cf)) && RunningOk(s)
    ensures RunningOk(Apply(s, Switch(cf)))
  {
    hide Agrees, Ascending, Bump, Retire, Switched, LogOk, Enabled, Apply;
    var s' := Apply(s, Switch(cf));
    SwitchLogOk(s, cf);
    forall c | c in s'.families ensures FamilyOk(s', c) && s'.families[c].log >= s.families[c].log {
      SwitchIs(s, cf, c);
      SwitchAgrees(s, cf, c);
      assert s'.families[c].mem + Pending(s'.phase, c) == s'.families[c].mem;
    }
  }

  lemma KeepsDelete(s: State, n: nat)
    requires Enabled(s, Delete(n)) && RunningOk(s)
    ensures RunningOk(Apply(s, Delete(n)))
  {
    hide Batches, LogsRise, Split, Without, Ascending;
    var s' := Apply(s, Delete(n));
    var some :| some in s.families;
    assert FamilyOk(s, some);
    LogNumber(s.families[some], s.disk[some], s.curLog);
    WithoutIs(s.logs, n);
    forall i | 0 <= i < |s'.logs| ensures s'.logs[i].number < s'.nextFile {
      assert s'.logs[i] in s.logs;
    }
    forall cf | cf in s'.families ensures FamilyOk(s', cf) {
      assert FamilyOk(s, cf);
      var f := s.families[cf];
      DeleteSplits(s.logs, f, s.disk[cf], s.history[cf], f.mem + Pending(s.phase, cf), cf, s.curLog, n);
    }
  }

  lemma LogNumber(f: Family, d: Saved, cur: nat)
    requires LogsRise(f, d, cur)
    ensures f.log <= cur && d.log <= cur
  {
  }

  // ---------------------------------------------------------------- crash and recovery

  lemma {:induction false} TopIs(logs: seq<Log>, min: nat)
    requires Ascending(logs)
    ensures forall i :: 0 <= i < |logs| ==> logs[i].number <= Top(logs, min) || logs[i].number < min
    ensures Top(logs, min) >= 0 ==> forall i :: 0 <= i < |logs| ==> logs[i].number <= Top(logs, min)
  {
    if logs != [] && logs[|logs| - 1].number < min { TopIs(logs[..|logs| - 1], min); }
  }

  lemma KeepsRestart(s: State, min: nat)
    requires Inv(s) && Enabled(s, Restart(min))
    ensures Inv(Apply(s, Restart(min)))
  {
    hide Replay;
    TopIs(s.logs, min);
  }

  lemma RecoverDurable(logs: seq<Log>, d: Saved, cf: Cf, top: int)
    requires 0 <= top && forall i :: 0 <= i < |logs| ==> logs[i].number < top + 1
    ensures d.tables + Replay(logs, d.log, cf) + Replay(logs, top + 1, cf) == d.tables + Replay(logs, d.log, cf)
  {
    ReplayNone(logs, top + 1, cf);
  }

  lemma KeepsRecover(s: State, cf: Cf)
    requires Inv(s) && Enabled(s, RecoverFamily(cf))
    ensures Inv(Apply(s, RecoverFamily(cf)))
  {
    hide Replay, Ascending, FamilyOk;
    RecoverDurable(s.logs, s.disk[cf], cf, s.mode.top);
  }

  lemma OpenAgrees(logs: seq<Log>, d: Saved, h: seq<nat>, cf: Cf, next: nat)
    requires (forall i :: 0 <= i < |logs| ==> logs[i].number < d.log) && d.log < next
    requires h == d.tables + Replay(logs, d.log, cf)
    ensures Agrees(logs + [Log(next, [])], Family(d.log, [], [], NotCommitting), d, h, [], cf, next, next + 1)
  {
    hide Replay, IdsOf, Ids, Split;
    OpenSplits(logs, d, h, cf, next);
  }

  lemma OpenSplits(logs: seq<Log>, d: Saved, h: seq<nat>, cf: Cf, next: nat)
    requires (forall i :: 0 <= i < |logs| ==> logs[i].number < d.log) && h == d.tables + Replay(logs, d.log, cf)
    ensures Split(logs + [Log(next, [])], Family(d.log, [], [], NotCommitting), d, h, [], cf)
  {
    hide Replay, IdsOf, Ids;
    ReplayNone(logs, d.log, cf);
    ReplayMakeLog(logs, next, d.log, cf);
    assert Unsaved([]) + [] == [];
  }

  lemma KeepsOpen(s: State)
    requires Inv(s) && Enabled(s, Open)
    ensures Inv(Apply(s, Open))
  {
    hide Replay, Agrees;
    var s' := Apply(s, Open);
    forall cf | cf in s'.families ensures FamilyOk(s', cf) {
      OpenAgrees(s.logs, s.disk[cf], s.history[cf], cf, s.nextFile);
      assert [] + Pending(s'.phase, cf) == [];
    }
    RunningInv(s');
  }

  // ---------------------------------------------------------------- every run

  /** A batch is committed only when it steps over no memtable with batches that the manifest has not. */
  ghost predicate Careful(s: State, step: Step)
  {
    step.CommitWrite? && Enabled(s, step) ==> Clear(s.families[step.cf].imm, s.families[step.cf].imm[0].status)
  }

  lemma StepKeeps(s: State, step: Step)
    requires Inv(s) && Enabled(s, step) && Careful(s, step)
    ensures Inv(Apply(s, step))
  {
    hide RunningOk, Inv, Apply, Careful;
    match step {
      case Crash => KeepsCrash(s);
      case Restart(min) => KeepsRestart(s, min);
      case RecoverFamily(cf) => KeepsRecover(s, cf);
      case Open => KeepsOpen(s);
      case _ => RunningKeeps(s, step);
    }
  }

  lemma KeepsCrash(s: State)
    requires Inv(s)
    ensures Inv(Apply(s, Crash))
  {
    hide Replay, Ascending, FamilyOk;
  }

  lemma RunningKeeps(s: State, step: Step)
    requires Inv(s) && Enabled(s, step) && Careful(s, step)
    requires !step.Crash? && !step.Restart? && !step.RecoverFamily? && !step.Open?
    ensures Inv(Apply(s, step))
  {
    hide RunningOk, Inv, Apply, Clear;
    InvRunning(s);
    match step {
      case Write(rec) => KeepsWrite(s, rec);
      case Insert => KeepsInsert(s);
      case MakeLog(cf) => KeepsMakeLog(s, cf);
      case Switch(cf) => KeepsSwitch(s, cf);
      case Pick(cf) => KeepsPick(s, cf);
      case Rollback(cf, file) => KeepsRollback(s, cf, file);
      case Finish(cf, file) => KeepsFinish(s, cf, file);
      case CommitWrite(cf) => KeepsCommitWrite(s, cf);
      case CommitInstall(cf) => KeepsCommitInstall(s, cf);
      case Doom(n) => KeepsDoom(s, n);
      case Delete(n) => KeepsDelete(s, n);
    }
    RunningInv(Apply(s, step));
  }

  lemma KeepsDoom(s: State, n: nat)
    requires Enabled(s, Doom(n)) && RunningOk(s)
    ensures RunningOk(Apply(s, Doom(n)))
  {
    hide Agrees, Ascending;
    var s' := Apply(s, Doom(n));
    forall cf | cf in s'.families ensures FamilyOk(s', cf) { assert FamilyOk(s, cf); }
  }

  /** A new database: a manifest with its families, no log file. */
  ghost predicate Init(s: State)
  {
    && s.mode.Down? && s.logs == [] && s.families == map[] && s.phase.Ready? && s.purging == {} && s.diskNext > 0
    && s.disk != map[] && s.disk.Keys == s.history.Keys
    && (forall cf :: cf in s.disk ==> s.disk[cf] == Saved(0, []) && s.history[cf] == [])
  }

  ghost predicate Run(s: State, steps: seq<Step>, end: State)
    decreases |steps|
  {
    if steps == [] then end == s
    else Enabled(s, steps[0]) && Careful(s, steps[0]) && Run(Apply(s, steps[0]), steps[1..], end)
  }

  lemma {:induction false} RunKeeps(s: State, steps: seq<Step>, end: State)
    requires Inv(s) && Run(s, steps, end)
    ensures Inv(end)
    decreases |steps|
  {
    hide Inv, Enabled, Apply, Careful;
    if steps != [] {
      StepKeeps(s, steps[0]);
      RunKeeps(Apply(s, steps[0]), steps[1..], end);
    }
  }

  /** Whenever the database stops, in any phase of running or of recovering, the tables in the manifest followed by what
      the surviving logs replay are every batch of the family ever logged, each once and in order. */
  lemma CrashRecoversAll(s: State, steps: seq<Step>, end: State, cf: Cf)
    requires Init(s) && Run(s, steps, end) && cf in end.disk
    ensures cf in end.history && Durable(end, cf) == end.history[cf]
  {
    hide Run, ModeOk;
    InitInv(s);
    RunKeeps(s, steps, end);
  }

  lemma InitInv(s: State)
    requires Init(s)
    ensures Inv(s)
  {
  }

  /** While it runs, what a family's logs would replay is exactly its unflushed batches: its flushed ones lie below its
      log number in the manifest, and its memtables, oldest first, hold the rest. */
  lemma ReplaysUnflushed(s: State, steps: seq<Step>, end: State, cf: Cf)
    requires Init(s) && Run(s, steps, end) && cf in end.families && end.mode.Running?
    ensures cf in end.disk && cf in end.history
    ensures var f := end.families[cf];
      && Replay(end.logs, end.disk[cf].log, cf) == Unsaved(f.imm) + (f.mem + Pending(end.phase, cf))
      && end.history[cf] == end.disk[cf].tables + (Unsaved(f.imm) + (f.mem + Pending(end.phase, cf)))
  {
    hide Run, Batches, LogsRise, Cuts, Quiet, LogOk, Ascending, Replay, Unsaved;
    InitInv(s);
    RunKeeps(s, steps, end);
    assert FamilyOk(end, cf);
  }

  /** When recovery has written every family's edit, the tables hold everything and nothing would be replayed twice. */
  lemma RecoveryCompletes(s: State, steps: seq<Step>, end: State, cf: Cf)
    requires Init(s) && Run(s, steps, end) && cf in end.disk && end.mode.Recovering? && cf !in end.mode.todo
    ensures cf in end.history && end.disk[cf].tables == end.history[cf] && Replay(end.logs, end.disk[cf].log, cf) == []
  {
    hide Run, Ascending;
    InitInv(s);
    RunKeeps(s, steps, end);
    ReplayNone(end.logs, end.disk[cf].log, cf);
  }

  lemma EditNumber(f: Family, d: Saved, cur: nat, next: nat)
    requires Batches(f, next) && LogsRise(f, d, cur) && f.imm != [] && f.imm[0].edit.Edit?
    ensures f.imm[0].edit.log <= cur && (Unsettled(f.imm, 0) ==> f.log <= f.imm[0].edit.log)
  {
    var k := FirstBatch(f, next);
    assert Unsettled(f.imm, 0) ==> Unsettled(f.imm, k);
  }
}
