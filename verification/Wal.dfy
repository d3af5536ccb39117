/** Write-ahead logging, memtable switches, flushes, log deletion, crashes and recovery, as steps of one database
    (db/db_impl.cc, db/flush_job.cc, db/memtable_list.cc). */
module Wal {

  type Cf = nat

  /** One WAL record: a write batch and the column families it updates. */
  datatype Rec = Rec(id: nat, cfs: set<Cf>)

  datatype Log = Log(number: nat, recs: seq<Rec>)

  datatype Status = Waiting | Flushing(file: nat) | Done(file: nat)

  /** The version edit kept in a memtable: the log number to persist and what its table file contains. */
  datatype Edit = NoEdit | Edit(log: nat, ids: seq<nat>)

  /** An immutable memtable; saved records that the manifest has its table. */
  datatype Mem = Mem(ids: seq<nat>, nextLog: nat, status: Status, edit: Edit, saved: bool)

  /** commit_in_progress_ with the file number of the thread committing; Applying: the manifest record is written and
      the log number it carries, if any, is not yet set in memory. */
  datatype Commit = NotCommitting | Committing(file: nat) | Applying(file: nat, edit: Edit)

  /** A column family in memory: imm lists the oldest memtable first. */
  datatype Family = Family(log: nat, mem: seq<nat>, imm: seq<Mem>, commit: Commit)

  /** A column family in the manifest. */
  datatype Saved = Saved(log: nat, tables: seq<nat>)

  /** What the front writer is in the middle of. */
  datatype Phase = Ready | Logged(rec: Rec) | LogMade(number: nat, cf: Cf)

  datatype Mode = Down | Recovering(todo: set<Cf>, top: int) | Running

  /** logs are the log files on disk by ascending number; history is every batch of a family ever logged, in order. */
  datatype State = State(
    disk: map<Cf, Saved>, diskNext: nat, logs: seq<Log>, mode: Mode,
    families: map<Cf, Family>, curLog: nat, logEmpty: bool, nextFile: nat, phase: Phase, purging: set<nat>,
    history: map<Cf, seq<nat>>)

  // ---------------------------------------------------------------- replay

  function IdsOf(recs: seq<Rec>, cf: Cf): seq<nat>
  {
    if recs == [] then []
    else
      var last := recs[|recs| - 1];
      IdsOf(recs[..|recs| - 1], cf) + (if cf in last.cfs then [last.id] else [])
  }

  /** What recovery inserts into the memtable of a family whose log number is `from`. */
  function Replay(logs: seq<Log>, from: nat, cf: Cf): seq<nat>
  {
    if logs == [] then []
    else
      var last := logs[|logs| - 1];
      Replay(logs[..|logs| - 1], from, cf) + (if last.number < from then [] else IdsOf(last.recs, cf))
  }

  function Ids(ms: seq<Mem>): seq<nat>
  {
    if ms == [] then [] else ms[0].ids + Ids(ms[1..])
  }

  /** The batches of the memtables the manifest does not have. */
  function Unsaved(ms: seq<Mem>): seq<nat>
  {
    if ms == [] then [] else (if ms[0].saved then [] else ms[0].ids) + Unsaved(ms[1..])
  }

  // ---------------------------------------------------------------- the steps

  datatype Step =
    | Write(rec: Rec) | Insert
    | MakeLog(cf: Cf) | Switch(cf: Cf)
    | Pick(cf: Cf) | Rollback(cf: Cf, file: nat) | Finish(cf: Cf, file: nat)
    | CommitWrite(cf: Cf) | CommitInstall(cf: Cf)
    | Doom(number: nat) | Delete(number: nat)
    | Crash | Restart(min: nat) | RecoverFamily(cf: Cf) | Open

  predicate AnyFlushing(ms: seq<Mem>, file: nat)
  {
    exists i :: 0 <= i < |ms| && ms[i].status == Flushing(file)
  }

  predicate AnyWaiting(ms: seq<Mem>)
  {
    exists i :: 0 <= i < |ms| && ms[i].status == Waiting
  }

  predicate Enabled(s: State, step: Step)
  {
    match step
    case Write(rec) =>
      s.mode.Running? && s.phase.Ready? && s.logs != [] && rec.cfs <= s.families.Keys && rec.cfs <= s.history.Keys
    case Insert => s.mode.Running? && s.phase.Logged?
    case MakeLog(cf) => s.mode.Running? && s.phase.Ready? && cf in s.families && !s.logEmpty
    case Switch(cf) =>
      && s.mode.Running? && cf in s.families
      && ((s.phase.Ready? && s.logEmpty) || (s.phase.LogMade? && s.phase.cf == cf))
    case Pick(cf) => s.mode.Running? && cf in s.families && AnyWaiting(s.families[cf].imm)
    case Rollback(cf, file) => s.mode.Running? && cf in s.families && AnyFlushing(s.families[cf].imm, file)
    case Finish(cf, file) => s.mode.Running? && cf in s.families && AnyFlushing(s.families[cf].imm, file)
    case CommitWrite(cf) =>
      && s.mode.Running? && cf in s.families && cf in s.disk && s.families[cf].imm != []
      && s.families[cf].commit.Committing?
    case CommitInstall(cf) =>
      && s.mode.Running? && cf in s.families && s.families[cf].imm != []
      && s.families[cf].commit.Applying?
    case Doom(n) => s.mode.Running? && forall cf :: cf in s.families ==> n < s.families[cf].log
    case Delete(n) => s.mode.Running? && n in s.purging
    case Crash => true
    case Restart(min) =>
      && s.mode.Down? && (forall cf :: cf in s.disk ==> min <= s.disk[cf].log)
      && (exists cf :: cf in s.disk && s.disk[cf].log == min)
    case RecoverFamily(cf) => s.mode.Recovering? && cf in s.mode.todo && cf in s.disk && s.mode.top >= 0
    case Open => s.mode.Recovering? && s.mode.todo == {}
  }

  function AddRecord(logs: seq<Log>, rec: Rec): seq<Log>
    requires logs != []
  {
    var n := |logs| - 1;
    logs[..n] + [logs[n].(recs := logs[n].recs + [rec])]
  }

  /** SetNewMemtableAndNewLogFile's loop over the families: those without data move to the new log, in memory only. */
  function Bump(f: Family, log: nat): Family
  {
    if f.mem == [] && f.imm == [] then f.(log := log) else f
  }

  function Retire(f: Family, log: nat): Family
  {
    f.(imm := f.imm + [Mem(f.mem, log, Waiting, NoEdit, false)], mem := [])
  }

  /** PickMemtablesToFlush: every memtable not in progress, whatever lies between. */
  function Picked(ms: seq<Mem>): seq<Mem>
  {
    if ms == [] then [] else (if ms[0].status.Waiting? then [ms[0]] else []) + Picked(ms[1..])
  }

  function Mark(ms: seq<Mem>, file: nat, edit: Edit): seq<Mem>
  {
    if ms == [] then []
    else if ms[0].status.Waiting? then [ms[0].(status := Flushing(file), edit := edit)] + Mark(ms[1..], file, NoEdit)
    else [ms[0]] + Mark(ms[1..], file, edit)
  }

  /** FlushJob::Run up to the table file: the first memtable's edit carries the last one's next log number. */
  function StartFlush(f: Family, file: nat): Family
    requires AnyWaiting(f.imm)
  {
    var mems := Picked(f.imm);
    if mems == [] then f
    else f.(imm := Mark(f.imm, file, Edit(mems[|mems| - 1].nextLog, Ids(mems))))
  }

  function Relabel(ms: seq<Mem>, file: nat, to: Status, keepEdit: bool): seq<Mem>
  {
    seq(|ms|, i requires 0 <= i < |ms| =>
      if ms[i].status == Flushing(file) then ms[i].(status := to, edit := if keepEdit then ms[i].edit else NoEdit)
        else ms[i])
  }

  /** The marking loop of InstallMemtableFlushResults, and the decision to commit. */
  function FinishFlush(f: Family, file: nat): Family
  {
    var imm := Relabel(f.imm, file, Done(file), true);
    f.(imm := imm, commit := if f.commit.NotCommitting? && imm != [] && imm[0].status.Done? then Committing(file)
      else f.commit)
  }

  /** Marks what LogAndApply of the first memtable's edit puts into the manifest: every memtable of its file. */
  function MarkSaved(ms: seq<Mem>, st: Status): seq<Mem>
  {
    seq(|ms|, i requires 0 <= i < |ms| => if ms[i].status == st then ms[i].(saved := true, edit := NoEdit) else ms[i])
  }

  /** The do-while loop: the oldest memtable goes, then those whose file number is the committing thread's. */
  function DropSame(ms: seq<Mem>, file: nat): seq<Mem>
  {
    if ms != [] && ms[0].status == Done(file) then DropSame(ms[1..], file) else ms
  }

  function InstallCommit(f: Family): Family
    requires f.commit.Applying? && f.imm != []
  {
    var imm := DropSame(f.imm[1..], f.commit.file);
    Family(if f.commit.edit.Edit? then f.commit.edit.log else f.log, f.mem, imm,
           if imm != [] && imm[0].status.Done? then Committing(f.commit.file) else NotCommitting)
  }

  /** What recovering the manifest makes of one more edit: VersionSet::Recover ignores a log number that is not
      higher. */
  function AddEdit(d: Saved, edit: Edit): Saved
    requires edit.Edit?
  {
    Saved(if d.log > edit.log then d.log else edit.log, d.tables + edit.ids)
  }

  function Max(a: int, b: int): int
  {
    if a < b then b else a
  }

  /** The highest log that recovery reads, -1 when there is none. */
  function Top(logs: seq<Log>, min: nat): (r: int)
    ensures r == -1 || r >= min
  {
    if logs == [] then -1
    else if logs[|logs| - 1].number >= min then logs[|logs| - 1].number
    else Top(logs[..|logs| - 1], min)
  }

  function Without(logs: seq<Log>, number: nat): seq<Log>
  {
    if logs == [] then []
    else Without(logs[..|logs| - 1], number) + (if logs[|logs| - 1].number == number then [] else [logs[|logs| - 1]])
  }

  /** What a write does to the history of the families it updates. */
  function Record(history: map<Cf, seq<nat>>, rec: Rec): map<Cf, seq<nat>>
  {
    map cf | cf in history :: if cf in rec.cfs then history[cf] + [rec.id] else history[cf]
  }

  function WithFamily(s: State, cf: Cf, f: Family): State
  {
    s.(families := s.families[cf := f])
  }

  function Apply(s: State, step: Step): State
    requires Enabled(s, step)
  {
    match step
    case Write(rec) =>
      s.(logs := AddRecord(s.logs, rec), logEmpty := false, phase := Logged(rec), history := Record(s.history, rec))
    case Insert =>
      var rec := s.phase.rec;
      s.(phase := Ready, families := map cf | cf in s.families ::
        if cf in rec.cfs then s.families[cf].(mem := s.families[cf].mem + [rec.id]) else s.families[cf])
    case MakeLog(cf) =>
      s.(logs := s.logs + [Log(s.nextFile, [])], phase := LogMade(s.nextFile, cf), nextFile := s.nextFile + 1)
    case Switch(cf) =>
      var log := if s.phase.LogMade? then s.phase.number else s.curLog;
      var families := if s.phase.LogMade? then map c | c in s.families :: Bump(s.families[c], log) else s.families;
      s.(curLog := log, logEmpty := true, phase := Ready, families := families[cf := Retire(families[cf], log)])
    case Pick(cf) => WithFamily(s, cf, StartFlush(s.families[cf], s.nextFile)).(nextFile := s.nextFile + 1)
    case Rollback(cf, file) =>
      WithFamily(s, cf, s.families[cf].(imm := Relabel(s.families[cf].imm, file, Waiting, false)))
    case Finish(cf, file) => WithFamily(s, cf, FinishFlush(s.families[cf], file))
    case CommitWrite(cf) =>
      var f := s.families[cf];
      var edit := f.imm[0].edit;
      var disk := if edit.Edit? then s.disk[cf := AddEdit(s.disk[cf], edit)] else s.disk;
      WithFamily(s, cf, f.(imm := MarkSaved(f.imm, f.imm[0].status), commit := Applying(f.commit.file, edit))).(
        disk := disk, diskNext := s.nextFile)
    case CommitInstall(cf) => WithFamily(s, cf, InstallCommit(s.families[cf]))
    case Doom(n) => s.(purging := s.purging + {n})
    case Delete(n) => s.(purging := s.purging - {n}, logs := Without(s.logs, n))
    case Crash => s.(mode := Down, families := map[], purging := {}, phase := Ready)
    case Restart(min) =>
      var top := Top(s.logs, min);
      s.(mode := Recovering((set cf | cf in s.disk && s.disk[cf].log <= top), top),
        nextFile := Max(s.diskNext + 1, top + 1))
    case RecoverFamily(cf) =>
      var top := s.mode.top;
      var next := Max(s.nextFile, top + 2);
      s.(mode := Recovering(s.mode.todo - {cf}, top), nextFile := next, diskNext := next,
         disk := s.disk[cf := Saved(top + 1, s.disk[cf].tables + Replay(s.logs, s.disk[cf].log, cf))])
    case Open =>
      s.(mode := Running, logs := s.logs + [Log(s.nextFile, [])], curLog := s.nextFile, logEmpty := true,
        nextFile := s.nextFile + 1,
         families := map cf | cf in s.disk :: Family(s.disk[cf].log, [], [], NotCommitting))
  }

  // ---------------------------------------------------------------- replay, step by step

  ghost predicate Ascending(logs: seq<Log>)
  {
    forall i, j :: 0 <= i < j < |logs| ==> logs[i].number < logs[j].number
  }

  lemma ReplayMakeLog(logs: seq<Log>, number: nat, from: nat, cf: Cf)
    ensures Replay(logs + [Log(number, [])], from, cf) == Replay(logs, from, cf)
  {
    assert (logs + [Log(number, [])])[..|logs|] == logs;
  }

  lemma ReplayWrite(logs: seq<Log>, rec: Rec, from: nat, cf: Cf)
    requires logs != [] && from <= logs[|logs| - 1].number
    ensures Replay(AddRecord(logs, rec), from, cf) == Replay(logs, from, cf) + (if cf in rec.cfs then [rec.id] else [])
  {
    var n := |logs| - 1;
    var last := logs[n];
    IdsOfAppend(last.recs, rec, cf);
    hide IdsOf;
    assert AddRecord(logs, rec)[..n] == logs[..n];
    var add := if cf in rec.cfs then [rec.id] else [];
    assert Replay(logs[..n], from, cf) + (IdsOf(last.recs, cf) + add) ==
      Replay(logs[..n], from, cf) + IdsOf(last.recs, cf) + add;
  }

  lemma IdsOfAppend(recs: seq<Rec>, rec: Rec, cf: Cf)
    ensures IdsOf(recs + [rec], cf) == IdsOf(recs, cf) + (if cf in rec.cfs then [rec.id] else [])
  {
    assert (recs + [rec])[..|recs|] == recs;
  }

  lemma {:induction false} ReplayNone(logs: seq<Log>, from: nat, cf: Cf)
    requires forall i :: 0 <= i < |logs| ==> logs[i].number < from || IdsOf(logs[i].recs, cf) == []
    ensures Replay(logs, from, cf) == []
  {
    if logs != [] { ReplayNone(logs[..|logs| - 1], from, cf); }
  }

  /** Logs below a family's number, or without records of it, do not matter to it. */
  lemma {:induction false} ReplayDelete(logs: seq<Log>, number: nat, from: nat, cf: Cf)
    requires forall i :: 0 <= i < |logs| && logs[i].number == number ==> number < from || IdsOf(logs[i].recs, cf) == []
    ensures Replay(Without(logs, number), from, cf) == Replay(logs, from, cf)
  {
    if logs != [] {
      var n := |logs| - 1;
      ReplayDelete(logs[..n], number, from, cf);
      hide IdsOf;
      var w := Without(logs[..n], number);
      if logs[n].number == number {
        assert Without(logs, number) == w;
      } else {
        assert Without(logs, number) == w + [logs[n]];
        ReplayAppend(w, logs[n], from, cf);
      }
    }
  }

  lemma ReplayAppend(logs: seq<Log>, log: Log, from: nat, cf: Cf)
    ensures Replay(logs + [log], from, cf) ==
      Replay(logs, from, cf) + (if log.number < from then [] else IdsOf(log.recs, cf))
  {
    assert (logs + [log])[..|logs|] == logs;
  }

  /** An empty replay means no record of the family in any log it would read. */
  lemma {:induction false} ReplayEmpty(logs: seq<Log>, from: nat, cf: Cf, i: nat)
    requires Replay(logs, from, cf) == [] && i < |logs| && logs[i].number >= from
    ensures IdsOf(logs[i].recs, cf) == []
  {
    var n := |logs| - 1;
    assert Replay(logs[..n], from, cf) == [];
    if i < n { ReplayEmpty(logs[..n], from, cf, i); }
  }

  lemma {:induction false} WithoutIs(logs: seq<Log>, number: nat)
    requires Ascending(logs)
    ensures Ascending(Without(logs, number))
    ensures forall l :: l in Without(logs, number) <==> l in logs && l.number != number
    ensures logs != [] && logs[|logs| - 1].number != number ==>
      var w := Without(logs, number); w != [] && w[|w| - 1] == logs[|logs| - 1]
  {
    if logs != [] {
      var n := |logs| - 1;
      WithoutIs(logs[..n], number);
      var w := Without(logs[..n], number);
      forall i | 0 <= i < |w| ensures w[i].number < logs[n].number {
        assert w[i] in logs[..n];
      }
      Members(logs, n);
    }
  }

  lemma Members(logs: seq<Log>, n: nat)
    requires n == |logs| - 1
    ensures forall l :: l in logs <==> l in logs[..n] || l == logs[n]
  {
    assert logs == logs[..n] + [logs[n]];
  }
}
