/** LogAndApply's assertions about log numbers (db/version_set.cc), in every run whatever its flushes pick and
    commit. */
module WalAsserts {
  import opened Wal
  import opened WalInvariant
  import opened WalCommit
  import opened WalRuns
  import opened WalLoss

  /** An edit does not lower the family's log number in memory, neither when it is written nor when it is applied, and
      stays below next_file_number_. */
  ghost predicate Asserted(s: State, step: Step)
    requires Enabled(s, step)
  {
    match step
    case CommitWrite(cf) =>
      var f := s.families[cf]; f.imm[0].edit.Edit? ==> f.log <= f.imm[0].edit.log < s.nextFile
    case CommitInstall(cf) =>
      var f := s.families[cf]; f.commit.edit.Edit? ==> f.log <= f.commit.edit.log
    case _ => true
  }

  /** No memtable in the manifest has a next log number above that of the last one of the oldest memtable's batch. */
  ghost predicate InTurn(ms: seq<Mem>)
    requires ms != []
  {
    forall j :: 0 <= j < |ms| && ms[j].saved ==> ms[j].nextLog <= GroupLog(ms, ms[0].status)
  }

  ghost predicate TakesTurn(s: State, step: Step)
  {
    step.CommitWrite? && Enabled(s, step) && s.families[step.cf].imm[0].edit.Edit? ==> InTurn(s.families[step.cf].imm)
  }

  // ---------------------------------------------------------------- where the log number in memory comes from

  ghost predicate Reached(ms: seq<Mem>, log: nat)
  {
    exists j :: 0 <= j < |ms| && ms[j].saved && log <= ms[j].nextLog
  }

  /** The log number in memory exceeds a memtable's only if one in the manifest reaches it, and so does the number
      about to be set. */
  ghost predicate Traced(f: Family)
  {
    && (f.imm != [] && f.imm[0].nextLog < f.log ==> Reached(f.imm, f.log))
    && (f.commit.Applying? && f.commit.edit.Edit? ==> Reached(f.imm, f.commit.edit.log))
  }

  /** The log number in memory, or the one about to be set. */
  ghost function Coming(f: Family): nat
  {
    if f.commit.Applying? && f.commit.edit.Edit? then f.commit.edit.log else f.log
  }

  /** No edit has lowered the number so far. */
  ghost predicate Risen(f: Family)
  {
    f.log <= Coming(f) && forall j :: 0 <= j < |f.imm| && f.imm[j].saved ==> f.imm[j].nextLog <= Coming(f)
  }

  ghost predicate Tidy(f: Family, d: Saved, cur: nat, next: nat)
  {
    Batches(f, next) && LogsRise(f, d, cur) && Traced(f)
  }

  /** While no edit has lowered the number, the next one does exactly if it is out of turn. */
  lemma LowersIff(f: Family, d: Saved, cur: nat, next: nat)
    requires Tidy(f, d, cur, next) && f.commit.Committing? && f.imm != [] && f.imm[0].edit.Edit?
    ensures f.imm[0].edit.log <= cur && (InTurn(f.imm) ==> f.log <= f.imm[0].edit.log)
    ensures Risen(f) ==> (f.log <= f.imm[0].edit.log <==> InTurn(f.imm))
  {
    hide Batches;
    var k := FirstBatch(f, next);
    assert GroupLog(f.imm, f.imm[0].status) == f.imm[k].nextLog by { EditIsGroup(f, next); }
  }

  lemma EditIsGroup(f: Family, next: nat)
    requires Batches(f, next) && f.imm != [] && f.imm[0].edit.Edit?
    ensures f.imm[0].edit.log == GroupLog(f.imm, f.imm[0].status)
  {
    assert EditOk(f.imm, 0);
  }

  // ---------------------------------------------------------------- one family

  lemma TidySame(f: Family, f': Family, d: Saved, cur: nat, next: nat, next': nat)
    requires Tidy(f, d, cur, next) && Batches(f', next') && SameData(f.imm, f'.imm) && f'.log == f.log
    requires f'.commit.Applying? || f.commit.Applying? ==> f'.commit == f.commit
    ensures Tidy(f', d, cur, next') && (Risen(f) ==> Risen(f'))
  {
    hide Batches, LogsRise;
    RiseSame(f, f', d, cur);
    ReachedSame(f.imm, f'.imm, f.log);
    if f.commit.Applying? && f.commit.edit.Edit? { ReachedSame(f.imm, f'.imm, f.commit.edit.log); }
  }

  lemma ReachedSame(a: seq<Mem>, b: seq<Mem>, log: nat)
    requires SameData(a, b)
    ensures Reached(a, log) <==> Reached(b, log)
  {
    if Reached(a, log) {
      var j :| 0 <= j < |a| && a[j].saved && log <= a[j].nextLog;
      assert b[j].saved;
    }
    if Reached(b, log) {
      var j :| 0 <= j < |b| && b[j].saved && log <= b[j].nextLog;
      assert a[j].saved;
    }
  }

  lemma TidyLater(f: Family, d: Saved, cur: nat, next: nat, next': nat)
    requires Tidy(f, d, cur, next) && next <= next'
    ensures Tidy(f, d, cur, next')
  {
    hide Shape, EditOk, LogsRise;
  }

  lemma ReachedMarked(ms: seq<Mem>, st: Status, log: nat)
    requires Reached(ms, log)
    ensures Reached(MarkSaved(ms, st), log)
  {
    var j :| 0 <= j < |ms| && ms[j].saved && log <= ms[j].nextLog;
    assert MarkSaved(ms, st)[j].saved;
  }

  lemma WriteTidy(f: Family, d: Saved, cur: nat, next: nat)
    requires Tidy(f, d, cur, next) && f.commit.Committing? && f.imm != []
    ensures Tidy(Written(f), Manifest(f, d), cur, next)
    ensures Risen(f) && (f.imm[0].edit.Edit? ==> InTurn(f.imm)) ==> Risen(Written(f))
  {
    WriteBatches(f, next);
    WriteRise(f, d, cur, next);
    WriteTraced(f, d, cur, next);
    if Risen(f) && (f.imm[0].edit.Edit? ==> InTurn(f.imm)) { WriteRisen(f, d, cur, next); }
  }

  lemma WriteTraced(f: Family, d: Saved, cur: nat, next: nat)
    requires Tidy(f, d, cur, next) && f.commit.Committing? && f.imm != []
    ensures Traced(Written(f))
  {
    hide Batches, LogsRise;
    var ms' := Written(f).imm;
    assert |ms'| == |f.imm| && ms'[0].nextLog == f.imm[0].nextLog;
    if Reached(f.imm, f.log) { ReachedMarked(f.imm, f.imm[0].status, f.log); }
    if f.imm[0].edit.Edit? {
      var k := FirstBatch(f, next);
      assert ms'[k].saved && ms'[k].nextLog == f.imm[0].edit.log;
    }
  }

  lemma WriteRisen(f: Family, d: Saved, cur: nat, next: nat)
    requires Tidy(f, d, cur, next) && f.commit.Committing? && f.imm != []
    requires Risen(f) && (f.imm[0].edit.Edit? ==> InTurn(f.imm))
    ensures Risen(Written(f))
  {
    if f.imm[0].edit.Edit? {
      LowersIff(f, d, cur, next);
      EditIsGroup(f, next);
      var k := FirstBatch(f, next);
      hide Batches;
    } else {
      LeftOver(f, next);
    }
  }

  lemma ReachedDrop(ms: seq<Mem>, r: nat, log: nat)
    requires r < |ms| && Reached(ms, log) && ms[r].nextLog < log
    requires forall i, j :: 0 <= i < j < |ms| ==> ms[i].nextLog <= ms[j].nextLog
    ensures Reached(ms[r..], log)
  {
    var j :| 0 <= j < |ms| && ms[j].saved && log <= ms[j].nextLog;
    assert ms[r..][j - r] == ms[j];
  }

  lemma InstallTidy(f: Family, d: Saved, cur: nat, next: nat)
    requires Tidy(f, d, cur, next) && f.commit.Applying? && f.imm != []
    ensures Tidy(InstallCommit(f), d, cur, next) && (Risen(f) ==> Risen(InstallCommit(f)))
  {
    hide InstallCommit, Shape, EditOk, Below;
    var r := InstallDrops(f, next);
    InstallBatches(f, next, r);
    InstallRise(f, d, cur, r);
    var f' := InstallCommit(f);
    if f'.imm != [] && f'.imm[0].nextLog < f'.log {
      assert f.imm[0].nextLog <= f.imm[r].nextLog;
      ReachedDrop(f.imm, r, f'.log);
    }
    if Risen(f) {
      forall j | 0 <= j < |f'.imm| && f'.imm[j].saved ensures f'.imm[j].nextLog <= f'.log {
        assert f'.imm[j] == f.imm[r + j];
      }
    }
  }

  lemma BumpTidy(f: Family, d: Saved, cur: nat, next: nat, log: nat)
    requires Tidy(f, d, cur, next) && cur <= log
    ensures Tidy(Bump(f, log), d, log, next) && (Risen(f) ==> Risen(Bump(f, log)))
  {
    hide Shape, EditOk;
  }

  lemma RetireTidy(f: Family, d: Saved, next: nat, log: nat)
    requires Tidy(f, d, log, next)
    ensures Tidy(Retire(f, log), d, log, next) && (Risen(f) ==> Risen(Retire(f, log)))
  {
    hide Batches;
    RetireBatches(f, next, log);
    RetireRise(f, d, log);
    var ms' := Retire(f, log).imm;
    forall l: nat | Reached(f.imm, l) ensures Reached(ms', l) {
      var j :| 0 <= j < |f.imm| && f.imm[j].saved && l <= f.imm[j].nextLog;
      assert ms'[j] == f.imm[j];
    }
  }

  // ---------------------------------------------------------------- the database

  ghost predicate Numbers(s: State)
  {
    && s.diskNext <= s.nextFile && s.curLog < s.nextFile
    && (s.phase.LogMade? ==> s.curLog < s.phase.number < s.nextFile)
  }

  ghost predicate FamilyTidy(s: State, cf: Cf)
    requires cf in s.families && cf in s.disk
  {
    Tidy(s.families[cf], s.disk[cf], s.curLog, s.nextFile)
  }

  /** What every step keeps, whatever it picks or commits. */
  ghost predicate Sound(s: State)
  {
    && (forall cf :: cf in s.disk ==> s.disk[cf].log < s.diskNext)
    && (s.mode.Recovering? ==> s.diskNext <= s.nextFile && s.mode.top < s.nextFile && s.phase.Ready?)
    && (s.mode.Running? ==>
          && s.families.Keys == s.disk.Keys && Numbers(s)
          && forall cf {:trigger FamilyTidy(s, cf)} :: cf in s.families ==> FamilyTidy(s, cf))
    && (s.mode.Down? ==> s.phase.Ready?)
  }

  ghost predicate AllRisen(s: State)
  {
    s.mode.Running? ==> forall cf :: cf in s.families ==> Risen(s.families[cf])
  }

  /** The family that a flush step changes. */
  lemma FlushTidy(s: State, step: Step)
    requires Sound(s) && OfFlush(step) && Enabled(s, step)
    ensures s.mode.Running? && step.cf in s.disk && step.cf in Apply(s, step).families && step.cf in Apply(s, step).disk
    ensures var s' := Apply(s, step);
      && Tidy(s'.families[step.cf], s'.disk[step.cf], s.curLog, s'.nextFile) && s'.disk[step.cf].log <= s.curLog
      && (Risen(s.families[step.cf]) && TakesTurn(s, step) ==> Risen(s'.families[step.cf]))
  {
    hide StartFlush, Relabel, InstallCommit, MarkSaved, Batches, LogsRise, Traced, Risen, InTurn;
    var f, d := s.families[step.cf], s.disk[step.cf];
    assert FamilyTidy(s, step.cf);
    match step {
      case Pick(cf) =>
        PickKeeps(f, s.nextFile);
        PickBatches(f, s.nextFile);
        TidySame(f, StartFlush(f, s.nextFile), d, s.curLog, s.nextFile, s.nextFile + 1);
      case Rollback(cf, file) =>
        RelabelBatches(f, s.nextFile, file);
        TidySame(f, f.(imm := Relabel(f.imm, file, Waiting, false)), d, s.curLog, s.nextFile, s.nextFile);
      case Finish(cf, file) =>
        FinishBatches(f, s.nextFile, file);
        TidySame(f, FinishFlush(f, file), d, s.curLog, s.nextFile, s.nextFile);
      case CommitWrite(cf) => WriteTidy(f, d, s.curLog, s.nextFile);
      case CommitInstall(cf) => InstallTidy(f, d, s.curLog, s.nextFile);
    }
    DiskNumber(Apply(s, step).families[step.cf], Apply(s, step).disk[step.cf], s.curLog, Apply(s, step).nextFile);
  }

  lemma DiskNumber(f: Family, d: Saved, cur: nat, next: nat)
    requires Tidy(f, d, cur, next)
    ensures d.log <= cur
  {
  }

  lemma FlushFrame(s: State, step: Step)
    requires OfFlush(step) && Enabled(s, step) && step.cf in s.disk
    ensures var s' := Apply(s, step);
      && s'.mode == s.mode && s'.curLog == s.curLog && s'.phase == s.phase && s.nextFile <= s'.nextFile
      && step.cf in s'.disk && s'.disk == s.disk[step.cf := s'.disk[step.cf]]
      && (s'.diskNext == s.diskNext || s'.diskNext == s.nextFile) && (s'.disk != s.disk ==> s'.diskNext == s.nextFile)
  {
    assert s.disk[step.cf := s.disk[step.cf]] == s.disk;
  }

  lemma FlushSound(s: State, step: Step)
    requires Sound(s) && OfFlush(step) && Enabled(s, step)
    ensures Sound(Apply(s, step)) && (AllRisen(s) && TakesTurn(s, step) ==> AllRisen(Apply(s, step)))
  {
    hide Apply, Tidy, Risen, TakesTurn, Enabled;
    FlushTidy(s, step);
    FlushFrame(s, step);
    FlushOthers(s, step);
    var s' := Apply(s, step);
    assert s'.families.Keys == s'.disk.Keys;
    forall cf | cf in s'.families ensures FamilyTidy(s', cf) {
      if cf != step.cf {
        assert FamilyTidy(s, cf);
        TidyLater(s.families[cf], s.disk[cf], s.curLog, s.nextFile, s'.nextFile);
      }
    }
  }

  lemma SwitchTidy(s: State, cf: Cf, c: Cf)
    requires Sound(s) && Enabled(s, Switch(cf)) && c in s.families
    ensures c in s.disk && Tidy(Switched(s, c, cf), s.disk[c], SwitchLog(s), s.nextFile)
    ensures Risen(s.families[c]) ==> Risen(Switched(s, c, cf))
  {
    hide Tidy, Risen, Bump, Retire;
    assert FamilyTidy(s, c);
    var f, log := s.families[c], SwitchLog(s);
    if s.phase.LogMade? {
      BumpTidy(f, s.disk[c], s.curLog, s.nextFile, log);
      f := Bump(f, log);
    }
    if c == cf { RetireTidy(f, s.disk[c], s.nextFile, log); }
  }

  lemma SwitchFrame(s: State, cf: Cf)
    requires Sound(s) && Enabled(s, Switch(cf))
    ensures var s' := Apply(s, Switch(cf));
      && s.mode.Running? && s'.mode == s.mode && s'.disk == s.disk && s'.diskNext == s.diskNext && s'.phase == Ready
      && s'.nextFile == s.nextFile && s'.curLog == SwitchLog(s) && s'.families.Keys == s.families.Keys && Numbers(s')
  {
    hide FamilyTidy;
    SwitchKeys(s, cf);
  }

  lemma SwitchSound(s: State, cf: Cf)
    requires Sound(s) && Enabled(s, Switch(cf))
    ensures Sound(Apply(s, Switch(cf))) && (AllRisen(s) ==> AllRisen(Apply(s, Switch(cf))))
  {
    hide Apply, Tidy, Risen, Switched, Enabled, Numbers, SwitchLog;
    SwitchFrame(s, cf);
    var s' := Apply(s, Switch(cf));
    forall c | c in s'.families ensures FamilyTidy(s', c) && (Risen(s.families[c]) ==> Risen(s'.families[c])) {
      SwitchIs(s, cf, c);
      SwitchTidy(s, cf, c);
    }
  }

  lemma TidyMem(f: Family, mem: seq<nat>, d: Saved, cur: nat, next: nat)
    requires Tidy(f, d, cur, next)
    ensures Tidy(f.(mem := mem), d, cur, next) && (Risen(f) ==> Risen(f.(mem := mem)))
  {
    hide Shape, EditOk;
  }

  lemma OpenTidy(d: Saved, next: nat)
    requires d.log < next
    ensures Tidy(Family(d.log, [], [], NotCommitting), d, next, next + 1) && Risen(Family(d.log, [], [], NotCommitting))
  {
  }

  lemma OtherSound(s: State, step: Step)
    requires Sound(s) && Enabled(s, step) && !OfFlush(step) && !step.Switch?
    ensures Sound(Apply(s, step)) && (AllRisen(s) ==> AllRisen(Apply(s, step)))
  {
    hide Tidy, Risen, Replay, Top, Without, AddRecord;
    var s' := Apply(s, step);
    if s'.mode.Running? {
      forall cf | cf in s'.families
        ensures cf in s'.disk && FamilyTidy(s', cf) && (AllRisen(s) ==> Risen(s'.families[cf])) {
        if step.Open? {
          OpenTidy(s.disk[cf], s.nextFile);
        } else {
          assert FamilyTidy(s, cf);
          TidyMem(s.families[cf], s'.families[cf].mem, s.disk[cf], s.curLog, s.nextFile);
          TidyLater(s'.families[cf], s.disk[cf], s.curLog, s.nextFile, s'.nextFile);
        }
      }
    }
  }

  lemma StepSound(s: State, step: Step)
    requires Sound(s) && Enabled(s, step)
    ensures Sound(Apply(s, step)) && (AllRisen(s) && TakesTurn(s, step) ==> AllRisen(Apply(s, step)))
  {
    hide Sound, AllRisen, TakesTurn, Apply, Enabled;
    if OfFlush(step) {
      FlushSound(s, step);
    } else if step.Switch? {
      SwitchSound(s, step.cf);
    } else {
      OtherSound(s, step);
    }
  }

  /** While no edit has lowered a number, the assertions hold at a step exactly if it takes its turn. */
  lemma StepAssertedIff(s: State, step: Step)
    requires Sound(s) && Enabled(s, step)
    requires AllRisen(s)
    ensures Asserted(s, step) <==> TakesTurn(s, step)
  {
    if step.CommitWrite? && s.families[step.cf].imm[0].edit.Edit? {
      assert FamilyTidy(s, step.cf);
      hide Batches, LogsRise, Traced, Risen, InTurn;
      LowersIff(s.families[step.cf], s.disk[step.cf], s.curLog, s.nextFile);
    }
  }

  // ---------------------------------------------------------------- every run

  ghost predicate AssertedThroughout(s: State, steps: seq<Step>)
    decreases |steps|
  {
    steps != [] && Enabled(s, steps[0]) ==>
      Asserted(s, steps[0]) && AssertedThroughout(Apply(s, steps[0]), steps[1..])
  }

  ghost predicate InTurnThroughout(s: State, steps: seq<Step>)
    decreases |steps|
  {
    steps != [] && Enabled(s, steps[0]) ==>
      TakesTurn(s, steps[0]) && InTurnThroughout(Apply(s, steps[0]), steps[1..])
  }

  lemma {:induction false} ThroughoutIff(s: State, steps: seq<Step>, end: State)
    requires Sound(s) && AllRisen(s) && AnyRun(s, steps, end)
    ensures AssertedThroughout(s, steps) <==> InTurnThroughout(s, steps)
    decreases |steps|
  {
    hide Sound, AllRisen, Asserted, TakesTurn, Apply, Enabled;
    if steps != [] {
      StepAssertedIff(s, steps[0]);
      if TakesTurn(s, steps[0]) {
        StepSound(s, steps[0]);
        ThroughoutIff(Apply(s, steps[0]), steps[1..], end);
      }
    }
  }

  lemma InitSound(s: State)
    requires Init(s)
    ensures Sound(s) && AllRisen(s)
  {
  }

  /** Over every run, whatever it picks and commits: LogAndApply's assertions hold throughout if and only if no
      commit comes when a memtable in the manifest has a next log number above that of the last one of its batch. */
  lemma EditsRiseIff(s: State, steps: seq<Step>, end: State)
    requires Init(s) && AnyRun(s, steps, end)
    ensures AssertedThroughout(s, steps) <==> InTurnThroughout(s, steps)
  {
    InitSound(s);
    ThroughoutIff(s, steps, end);
  }

  lemma {:induction false} RunSound(s: State, steps: seq<Step>, end: State)
    requires Sound(s) && AnyRun(s, steps, end)
    ensures Sound(end)
    decreases |steps|
  {
    hide Sound, Apply, Enabled;
    if steps != [] {
      StepSound(s, steps[0]);
      RunSound(Apply(s, steps[0]), steps[1..], end);
    }
  }

  /** In every run, also after a number was lowered, a commit in its turn lowers none, and no edit reaches
      next_file_number_. */
  lemma EditsRise(s: State, steps: seq<Step>, end: State, cf: Cf)
    requires Init(s) && AnyRun(s, steps, end) && Enabled(end, CommitWrite(cf)) && end.families[cf].imm[0].edit.Edit?
    ensures end.families[cf].imm[0].edit.log < end.nextFile
    ensures InTurn(end.families[cf].imm) ==> end.families[cf].log <= end.families[cf].imm[0].edit.log
  {
    hide AnyRun, Init;
    InitSound(s);
    RunSound(s, steps, end);
    assert FamilyTidy(end, cf);
    hide Batches, LogsRise, Traced, Risen, InTurn;
    LowersIff(end.families[cf], end.disk[cf], end.curLog, end.nextFile);
  }
}
