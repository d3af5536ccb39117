/** Which logs a running database may delete (db/db_impl.cc: SetNewMemtableAndNewLogFile and FindObsoleteFiles): a
    switch moves the families without data to the new log, and the others follow when their memtables are committed. */
module WalLogs {
  import opened Wal
  import opened WalInvariant
  import opened WalCommit
  import opened WalRuns
  import opened WalLoss
  import opened WalAsserts

  ghost predicate Idle(f: Family)
  {
    f.mem == [] && f.imm == []
  }

  /** A switch that made a log sets the number of exactly the families without data, and leaves the others as they
      are; its own family's memtable joins the immutable ones with the new log's number. */
  lemma SwitchMoves(s: State, cf: Cf, c: Cf)
    requires Enabled(s, Switch(cf)) && c in s.families
    ensures c in Apply(s, Switch(cf)).families
    ensures var f, f', log := s.families[c], Apply(s, Switch(cf)).families[c], Apply(s, Switch(cf)).curLog;
      && log == (if s.phase.LogMade? then s.phase.number else s.curLog)
      && f'.log == (if s.phase.LogMade? && Idle(f) then log else f.log) && f'.commit == f.commit
      && f'.mem == (if c == cf then [] else f.mem)
      && f'.imm == if c == cf then f.imm + [Mem(f.mem, log, Waiting, NoEdit, false)] else f.imm
  {
    SwitchIs(s, cf, c);
  }

  /** From here on the family needs no log below `log`, but for its first `left` immutable memtables, of which the last
      was switched out with that log's number. */
  ghost predicate Past(f: Family, log: nat, left: nat)
  {
    && left <= |f.imm| && (forall j :: 0 <= j < |f.imm| && left <= j + 1 ==> f.imm[j].nextLog >= log)
    && (left == 0 ==> f.log >= log && (f.commit.Applying? && f.commit.edit.Edit? ==> f.commit.edit.log >= log))
  }

  function Less(a: nat, b: nat): nat
  {
    if a < b then 0 else a - b
  }

  lemma PastSame(f: Family, f': Family, log: nat, left: nat)
    requires Past(f, log, left) && SameData(f.imm, f'.imm) && f'.log == f.log
    requires f'.commit.Applying? ==> f'.commit == f.commit
    ensures Past(f', log, left)
  {
  }

  lemma PastWrite(f: Family, log: nat, left: nat, next: nat)
    requires Past(f, log, left) && Batches(f, next) && f.commit.Committing? && f.imm != []
    ensures Past(Written(f), log, left)
  {
    hide Batches;
    if f.imm[0].edit.Edit? { var k := FirstBatch(f, next); }
  }

  /** What a commit removes is in the manifest, so that the number it sets has reached it. */
  lemma PastInstall(f: Family, log: nat, left: nat, next: nat)
    requires Past(f, log, left) && Batches(f, next) && f.commit.Applying? && f.imm != [] && Risen(f)
    ensures var f' := InstallCommit(f);
      |f'.imm| <= |f.imm| && Past(f', log, Less(left, |f.imm| - |f'.imm|))
  {
    hide Batches;
    var r := InstallDrops(f, next);
    hide InstallCommit;
    var f' := InstallCommit(f);
    assert f'.imm == f.imm[r..];
    if 0 < left <= r { assert f.imm[left - 1].saved && log <= f.imm[left - 1].nextLog <= Coming(f) == f'.log; }
  }

  lemma PastSwitched(s: State, cf: Cf, c: Cf, log: nat, left: nat)
    requires Enabled(s, Switch(cf)) && c in s.families && Past(s.families[c], log, left)
    requires log <= SwitchLog(s)
    ensures Past(Switched(s, c, cf), log, left)
  {
  }

  // ---------------------------------------------------------------- the database

  /** No family needs a log below `log`, but for the first `left` memtables of cf. */
  ghost predicate AllPast(s: State, cf: Cf, log: nat, left: nat)
  {
    && s.mode.Running? && log <= s.curLog && cf in s.families
    && forall c :: c in s.families ==> Past(s.families[c], log, if c == cf then left else 0)
  }

  /** The immutable memtables that a step removes from cf's list. */
  function Removes(s: State, step: Step, cf: Cf): nat
    requires Enabled(s, step)
  {
    if step == CommitInstall(cf) && cf in Apply(s, step).families
    then Less(|s.families[cf].imm|, |Apply(s, step).families[cf].imm|) else 0
  }

  lemma FlushPast(s: State, step: Step, cf: Cf, log: nat, left: nat)
    requires Sound(s) && AllRisen(s) && AllPast(s, cf, log, left) && OfFlush(step) && Enabled(s, step)
    ensures step.cf in Apply(s, step).families
    ensures Past(Apply(s, step).families[step.cf], log, Less(if step.cf == cf then left else 0, Removes(s, step, cf)))
  {
    hide StartFlush, Relabel, InstallCommit, MarkSaved, Batches, LogsRise, Traced, Risen, Past;
    var f, n := s.families[step.cf], if step.cf == cf then left else 0;
    assert FamilyTidy(s, step.cf) && Past(f, log, n) && Risen(f);
    if step.CommitWrite? {
      PastWrite(f, log, n, s.nextFile);
    } else if step.CommitInstall? {
      PastInstall(f, log, n, s.nextFile);
    } else {
      hide Sound, AllRisen, AllPast;
      LabelPast(s, step, log, n);
    }
  }

  lemma LabelPast(s: State, step: Step, log: nat, n: nat)
    requires (step.Pick? || step.Rollback? || step.Finish?) && Enabled(s, step) && Past(s.families[step.cf], log, n)
    requires Batches(s.families[step.cf], s.nextFile)
    ensures step.cf in Apply(s, step).families && Past(Apply(s, step).families[step.cf], log, n)
  {
    hide StartFlush, Relabel, Batches, Past;
    var f := s.families[step.cf];
    match step {
      case Pick(c) =>
        PickKeeps(f, s.nextFile);
        PickBatches(f, s.nextFile);
        PastSame(f, StartFlush(f, s.nextFile), log, n);
      case Rollback(c, file) =>
        RelabelBatches(f, s.nextFile, file);
        PastSame(f, f.(imm := Relabel(f.imm, file, Waiting, false)), log, n);
      case Finish(c, file) =>
        FinishBatches(f, s.nextFile, file);
        PastSame(f, FinishFlush(f, file), log, n);
    }
  }

  lemma FlushAllPast(s: State, step: Step, cf: Cf, log: nat, left: nat)
    requires Sound(s) && AllRisen(s) && AllPast(s, cf, log, left) && OfFlush(step) && Enabled(s, step)
    ensures AllPast(Apply(s, step), cf, log, Less(left, Removes(s, step, cf)))
  {
    hide Apply, Past, Risen, Sound, Enabled;
    FlushPast(s, step, cf, log, left);
    assert step.cf in s.disk by { FlushTidy(s, step); }
    FlushOthers(s, step);
    FlushFrame(s, step);
  }

  lemma SwitchAllPast(s: State, cf': Cf, cf: Cf, log: nat, left: nat)
    requires Sound(s) && AllPast(s, cf, log, left) && Enabled(s, Switch(cf'))
    ensures AllPast(Apply(s, Switch(cf')), cf, log, left)
  {
    assert Numbers(s);
    assert log <= SwitchLog(s);
    SwitchFrame(s, cf');
    hide Apply, Past, Switched, Enabled, Numbers, Sound, SwitchLog;
    var s' := Apply(s, Switch(cf'));
    forall c | c in s'.families ensures Past(s'.families[c], log, if c == cf then left else 0) {
      SwitchIs(s, cf', c);
      PastSwitched(s, cf', c, log, if c == cf then left else 0);
    }
  }

  lemma StepPast(s: State, step: Step, cf: Cf, log: nat, left: nat)
    requires Sound(s) && AllRisen(s) && AllPast(s, cf, log, left) && Enabled(s, step) && !step.Crash?
    ensures AllPast(Apply(s, step), cf, log, Less(left, Removes(s, step, cf)))
  {
    hide Sound, AllRisen;
    if OfFlush(step) {
      FlushAllPast(s, step, cf, log, left);
    } else if step.Switch? {
      SwitchAllPast(s, step.cf, cf, log, left);
    } else {
      OtherPast(s, step, cf, log, left);
    }
  }

  lemma OtherPast(s: State, step: Step, cf: Cf, log: nat, left: nat)
    requires AllPast(s, cf, log, left) && Enabled(s, step) && !OfFlush(step) && !step.Switch? && !step.Crash?
    ensures AllPast(Apply(s, step), cf, log, left)
  {
  }

  // ---------------------------------------------------------------- every run

  ghost predicate NoCrash(steps: seq<Step>)
  {
    forall i :: 0 <= i < |steps| ==> !steps[i].Crash?
  }

  /** How many immutable memtables of cf the run removes. */
  ghost function Removed(s: State, steps: seq<Step>, cf: Cf): nat
    decreases |steps|
  {
    if steps == [] || !Enabled(s, steps[0]) then 0
    else Removes(s, steps[0], cf) + Removed(Apply(s, steps[0]), steps[1..], cf)
  }

  lemma {:induction false} RunPast(s: State, steps: seq<Step>, end: State, cf: Cf, log: nat, left: nat)
    requires Sound(s) && AllRisen(s) && AllPast(s, cf, log, left)
    requires AnyRun(s, steps, end) && InTurnThroughout(s, steps) && NoCrash(steps)
    ensures AllPast(end, cf, log, Less(left, Removed(s, steps, cf)))
    decreases |steps|
  {
    hide Sound, AllRisen, AllPast, TakesTurn, Enabled, Apply, Removes;
    if steps != [] {
      StepPast(s, steps[0], cf, log, left);
      StepSound(s, steps[0]);
      RunPast(Apply(s, steps[0]), steps[1..], end, cf, log, Less(left, Removes(s, steps[0], cf)));
    }
  }

  lemma {:induction false} RunRisen(s: State, steps: seq<Step>, end: State)
    requires Sound(s) && AllRisen(s) && AnyRun(s, steps, end) && InTurnThroughout(s, steps)
    ensures Sound(end) && AllRisen(end)
    decreases |steps|
  {
    hide Sound, AllRisen, TakesTurn, Enabled, Apply;
    if steps != [] {
      StepSound(s, steps[0]);
      RunRisen(Apply(s, steps[0]), steps[1..], end);
    }
  }

  lemma AfterSwitch(s: State, cf: Cf)
    requires Sound(s) && s.phase.LogMade? && Enabled(s, Switch(cf))
    requires forall c :: c in s.families && c != cf ==> Idle(s.families[c])
    ensures cf in Apply(s, Switch(cf)).families
    ensures AllPast(Apply(s, Switch(cf)), cf, s.phase.number, |Apply(s, Switch(cf)).families[cf].imm|)
  {
    SwitchFrame(s, cf);
    SwitchMoves(s, cf, cf);
    hide Apply, Enabled, Numbers, Sound, FamilyTidy, Past;
    var s' := Apply(s, Switch(cf));
    forall c | c in s'.families
      ensures Past(s'.families[c], s.phase.number, if c == cf then |s'.families[cf].imm| else 0) {
      SoundTidy(s, c);
      SwitchPast(s, cf, c);
    }
  }

  lemma SoundTidy(s: State, c: Cf)
    requires Sound(s) && s.mode.Running? && c in s.families
    ensures c in s.disk && FamilyTidy(s, c)
  {
  }

  lemma SwitchPast(s: State, cf: Cf, c: Cf)
    requires s.phase.LogMade? && Enabled(s, Switch(cf)) && c in s.families && c in s.disk && FamilyTidy(s, c)
    requires c == cf || Idle(s.families[c])
    ensures cf in Apply(s, Switch(cf)).families && c in Apply(s, Switch(cf)).families
    ensures var s' := Apply(s, Switch(cf));
      Past(s'.families[c], s.phase.number, if c == cf then |s'.families[cf].imm| else 0)
  {
    NoCommitWhenEmpty(s, c);
    SwitchMoves(s, cf, c);
    hide Apply, Enabled, FamilyTidy;
  }

  lemma NoCommitWhenEmpty(s: State, c: Cf)
    requires c in s.families && c in s.disk && FamilyTidy(s, c)
    ensures s.families[c].imm == [] ==> !s.families[c].commit.Applying?
  {
    hide EditOk, Shape, Below;
  }

  /** If only cf has data when a switch makes a log, then as soon as the memtables that cf has after it are committed,
      whatever else was written, switched and flushed meanwhile, every older log may go. */
  lemma OlderLogsGo(s: State, steps: seq<Step>, mid: State, cf: Cf, more: seq<Step>, end: State)
    requires Init(s) && AnyRun(s, steps, mid) && InTurnThroughout(s, steps)
    requires mid.phase.LogMade? && Enabled(mid, Switch(cf))
    requires forall c :: c in mid.families && c != cf ==> Idle(mid.families[c])
    requires AnyRun(Apply(mid, Switch(cf)), more, end) && InTurnThroughout(Apply(mid, Switch(cf)), more)
    requires NoCrash(more)
    requires cf in Apply(mid, Switch(cf)).families
    requires Removed(Apply(mid, Switch(cf)), more, cf) >= |Apply(mid, Switch(cf)).families[cf].imm|
    ensures forall n :: 0 <= n < mid.phase.number ==> Enabled(end, Doom(n))
  {
    hide AnyRun, InTurnThroughout, NoCrash, Removed, Init, Sound, AllRisen;
    InitSound(s);
    RunRisen(s, steps, mid);
    AfterSwitch(mid, cf);
    StepSound(mid, Switch(cf));
    var t := Apply(mid, Switch(cf));
    RunPast(t, more, end, cf, mid.phase.number, |t.families[cf].imm|);
    assert AllPast(end, cf, mid.phase.number, 0);
  }

  /** One commit, in any run: the family then needs no log below `log` exactly if a memtable of the batch was switched
      out with that log's number or a later one. */
  lemma CommitFreesIff(s: State, steps: seq<Step>, end: State, cf: Cf, log: nat)
    requires Init(s) && AnyRun(s, steps, end) && Enabled(end, CommitWrite(cf)) && end.families[cf].imm[0].edit.Edit?
    ensures Enabled(Apply(end, CommitWrite(cf)), CommitInstall(cf))
    ensures var imm, s' := end.families[cf].imm, Apply(Apply(end, CommitWrite(cf)), CommitInstall(cf));
      cf in s'.families && (s'.families[cf].log >= log <==>
        exists j :: 0 <= j < |imm| && imm[j].status == imm[0].status && imm[j].nextLog >= log)
  {
    hide AnyRun, Init;
    InitSound(s);
    RunSound(s, steps, end);
    assert FamilyTidy(end, cf);
    var f := end.families[cf];
    hide Batches, Sound;
    var k := FirstBatch(f, end.nextFile);
    assert LogsRise(f, end.disk[cf], end.curLog);
  }
}
