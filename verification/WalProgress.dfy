/** Nothing in the write path gets stuck (db/db_impl.cc, db/memtable_list.cc): from every reachable state flushes can be
    brought to an end, a write can be made, a log that may go does go, and after a crash the database opens again. */
module WalProgress {
  import opened Wal
  import opened WalInvariant
  import opened WalCommit
  import opened WalRuns
  import opened WalLoss
  import opened WalAsserts
  import opened WalLogs

  lemma RunCons(s: State, step: Step, steps: seq<Step>, end: State)
    requires Enabled(s, step) && AnyRun(Apply(s, step), steps, end)
    ensures AnyRun(s, [step] + steps, end)
  {
    hide Enabled, Apply;
    assert ([step] + steps)[1..] == steps;
  }

  lemma RunNone(s: State)
    ensures AnyRun(s, [], s)
  {
  }

  // ---------------------------------------------------------------- flushes come to an end

  /** What the family's oldest memtable waits for. */
  function FlushStep(f: Family, cf: Cf): Step
    requires f.imm != []
  {
    if f.commit.Applying? then CommitInstall(cf)
    else if f.commit.Committing? then CommitWrite(cf)
    else if f.imm[0].status.Flushing? then Finish(cf, f.imm[0].status.file) else Pick(cf)
  }

  function FlushRank(f: Family): nat
  {
    if f.imm == [] then 0
    else if f.commit.Applying? then 1
    else if f.commit.Committing? then 2
    else if f.imm[0].status.Flushing? then 3 else 4
  }

  lemma FamilyGoesOn(s: State, cf: Cf)
    requires s.mode.Running? && cf in s.families && cf in s.disk && s.families[cf].imm != [] && FamilyTidy(s, cf)
    ensures Enabled(s, FlushStep(s.families[cf], cf))
    ensures var s' := Apply(s, FlushStep(s.families[cf], cf));
      && s'.mode.Running? && s'.families.Keys == s.families.Keys
      && |s'.families[cf].imm| <= |s.families[cf].imm|
      && (|s'.families[cf].imm| < |s.families[cf].imm| || FlushRank(s'.families[cf]) < FlushRank(s.families[cf]))
  {
    hide LogsRise, Traced, EditOk, Shape, StartFlush, InstallCommit;
    var f, next := s.families[cf], s.nextFile;
    assert Batches(f, next);
    if f.commit.Applying? {
      var r := InstallDrops(f, next);
    } else if f.commit.NotCommitting? && f.imm[0].status.Waiting? {
      PickMarks(f, next);
      PickKeeps(f, next);
    }
  }

  lemma {:induction false} FlushCompletes(s: State, cf: Cf) returns (steps: seq<Step>, end: State)
    requires Sound(s) && s.mode.Running? && cf in s.families
    ensures AnyRun(s, steps, end) && Sound(end) && end.mode.Running? && end.families.Keys == s.families.Keys
    ensures end.families[cf].imm == []
    decreases |s.families[cf].imm|, FlushRank(s.families[cf])
  {
    if s.families[cf].imm == [] {
      steps, end := [], s;
    } else {
      assert FamilyTidy(s, cf);
      var step := FlushStep(s.families[cf], cf);
      FamilyGoesOn(s, cf);
      hide Sound, Enabled, Apply, FlushStep, FlushRank, AnyRun, FamilyTidy;
      StepSound(s, step);
      steps, end := FlushCompletes(Apply(s, step), cf);
      RunCons(s, step, steps, end);
      steps := [step] + steps;
    }
  }

  /** From every reachable state of a running database, a family's memtables can all be flushed and committed. */
  lemma FlushesEnd(s: State, before: seq<Step>, now: State, cf: Cf) returns (steps: seq<Step>, end: State)
    requires Init(s) && AnyRun(s, before, now) && now.mode.Running? && cf in now.families
    ensures AnyRun(now, steps, end) && end.mode.Running? && cf in end.families && end.families[cf].imm == []
  {
    hide AnyRun, Sound;
    InitSound(s);
    RunSound(s, before, now);
    steps, end := FlushCompletes(now, cf);
  }

  // ---------------------------------------------------------------- the database opens again

  lemma DiskKeys(s: State, step: Step)
    requires Enabled(s, step)
    ensures Apply(s, step).disk.Keys == s.disk.Keys
  {
    hide Replay, Top, Without, AddRecord, StartFlush, InstallCommit;
  }

  lemma {:induction false} RunDiskKeys(s: State, steps: seq<Step>, end: State)
    requires AnyRun(s, steps, end)
    ensures end.disk.Keys == s.disk.Keys
    decreases |steps|
  {
    hide Enabled, Apply;
    if steps != [] {
      DiskKeys(s, steps[0]);
      RunDiskKeys(Apply(s, steps[0]), steps[1..], end);
    }
  }

  /** The least log number in the manifest. */
  lemma {:induction false} LeastLog(disk: map<Cf, Saved>, todo: set<Cf>) returns (c: Cf)
    requires todo != {} && todo <= disk.Keys
    ensures c in todo && forall i :: i in todo ==> disk[c].log <= disk[i].log
    decreases |todo|
  {
    c :| c in todo;
    if todo != {c} {
      var d := LeastLog(disk, todo - {c});
      if disk[d].log < disk[c].log { c := d; }
    }
  }

  lemma {:induction false} RecoveryEnds(s: State) returns (steps: seq<Step>, end: State)
    requires s.mode.Recovering? && s.mode.todo <= s.disk.Keys && (s.mode.todo != {} ==> s.mode.top >= 0)
    ensures AnyRun(s, steps, end) && end.mode.Running? && end.families.Keys == s.disk.Keys
    ensures end.logEmpty && forall cf :: cf in end.families ==> Idle(end.families[cf])
    decreases |s.mode.todo|
  {
    hide Replay;
    var step := Open;
    if s.mode.todo != {} {
      var cf :| cf in s.mode.todo;
      step := RecoverFamily(cf);
      var mid := Apply(s, step);
      assert mid.disk.Keys == s.disk.Keys;
      hide Apply, Enabled, AnyRun;
      steps, end := RecoveryEnds(mid);
    } else {
      steps, end := [], Apply(s, Open);
      hide Apply, Enabled;
    }
    RunCons(s, step, steps, end);
    steps := [step] + steps;
  }

  /** Whenever the database stops, in any phase of running or of recovering, it opens again with all its families. */
  lemma Reopens(s: State, before: seq<Step>, now: State) returns (steps: seq<Step>, end: State)
    requires Init(s) && AnyRun(s, before, now)
    ensures AnyRun(now, [Crash] + steps, end) && end.mode.Running? && end.families.Keys == s.disk.Keys
    ensures end.logEmpty && forall cf :: cf in end.families ==> Idle(end.families[cf])
  {
    RunDiskKeys(s, before, now);
    var down := Apply(now, Crash);
    var c := LeastLog(down.disk, down.disk.Keys);
    var min := down.disk[c].log;
    assert Enabled(down, Restart(min));
    var up := Apply(down, Restart(min));
    assert up.mode.Recovering? && up.disk == down.disk == now.disk;
    var more;
    more, end := RecoveryEnds(up);
    hide Apply, Enabled, AnyRun;
    RunCons(down, Restart(min), more, end);
    steps := [Restart(min)] + more;
    RunCons(now, Crash, steps, end);
  }

  lemma {:induction false} TopIs(logs: seq<Log>, min: nat)
    requires Ascending(logs)
    ensures forall l :: l in logs && l.number >= min ==> l.number <= Top(logs, min)
    ensures Top(logs, min) >= 0 ==> exists l :: l in logs && l.number == Top(logs, min)
  {
    if logs != [] {
      var n := |logs| - 1;
      Members(logs, n);
      if logs[n].number < min {
        TopIs(logs[..n], min);
      } else {
        forall l | l in logs ensures l.number <= logs[n].number {
          var i :| 0 <= i < |logs| && logs[i] == l;
        }
      }
    }
  }

  /** A restarted database counts on from the least number above the manifest's and above every log it reads; a
      family's recovery edit takes the least log number above all of those. */
  lemma RestartNumbers(s: State, min: nat, cf: Cf)
    requires Enabled(s, Restart(min)) && Ascending(s.logs)
    ensures var up := Apply(s, Restart(min));
      && s.diskNext < up.nextFile && (forall l :: l in s.logs && l.number >= min ==> l.number < up.nextFile)
      && (up.nextFile == s.diskNext + 1 || exists l :: l in s.logs && l.number + 1 == up.nextFile)
    ensures var up := Apply(s, Restart(min));
      Enabled(up, RecoverFamily(cf)) ==>
        var done := Apply(up, RecoverFamily(cf));
        && cf in done.disk && (exists l :: l in s.logs && l.number + 1 == done.disk[cf].log)
        && (forall l :: l in s.logs && l.number >= min ==> l.number < done.disk[cf].log)
        && done.diskNext == done.nextFile == Max(up.nextFile, done.disk[cf].log + 1)
  {
    hide Replay, Ascending;
    TopIs(s.logs, min);
  }

  // ---------------------------------------------------------------- logs go and batches come

  lemma {:induction false} WithoutHas(logs: seq<Log>, number: nat, l: Log)
    ensures l in Without(logs, number) <==> l in logs && l.number != number
  {
    if logs != [] {
      WithoutHas(logs[..|logs| - 1], number, l);
      assert l in logs <==> l in logs[..|logs| - 1] || l == logs[|logs| - 1];
    }
  }

  /** A log below every family's number goes, and no other with it. */
  lemma LogGoes(s: State, n: nat, l: Log)
    requires s.mode.Running? && forall cf :: cf in s.families ==> n < s.families[cf].log
    ensures Enabled(s, Doom(n)) && Enabled(Apply(s, Doom(n)), Delete(n))
    ensures var s' := Apply(Apply(s, Doom(n)), Delete(n));
      (l in s'.logs <==> l in s.logs && l.number != n) && n !in s'.purging
  {
    WithoutHas(s.logs, n, l);
  }

  /** What the front writer is in the middle of can be finished. */
  lemma BecomesReady(s: State) returns (steps: seq<Step>, end: State)
    requires RunningOk(s) && s.mode.Running?
    ensures Run(s, steps, end) && end.mode.Running? && end.phase.Ready? && end.families.Keys == s.families.Keys
    ensures end.history == s.history
  {
    hide FamilyOk, Ascending;
    if s.phase.Logged? {
      steps, end := [Insert], Apply(s, Insert);
      assert [Insert][1..] == [];
    } else if s.phase.LogMade? {
      steps, end := [Switch(s.phase.cf)], Apply(s, Switch(s.phase.cf));
      assert steps[1..] == [];
    } else {
      steps, end := [], s;
    }
  }

  lemma {:induction false} CarefulJoin(s: State, a: seq<Step>, mid: State, b: seq<Step>, end: State)
    requires Run(s, a, mid) && Run(mid, b, end)
    ensures Run(s, a + b, end)
    decreases |a|
  {
    hide Enabled, Apply, Careful;
    if a == [] {
      assert a + b == b;
    } else {
      assert (a + b)[1..] == a[1..] + b;
      CarefulJoin(Apply(s, a[0]), a[1..], mid, b, end);
    }
  }

  lemma WriteRuns(s: State, rec: Rec) returns (end: State)
    requires RunningOk(s) && s.phase.Ready? && rec.cfs <= s.families.Keys
    ensures Run(s, [Write(rec), Insert], end) && end.mode.Running?
    ensures forall cf :: cf in rec.cfs ==>
      && cf in end.families && end.families[cf].mem == s.families[cf].mem + [rec.id]
      && cf in s.history && cf in end.history && end.history[cf] == s.history[cf] + [rec.id]
  {
    hide FamilyOk, Ascending;
    var mid := Apply(s, Write(rec));
    end := Apply(mid, Insert);
    assert [Write(rec), Insert][1..] == [Insert] && [Insert][1..] == [];
    assert Run(mid, [Insert], end);
  }

  lemma DurableNow(s: State, steps: seq<Step>, end: State, cf: Cf)
    requires Init(s) && Run(s, steps, end) && end.mode.Running? && cf in end.families
    ensures cf in end.disk && cf in end.history && Durable(end, cf) == end.history[cf]
  {
    InitInv(s);
    RunKeeps(s, steps, end);
    RunningNow(end);
    hide Run, Inv;
    CrashRecoversAll(s, steps, end, cf);
  }

  lemma RunningNow(s: State)
    requires Inv(s) && s.mode.Running?
    ensures RunningOk(s)
  {
    hide FamilyOk, LogOk, Ascending;
  }

  /** From every state of a running database whose commits have stepped over no batches, a batch can be written; it is
      then the last in the memtables of its families, and recovery would find it after all the earlier ones. */
  lemma WritesGo(s: State, before: seq<Step>, now: State, rec: Rec) returns (steps: seq<Step>, end: State)
    requires Init(s) && Run(s, before, now) && now.mode.Running? && rec.cfs <= now.families.Keys
    ensures Run(now, steps, end) && end.mode.Running?
    ensures forall cf :: cf in rec.cfs ==>
      && cf in end.families && end.families[cf].mem != [] && end.families[cf].mem[|end.families[cf].mem| - 1] == rec.id
      && cf in now.history && cf in end.disk && Durable(end, cf) == now.history[cf] + [rec.id]
  {
    InitInv(s);
    RunKeeps(s, before, now);
    RunningNow(now);
    var a, mid := BecomesReady(now);
    CarefulJoin(s, before, now, a, mid);
    RunKeeps(now, a, mid);
    RunningNow(mid);
    hide Inv, RunningOk, Run;
    end := WriteRuns(mid, rec);
    CarefulJoin(now, a, mid, [Write(rec), Insert], end);
    steps := a + [Write(rec), Insert];
    CarefulJoin(s, before, now, steps, end);
    forall cf | cf in rec.cfs ensures cf in end.disk && Durable(end, cf) == end.history[cf] {
      DurableNow(s, before + steps, end, cf);
    }
  }
}
