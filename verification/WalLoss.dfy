/** Which runs recover everything: exactly those whose commits step over no memtable with batches, so all whose
    flushes pick adjacent memtables, so all without a rolled back flush; and one that does not. */
module WalLoss {
  import opened Wal
  import opened WalInvariant
  import opened WalCommit
  import opened WalRuns

  // ---------------------------------------------------------------- every run

  /** A run of the code as it stands: flushes pick whatever is not in progress, and commit when they are done. */
  ghost predicate AnyRun(s: State, steps: seq<Step>, end: State)
    decreases |steps|
  {
    if steps == [] then end == s else Enabled(s, steps[0]) && AnyRun(Apply(s, steps[0]), steps[1..], end)
  }

  ghost predicate Recoverable(s: State)
  {
    forall cf :: cf in s.disk ==> cf in s.history && Durable(s, cf) == s.history[cf]
  }

  /** A crash at any point of the run loses nothing and replays nothing twice. */
  ghost predicate RecoverableThroughout(s: State, steps: seq<Step>)
    decreases |steps|
  {
    Recoverable(s) && (steps != [] && Enabled(s, steps[0]) ==> RecoverableThroughout(Apply(s, steps[0]), steps[1..]))
  }

  lemma InvRecoverable(s: State)
    requires Inv(s)
    ensures Recoverable(s)
  {
    hide ModeOk, Replay, Ascending;
  }

  /** In any state of a run whose commits so far stepped over nothing, whatever its flushes picked: committing the
      oldest batch leaves everything recoverable if and only if it steps over no memtable with batches that the
      manifest has not. */
  lemma CommitIsSafeIff(s: State, cf: Cf)
    requires Inv(s) && Enabled(s, CommitWrite(cf))
    ensures Recoverable(Apply(s, CommitWrite(cf))) <==> Clear(s.families[cf].imm, s.families[cf].imm[0].status)
  {
    InvRunning(s);
    var f := s.families[cf];
    if Clear(f.imm, f.imm[0].status) {
      KeepsCommitWrite(s, cf);
      RunningInv(Apply(s, CommitWrite(cf)));
      InvRecoverable(Apply(s, CommitWrite(cf)));
    } else {
      assert FamilyOk(s, cf);
      RecordIsSafeIff(s.logs, f, s.disk[cf], s.history[cf], f.mem + Pending(s.phase, cf), cf, s.curLog, s.nextFile);
      CommitDurable(s, cf);
    }
  }

  lemma CommitDurable(s: State, cf: Cf)
    requires Enabled(s, CommitWrite(cf)) && cf in s.history
    ensures var s' := Apply(s, CommitWrite(cf));
      && cf in s'.disk && s'.history == s.history
      && Durable(s', cf) ==
          Manifest(s.families[cf], s.disk[cf]).tables + Replay(s.logs, Manifest(s.families[cf], s.disk[cf]).log, cf)
  {
    hide Replay;
  }

  lemma {:induction false} ThroughoutIff(s: State, steps: seq<Step>, end: State)
    requires Inv(s) && AnyRun(s, steps, end)
    ensures RecoverableThroughout(s, steps) <==> Run(s, steps, end)
    decreases |steps|
  {
    hide Inv, Apply, Recoverable, Clear, Enabled;
    InvRecoverable(s);
    if steps != [] {
      var s' := Apply(s, steps[0]);
      if Careful(s, steps[0]) {
        StepKeeps(s, steps[0]);
        ThroughoutIff(s', steps[1..], end);
      } else {
        CommitIsSafeIff(s, steps[0].cf);
        assert !Recoverable(s');
      }
    }
  }

  /** Over every run: a crash at any point of it loses nothing exactly if none of its commits steps over a memtable with
      batches that the manifest has not. */
  lemma RunIsSafeIff(s: State, steps: seq<Step>, end: State)
    requires Init(s) && AnyRun(s, steps, end)
    ensures RecoverableThroughout(s, steps) <==> Run(s, steps, end)
  {
    InitInv(s);
    ThroughoutIff(s, steps, end);
  }

  // ---------------------------------------------------------------- runs whose flushes pick adjacent memtables

  /** No memtable in progress lies between two that are not. */
  ghost predicate Gapless(ms: seq<Mem>)
  {
    forall i, j, k :: 0 <= i < j < k < |ms| && ms[i].status.Waiting? && ms[k].status.Waiting? ==> ms[j].status.Waiting?
  }

  /** The memtables being flushed into one file stand together. */
  ghost predicate Together(ms: seq<Mem>)
  {
    forall i, j, k :: 0 <= i < j < k < |ms| && !ms[i].status.Waiting? && ms[i].status == ms[k].status ==>
      ms[j].status == ms[i].status
  }

  /** The manifest has the oldest memtables. */
  ghost predicate SavedFirst(ms: seq<Mem>)
  {
    forall i, j :: 0 <= i < j < |ms| && ms[j].saved ==> ms[i].saved
  }

  ghost predicate NeatList(ms: seq<Mem>)
  {
    Together(ms) && SavedFirst(ms)
  }

  ghost predicate Neat(s: State)
  {
    forall cf :: cf in s.families ==> NeatList(s.families[cf].imm)
  }

  lemma PickNeat(f: Family, file: nat)
    requires AnyWaiting(f.imm) && Gapless(f.imm) && NoFile(f.imm, file) && NeatList(f.imm)
    ensures NeatList(StartFlush(f, file).imm)
  {
    hide StartFlush, GroupIds, GroupLog;
    PickMarks(f, file);
  }

  lemma RelabelNeat(ms: seq<Mem>, file: nat, to: Status, keepEdit: bool)
    requires Shape(ms) && NeatList(ms) && AnyFlushing(ms, file) && (to == Waiting || to == Done(file))
    ensures NeatList(Relabel(ms, file, to, keepEdit))
  {
  }

  lemma WriteNeat(ms: seq<Mem>)
    requires NeatList(ms) && ms != [] && !ms[0].status.Waiting?
    ensures NeatList(MarkSaved(ms, ms[0].status)) && Clear(ms, ms[0].status)
  {
  }

  lemma InstallNeat(f: Family)
    requires f.commit.Applying? && f.imm != [] && NeatList(f.imm)
    ensures NeatList(InstallCommit(f).imm)
  {
    var c := DropIs(f.imm[1..], f.commit.file);
    assert f.imm[1..][c..] == f.imm[c + 1..];
  }

  lemma RetireNeat(f: Family, log: nat)
    requires NeatList(f.imm)
    ensures NeatList(Retire(f, log).imm)
  {
  }

  lemma SwitchNeat(s: State, cf: Cf)
    requires Enabled(s, Switch(cf)) && Neat(s)
    ensures Neat(Apply(s, Switch(cf)))
  {
    hide NeatList, Retire, Apply;
    assert Apply(s, Switch(cf)).families.Keys == s.families.Keys by { SwitchKeys(s, cf); }
    forall c | c in s.families ensures NeatList(Apply(s, Switch(cf)).families[c].imm) {
      SwitchIs(s, cf, c);
      var f := if s.phase.LogMade? then Bump(s.families[c], SwitchLog(s)) else s.families[c];
      RetireNeat(f, SwitchLog(s));
    }
  }

  lemma SwitchKeys(s: State, cf: Cf)
    requires Enabled(s, Switch(cf))
    ensures Apply(s, Switch(cf)).families.Keys == s.families.Keys
  {
  }

  ghost predicate PicksAdjacent(s: State, step: Step)
  {
    step.Pick? && step.cf in s.families ==> Gapless(s.families[step.cf].imm)
  }

  ghost predicate OfFlush(step: Step)
  {
    step.Pick? || step.Rollback? || step.Finish? || step.CommitWrite? || step.CommitInstall?
  }

  /** What a flush step makes of its family's list. */
  lemma FlushNeat(s: State, step: Step)
    requires RunningOk(s) && OfFlush(step) && Enabled(s, step) && NeatList(s.families[step.cf].imm)
    requires PicksAdjacent(s, step)
    ensures step.cf in Apply(s, step).families && NeatList(Apply(s, step).families[step.cf].imm) && Careful(s, step)
  {
    hide StartFlush, InstallCommit, Relabel, MarkSaved, Clear, NeatList, Gapless, Shape, EditOk, LogOk, Ascending;
    hide Split, LogsRise;
    assert FamilyOk(s, step.cf);
    match step {
      case Pick(cf) => PickNeat(s.families[cf], s.nextFile);
      case Rollback(cf, file) => RelabelNeat(s.families[cf].imm, file, Waiting, false);
      case Finish(cf, file) => RelabelNeat(s.families[cf].imm, file, Done(file), true);
      case CommitWrite(cf) => WriteNeat(s.families[cf].imm);
      case CommitInstall(cf) => InstallNeat(s.families[cf]);
    }
  }

  lemma FlushOthers(s: State, step: Step)
    requires OfFlush(step) && Enabled(s, step)
    ensures Apply(s, step).families == s.families[step.cf := Apply(s, step).families[step.cf]]
  {
  }

  lemma OtherNeat(s: State, step: Step)
    requires Enabled(s, step) && Neat(s) && !OfFlush(step) && !step.Switch?
    ensures Neat(Apply(s, step)) && Careful(s, step)
  {
    EmptyNeat();
    hide NeatList;
  }

  lemma StepNeat(s: State, step: Step)
    requires Inv(s) && Enabled(s, step) && Neat(s) && PicksAdjacent(s, step)
    ensures Neat(Apply(s, step)) && Careful(s, step)
  {
    hide Inv, RunningOk, Apply, NeatList, Clear, Gapless;
    if OfFlush(step) {
      InvRunning(s);
      FlushNeat(s, step);
      FlushOthers(s, step);
    } else if step.Switch? {
      SwitchNeat(s, step.cf);
    } else {
      OtherNeat(s, step);
    }
  }

  lemma EmptyNeat()
    ensures NeatList([])
  {
  }

  /** A run whose flushes pick adjacent memtables. */
  ghost predicate AdjacentRun(s: State, steps: seq<Step>, end: State)
    decreases |steps|
  {
    if steps == [] then end == s
    else Enabled(s, steps[0]) && PicksAdjacent(s, steps[0]) && AdjacentRun(Apply(s, steps[0]), steps[1..], end)
  }

  lemma {:induction false} AdjacentIsCareful(s: State, steps: seq<Step>, end: State)
    requires Inv(s) && Neat(s) && AdjacentRun(s, steps, end)
    ensures Run(s, steps, end) && Neat(end) && Inv(end)
    decreases |steps|
  {
    hide Inv, Neat, Enabled, Apply, Careful, PicksAdjacent;
    if steps != [] {
      StepNeat(s, steps[0]);
      StepKeeps(s, steps[0]);
      AdjacentIsCareful(Apply(s, steps[0]), steps[1..], end);
    }
  }

  /** If flushes pick adjacent memtables, recovery is exact throughout and LogAndApply's assertions hold: no edit
      lowers the log number in memory. */
  lemma AdjacentRecoversAll(s: State, steps: seq<Step>, end: State, cf: Cf)
    requires Init(s) && AdjacentRun(s, steps, end) && cf in end.disk
    ensures cf in end.history && Durable(end, cf) == end.history[cf]
    ensures Enabled(end, CommitWrite(cf)) && end.families[cf].imm[0].edit.Edit? ==>
      end.families[cf].log <= end.families[cf].imm[0].edit.log < end.nextFile
  {
    hide Inv, Run, AdjacentRun;
    InitInv(s);
    AdjacentIsCareful(s, steps, end);
    CrashRecoversAll(s, steps, end, cf);
    if Enabled(end, CommitWrite(cf)) && end.families[cf].imm[0].edit.Edit? {
      EditRises(end, cf);
    }
  }

  lemma EditRises(s: State, cf: Cf)
    requires Inv(s) && Neat(s) && Enabled(s, CommitWrite(cf)) && s.families[cf].imm[0].edit.Edit?
    ensures s.families[cf].log <= s.families[cf].imm[0].edit.log < s.nextFile
  {
    hide Ascending, Split, LogsRise, Shape, Together;
    assert FamilyOk(s, cf);
    assert EditOk(s.families[cf].imm, 0);
    assert Unsettled(s.families[cf].imm, 0);
    EditNumber(s.families[cf], s.disk[cf], s.curLog, s.nextFile);
  }

  // ---------------------------------------------------------------- runs in which no flush is rolled back

  /** The memtables not yet picked are the youngest. */
  ghost predicate Youngest(ms: seq<Mem>)
  {
    forall i, j :: 0 <= i < j < |ms| && ms[i].status.Waiting? ==> ms[j].status.Waiting?
  }

  ghost predicate AllYoungest(s: State)
  {
    forall cf :: cf in s.families ==> Youngest(s.families[cf].imm)
  }

  lemma PickYoungest(f: Family, file: nat)
    requires AnyWaiting(f.imm)
    ensures Youngest(StartFlush(f, file).imm)
  {
    hide StartFlush;
    PickMarks(f, file);
  }

  lemma InstallYoungest(f: Family)
    requires f.commit.Applying? && f.imm != [] && Youngest(f.imm)
    ensures Youngest(InstallCommit(f).imm)
  {
    var c := DropIs(f.imm[1..], f.commit.file);
  }

  lemma FlushYoungest(s: State, step: Step)
    requires OfFlush(step) && Enabled(s, step) && Youngest(s.families[step.cf].imm) && !step.Rollback?
    ensures step.cf in Apply(s, step).families && Youngest(Apply(s, step).families[step.cf].imm)
  {
    hide StartFlush, InstallCommit;
    match step {
      case Pick(cf) => PickYoungest(s.families[cf], s.nextFile);
      case CommitInstall(cf) => InstallYoungest(s.families[cf]);
      case _ =>
    }
  }

  lemma SwitchYoungest(s: State, cf: Cf)
    requires Enabled(s, Switch(cf)) && AllYoungest(s)
    ensures AllYoungest(Apply(s, Switch(cf)))
  {
    SwitchKeys(s, cf);
    hide Apply;
    forall c | c in s.families ensures Youngest(Apply(s, Switch(cf)).families[c].imm) {
      SwitchIs(s, cf, c);
    }
  }

  lemma OtherYoungest(s: State, step: Step)
    requires Enabled(s, step) && AllYoungest(s) && !OfFlush(step) && !step.Switch?
    ensures AllYoungest(Apply(s, step))
  {
    assert Youngest([]);
    hide Youngest;
  }

  lemma StepYoungest(s: State, step: Step)
    requires Enabled(s, step) && AllYoungest(s) && !step.Rollback?
    ensures AllYoungest(Apply(s, step))
  {
    hide Apply, Youngest;
    if OfFlush(step) {
      FlushYoungest(s, step);
      FlushOthers(s, step);
    } else if step.Switch? {
      SwitchYoungest(s, step.cf);
    } else {
      OtherYoungest(s, step);
    }
  }

  /** Without rolled back flushes every pick is of adjacent memtables. */
  lemma {:induction false} NoRollbackIsAdjacent(s: State, steps: seq<Step>, end: State)
    requires AllYoungest(s) && AnyRun(s, steps, end) && forall i :: 0 <= i < |steps| ==> !steps[i].Rollback?
    ensures AdjacentRun(s, steps, end)
    decreases |steps|
  {
    hide Enabled, Apply;
    if steps != [] {
      StepYoungest(s, steps[0]);
      NoRollbackIsAdjacent(Apply(s, steps[0]), steps[1..], end);
    }
  }

  lemma NoRollbackRecoversAll(s: State, steps: seq<Step>, end: State, cf: Cf)
    requires Init(s) && AnyRun(s, steps, end) && (forall i :: 0 <= i < |steps| ==> !steps[i].Rollback?)
    requires cf in end.disk
    ensures cf in end.history && Durable(end, cf) == end.history[cf]
  {
    hide AnyRun, AdjacentRun, Enabled;
    NoRollbackIsAdjacent(s, steps, end);
    AdjacentRecoversAll(s, steps, end, cf);
  }

  // ---------------------------------------------------------------- it happens

  function LossSteps(): seq<Step>
  {
    [Restart(0), Open, Write(Rec(1, {0})), Insert, MakeLog(0), Switch(0), Pick(0),
     Write(Rec(2, {0})), Insert, MakeLog(0), Switch(0), Pick(0), Switch(0), Rollback(0, 5), Pick(0), Finish(0, 8)]
  }

  function LossMem(i: nat): Mem
  {
    match i
    case 1 => Mem([1], 4, Waiting, NoEdit, false)
    case 2 => Mem([2], 6, Waiting, NoEdit, false)
    case _ => Mem([], 6, Waiting, NoEdit, false)
  }

  /** The family's immutable memtables: batch 1 is being flushed into file 5 and batch 2 into file 7; a third
      memtable, empty, is switched out; the first flush is rolled back; the next one, into file 8, picks the first
      and the third. */
  function LossList(i: nat): seq<Mem>
  {
    var m1, m2, m3 := LossMem(1), LossMem(2), LossMem(3);
    var m1' := m1.(status := Flushing(5), edit := Edit(4, [1]));
    var m2' := m2.(status := Flushing(7), edit := Edit(6, [2]));
    if i < 6 then []
    else if i == 6 then [m1]
    else if i < 11 then [m1']
    else if i == 11 then [m1', m2]
    else if i == 12 then [m1', m2']
    else if i == 13 then [m1', m2', m3]
    else if i == 14 then [m1, m2', m3]
    else if i == 15 then [m1.(status := Flushing(8), edit := Edit(6, [1])), m2', m3.(status := Flushing(8))]
    else [m1.(status := Done(8), edit := Edit(6, [1])), m2', m3.(status := Done(8))]
  }

  function LossState(i: nat): State
  {
    var a, b := Log(3, [Rec(1, {0})]), Log(4, [Rec(2, {0})]);
    var logs := if i < 2 then [] else if i == 2 then [Log(3, [])] else if i < 5 then [a]
      else if i < 8 then [a, Log(4, [])]
      else if i < 10 then [a, b] else [a, b, Log(6, [])];
    var mem := if i == 4 || i == 5 then [1] else if i == 9 || i == 10 then [2] else [];
    var phase := match i
      case 3 => Logged(Rec(1, {0})) case 8 => Logged(Rec(2, {0}))
      case 5 => LogMade(4, 0) case 10 => LogMade(6, 0)
      case _ => Ready;
    var commit := if i == 16 then Committing(8) else NotCommitting;
    State(map[0 := Saved(0, [])], 2, logs, if i == 0 then Down else if i == 1 then Recovering({}, -1) else Running,
          if i < 2 then map[] else map[0 := Family(0, mem, LossList(i), commit)],
          if i < 2 then 0 else if i < 6 then 3 else if i < 11 then 4 else 6, !(3 <= i <= 5 || 8 <= i <= 10),
          if i == 0 then 0 else if i == 1 then 3 else if i < 5 then 4 else if i < 7 then 5 else if i < 10 then 6
            else if i < 12 then 7 else if i < 15 then 8 else 9,
          phase, {}, map[0 := if i < 3 then [] else if i < 8 then [1] else [1, 2]])
  }

  /** States with one family, compared field by field. */
  ghost predicate Alike(a: State, b: State)
  {
    && a.mode == b.mode && a.disk == b.disk && a.diskNext == b.diskNext && a.logs == b.logs && a.history == b.history
    && a.curLog == b.curLog && a.logEmpty == b.logEmpty && a.nextFile == b.nextFile && a.phase == b.phase
    && a.purging == b.purging
    && a.families.Keys == b.families.Keys && (0 in a.families ==>
         && a.families.Keys == {0} && a.families[0].log == b.families[0].log
         && a.families[0].commit == b.families[0].commit
         && a.families[0].mem == b.families[0].mem && a.families[0].imm == b.families[0].imm)
  }

  ghost predicate LossLeads(i: nat)
    requires i < 16
  {
    var s, step := LossState(i), LossSteps()[i];
    Enabled(s, step) && Careful(s, step) && Alike(Apply(s, step), LossState(i + 1))
  }

  lemma AlikeSame(a: State, b: State)
    requires Alike(a, b) && (a.families.Keys == {} || a.families.Keys == {0})
    ensures a == b
  {
    if 0 in a.families { assert a.families[0] == b.families[0]; }
    assert a.families == b.families;
  }

  lemma LossOpens(i: nat)
    requires i < 2
    ensures LossLeads(i)
  {
    hide StartFlush, Relabel, MarkSaved, InstallCommit, FinishFlush, Replay, Without, Clear;
    assert LossState(0).disk[0].log == 0;
  }

  lemma LossLoggedFirst()
    ensures LossState(2).logs != [] && AddRecord(LossState(2).logs, Rec(1, {0})) == LossState(3).logs
    ensures Record(LossState(2).history, Rec(1, {0})) == LossState(3).history
  {
    assert AddRecord(LossState(2).logs, Rec(1, {0}))[0].recs == [Rec(1, {0})];
    assert Record(LossState(2).history, Rec(1, {0}))[0] == [1];
  }

  lemma LossLogsFirst()
    ensures LossLeads(2)
  {
    assert LossList(2) == LossList(3);
    LossLoggedFirst();
    hide StartFlush, Relabel, MarkSaved, InstallCommit, FinishFlush, Replay, Without, Clear, LossList, AddRecord;
    hide Record;
  }

  lemma LossLoggedSecond()
    ensures LossState(7).logs != [] && AddRecord(LossState(7).logs, Rec(2, {0})) == LossState(8).logs
    ensures Record(LossState(7).history, Rec(2, {0})) == LossState(8).history
  {
    assert AddRecord(LossState(7).logs, Rec(2, {0}))[1].recs == [Rec(2, {0})];
    assert Record(LossState(7).history, Rec(2, {0}))[0] == [1, 2];
  }

  lemma LossLogsSecond()
    ensures LossLeads(7)
  {
    assert LossList(7) == LossList(8);
    LossLoggedSecond();
    hide StartFlush, Relabel, MarkSaved, InstallCommit, FinishFlush, Replay, Without, Clear, LossList, AddRecord;
    hide Record;
  }

  lemma LossInserts(i: nat)
    requires i == 3 || i == 8
    ensures LossLeads(i)
  {
    assert LossState(i).families[0].mem + [LossState(i).phase.rec.id] == LossState(i + 1).families[0].mem;
  }

  lemma LossMakesLog(i: nat)
    requires i == 4 || i == 9
    ensures LossLeads(i)
  {
    assert LossState(i).logs + [Log(LossState(i).nextFile, [])] == LossState(i + 1).logs;
  }

  lemma LossSwitchesFirst()
    ensures LossLeads(5)
  {
    hide StartFlush, Relabel, MarkSaved, InstallCommit, FinishFlush, Replay, Without, Clear;
    var f := LossState(5).families[0];
    assert f.imm + [Mem(f.mem, LossState(6).curLog, Waiting, NoEdit, false)] == LossState(6).families[0].imm;
  }

  lemma LossSwitchesSecond()
    ensures LossLeads(10)
  {
    hide StartFlush, Relabel, MarkSaved, InstallCommit, FinishFlush, Replay, Without, Clear;
    var f := LossState(10).families[0];
    assert f.imm + [Mem(f.mem, LossState(11).curLog, Waiting, NoEdit, false)] == LossState(11).families[0].imm;
  }

  lemma LossSwitchesThird()
    ensures LossLeads(12)
  {
    hide StartFlush, Relabel, MarkSaved, InstallCommit, FinishFlush, Replay, Without, Clear;
    var f := LossState(12).families[0];
    assert f.imm + [Mem(f.mem, LossState(13).curLog, Waiting, NoEdit, false)] == LossState(13).families[0].imm;
  }

  /** What the next flush would pick of the list. */
  lemma LossGroup(i: nat)
    requires i == 6 || i == 11 || i == 14
    ensures var ms := LossList(i);
      && GroupLog(ms, Waiting) == (if i == 6 then 4 else 6)
      && GroupIds(ms, Waiting) == (if i == 11 then [2] else [1])
      && ms[if i == 11 then 1 else 0].status == Waiting
  {
    var ms := LossList(i);
    GroupLogIs(ms, Waiting, |ms| - 1);
    if i == 6 {
      assert ms[1..] == [];
    } else if i == 11 {
      assert ms[1..][1..] == [];
      assert GroupIds(ms[1..], Waiting) == [2];
    } else {
      assert GroupIds(ms[1..][1..], Waiting) == [] by { assert ms[1..][1..][1..] == []; }
      assert GroupIds(ms[1..], Waiting) == [];
    }
  }

  lemma LossPicked(i: nat, f: Family, file: nat)
    requires (i == 6 && file == 5) || (i == 11 && file == 7) || (i == 14 && file == 8)
    requires f.imm == LossList(i)
    ensures AnyWaiting(f.imm) && StartFlush(f, file) == f.(imm := LossList(i + 1))
  {
    hide StartFlush, GroupIds, GroupLog;
    LossGroup(i);
    PickMarks(f, file);
    assert NoneWaiting(f.imm, if i == 11 then 1 else 0) && (i == 14 ==> !NoneWaiting(f.imm, 2));
    assert StartFlush(f, file).imm == LossList(i + 1);
  }

  lemma LossPicksFirst()
    ensures LossLeads(6)
  {
    hide StartFlush, Relabel, MarkSaved, InstallCommit, FinishFlush, Replay, Without, Clear, LossList;
    LossPicked(6, LossState(6).families[0], 5);
  }

  lemma LossPicksSecond()
    ensures LossLeads(11)
  {
    hide StartFlush, Relabel, MarkSaved, InstallCommit, FinishFlush, Replay, Without, Clear, LossList;
    LossPicked(11, LossState(11).families[0], 7);
  }

  lemma LossPicksThird()
    ensures LossLeads(14)
  {
    hide StartFlush, Relabel, MarkSaved, InstallCommit, FinishFlush, Replay, Without, Clear, LossList;
    LossPicked(14, LossState(14).families[0], 8);
  }

  lemma LossRollsBack()
    ensures LossLeads(13)
  {
    assert LossState(13).families[0].imm[0].status == Flushing(5);
    assert Relabel(LossList(13), 5, Waiting, false) == LossList(14);
  }

  lemma LossFinishes()
    ensures LossLeads(15)
  {
    assert LossState(15).families[0].imm[0].status == Flushing(8);
    assert Relabel(LossList(15), 8, Done(8), true) == LossList(16);
  }

  lemma LossStep(i: nat)
    requires i < 16
    ensures LossLeads(i)
  {
    hide LossLeads;
    if i < 2 {
      LossOpens(i);
    } else if i == 2 {
      LossLogsFirst();
    } else if i == 7 {
      LossLogsSecond();
    } else if i == 3 || i == 8 {
      LossInserts(i);
    } else if i == 4 || i == 9 {
      LossMakesLog(i);
    } else if i == 5 {
      LossSwitchesFirst();
    } else if i == 10 {
      LossSwitchesSecond();
    } else if i == 12 {
      LossSwitchesThird();
    } else if i == 6 {
      LossPicksFirst();
    } else if i == 11 {
      LossPicksSecond();
    } else if i == 14 {
      LossPicksThird();
    } else if i == 13 {
      LossRollsBack();
    } else {
      LossFinishes();
    }
  }

  lemma LossNext(i: nat)
    requires i < 16 && LossLeads(i)
    ensures Enabled(LossState(i), LossSteps()[i]) && Careful(LossState(i), LossSteps()[i])
    ensures Apply(LossState(i), LossSteps()[i]) == LossState(i + 1)
  {
    LossKeys(i + 1);
    hide LossState, Enabled, Careful, Apply;
    AlikeSame(Apply(LossState(i), LossSteps()[i]), LossState(i + 1));
  }

  lemma LossKeys(i: nat)
    ensures LossState(i).families.Keys == {} || LossState(i).families.Keys == {0}
  {
  }

  lemma {:induction false} LossRuns(i: nat)
    requires i <= 16
    ensures Run(LossState(i), LossSteps()[i..], LossState(16))
    decreases 16 - i
  {
    hide Enabled, Apply, Careful, LossState;
    if i < 16 {
      LossStep(i);
      LossNext(i);
      LossRuns(i + 1);
      assert LossSteps()[i..][1..] == LossSteps()[i + 1..];
    }
  }

  lemma LossStands()
    ensures Init(LossState(0)) && Enabled(LossState(16), CommitWrite(0))
    ensures !Clear(LossState(16).families[0].imm, LossState(16).families[0].imm[0].status)
  {
    assert 0 in LossState(0).disk;
    var ms := LossState(16).families[0].imm;
    assert ms[1].ids == [2] && ms[2].status == ms[0].status != ms[1].status;
  }

  /** The commit of file 8 persists a log number past batch 2, which is in no table: a crash then loses it. */
  lemma RollbackLosesABatch()
    ensures Init(LossState(0)) && Run(LossState(0), LossSteps()[0..], LossState(16))
    ensures Enabled(LossState(16), CommitWrite(0)) && !Recoverable(Apply(LossState(16), CommitWrite(0)))
  {
    LossRuns(0);
    LossStands();
    hide Run, Inv, Apply, Enabled, LossState, Clear, Recoverable;
    InitInv(LossState(0));
    RunKeeps(LossState(0), LossSteps()[0..], LossState(16));
    CommitIsSafeIff(LossState(16), 0);
  }
}
