/** A schedule in which LogAndApply's assertion fails although nothing is lost: a commit that steps over an empty
    memtable still being flushed, and then the commit of that memtable. */
module WalLower {
  import opened Wal
  import opened WalInvariant
  import opened WalCommit
  import opened WalRuns
  import opened WalLoss
  import opened WalAsserts

  /** They follow the first seven steps of LossSteps: batch 1 is being flushed into file 5. */
  function LowSteps(): seq<Step>
  {
    [Switch(0), Pick(0), Write(Rec(2, {0})), Insert, MakeLog(0), Switch(0), Rollback(0, 5), Pick(0), Finish(0, 8),
     CommitWrite(0), CommitInstall(0), Finish(0, 6)]
  }

  /** An empty memtable, switched out while the log is empty, is being flushed into file 6; the first flush is rolled
      back; the next one, into file 8, picks the memtables of batches 1 and 2 and commits them; then file 6 is
      finished. */
  function LowList(i: nat): seq<Mem>
  {
    var m1, e, m2 := LossMem(1), Mem([], 4, Waiting, NoEdit, false), Mem([2], 7, Waiting, NoEdit, false);
    var m1' := m1.(status := Flushing(5), edit := Edit(4, [1]));
    var e' := e.(status := Flushing(6), edit := Edit(4, []));
    if i == 0 then [m1']
    else if i == 1 then [m1', e]
    else if i < 6 then [m1', e']
    else if i == 6 then [m1', e', m2]
    else if i == 7 then [m1, e', m2]
    else if i == 8 then [m1.(status := Flushing(8), edit := Edit(7, [1, 2])), e', m2.(status := Flushing(8))]
    else if i == 9 then [m1.(status := Done(8), edit := Edit(7, [1, 2])), e', m2.(status := Done(8))]
    else if i == 10 then [m1.(status := Done(8), saved := true), e', m2.(status := Done(8), saved := true)]
    else if i == 11 then [e', m2.(status := Done(8), saved := true)]
    else [e'.(status := Done(6)), m2.(status := Done(8), saved := true)]
  }

  function LowState(i: nat): State
  {
    var a, b := Log(3, [Rec(1, {0})]), Log(4, [Rec(2, {0})]);
    var logs := if i < 3 then [a, Log(4, [])] else if i < 5 then [a, b] else [a, b, Log(7, [])];
    var mem := if i == 4 || i == 5 then [2] else [];
    var phase := if i == 3 then Logged(Rec(2, {0})) else if i == 5 then LogMade(7, 0) else Ready;
    var commit := if i == 9 then Committing(8) else if i == 10 then Applying(8, Edit(7, [1, 2]))
      else if i == 12 then Committing(6) else NotCommitting;
    State(map[0 := if i < 10 then Saved(0, []) else Saved(7, [1, 2])], if i < 10 then 2 else 9, logs, Running,
          map[0 := Family(if i < 11 then 0 else 7, mem, LowList(i), commit)],
          if i < 6 then 4 else 7, !(3 <= i <= 5),
          if i < 2 then 6 else if i < 5 then 7 else if i < 8 then 8 else 9,
          phase, {}, map[0 := if i < 3 then [1] else [1, 2]])
  }

  ghost predicate LowLeads(i: nat)
    requires i < 12
  {
    var s, step := LowState(i), LowSteps()[i];
    Enabled(s, step) && Careful(s, step) && Alike(Apply(s, step), LowState(i + 1))
  }

  lemma LowSwitchesFirst()
    ensures LowLeads(0)
  {
    hide StartFlush, Relabel, MarkSaved, InstallCommit, FinishFlush, Replay, Without, Clear;
    var f := LowState(0).families[0];
    assert f.imm + [Mem(f.mem, LowState(1).curLog, Waiting, NoEdit, false)] == LowState(1).families[0].imm;
  }

  /** What the next flush would pick of the list. */
  lemma LowGroup(i: nat)
    requires i == 1 || i == 7
    ensures var ms := LowList(i);
      && GroupLog(ms, Waiting) == (if i == 1 then 4 else 7)
      && GroupIds(ms, Waiting) == (if i == 1 then [] else [1, 2])
      && ms[if i == 1 then 1 else 0].status == Waiting
  {
    var ms := LowList(i);
    GroupLogIs(ms, Waiting, |ms| - 1);
    if i == 1 {
      assert ms[1..][1..] == [];
      assert GroupIds(ms[1..], Waiting) == [];
    } else {
      assert GroupIds(ms[1..][1..], Waiting) == [2] by { assert ms[1..][1..][1..] == []; }
      assert GroupIds(ms[1..], Waiting) == [2];
    }
  }

  lemma LowPicked(i: nat, f: Family, file: nat)
    requires (i == 1 && file == 6) || (i == 7 && file == 8)
    requires f.imm == LowList(i)
    ensures AnyWaiting(f.imm) && StartFlush(f, file) == f.(imm := LowList(i + 1))
  {
    hide StartFlush, GroupIds, GroupLog;
    LowGroup(i);
    PickMarks(f, file);
    assert NoneWaiting(f.imm, if i == 1 then 1 else 0) && (i == 7 ==> !NoneWaiting(f.imm, 2));
    assert StartFlush(f, file).imm == LowList(i + 1);
  }

  lemma LowPicksFirst()
    ensures LowLeads(1)
  {
    hide StartFlush, Relabel, MarkSaved, InstallCommit, FinishFlush, Replay, Without, Clear, LowList;
    LowPicked(1, LowState(1).families[0], 6);
  }

  lemma LowLogged()
    ensures LowState(2).logs != [] && AddRecord(LowState(2).logs, Rec(2, {0})) == LowState(3).logs
    ensures Record(LowState(2).history, Rec(2, {0})) == LowState(3).history
  {
    assert AddRecord(LowState(2).logs, Rec(2, {0}))[1].recs == [Rec(2, {0})];
    assert Record(LowState(2).history, Rec(2, {0}))[0] == [1, 2];
  }

  lemma LowLogs()
    ensures LowLeads(2)
  {
    assert LowList(2) == LowList(3);
    LowLogged();
    hide StartFlush, Relabel, MarkSaved, InstallCommit, FinishFlush, Replay, Without, Clear, LowList;
    hide AddRecord, Record;
  }

  lemma LowInserts()
    ensures LowLeads(3)
  {
    assert LowList(3) == LowList(4);
    hide StartFlush, Relabel, MarkSaved, InstallCommit, FinishFlush, Replay, Without, Clear, LowList;
    assert LowState(3).families[0].mem + [2] == [2];
  }

  lemma LowMakesLog()
    ensures LowLeads(4)
  {
    assert LowList(4) == LowList(5);
    hide StartFlush, Relabel, MarkSaved, InstallCommit, FinishFlush, Replay, Without, Clear, LowList;
    assert LowState(4).logs + [Log(7, [])] == LowState(5).logs;
  }

  lemma LowSwitchesSecond()
    ensures LowLeads(5)
  {
    hide StartFlush, Relabel, MarkSaved, InstallCommit, FinishFlush, Replay, Without, Clear;
    var f := LowState(5).families[0];
    assert f.imm + [Mem(f.mem, LowState(6).curLog, Waiting, NoEdit, false)] == LowState(6).families[0].imm;
  }

  lemma LowRollsBack()
    ensures LowLeads(6)
  {
    hide StartFlush, MarkSaved, InstallCommit, FinishFlush, Replay, Without, Clear;
    assert LowState(6).families[0].imm[0].status == Flushing(5);
    assert Relabel(LowList(6), 5, Waiting, false) == LowList(7);
  }

  lemma LowPicksSecond()
    ensures LowLeads(7)
  {
    hide StartFlush, Relabel, MarkSaved, InstallCommit, FinishFlush, Replay, Without, Clear, LowList;
    LowPicked(7, LowState(7).families[0], 8);
  }

  lemma LowFinishes()
    ensures LowLeads(8)
  {
    hide StartFlush, MarkSaved, InstallCommit, Replay, Without, Clear;
    assert LowState(8).families[0].imm[0].status == Flushing(8);
    assert Relabel(LowList(8), 8, Done(8), true) == LowList(9);
  }

  lemma LowClear()
    ensures Clear(LowList(9), Done(8)) && MarkSaved(LowList(9), Done(8)) == LowList(10)
  {
  }

  lemma LowCommits()
    ensures LowLeads(9)
  {
    LowClear();
    assert LowList(9)[0].status == Done(8) && LowList(9)[0].edit == Edit(7, [1, 2]);
    hide StartFlush, Relabel, MarkSaved, InstallCommit, FinishFlush, Replay, Without, Clear;
    assert [] + [1, 2] == [1, 2];
  }

  lemma LowInstalls()
    ensures LowLeads(10)
  {
    hide StartFlush, Relabel, MarkSaved, FinishFlush, Replay, Without, Clear;
    var ms := LowList(10);
    assert ms[1..][0].status == Flushing(6);
    assert DropSame(ms[1..], 8) == ms[1..] == LowList(11);
  }

  lemma LowFinishesLast()
    ensures LowLeads(11)
  {
    hide StartFlush, MarkSaved, InstallCommit, Replay, Without, Clear;
    assert LowState(11).families[0].imm[0].status == Flushing(6);
    assert Relabel(LowList(11), 6, Done(6), true) == LowList(12);
  }

  lemma LowStep(i: nat)
    requires i < 12
    ensures LowLeads(i)
  {
    hide LowLeads;
    match i {
      case 0 => LowSwitchesFirst();
      case 1 => LowPicksFirst();
      case 2 => LowLogs();
      case 3 => LowInserts();
      case 4 => LowMakesLog();
      case 5 => LowSwitchesSecond();
      case 6 => LowRollsBack();
      case 7 => LowPicksSecond();
      case 8 => LowFinishes();
      case 9 => LowCommits();
      case 10 => LowInstalls();
      case _ => LowFinishesLast();
    }
  }

  lemma LowNext(i: nat)
    requires i < 12 && LowLeads(i)
    ensures Enabled(LowState(i), LowSteps()[i]) && Careful(LowState(i), LowSteps()[i])
    ensures Apply(LowState(i), LowSteps()[i]) == LowState(i + 1)
  {
    assert LowState(i + 1).families.Keys == {0};
    hide LowState, Enabled, Careful, Apply;
    AlikeSame(Apply(LowState(i), LowSteps()[i]), LowState(i + 1));
  }

  lemma {:induction false} LowRuns(i: nat)
    requires i <= 12
    ensures Run(LowState(i), LowSteps()[i..], LowState(12))
    decreases 12 - i
  {
    hide Enabled, Apply, Careful, LowState;
    if i < 12 {
      LowStep(i);
      LowNext(i);
      LowRuns(i + 1);
      assert LowSteps()[i..][1..] == LowSteps()[i + 1..];
    }
  }

  lemma LowStarts()
    ensures LowState(0) == LossState(7)
  {
    hide LowList, LossList;
    assert LowList(0) == LossList(7) by { LowStartsList(); }
    AlikeSame(LowState(0), LossState(7));
  }

  lemma LowStartsList()
    ensures LowList(0) == LossList(7)
  {
  }

  /** The first steps of the other schedule, and then these. */
  lemma {:induction false} LowJoins(i: nat)
    requires i <= 7
    ensures Run(LossState(i), LossSteps()[i..7] + LowSteps(), LowState(12))
    decreases 7 - i
  {
    hide Enabled, Apply, Careful, LowState, LossState;
    var steps := LossSteps()[i..7] + LowSteps();
    if i < 7 {
      LossStep(i);
      LossNext(i);
      LowJoins(i + 1);
      assert steps[0] == LossSteps()[i] && steps[1..] == LossSteps()[i + 1..7] + LowSteps();
    } else {
      LowStarts();
      LowRuns(0);
      assert steps == LowSteps()[0..];
    }
  }

  lemma LowStands()
    ensures Init(LossState(0)) && Enabled(LowState(12), CommitWrite(0)) && !Asserted(LowState(12), CommitWrite(0))
  {
    assert 0 in LossState(0).disk;
  }

  /** In a run whose commits step over no batches, so that everything stays recoverable, the commit of file 6 carries
      log number 4 when the family's is 7. */
  lemma SkippedFlushLowersALog()
    ensures Init(LossState(0)) && Run(LossState(0), LossSteps()[..7] + LowSteps(), LowState(12))
    ensures Enabled(LowState(12), CommitWrite(0)) && !Asserted(LowState(12), CommitWrite(0))
    ensures Inv(LowState(12))
  {
    LowStands();
    hide Run, Inv, Init, Asserted, LowState, LossState, Enabled;
    LowJoins(0);
    assert LossSteps()[0..7] == LossSteps()[..7];
    InitInv(LossState(0));
    RunKeeps(LossState(0), LossSteps()[..7] + LowSteps(), LowState(12));
  }

  /** The commits that follow: of the memtable of file 6, and of the leftover of file 8. */
  function HeldFamily(i: nat): Family
  {
    var e, m2 := Mem([], 4, Done(6), NoEdit, true), Mem([2], 7, Done(8), NoEdit, true);
    if i == 1 then Family(7, [], [e, m2], Applying(6, Edit(4, [])))
    else if i == 2 then Family(4, [], [m2], Committing(6))
    else if i == 3 then Family(4, [], [m2], Applying(6, NoEdit))
    else Family(4, [], [], NotCommitting)
  }

  lemma HeldWrites()
    ensures var f := LowState(12).families[0];
      f.commit.Committing? && f.imm != [] && Written(f) == HeldFamily(1) && Clear(f.imm, f.imm[0].status)
    ensures Written(HeldFamily(2)) == HeldFamily(3) && Clear(HeldFamily(2).imm, Done(8))
  {
    var f := LowState(12).families[0];
    assert MarkSaved(f.imm, Done(6)) == HeldFamily(1).imm;
    assert MarkSaved(HeldFamily(2).imm, Done(8)) == HeldFamily(3).imm;
  }

  lemma HeldInstalls()
    ensures InstallCommit(HeldFamily(1)) == HeldFamily(2) && InstallCommit(HeldFamily(3)) == HeldFamily(4)
  {
    var ms := HeldFamily(1).imm[1..];
    assert ms == HeldFamily(2).imm && ms[0].status == Done(8) && DropSame(ms, 6) == ms;
    assert HeldFamily(3).imm[1..] == [];
  }

  lemma RunCons(s: State, step: Step, steps: seq<Step>, end: State)
    requires Enabled(s, step) && Careful(s, step) && Run(Apply(s, step), steps, end)
    ensures Run(s, [step] + steps, end)
  {
    hide Enabled, Careful, Apply;
    assert ([step] + steps)[1..] == steps;
  }

  /** A running database with the one family 0. */
  ghost predicate Single(s: State, log: nat)
  {
    s.mode.Running? && s.families.Keys == {0} && 0 in s.disk && s.curLog == log
  }

  lemma SingleWrites(s: State, log: nat)
    requires Single(s, log) && s.families[0].imm != [] && s.families[0].commit.Committing?
    requires Clear(s.families[0].imm, s.families[0].imm[0].status)
    ensures Enabled(s, CommitWrite(0)) && Careful(s, CommitWrite(0))
    ensures var s' := Apply(s, CommitWrite(0)); Single(s', log) && s'.families[0] == Written(s.families[0])
  {
    hide MarkSaved, Clear;
  }

  lemma SingleInstalls(s: State, log: nat)
    requires Single(s, log) && s.families[0].imm != [] && s.families[0].commit.Applying?
    ensures Enabled(s, CommitInstall(0)) && Careful(s, CommitInstall(0))
    ensures var s' := Apply(s, CommitInstall(0)); Single(s', log) && s'.families[0] == InstallCommit(s.families[0])
  {
    hide InstallCommit;
  }

  lemma HeldStarts()
    ensures Single(LowState(12), 7)
  {
  }

  lemma HeldRuns(s: State) returns (end: State)
    requires Single(s, 7) && s.families[0].imm != [] && s.families[0].commit.Committing?
    requires Written(s.families[0]) == HeldFamily(1) && Clear(s.families[0].imm, s.families[0].imm[0].status)
    ensures Run(s, [CommitWrite(0), CommitInstall(0), CommitWrite(0), CommitInstall(0)], end)
    ensures Single(end, 7) && end.families[0] == HeldFamily(4)
  {
    HeldWrites();
    HeldInstalls();
    hide MarkSaved, DropSame, InstallCommit, Clear, LowState, Written, Apply, Careful, Run, Enabled;
    SingleWrites(s, 7);
    var a := Apply(s, CommitWrite(0));
    SingleInstalls(a, 7);
    var b := Apply(a, CommitInstall(0));
    SingleWrites(b, 7);
    var d := Apply(b, CommitWrite(0));
    SingleInstalls(d, 7);
    end := Apply(d, CommitInstall(0));
    RunEmpty(end);
    var w, i := CommitWrite(0), CommitInstall(0);
    RunCons(d, i, [], end);
    assert [i] + [] == [i];
    RunCons(b, w, [i], end);
    assert [w] + [i] == [w, i];
    RunCons(a, i, [w, i], end);
    assert [i] + [w, i] == [i, w, i];
    RunCons(s, w, [i, w, i], end);
    assert [w] + [i, w, i] == [w, i, w, i];
  }

  /** And so a log is held longer than its batches: everything is committed and the log in use is number 7, but log 4
      may not go. */
  lemma SkippedFlushHoldsALog() returns (end: State)
    ensures Run(LowState(12), [CommitWrite(0), CommitInstall(0), CommitWrite(0), CommitInstall(0)], end)
    ensures 0 in end.families && end.families[0].mem == [] && end.families[0].imm == [] && end.curLog == 7
    ensures !Enabled(end, Doom(4))
  {
    hide LowState, Run, Written, Clear;
    HeldStarts();
    HeldWrites();
    end := HeldRuns(LowState(12));
  }

  lemma RunEmpty(s: State)
    ensures Run(s, [], s)
  {
  }
}
