/** Deleting obsolete table files beside jobs that write new ones (db/db_impl.cc: pending_outputs_, FindObsoleteFiles
    and PurgeObsoleteFiles). */
module Purge {

  type Job = nat

  /** An element of pending_outputs_: the next file number when the job began. */
  datatype Pending = Pending(job: Job, number: nat)

  /** A JobContext filled in by FindObsoleteFiles: the live tables then, min_pending_output, the table files to look
      at. */
  datatype Context = Context(live: set<nat>, min: nat, candidates: set<nat>)

  /** jobs numbers the background calls; disk: the table files; live: those in some version; wanted: the files
      written and neither in a version nor given up, with the job that wrote each. */
  datatype State = State(
    next: nat, jobs: Job, pending: seq<Pending>, disk: set<nat>, live: set<nat>, wanted: map<nat, Job>,
      contexts: map<nat, Context>)

  datatype Step =
    | Capture                                   // CaptureCurrentFileNumberInPendingOutputs
    | Create(job: Job)                          // NewFileNumber and the table file
    | Install(number: nat)                      // LogAndApply, by whichever thread commits
    | Abandon(number: nat)                      // the job failed
    | Expire(number: nat)                       // the last version with the file goes
    | Release(job: Job)                         // the call returns: ReleaseFileNumberFromPendingOutputs
    | Find(context: nat, candidates: set<nat>)  // FindObsoleteFiles, with what it lists
    | Remove(context: nat, number: nat)         // one file in PurgeObsoleteFiles

  predicate IsPending(ps: seq<Pending>, job: Job)
  {
    exists i :: 0 <= i < |ps| && ps[i].job == job
  }

  function Erase(ps: seq<Pending>, job: Job): (r: seq<Pending>)
  {
    if ps == [] then [] else if ps[0].job == job then ps[1..] else [ps[0]] + Erase(ps[1..], job)
  }

  const NO_LIMIT: nat := 0xffff_ffff_ffff_ffff

  /** What PurgeObsoleteFiles decides about a table file. */
  predicate Keeps(c: Context, number: nat)
  {
    number in c.live || number >= c.min
  }

  predicate Enabled(s: State, step: Step)
  {
    match step
    case Capture => true
    case Create(job) => IsPending(s.pending, job) && s.next < NO_LIMIT
    case Install(n) => n in s.wanted
    case Abandon(n) => n in s.wanted
    case Expire(n) => n in s.live
    case Release(job) => IsPending(s.pending, job)
    case Find(c, candidates) => c !in s.contexts && candidates <= s.disk
    case Remove(c, n) => c in s.contexts && n in s.contexts[c].candidates && !Keeps(s.contexts[c], n)
  }

  function Apply(s: State, step: Step): State
    requires Enabled(s, step)
  {
    match step
    case Capture => s.(pending := s.pending + [Pending(s.jobs, s.next)], jobs := s.jobs + 1)
    case Create(job) => s.(next := s.next + 1, disk := s.disk + {s.next}, wanted := s.wanted[s.next := job])
    case Install(n) => s.(wanted := s.wanted - {n}, live := s.live + {n})
    case Abandon(n) => s.(wanted := s.wanted - {n})
    case Expire(n) => s.(live := s.live - {n})
    case Release(job) => s.(pending := Erase(s.pending, job))
    case Find(c, candidates) =>
      var min := if s.pending != [] then s.pending[0].number else NO_LIMIT;
      s.(contexts := s.contexts[c := Context(s.live, min, candidates)])
    case Remove(c, n) => s.(disk := s.disk - {n})
  }

  ghost predicate Needed(s: State, n: nat)
  {
    n in s.live || n in s.wanted
  }

  ghost predicate Init(s: State)
  {
    && s.pending == [] && s.wanted == map[] && s.contexts == map[] && s.live <= s.disk
    && s.next <= NO_LIMIT && forall n :: n in s.disk ==> n < s.next
  }

  /** Any interleaving of jobs, finds and removals; a job is released whenever its call returns. */
  ghost predicate AnyRun(s: State, steps: seq<Step>, end: State)
    decreases |steps|
  {
    if steps == [] then end == s else Enabled(s, steps[0]) && AnyRun(Apply(s, steps[0]), steps[1..], end)
  }

  // ---------------------------------------------------------------- what every step keeps

  /** pending_outputs_ is sorted, so its front is its minimum. */
  ghost predicate Sorted(ps: seq<Pending>)
  {
    forall i, j :: 0 <= i < j < |ps| ==> ps[i].number <= ps[j].number && ps[i].job < ps[j].job
  }

  /** Some job that has not been released began before the file was numbered. */
  ghost predicate Covered(ps: seq<Pending>, number: nat)
  {
    exists i :: 0 <= i < |ps| && ps[i].number <= number
  }

  ghost predicate Numbered(s: State)
  {
    && Sorted(s.pending) && s.next <= NO_LIMIT
    && (forall i :: 0 <= i < |s.pending| ==> s.pending[i].number <= s.next && s.pending[i].job < s.jobs)
    && (forall n :: n in s.disk ==> n < s.next) && (forall n :: n in s.live ==> n < s.next)
    && (forall n :: n in s.wanted ==> n < s.next && n !in s.live && s.wanted[n] < s.jobs)
    && (forall n, i :: n in s.wanted && 0 <= i < |s.pending| && s.pending[i].job == s.wanted[n] ==>
        s.pending[i].number <= n)
  }

  ghost predicate Condemns(s: State, c: nat, n: nat)
  {
    c in s.contexts && n in s.contexts[c].candidates && !Keeps(s.contexts[c], n)
  }

  /** No scan condemns a file numbered since a job still running began. */
  ghost predicate CoveredSpared(s: State)
  {
    forall c: nat, n: nat {:trigger Condemns(s, c, n)} :: Condemns(s, c, n) ==> n < s.next && !Covered(s.pending, n)
  }

  /** The job that wrote the file is still running. */
  ghost predicate Owned(s: State, n: nat)
  {
    n in s.wanted && IsPending(s.pending, s.wanted[n])
  }

  ghost predicate OwnedKept(s: State)
  {
    forall n :: Owned(s, n) ==> n in s.disk
  }

  lemma {:induction false} EraseHas(ps: seq<Pending>, job: Job, p: Pending)
    ensures p in Erase(ps, job) ==> p in ps
    ensures p in ps && p.job != job ==> p in Erase(ps, job)
    ensures Sorted(ps) && p in Erase(ps, job) ==> p.job != job
  {
    if ps != [] {
      assert p in ps <==> p == ps[0] || p in ps[1..];
      if ps[0].job == job {
        assert Sorted(ps) && p in ps[1..] ==> p.job != job;
      } else {
        EraseHas(ps[1..], job, p);
      }
    }
  }

  lemma {:induction false} EraseSorted(ps: seq<Pending>, job: Job)
    requires Sorted(ps)
    ensures Sorted(Erase(ps, job))
  {
    if ps != [] && ps[0].job != job {
      var r := Erase(ps[1..], job);
      EraseSorted(ps[1..], job);
      forall i | 0 <= i < |r| ensures ps[0].number <= r[i].number && ps[0].job < r[i].job {
        EraseHas(ps[1..], job, r[i]);
      }
    }
  }

  lemma EraseIs(ps: seq<Pending>, job: Job)
    ensures forall p :: p in Erase(ps, job) ==> p in ps
    ensures forall p :: p in ps && p.job != job ==> p in Erase(ps, job)
    ensures Sorted(ps) ==> Sorted(Erase(ps, job)) && forall p :: p in Erase(ps, job) ==> p.job != job
  {
    hide Erase, Sorted;
    forall p ensures p in Erase(ps, job) ==> p in ps
             ensures p in ps && p.job != job ==> p in Erase(ps, job)
             ensures Sorted(ps) && p in Erase(ps, job) ==> p.job != job {
      EraseHas(ps, job, p);
    }
    if Sorted(ps) { EraseSorted(ps, job); }
  }

  /** Its front decides whether pending_outputs_ covers a number. */
  lemma FrontIsLeast(ps: seq<Pending>, n: nat)
    requires Sorted(ps)
    ensures Covered(ps, n) <==> ps != [] && ps[0].number <= n
  {
    if Covered(ps, n) {
      var i :| 0 <= i < |ps| && ps[i].number <= n;
      assert ps[0].number <= ps[i].number;
    }
  }

  lemma NumberedRelease(s: State, job: Job)
    requires Numbered(s)
    ensures Numbered(s.(pending := Erase(s.pending, job)))
  {
    EraseIs(s.pending, job);
    var r := Erase(s.pending, job);
    forall i | 0 <= i < |r| ensures r[i] in s.pending { assert r[i] in r; }
  }

  lemma NumberedAfter(s: State, step: Step)
    requires Numbered(s) && Enabled(s, step)
    ensures Numbered(Apply(s, step))
  {
    hide Erase;
    if step.Release? { NumberedRelease(s, step.job); }
  }

  lemma OwnedIsCovered(s: State, n: nat)
    requires Numbered(s) && Owned(s, n)
    ensures Covered(s.pending, n)
  {
    var i :| 0 <= i < |s.pending| && s.pending[i].job == s.wanted[n];
  }

  lemma CoveredLess(ps: seq<Pending>, job: Job, n: nat)
    requires Covered(Erase(ps, job), n)
    ensures Covered(ps, n)
  {
    var r := Erase(ps, job);
    var i :| 0 <= i < |r| && r[i].number <= n;
    EraseIs(ps, job);
    assert r[i] in ps;
  }

  lemma CoveredBefore(ps: seq<Pending>, p: Pending, n: nat)
    requires Covered(ps + [p], n) && n < p.number
    ensures Covered(ps, n)
  {
    var i :| 0 <= i < |ps + [p]| && (ps + [p])[i].number <= n;
    assert (ps + [p])[i] == ps[i];
  }

  lemma SparedAfter(s: State, step: Step)
    requires Numbered(s) && CoveredSpared(s) && Enabled(s, step)
    ensures CoveredSpared(Apply(s, step))
  {
    var s' := Apply(s, step);
    forall c: nat, n: nat | Condemns(s', c, n) ensures n < s'.next && !Covered(s'.pending, n) {
      if !step.Find? || c != step.context { assert Condemns(s, c, n); }
      FrontIsLeast(s.pending, n);
      if step.Release? && Covered(s'.pending, n) { CoveredLess(s.pending, step.job, n); }
      if step.Capture? && Covered(s'.pending, n) { CoveredBefore(s.pending, s'.pending[|s.pending|], n); }
    }
  }

  lemma RanBefore(s: State, step: Step, job: Job)
    requires Enabled(s, step) && IsPending(Apply(s, step).pending, job) && job < s.jobs
    ensures IsPending(s.pending, job)
  {
    var ps := Apply(s, step).pending;
    var i :| 0 <= i < |ps| && ps[i].job == job;
    if step.Release? {
      EraseIs(s.pending, step.job);
      assert ps[i] in s.pending;
    } else {
      assert ps[i] == s.pending[i];
    }
  }

  lemma OwnedAfter(s: State, step: Step)
    requires Numbered(s) && CoveredSpared(s) && OwnedKept(s) && Enabled(s, step)
    ensures OwnedKept(Apply(s, step))
  {
    var s' := Apply(s, step);
    forall n | Owned(s', n) ensures n in s'.disk {
      var i :| 0 <= i < |s'.pending| && s'.pending[i].job == s'.wanted[n];
      if n in s.wanted {
        RanBefore(s, step, s'.pending[i].job);
        assert Owned(s, n);
        OwnedIsCovered(s, n);
      }
      assert step.Remove? ==> Condemns(s, step.context, step.number);
    }
  }

  // ---------------------------------------------------------------- in every run whatever

  lemma {:induction false} AnyRunKeeps(s: State, steps: seq<Step>, end: State)
    requires Numbered(s) && CoveredSpared(s) && OwnedKept(s) && AnyRun(s, steps, end)
    ensures Numbered(end) && CoveredSpared(end) && OwnedKept(end)
    decreases |steps|
  {
    hide Numbered, CoveredSpared, OwnedKept, Enabled, Apply;
    if steps != [] {
      NumberedAfter(s, steps[0]);
      SparedAfter(s, steps[0]);
      OwnedAfter(s, steps[0]);
      AnyRunKeeps(Apply(s, steps[0]), steps[1..], end);
    }
  }

  lemma InitKept(s: State)
    requires Init(s)
    ensures Numbered(s) && CoveredSpared(s) && OwnedKept(s)
  {
  }

  /** In every run whatever: no file numbered since a job still running began is removed, so none whose own job runs. */
  lemma RunningJobsKeepTheirFiles(s: State, steps: seq<Step>, end: State)
    requires Init(s) && AnyRun(s, steps, end)
    ensures forall c, n :: Enabled(end, Remove(c, n)) ==> !Covered(end.pending, n) && !Owned(end, n)
    ensures forall n :: Owned(end, n) ==> n in end.disk
    ensures Sorted(end.pending)
  {
    InitKept(s);
    AnyRunKeeps(s, steps, end);
    forall c, n | Enabled(end, Remove(c, n)) ensures !Covered(end.pending, n) && !Owned(end, n) {
      assert Condemns(end, c, n);
      if Owned(end, n) { OwnedIsCovered(end, n); }
    }
  }

  /** Some scan of the run looked at n while it was wanted and every job still running had begun after it was
      numbered. */
  ghost predicate Exposed(s: State, steps: seq<Step>, n: nat)
    decreases |steps|
  {
    if steps == [] || !Enabled(s, steps[0]) then false
    else
      || (steps[0].Find? && n in steps[0].candidates && n in s.wanted && !Covered(s.pending, n))
      || Exposed(Apply(s, steps[0]), steps[1..], n)
  }

  ghost predicate Condemned(s: State, n: nat)
  {
    exists c :: Condemns(s, c, n)
  }

  /** A scan condemns a needed file exactly if it is wanted and no running job began before it was numbered. */
  lemma CondemnedAfter(s: State, step: Step, n: nat)
    requires Numbered(s) && Enabled(s, step) && Needed(s, n)
    ensures Condemned(Apply(s, step), n) <==>
      Condemned(s, n) || (step.Find? && n in step.candidates && n in s.wanted && !Covered(s.pending, n))
  {
    var s' := Apply(s, step);
    if Condemned(s, n) {
      var c :| Condemns(s, c, n);
      assert Condemns(s', c, n);
    }
    FrontIsLeast(s.pending, n);
    if step.Find? {
      assert n in s.wanted && !Covered(s.pending, n) && n in step.candidates ==> Condemns(s', step.context, n);
    }
    if Condemned(s', n) {
      var c :| Condemns(s', c, n);
      if !step.Find? || c != step.context { assert Condemns(s, c, n); }
    }
  }

  lemma NewIsUncondemned(s: State, step: Step, n: nat)
    requires Numbered(s) && CoveredSpared(s) && Enabled(s, step) && s.next <= n
    ensures !Condemned(s, n) && !Condemned(Apply(s, step), n)
  {
    forall c: nat ensures !Condemns(Apply(s, step), c, n) {
      assert !Condemns(s, c, n);
    }
  }

  lemma {:induction false} NeverAgain(s: State, steps: seq<Step>, end: State, n: nat)
    requires AnyRun(s, steps, end) && n < s.next && !Needed(s, n)
    ensures !Needed(end, n)
    decreases |steps|
  {
    if steps != [] { NeverAgain(Apply(s, steps[0]), steps[1..], end, n); }
  }

  lemma {:induction false} CondemnedIff(s: State, steps: seq<Step>, end: State, n: nat)
    requires Numbered(s) && CoveredSpared(s) && AnyRun(s, steps, end) && Needed(end, n)
    ensures Condemned(end, n) <==> Condemned(s, n) || Exposed(s, steps, n)
    decreases |steps|
  {
    hide Numbered, CoveredSpared, Enabled, Apply, Condemned;
    if steps != [] {
      var s1 := Apply(s, steps[0]);
      NumberedAfter(s, steps[0]);
      SparedAfter(s, steps[0]);
      CondemnedIff(s1, steps[1..], end, n);
      if Needed(s, n) {
        CondemnedAfter(s, steps[0], n);
      } else {
        if n < s.next { NeverAgain(s, steps, end, n); }
        NewIsUncondemned(s, steps[0], n);
      }
    }
  }

  ghost predicate MissingCondemned(s: State)
  {
    forall n :: Needed(s, n) ==> n in s.disk || Condemned(s, n)
  }

  lemma MissingAfter(s: State, step: Step)
    requires Numbered(s) && MissingCondemned(s) && Enabled(s, step)
    ensures MissingCondemned(Apply(s, step))
  {
    hide Condemned, Numbered;
    var s' := Apply(s, step);
    forall n | Needed(s', n) ensures n in s'.disk || Condemned(s', n) {
      if Needed(s, n) {
        CondemnedAfter(s, step, n);
        if step.Remove? && step.number == n { CondemnedNow(s, step.context, n); }
      }
    }
  }

  lemma CondemnedNow(s: State, c: nat, n: nat)
    requires Condemns(s, c, n)
    ensures Condemned(s, n)
  {
  }

  lemma {:induction false} MissingInRuns(s: State, steps: seq<Step>, end: State)
    requires Numbered(s) && MissingCondemned(s) && AnyRun(s, steps, end)
    ensures MissingCondemned(end)
    decreases |steps|
  {
    hide Numbered, MissingCondemned, Enabled, Apply;
    if steps != [] {
      NumberedAfter(s, steps[0]);
      MissingAfter(s, steps[0]);
      MissingInRuns(Apply(s, steps[0]), steps[1..], end);
    }
  }

  /** In every run whatever, a live or wanted file can be removed exactly if some scan looked at it while it was
      wanted and every running job had begun after it was numbered; and none other is gone. */
  lemma RemovableIffExposed(s: State, steps: seq<Step>, end: State, n: nat)
    requires Init(s) && AnyRun(s, steps, end) && Needed(end, n)
    ensures (exists c :: Enabled(end, Remove(c, n))) <==> Exposed(s, steps, n)
    ensures n !in end.disk ==> Exposed(s, steps, n)
  {
    InitKept(s);
    CondemnedIff(s, steps, end, n);
    MissingInRuns(s, steps, end);
    if c :| Enabled(end, Remove(c, n)) { assert Condemns(end, c, n); }
    if Condemned(end, n) {
      var c :| Condemns(end, c, n);
      assert Enabled(end, Remove(c, n));
    }
  }

  // ---------------------------------------------------------------- when a call may return

  /** A file left behind by the return of job: its own, or one that an earlier return left. */
  ghost predicate Left(s: State, job: Job, n: nat)
  {
    n in s.wanted && (s.wanted[n] == job || !IsPending(s.pending, s.wanted[n]))
  }

  /** Another job that began before n was numbered is still running. */
  ghost predicate OlderRuns(s: State, job: Job, n: nat)
  {
    exists i :: 0 <= i < |s.pending| && s.pending[i].job != job && s.pending[i].number <= n
  }

  /** A call returns with its own files installed, given up or left to an older job still running, and so for the files
      left to it. */
  ghost predicate Careful(s: State, step: Step)
  {
    step.Release? ==> forall n :: Left(s, step.job, n) ==> OlderRuns(s, step.job, n)
  }

  ghost predicate WantedCovered(s: State)
  {
    forall n :: n in s.wanted ==> Covered(s.pending, n)
  }

  ghost predicate LiveSpared(s: State)
  {
    forall n :: n in s.live ==> n in s.disk && !Condemned(s, n)
  }

  ghost predicate Inv(s: State)
  {
    Numbered(s) && CoveredSpared(s) && MissingCondemned(s) && WantedCovered(s) && LiveSpared(s)
  }

  lemma UncondemnedWanted(s: State, n: nat)
    requires Inv(s) && n in s.wanted
    ensures n in s.disk && !Condemned(s, n)
  {
    assert Covered(s.pending, n) && Needed(s, n);
  }

  lemma OlderStays(s: State, job: Job, n: nat)
    requires Numbered(s)
    ensures OlderRuns(s, job, n) <==> Covered(Erase(s.pending, job), n)
  {
    hide Erase;
    var r := Erase(s.pending, job);
    EraseIs(s.pending, job);
    if OlderRuns(s, job, n) {
      var i :| 0 <= i < |s.pending| && s.pending[i].job != job && s.pending[i].number <= n;
      assert s.pending[i] in r;
    }
    if Covered(r, n) {
      var i :| 0 <= i < |r| && r[i].number <= n;
      assert r[i] in r;
    }
  }

  /** A file whose own job runs on stays covered by it. */
  lemma OwnJobRuns(s: State, job: Job, n: nat)
    requires Numbered(s) && n in s.wanted && !Left(s, job, n)
    ensures OlderRuns(s, job, n)
  {
    var i :| 0 <= i < |s.pending| && s.pending[i].job == s.wanted[n];
  }

  lemma WantedAfter(s: State, step: Step)
    requires Inv(s) && Enabled(s, step) && Careful(s, step)
    ensures WantedCovered(Apply(s, step))
  {
    var s' := Apply(s, step);
    forall n | n in s'.wanted ensures Covered(s'.pending, n) {
      match step {
        case Create(job) =>
          var i :| 0 <= i < |s.pending| && s.pending[i].job == job;
          assert Covered(s.pending, s.next);
        case Release(job) =>
          if !Left(s, job, n) { OwnJobRuns(s, job, n); }
          OlderStays(s, job, n);
        case Capture =>
          var i :| 0 <= i < |s.pending| && s.pending[i].number <= n;
          assert s'.pending[i] == s.pending[i];
        case _ =>
      }
    }
  }

  lemma LiveAfter(s: State, step: Step)
    requires Inv(s) && Enabled(s, step)
    ensures LiveSpared(Apply(s, step))
  {
    assert forall n :: n in s.wanted ==> n !in s.live;
    hide Numbered, CoveredSpared, MissingCondemned, WantedCovered, Condemned;
    var s' := Apply(s, step);
    forall n | n in s'.live ensures n in s'.disk && !Condemned(s', n) {
      if n in s.wanted { UncondemnedWanted(s, n); }
      CondemnedAfter(s, step, n);
      assert step.Remove? ==> Condemned(s, step.number) by {
        if step.Remove? { CondemnedNow(s, step.context, step.number); }
      }
    }
  }

  lemma StepKeeps(s: State, step: Step)
    requires Inv(s) && Enabled(s, step) && Careful(s, step)
    ensures Inv(Apply(s, step))
  {
    NumberedAfter(s, step);
    SparedAfter(s, step);
    MissingAfter(s, step);
    WantedAfter(s, step);
    LiveAfter(s, step);
  }

  // ---------------------------------------------------------------- runs of careful returns

  ghost predicate Run(s: State, steps: seq<Step>, end: State)
    decreases |steps|
  {
    if steps == [] then end == s
    else Enabled(s, steps[0]) && Careful(s, steps[0]) && Run(Apply(s, steps[0]), steps[1..], end)
  }

  lemma {:induction false} RunKeeps(s: State, steps: seq<Step>, end: State)
    requires Inv(s) && Run(s, steps, end)
    ensures Inv(end)
    decreases |steps|
  {
    hide Inv, Enabled, Apply, Careful;
    if steps != [] {
      StepKeeps(s, steps[0]);
      RunKeeps(Apply(s, steps[0]), steps[1..], end);
    }
  }

  /** Every needed file is there and no scan has condemned it. */
  ghost predicate AllSpared(s: State)
  {
    forall n :: Needed(s, n) ==> n in s.disk && forall c :: !Enabled(s, Remove(c, n))
  }

  lemma InvSpares(s: State)
    requires Inv(s)
    ensures AllSpared(s)
  {
    forall n | Needed(s, n) ensures n in s.disk && forall c :: !Enabled(s, Remove(c, n)) {
      if n in s.wanted { UncondemnedWanted(s, n); }
      forall c: nat ensures !Enabled(s, Remove(c, n)) { assert !Condemns(s, c, n); }
    }
  }

  lemma InitInv(s: State)
    requires Init(s)
    ensures Inv(s)
  {
    InitKept(s);
  }

  ghost predicate NoRelease(steps: seq<Step>)
  {
    forall i :: 0 <= i < |steps| ==> !steps[i].Release?
  }

  /** Whatever happens from here until the next return, every needed file is spared. */
  ghost predicate StaysSpared(s: State)
  {
    forall steps, end :: AnyRun(s, steps, end) && NoRelease(steps) ==> AllSpared(end)
  }

  lemma {:induction false} NoReleaseRuns(s: State, steps: seq<Step>, end: State)
    requires AnyRun(s, steps, end) && NoRelease(steps)
    ensures Run(s, steps, end)
    decreases |steps|
  {
    if steps != [] { NoReleaseRuns(Apply(s, steps[0]), steps[1..], end); }
  }

  lemma InvStaysSpared(s: State)
    requires Inv(s)
    ensures StaysSpared(s)
  {
    hide Inv, AllSpared;
    forall steps, end | AnyRun(s, steps, end) && NoRelease(steps) ensures AllSpared(end) {
      NoReleaseRuns(s, steps, end);
      RunKeeps(s, steps, end);
      InvSpares(end);
    }
  }

  lemma {:induction false} Unused(m: map<nat, Context>) returns (c: nat)
    ensures forall k :: k in m ==> k < c
    decreases |m|
  {
    if m == map[] {
      c := 0;
    } else {
      var k :| k in m;
      var rest := m - {k};
      assert rest.Keys == m.Keys - {k};
      c := Unused(rest);
      c := if c <= k then k + 1 else c;
      forall x | x in m ensures x < c { assert x == k || x in rest; }
    }
  }

  lemma Prepend(s: State, step: Step, steps: seq<Step>, end: State)
    requires Enabled(s, step) && AnyRun(Apply(s, step), steps, end)
    ensures AnyRun(s, [step] + steps, end)
  {
    assert ([step] + steps)[1..] == steps;
  }

  /** A wanted file that no running job covers: a full scan and the commit leave a version with a table that is gone. */
  lemma UncoveredIsLost(s: State, n: nat) returns (steps: seq<Step>, end: State)
    requires Numbered(s) && n in s.wanted && n in s.disk && !Covered(s.pending, n)
    ensures AnyRun(s, steps, end) && NoRelease(steps) && n in end.live && n !in end.disk
  {
    var c := Unused(s.contexts);
    FrontIsLeast(s.pending, n);
    var a := Apply(s, Find(c, s.disk));
    var b := Apply(a, Remove(c, n));
    end := Apply(b, Install(n));
    Prepend(b, Install(n), [], end);
    Prepend(a, Remove(c, n), [Install(n)], end);
    Prepend(s, Find(c, s.disk), [Remove(c, n)] + [Install(n)], end);
    steps := [Find(c, s.disk)] + ([Remove(c, n)] + [Install(n)]);
  }

  /** The return of a call leaves every needed file spared whatever follows, until the next return, exactly if each file
      left behind has an older job still running. */
  lemma ReturnIsSafeIff(s: State, job: Job)
    requires Inv(s) && IsPending(s.pending, job)
    ensures StaysSpared(Apply(s, Release(job))) <==> forall n :: Left(s, job, n) ==> OlderRuns(s, job, n)
  {
    var s' := Apply(s, Release(job));
    if forall n :: Left(s, job, n) ==> OlderRuns(s, job, n) {
      StepKeeps(s, Release(job));
      InvStaysSpared(s');
    } else {
      var n :| Left(s, job, n) && !OlderRuns(s, job, n);
      OlderStays(s, job, n);
      UncondemnedWanted(s, n);
      NumberedAfter(s, Release(job));
      var steps, end := UncoveredIsLost(s', n);
      assert Needed(end, n);
    }
  }

  /** Every needed file is spared at each point of the run, whatever happens there before the next return. */
  ghost predicate SparedThroughout(s: State, steps: seq<Step>)
    decreases |steps|
  {
    StaysSpared(s) && (steps != [] && Enabled(s, steps[0]) ==> SparedThroughout(Apply(s, steps[0]), steps[1..]))
  }

  lemma {:induction false} SparedIff(s: State, steps: seq<Step>, end: State)
    requires Inv(s) && AnyRun(s, steps, end)
    ensures SparedThroughout(s, steps) <==> Run(s, steps, end)
    decreases |steps|
  {
    hide Inv, Apply, StaysSpared;
    InvStaysSpared(s);
    if steps != [] {
      if Careful(s, steps[0]) {
        StepKeeps(s, steps[0]);
        SparedIff(Apply(s, steps[0]), steps[1..], end);
      } else {
        ReturnIsSafeIff(s, steps[0].job);
      }
    }
  }

  /** Over every interleaving of jobs, finds and removals: live and wanted files are spared throughout exactly if
      every call returns with its files installed, given up or left to an older job still running. */
  lemma RunIsSafeIff(s: State, steps: seq<Step>, end: State)
    requires Init(s) && AnyRun(s, steps, end)
    ensures SparedThroughout(s, steps) <==> Run(s, steps, end)
    ensures Run(s, steps, end) ==> AllSpared(end) && end.live + end.wanted.Keys <= end.disk
  {
    InitInv(s);
    SparedIff(s, steps, end);
    if Run(s, steps, end) {
      RunKeeps(s, steps, end);
      InvSpares(end);
      forall n | n in end.live + end.wanted.Keys ensures n in end.disk { assert Needed(end, n); }
    }
  }

  // ---------------------------------------------------------------- calls that finish their own files

  /** Every call returns with none of its own files left. */
  ghost predicate Finishes(s: State, steps: seq<Step>)
    decreases |steps|
  {
    steps != [] && Enabled(s, steps[0]) ==>
      && (steps[0].Release? ==> forall n :: n in s.wanted ==> s.wanted[n] != steps[0].job)
      && Finishes(Apply(s, steps[0]), steps[1..])
  }

  ghost predicate AllOwned(s: State)
  {
    forall n :: n in s.wanted ==> Owned(s, n)
  }

  lemma OwnedStay(s: State, step: Step)
    requires AllOwned(s) && Enabled(s, step)
    requires (step.Release? ==> forall n :: n in s.wanted ==> s.wanted[n] != step.job)
    ensures AllOwned(Apply(s, step))
  {
    var s' := Apply(s, step);
    forall n | n in s'.wanted ensures Owned(s', n) {
      if n in s.wanted && (step.Create? ==> n != s.next) {
        assert Owned(s, n);
        var i :| 0 <= i < |s.pending| && s.pending[i].job == s.wanted[n];
        if step.Release? { EraseIs(s.pending, step.job); }
        assert s.pending[i] in s'.pending;
      }
    }
  }

  lemma {:induction false} FinishesRuns(s: State, steps: seq<Step>, end: State)
    requires AllOwned(s) && AnyRun(s, steps, end) && Finishes(s, steps)
    ensures Run(s, steps, end)
    decreases |steps|
  {
    if steps != [] {
      OwnedStay(s, steps[0]);
      FinishesRuns(Apply(s, steps[0]), steps[1..], end);
      assert Careful(s, steps[0]) by {
        forall n | n in s.wanted ensures Owned(s, n) { }
      }
    }
  }

  /** If every call finishes its own files before it returns, no needed file is ever removed. */
  lemma FinishedCallsAreSafe(s: State, steps: seq<Step>, end: State)
    requires Init(s) && AnyRun(s, steps, end) && Finishes(s, steps)
    ensures SparedThroughout(s, steps) && AllSpared(end)
  {
    FinishesRuns(s, steps, end);
    RunIsSafeIff(s, steps, end);
  }

  // ---------------------------------------------------------------- a flush that fails

  /** From a point where flush j is older than flush j + 1, whose file n is written: the younger returns uncommitted,
      the older fails and returns. */
  lemma LateSteps(s: State, j: Job, m: nat, n: nat, end: State) returns (steps: seq<Step>)
    requires s.pending == [Pending(j, m), Pending(j + 1, m)] && s.wanted == map[m := j, n := j + 1] && m < n
    requires end == s.(pending := [], wanted := map[n := j + 1])
    ensures AnyRun(s, steps, end)
  {
    var a := s.(pending := [Pending(j, m)]);
    var b := a.(wanted := map[n := j + 1]);
    assert Erase(s.pending, j + 1) == a.pending by {
      assert s.pending[1..] == [Pending(j + 1, m)];
      assert Erase([Pending(j + 1, m)], j + 1) == [];
    }
    assert s.pending[1].job == j + 1 && Apply(s, Release(j + 1)) == a;
    assert Apply(a, Abandon(m)) == b;
    assert b.pending[0].job == j && Apply(b, Release(j)) == end;
    Prepend(b, Release(j), [], end);
    Prepend(a, Abandon(m), [Release(j)], end);
    steps := [Abandon(m)] + [Release(j)];
    Prepend(s, Release(j + 1), steps, end);
    steps := [Release(j + 1)] + steps;
  }

  lemma {:induction false} Joined(s: State, a: seq<Step>, mid: State, b: seq<Step>, end: State)
    requires AnyRun(s, a, mid) && AnyRun(mid, b, end)
    ensures AnyRun(s, a + b, end)
    decreases |a|
  {
    if a == [] {
      assert a + b == b;
    } else {
      assert (a + b)[1..] == a[1..] + b;
      Joined(Apply(s, a[0]), a[1..], mid, b, end);
    }
  }

  /** Two flushes begin and write files m and m + 1; then as above. */
  lemma EarlySteps(s: State, j: Job, m: nat, end: State) returns (steps: seq<Step>)
    requires Init(s) && m == s.next && m + 2 < NO_LIMIT && j == s.jobs
    requires end == State(m + 2, j + 2, [], s.disk + {m} + {m + 1}, s.live, map[m + 1 := j + 1], map[])
    ensures AnyRun(s, steps, end)
  {
    var n := m + 1;
    var a := s.(pending := [Pending(j, m)], jobs := j + 1);
    var b := s.(pending := [Pending(j, m), Pending(j + 1, m)], jobs := j + 2);
    var c := b.(next := n, disk := s.disk + {m}, wanted := map[m := j]);
    var d := c.(next := n + 1, disk := c.disk + {n}, wanted := map[m := j, n := j + 1]);
    assert Apply(s, Capture) == a && Apply(a, Capture) == b;
    assert b.pending[0].job == j && Apply(b, Create(j)) == c;
    assert c.pending[1].job == j + 1 && Apply(c, Create(j + 1)) == d;
    steps := LateSteps(d, j, m, n, end);
    Prepend(c, Create(j + 1), steps, end);
    steps := [Create(j + 1)] + steps;
    Prepend(b, Create(j), steps, end);
    steps := [Create(j)] + steps;
    Prepend(a, Capture, steps, end);
    steps := [Capture] + steps;
    Prepend(s, Capture, steps, end);
    steps := [Capture] + steps;
  }

  /** It happens: an older flush fails after a younger one finished and returned without its file being committed.
      The scan after the failure removes that file, and the commit then installs a table that is gone. */
  lemma FailedFlushRemovesAFile(s: State) returns (steps: seq<Step>, end: State, n: nat)
    requires Init(s) && s.next + 2 < NO_LIMIT
    ensures AnyRun(s, steps, end) && n in end.live && n !in end.disk
  {
    var m, j := s.next, s.jobs;
    n := m + 1;
    var mid := State(m + 2, j + 2, [], s.disk + {m} + {n}, s.live, map[n := j + 1], map[]);
    steps := EarlySteps(s, j, m, mid);
    var more, last := UncoveredIsLost(mid, n);
    Joined(s, steps, mid, more, last);
    steps, end := steps + more, last;
  }
}
