/** Manual compactions beside automatic ones (db/db_impl.cc: RunManualCompaction, MaybeScheduleFlushOrCompaction,
    BackgroundCallCompaction and BackgroundCompaction), as steps under the mutex. */
module Manual {

  type Caller = nat
  type Job = nat

  /** A thread inside RunManualCompaction: waiting for scheduled compactions to drain, or in the posting loop. */
  datatype Where = Draining | Posting

  /** A request; posts and takes count how often it was posted and how often a background job took it up. */
  datatype Request = Request(at: Where, done: bool, inProgress: bool, posts: nat, takes: nat)

  /** A BGWorkCompaction call: queued, inside BackgroundCompaction, or past it. Queued remembers the posting, if any,
      that scheduled it; the code does not. */
  datatype Work = QueuedAuto | QueuedFor(c: Caller) | Automatic | Serving(c: Caller) | Ending

  datatype Posted = Nobody | By(c: Caller)

  datatype State = State(callers: map<Caller, Request>, jobs: map<Job, Work>, manual: Posted, manualOnly: nat,
    scheduled: nat, limit: nat)

  datatype Step =
    | Enter(c: Caller) | Proceed(c: Caller) | Post(c: Caller, j: Job) | Leave(c: Caller)
    | Schedule(j: Job)
    | Begin(j: Job, error: bool) | Finish(j: Job, all: bool) | End(j: Job)

  predicate Enabled(s: State, step: Step)
  {
    match step
    case Enter(c) => c !in s.callers
    case Proceed(c) => c in s.callers && s.callers[c].at.Draining? && s.scheduled == 0
    case Post(c, j) =>
      c in s.callers && s.callers[c].at.Posting? && !s.callers[c].done && s.manual.Nobody? && j !in s.jobs
    case Leave(c) => c in s.callers && s.callers[c].at.Posting? && s.callers[c].done
    case Schedule(j) => s.manualOnly == 0 && s.scheduled < s.limit && j !in s.jobs
    case Begin(j, _) => j in s.jobs && (s.jobs[j].QueuedAuto? || s.jobs[j].QueuedFor?)
    case Finish(j, _) => j in s.jobs && (s.jobs[j].Automatic? || s.jobs[j].Serving?)
    case End(j) => j in s.jobs && s.jobs[j].Ending?
  }

  function With(s: State, c: Caller, r: Request): State
  {
    s.(callers := s.callers[c := r])
  }

  function Work'(s: State, j: Job, w: Work): State
  {
    s.(jobs := s.jobs[j := w])
  }

  /** BackgroundCompaction's start: error stands for a background error, or a failed flush before compacting. */
  function Start(s: State, j: Job, error: bool): State
  {
    match s.manual
    case By(c) =>
      if c in s.callers && !s.callers[c].inProgress then
        var r := s.callers[c].(takes := s.callers[c].takes + 1);
        if error then Work'(With(s, c, r.(done := true)), j, Ending).(manual := Nobody)
        else Work'(With(s, c, r.(inProgress := true)), j, Serving(c))
      else Work'(s, j, Ending)
    case Nobody => Work'(s, j, if error then Ending else Automatic)
  }

  function Apply(s: State, step: Step): State
    requires Enabled(s, step)
  {
    match step
    case Enter(c) => With(s, c, Request(Draining, false, false, 0, 0)).(manualOnly := s.manualOnly + 1)
    case Proceed(c) => With(s, c, s.callers[c].(at := Posting))
    case Post(c, j) =>
      Work'(With(s, c, s.callers[c].(posts := s.callers[c].posts + 1)), j, QueuedFor(c)).(
        manual := By(c), scheduled := s.scheduled + 1)
    case Leave(c) => s.(callers := s.callers - {c}, manualOnly := if s.manualOnly > 0 then s.manualOnly - 1 else 0)
    case Schedule(j) => Work'(s, j, QueuedAuto).(scheduled := s.scheduled + 1)
    case Begin(j, error) => Start(s, j, error)
    case Finish(j, all) =>
      if s.jobs[j].Automatic? || s.manual.Nobody? || s.manual.c !in s.callers then Work'(s, j, Ending)
      else
        var m := s.manual.c;
        Work'(With(s, m, s.callers[m].(done := s.callers[m].done || all, inProgress := false)), j, Ending).(
          manual := Nobody)
    case End(j) => s.(jobs := s.jobs - {j}, scheduled := if s.scheduled > 0 then s.scheduled - 1 else 0)
  }

  /** The source's assertions, and what it takes for granted: a job scheduled for a request finds that request posted
      and not taken, an automatic one finds none, and a request being served is still the posted one. */
  predicate Asserted(s: State, step: Step)
    requires Enabled(s, step)
  {
    match step
    case Begin(j, _) =>
      && s.scheduled > 0
      && (s.jobs[j].QueuedAuto? ==> s.manual.Nobody?)
      && (s.jobs[j].QueuedFor? ==>
          s.manual == By(s.jobs[j].c) && s.jobs[j].c in s.callers && !s.callers[s.jobs[j].c].inProgress)
    case Finish(j, _) =>
      s.jobs[j].Serving? ==>
        s.manual == By(s.jobs[j].c) && s.jobs[j].c in s.callers && s.callers[s.jobs[j].c].inProgress
    case End(j) => s.scheduled > 0
    case Post(c, j) => s.manualOnly > 0
    case Leave(c) => s.manualOnly > 0 && !s.callers[c].inProgress && s.callers[c].posts == s.callers[c].takes
    case _ => true
  }

  // ---------------------------------------------------------------- what every step keeps

  /** Somebody is past draining: from then on only requests are worked on. */
  ghost predicate Exclusive(s: State)
  {
    exists c :: c in s.callers && s.callers[c].at.Posting?
  }

  /** A job belongs to the posted request until it has served it. */
  ghost predicate JobOk(s: State, j: Job)
    requires j in s.jobs
  {
    match s.jobs[j]
    case QueuedAuto => s.manual.Nobody? && !Exclusive(s)
    case Automatic => s.manual.Nobody? && !Exclusive(s)
    case QueuedFor(c) => s.manual == By(c) && c in s.callers && !s.callers[c].inProgress && !s.callers[c].done
    case Serving(c) => s.manual == By(c) && c in s.callers && s.callers[c].inProgress && !s.callers[c].done
    case Ending => true
  }

  ghost predicate Works(s: State, j: Job)
    requires j in s.jobs
  {
    s.jobs[j].QueuedFor? || s.jobs[j].Serving?
  }

  ghost predicate OnlyWorks(s: State, k: Job)
  {
    forall j :: j in s.jobs && Works(s, j) ==> j == k
  }

  /** Each request: in progress only while posted, and taken once per posting. */
  ghost predicate RequestOk(s: State, c: Caller)
    requires c in s.callers
  {
    var r := s.callers[c];
    && (s.manual == By(c) ==> r.at.Posting? && !r.done) && (r.inProgress ==> s.manual == By(c))
    && (r.at.Draining? ==> !r.done && r.posts == 0)
    && r.posts == r.takes + (if s.manual == By(c) && !r.inProgress then 1 else 0)
  }

  /** The posted request has exactly one job. */
  ghost predicate OneWorks(s: State)
  {
    && (s.manual.By? ==> s.manual.c in s.callers && exists j :: j in s.jobs && Works(s, j))
    && (forall j, k :: j in s.jobs && k in s.jobs && Works(s, j) && Works(s, k) ==> j == k)
  }

  ghost predicate Counted(s: State)
  {
    s.scheduled == |s.jobs| && s.manualOnly == |s.callers|
  }

  ghost predicate Inv(s: State)
  {
    && Counted(s) && OneWorks(s)
    && (forall j :: j in s.jobs ==> JobOk(s, j)) && (forall c :: c in s.callers ==> RequestOk(s, c))
  }

  lemma StepAsserted(s: State, step: Step)
    requires Inv(s) && Enabled(s, step)
    ensures Asserted(s, step)
  {
    match step {
      case Begin(j, _) => assert JobOk(s, j) && j in s.jobs.Keys;
      case Finish(j, _) => assert JobOk(s, j);
      case Leave(c) => assert RequestOk(s, c) && c in s.callers.Keys;
      case Post(c, _) => assert c in s.callers.Keys;
      case End(j) => assert j in s.jobs.Keys;
      case _ =>
    }
  }

  lemma Sizes<T>(m: map<nat, T>, k: nat, v: T)
    ensures |m[k := v]| == |m| + (if k in m then 0 else 1)
    ensures k in m ==> |m| > 0 && |m - {k}| == |m| - 1
  {
    assert m[k := v].Keys == m.Keys + {k};
    assert (m - {k}).Keys == m.Keys - {k};
    assert |m| == |m.Keys| && |m[k := v]| == |m[k := v].Keys| && |m - {k}| == |(m - {k}).Keys|;
  }

  lemma CountedAfter(s: State, step: Step)
    requires Counted(s) && Enabled(s, step) && Asserted(s, step)
    ensures Counted(Apply(s, step))
  {
    if step.Begin? || step.Finish? { CountedWork(s, step); } else { CountedCalls(s, step); }
  }

  lemma CountedWork(s: State, step: Step)
    requires Counted(s) && Enabled(s, step) && (step.Begin? || step.Finish?)
    ensures Counted(Apply(s, step))
  {
    var s' := Apply(s, step);
    assert s'.jobs == s.jobs[step.j := s'.jobs[step.j]];
    Sizes(s.jobs, step.j, s'.jobs[step.j]);
    if s.manual.By? && s.manual.c in s.callers {
      assert s'.callers == s.callers[s.manual.c := s'.callers[s.manual.c]];
      Sizes(s.callers, s.manual.c, s'.callers[s.manual.c]);
    }
  }

  lemma CountedCalls(s: State, step: Step)
    requires Counted(s) && Enabled(s, step) && Asserted(s, step) && !step.Begin? && !step.Finish?
    ensures Counted(Apply(s, step))
  {
    var r, w := Request(Draining, false, false, 0, 0), Ending;
    match step {
      case Enter(c) => Sizes(s.callers, c, r);
      case Proceed(c) => Sizes(s.callers, c, s.callers[c].(at := Posting));
      case Post(c, j) =>
        Sizes(s.jobs, j, QueuedFor(c));
        Sizes(s.callers, c, s.callers[c].(posts := s.callers[c].posts + 1));
      case Leave(c) => Sizes(s.callers, c, r);
      case Schedule(j) => Sizes(s.jobs, j, QueuedAuto);
      case End(j) => Sizes(s.jobs, j, w);
    }
  }

  lemma OneWorksAfter(s: State, step: Step)
    requires Inv(s) && Enabled(s, step)
    ensures OneWorks(Apply(s, step))
  {
    hide Counted, RequestOk;
    StepAsserted(s, step);
    var s' := Apply(s, step);
    if s'.manual.By? {
      if step.Post? {
        assert Works(s', step.j);
      } else if step.Begin? {
        assert JobOk(s, step.j);
        assert Works(s', step.j);
      } else {
        var j :| j in s.jobs && Works(s, j);
        assert JobOk(s, j) && Works(s', j);
      }
    }
  }

  lemma StepKeeps(s: State, step: Step)
    requires Inv(s) && Enabled(s, step)
    ensures Inv(Apply(s, step))
  {
    StepAsserted(s, step);
    CountedAfter(s, step);
    OneWorksAfter(s, step);
    forall c | c in Apply(s, step).callers ensures RequestOk(Apply(s, step), c) { RequestAfter(s, step, c); }
    if step.Proceed? {
      assert s.jobs.Keys == {};
    } else {
      forall j | j in Apply(s, step).jobs ensures JobOk(Apply(s, step), j) { JobAfter(s, step, j); }
    }
  }

  lemma RequestAfter(s: State, step: Step, c: Caller)
    requires Inv(s) && Enabled(s, step) && Asserted(s, step) && c in Apply(s, step).callers
    ensures RequestOk(Apply(s, step), c)
  {
    hide Counted;
    if c in s.callers { assert RequestOk(s, c); }
    if step.Begin? || step.Finish? { assert JobOk(s, step.j); }
  }

  lemma JobAfter(s: State, step: Step, j: Job)
    requires Inv(s) && Enabled(s, step) && Asserted(s, step) && j in Apply(s, step).jobs && !step.Proceed?
    ensures JobOk(Apply(s, step), j)
  {
    if j in s.jobs { assert JobOk(s, j); }
    if step.Schedule? { assert s.callers.Keys == {}; }
  }

  // ---------------------------------------------------------------- every run

  ghost predicate Init(s: State)
  {
    s.callers == map[] && s.jobs == map[] && s.manual.Nobody? && s.manualOnly == 0 && s.scheduled == 0
  }

  ghost predicate Run(s: State, steps: seq<Step>, end: State)
    decreases |steps|
  {
    if steps == [] then end == s else Enabled(s, steps[0]) && Run(Apply(s, steps[0]), steps[1..], end)
  }

  lemma {:induction false} RunKeeps(s: State, steps: seq<Step>, end: State)
    requires Inv(s) && Run(s, steps, end)
    ensures Inv(end)
    decreases |steps|
  {
    hide Inv, Enabled, Apply;
    if steps != [] {
      StepKeeps(s, steps[0]);
      RunKeeps(Apply(s, steps[0]), steps[1..], end);
    }
  }

  /** With any number of callers: while a request is posted or served, and as soon as any caller is past draining, no
      automatic compaction is scheduled or running, and exactly one background job works for the posted request. */
  lemma ManualExcludesAutomatic(s: State, steps: seq<Step>, end: State)
    requires Init(s) && Run(s, steps, end) && (end.manual.By? || Exclusive(end))
    ensures forall j :: j in end.jobs ==> !end.jobs[j].QueuedAuto? && !end.jobs[j].Automatic?
    ensures end.manual.By? ==>
      exists k :: k in end.jobs && Works(end, k) && end.jobs[k].c == end.manual.c && OnlyWorks(end, k)
  {
    RunKeeps(s, steps, end);
    if end.manual.By? {
      var k :| k in end.jobs && Works(end, k);
      assert JobOk(end, k);
    }
  }

  /** The assertions hold in every run: the job scheduled for a posting is the one that takes it, no job finds a request
      already taken, and a caller leaves with every posting taken exactly once. */
  lemma RunAsserted(s: State, steps: seq<Step>, end: State, step: Step)
    requires Init(s) && Run(s, steps, end) && Enabled(end, step)
    ensures Asserted(end, step)
  {
    RunKeeps(s, steps, end);
    StepAsserted(end, step);
  }

  // ---------------------------------------------------------------- what a run leaves, from its steps alone

  datatype Life = Gone | Is(work: Work)

  /** What has become of job j: only its own steps matter, and who posted it. */
  function JobLife(steps: seq<Step>, j: Job): Life
  {
    if steps == [] then Gone
    else
      var n := |steps| - 1;
      var was := JobLife(steps[..n], j);
      match steps[n]
      case Post(c, i) => if i == j then Is(QueuedFor(c)) else was
      case Schedule(i) => if i == j then Is(QueuedAuto) else was
      case Begin(i, error) =>
        if i != j then was
        else if error then Is(Ending)
        else if was.Is? && was.work.QueuedFor? then Is(Serving(was.work.c)) else Is(Automatic)
      case Finish(i, _) => if i == j then Is(Ending) else was
      case End(i) => if i == j then Gone else was
      case _ => was
  }

  /** Step k ends a take of c's request with nothing left to do: the whole range is compacted, or there was an error. */
  predicate EndsWhole(steps: seq<Step>, k: nat, c: Caller)
    requires k < |steps|
  {
    match steps[k]
    case Begin(j, error) => error && JobLife(steps[..k], j) == Is(QueuedFor(c))
    case Finish(j, all) => all && JobLife(steps[..k], j) == Is(Serving(c))
    case _ => false
  }

  datatype Stand = Outside | Inside(at: Where, done: bool)

  /** Where caller c stands. */
  function CallerLife(steps: seq<Step>, c: Caller): Stand
  {
    if steps == [] then Outside
    else
      var n := |steps| - 1;
      var was := CallerLife(steps[..n], c);
      match steps[n]
      case Enter(d) => if d == c then Inside(Draining, false) else was
      case Proceed(d) => if d == c then Inside(Posting, false) else was
      case Leave(d) => if d == c then Outside else was
      case _ => if was.Inside? && EndsWhole(steps, n, c) then Inside(was.at, true) else was
  }

  lemma {:induction false} RunLast(s: State, steps: seq<Step>, end: State) returns (mid: State)
    requires Run(s, steps, end) && steps != []
    ensures var n := |steps| - 1;
      Run(s, steps[..n], mid) && Enabled(mid, steps[n]) && end == Apply(mid, steps[n])
    decreases |steps|
  {
    var n := |steps| - 1;
    if n == 0 {
      mid := s;
    } else {
      mid := RunLast(Apply(s, steps[0]), steps[1..], end);
      assert steps[1..][..n - 1] == steps[..n][1..];
    }
  }

  ghost predicate JobFollows(s: State, steps: seq<Step>, j: Job)
  {
    JobLife(steps, j) == if j in s.jobs then Is(s.jobs[j]) else Gone
  }

  ghost predicate CallerFollows(s: State, steps: seq<Step>, c: Caller)
  {
    CallerLife(steps, c) == if c in s.callers then Inside(s.callers[c].at, s.callers[c].done) else Outside
  }

  ghost predicate Follows(s: State, steps: seq<Step>)
  {
    (forall j :: JobFollows(s, steps, j)) && (forall c :: CallerFollows(s, steps, c))
  }

  lemma FollowsAfter(s: State, steps: seq<Step>)
    requires steps != [] && Inv(s) && Follows(s, steps[..|steps| - 1]) && Enabled(s, steps[|steps| - 1])
    ensures Follows(Apply(s, steps[|steps| - 1]), steps)
  {
    var n := |steps| - 1;
    var step := steps[n];
    StepAsserted(s, step);
    var s' := Apply(s, step);
    forall j ensures JobFollows(s', steps, j) { assert JobFollows(s, steps[..n], j); }
    if step.Begin? || step.Finish? { assert JobFollows(s, steps[..n], step.j) && JobOk(s, step.j); }
    forall c ensures CallerFollows(s', steps, c) {
      assert CallerFollows(s, steps[..n], c);
      if c in s.callers { assert RequestOk(s, c); }
    }
  }

  lemma {:induction false} RunFollows(s: State, steps: seq<Step>, end: State)
    requires Init(s) && Run(s, steps, end)
    ensures Inv(end) && Follows(end, steps) && end.limit == s.limit
    decreases |steps|
  {
    assert Inv(s);
    hide Inv, Follows, Enabled, Apply;
    RunKeeps(s, steps, end);
    if steps == [] {
      InitFollows(s);
    } else {
      var mid := RunLast(s, steps, end);
      RunFollows(s, steps[..|steps| - 1], mid);
      FollowsAfter(mid, steps);
      SameLimit(mid, steps[|steps| - 1]);
    }
  }

  lemma InitFollows(s: State)
    requires Init(s)
    ensures Follows(s, [])
  {
  }

  lemma SameLimit(s: State, step: Step)
    requires Enabled(s, step)
    ensures Apply(s, step).limit == s.limit
  {
  }

  /** Some job is queued for a posted request or serves it. */
  ghost predicate Taken(steps: seq<Step>)
  {
    exists j :: JobLife(steps, j).Is? && (JobLife(steps, j).work.QueuedFor? || JobLife(steps, j).work.Serving?)
  }

  ghost predicate NoJobs(steps: seq<Step>)
  {
    forall j :: JobLife(steps, j).Gone?
  }

  ghost predicate NobodyInside(steps: seq<Step>)
  {
    forall c :: CallerLife(steps, c).Outside?
  }

  /** When each step can be taken after a run, from its steps alone. */
  ghost predicate Allowed(s: State, steps: seq<Step>, step: Step)
  {
    match step
    case Enter(c) => CallerLife(steps, c).Outside?
    case Proceed(c) => CallerLife(steps, c) == Inside(Draining, false) && NoJobs(steps)
    case Post(c, j) => CallerLife(steps, c) == Inside(Posting, false) && !Taken(steps) && JobLife(steps, j).Gone?
    case Leave(c) => CallerLife(steps, c) == Inside(Posting, true)
    case Schedule(j) => NobodyInside(steps) && JobLife(steps, j).Gone? && s.scheduled < s.limit
    case Begin(j, _) =>
      JobLife(steps, j) == Is(QueuedAuto) || (JobLife(steps, j).Is? && JobLife(steps, j).work.QueuedFor?)
    case Finish(j, _) =>
      JobLife(steps, j) == Is(Automatic) || (JobLife(steps, j).Is? && JobLife(steps, j).work.Serving?)
    case End(j) => JobLife(steps, j) == Is(Ending)
  }

  lemma TakenIff(s: State, steps: seq<Step>)
    requires Inv(s) && Follows(s, steps)
    ensures Taken(steps) <==> s.manual.By?
  {
    if s.manual.By? {
      var j :| j in s.jobs && Works(s, j);
      assert JobFollows(s, steps, j);
    }
    if Taken(steps) {
      var j :| JobLife(steps, j).Is? && (JobLife(steps, j).work.QueuedFor? || JobLife(steps, j).work.Serving?);
      assert JobFollows(s, steps, j) && JobOk(s, j);
    }
  }

  lemma NoneIff(s: State, steps: seq<Step>)
    requires Inv(s) && Follows(s, steps)
    ensures NoJobs(steps) <==> s.scheduled == 0
    ensures NobodyInside(steps) <==> s.manualOnly == 0
  {
    hide JobLife, CallerLife;
    assert s.scheduled == 0 <==> s.jobs.Keys == {} by { assert |s.jobs| == |s.jobs.Keys|; }
    assert s.manualOnly == 0 <==> s.callers.Keys == {} by { assert |s.callers| == |s.callers.Keys|; }
    forall j ensures JobLife(steps, j).Gone? <==> j !in s.jobs.Keys { assert JobFollows(s, steps, j); }
    forall c ensures CallerLife(steps, c).Outside? <==> c !in s.callers.Keys { assert CallerFollows(s, steps, c); }
    if j :| j in s.jobs.Keys { assert !NoJobs(steps); }
    if c :| c in s.callers.Keys { assert !NobodyInside(steps); }
  }

  /** In every run, each step can be taken exactly as the lives of its caller and its job say. */
  lemma EnabledIff(s: State, steps: seq<Step>, end: State, step: Step)
    requires Init(s) && Run(s, steps, end)
    ensures Enabled(end, step) <==> Allowed(end, steps, step)
    ensures end.limit == s.limit && end.scheduled == |end.jobs| && forall j :: j in end.jobs <==> JobLife(steps, j).Is?
  {
    RunFollows(s, steps, end);
    TakenIff(end, steps);
    NoneIff(end, steps);
    if step.Proceed? && step.c in end.callers { assert RequestOk(end, step.c); }
    forall j ensures JobFollows(end, steps, j) { }
    forall c ensures CallerFollows(end, steps, c) { }
    assert Counted(end);
    hide JobLife, CallerLife, Run, NoJobs, NobodyInside, Taken;
    forall j ensures j in end.jobs <==> JobLife(steps, j).Is? { assert JobFollows(end, steps, j); }
    hide Inv, Follows;
    match step {
      case Proceed(c) => assert CallerFollows(end, steps, c);
      case Post(c, j) => assert CallerFollows(end, steps, c) && JobFollows(end, steps, j);
      case Enter(c) => assert CallerFollows(end, steps, c);
      case Leave(c) => assert CallerFollows(end, steps, c);
      case Schedule(j) => assert JobFollows(end, steps, j);
      case Begin(j, _) => assert JobFollows(end, steps, j);
      case Finish(j, _) => assert JobFollows(end, steps, j);
      case End(j) => assert JobFollows(end, steps, j);
    }
  }

  // ---------------------------------------------------------------- when a caller returns

  /** Some take of c's request ended whole and c has not left since. */
  ghost predicate LastTakeWhole(steps: seq<Step>, c: Caller)
  {
    exists k :: 0 <= k < |steps| && EndsWhole(steps, k, c) && Leave(c) !in steps[k..]
  }

  lemma WholePrefix(steps: seq<Step>, n: nat, k: nat, c: Caller)
    requires k < n <= |steps|
    ensures EndsWhole(steps[..n], k, c) <==> EndsWhole(steps, k, c)
  {
    assert steps[..n][..k] == steps[..k];
  }

  /** Only a caller in the posting loop has a job that could end its take. */
  lemma WholeIsPosting(s: State, steps: seq<Step>, c: Caller)
    requires steps != [] && Inv(s) && Follows(s, steps[..|steps| - 1]) && EndsWhole(steps, |steps| - 1, c)
    ensures CallerLife(steps[..|steps| - 1], c).Inside? && CallerLife(steps[..|steps| - 1], c).at.Posting?
  {
    var n := |steps| - 1;
    assert JobFollows(s, steps[..n], steps[n].j) && CallerFollows(s, steps[..n], c);
    assert JobOk(s, steps[n].j) && RequestOk(s, c);
  }

  lemma LastWhole(steps: seq<Step>, c: Caller)
    requires steps != []
    ensures var n := |steps| - 1;
      LastTakeWhole(steps, c) <==> EndsWhole(steps, n, c) || (LastTakeWhole(steps[..n], c) && steps[n] != Leave(c))
  {
    var n := |steps| - 1;
    assert steps[n..] == [steps[n]];
    forall k | 0 <= k < n ensures Leave(c) in steps[k..] <==> Leave(c) in steps[..n][k..] || steps[n] == Leave(c) {
      assert steps[k..] == steps[..n][k..] + [steps[n]];
      WholePrefix(steps, n, k, c);
    }
    if LastTakeWhole(steps[..n], c) && steps[n] != Leave(c) {
      var k :| 0 <= k < n && EndsWhole(steps[..n], k, c) && Leave(c) !in steps[..n][k..];
      WholePrefix(steps, n, k, c);
    }
    if LastTakeWhole(steps, c) && !EndsWhole(steps, n, c) {
      var k :| 0 <= k < |steps| && EndsWhole(steps, k, c) && Leave(c) !in steps[k..];
      WholePrefix(steps, n, k, c);
    }
  }

  lemma {:induction false} DoneIffWhole(s: State, steps: seq<Step>, end: State, c: Caller)
    requires Init(s) && Run(s, steps, end)
    ensures CallerLife(steps, c) == Inside(Posting, true) <==> LastTakeWhole(steps, c)
    decreases |steps|
  {
    if steps != [] {
      var n := |steps| - 1;
      var mid := RunLast(s, steps, end);
      RunFollows(s, steps[..n], mid);
      DoneIffWhole(s, steps[..n], mid, c);
      LastWhole(steps, c);
      hide LastTakeWhole, Run, Inv, JobLife;
      if EndsWhole(steps, n, c) { WholeIsPosting(mid, steps, c); }
      assert CallerFollows(mid, steps[..n], c);
    }
  }

  /** Over every run, a caller can return exactly if a take of its request ended with the whole range compacted, or
      with an error, since it entered; after a take that ended otherwise it can only post again. */
  lemma CallersReturn(s: State, steps: seq<Step>, end: State, c: Caller, j: Job)
    requires Init(s) && Run(s, steps, end)
    ensures Enabled(end, Leave(c)) <==> LastTakeWhole(steps, c)
    ensures JobLife(steps, j) == Is(Serving(c)) ==>
      && Enabled(end, Finish(j, false)) && !Enabled(Apply(end, Finish(j, false)), Leave(c))
      && forall i :: i !in end.jobs ==> Enabled(Apply(end, Finish(j, false)), Post(c, i))
  {
    DoneIffWhole(s, steps, end, c);
    RunFollows(s, steps, end);
    assert CallerFollows(end, steps, c) && JobFollows(end, steps, j);
    hide LastTakeWhole, Run, JobLife, CallerLife, EndsWhole;
    if JobLife(steps, j) == Is(Serving(c)) { assert JobOk(end, j) && RequestOk(end, c); }
  }

  lemma {:induction false} RunUpTo(s: State, steps: seq<Step>, end: State, i: nat) returns (mid: State)
    requires Run(s, steps, end) && i < |steps|
    ensures Run(s, steps[..i], mid) && Enabled(mid, steps[i])
    decreases |steps|
  {
    if i == 0 {
      mid := s;
    } else {
      mid := RunUpTo(Apply(s, steps[0]), steps[1..], end, i - 1);
      assert steps[1..][..i - 1] == steps[..i][1..];
    }
  }

  /** So no caller returns before a take of its request has ended so. */
  lemma ReturnedWhole(s: State, steps: seq<Step>, end: State, c: Caller, i: nat)
    requires Init(s) && Run(s, steps, end) && i < |steps| && steps[i] == Leave(c)
    ensures exists k :: 0 <= k < i && EndsWhole(steps, k, c)
  {
    var mid := RunUpTo(s, steps, end, i);
    CallersReturn(s, steps[..i], mid, c, 0);
    var k :| 0 <= k < i && EndsWhole(steps[..i], k, c);
    WholePrefix(steps, i, k, c);
  }
}
