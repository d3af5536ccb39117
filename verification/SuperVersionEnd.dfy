/** Nothing in the SuperVersion cache gets stuck and nothing leaks: from every reachable state all calls, installs and
    users can finish, and then only the installed SuperVersion is left (db/column_family.cc). */
module SuperVersionEnd {
  import opened SuperVersions

  lemma RunCons(s: State, step: Step, steps: seq<Step>, end: State)
    requires Enabled(s, step) && Run(Apply(s, step), steps, end)
    ensures Run(s, [step] + steps, end)
  {
    hide Enabled, Apply;
    assert ([step] + steps)[1..] == steps;
  }

  lemma {:induction false} RunJoin(s: State, a: seq<Step>, mid: State, b: seq<Step>, end: State)
    requires Run(s, a, mid) && Run(mid, b, end)
    ensures Run(s, a + b, end)
    decreases |a|
  {
    hide Enabled, Apply;
    if a == [] {
      assert a + b == b;
    } else {
      assert (a + b)[1..] == a[1..] + b;
      RunJoin(Apply(s, a[0]), a[1..], mid, b, end);
    }
  }

  // ---------------------------------------------------------------- an install finishes

  function StageRank(stage: Stage): nat
  {
    match stage case Quiet => 0 case Unreffing(_, _, _) => 1 case Scraping(_, _, _) => 2 case Bumped(_) => 3
      case Pointed(_) => 4
  }

  ghost function StageLeft(stage: Stage): nat
  {
    match stage
    case Scraping(_, todo, _) => |todo|
    case Unreffing(_, taken, done) => if done <= |taken| then |taken| - done else 0
    case _ => 0
  }

  /** The next step of an install in progress. */
  ghost function InstallStep(s: State): Step
    requires !s.stage.Quiet?
  {
    match s.stage
    case Pointed(_) => Bump
    case Bumped(_) => Number
    case Scraping(_, todo, _) => if todo == {} then EndScrape else var t :| t in todo; Scrape(t)
    case Unreffing(_, taken, done) => if done < |taken| then UnrefTaken else UnrefOld
  }

  lemma InstallGoesOn(s: State)
    requires TakenOk(s) && !s.stage.Quiet?
    ensures Enabled(s, InstallStep(s))
    ensures var s' := Apply(s, InstallStep(s));
      && s'.current == s.current
      && (StageRank(s'.stage) < StageRank(s.stage) ||
          (StageRank(s'.stage) == StageRank(s.stage) && StageLeft(s'.stage) < StageLeft(s.stage)))
  {
  }

  lemma {:induction false} FinishInstall(s: State) returns (steps: seq<Step>, end: State)
    requires Inv(s)
    ensures Run(s, steps, end) && Inv(end) && end.stage.Quiet? && end.current == s.current
    decreases StageRank(s.stage), StageLeft(s.stage)
  {
    if s.stage.Quiet? {
      steps, end := [], s;
    } else {
      var step := InstallStep(s);
      InstallGoesOn(s);
      hide Inv, Enabled, Apply, InstallStep, StageRank, StageLeft;
      StepKeeps(s, step);
      steps, end := FinishInstall(Apply(s, step));
      RunCons(s, step, steps, end);
      steps := [step] + steps;
    }
  }

  // ---------------------------------------------------------------- a call finishes

  function PcRank(pc: Pc): nat
  {
    match pc
    case Idle => 0
    case Loaded(_, _) => 9
    case Stale(_) => 8
    case Dead(_) => 7
    case Waiting => 7
    case Locked => 6
    case Using(_) => 5
    case Pinning(_) => 5
    case Dropping(_) => 4
    case Unpinning(_) => 4
    case Burying(_) => 3
    case Handing(_) => 3
  }

  function CallStep(pc: Pc, t: Thread, u: User): Step
    requires !pc.Idle?
  {
    match pc
    case Loaded(_, _) => Compare(t)
    case Stale(_) => UnrefStale(t)
    case Dead(_) => Lock(t)
    case Waiting => Lock(t)
    case Locked => Take(t)
    case Using(_) => Return(t)
    case Pinning(_) => Return(t)
    case Dropping(_) => Drop(t)
    case Unpinning(_) => Unpin(t)
    case Burying(_) => Bury(t)
    case Handing(_) => HandOver(t, u)
  }

  /** No install is in progress, and the mutex is free or t's. */
  ghost predicate Turn(s: State, t: Thread)
  {
    s.stage.Quiet? && (s.mutex.Free? || s.mutex == Reader(t))
  }

  lemma CallGoesOn(s: State, t: Thread, u: User)
    requires Exclusive(s) && Turn(s, t) && t in s.threads && !s.threads[t].pc.Idle? && u !in s.users
    ensures Enabled(s, CallStep(s.threads[t].pc, t, u))
    ensures var s' := Apply(s, CallStep(s.threads[t].pc, t, u));
      && Turn(s', t) && s'.current == s.current && s'.threads.Keys == s.threads.Keys
      && PcRank(s'.threads[t].pc) < PcRank(s.threads[t].pc)
      && forall i :: i in s.threads && i != t ==> s'.threads[i] == s.threads[i]
  {
  }

  lemma {:induction false} Unused(m: map<User, Hold>) returns (u: User)
    ensures forall k :: k in m ==> k < u
    decreases |m|
  {
    if m == map[] {
      u := 0;
    } else {
      var k :| k in m;
      var rest := m - {k};
      assert rest.Keys == m.Keys - {k};
      u := Unused(rest);
      u := if u <= k then k + 1 else u;
      forall x | x in m ensures x < u { assert x == k || x in rest; }
    }
  }

  lemma {:induction false} FinishCall(s: State, t: Thread) returns (steps: seq<Step>, end: State)
    requires Inv(s) && Turn(s, t) && t in s.threads
    ensures Run(s, steps, end) && Inv(end) && Turn(end, t) && end.current == s.current
    ensures end.threads.Keys == s.threads.Keys && end.threads[t].pc.Idle?
    ensures forall i :: i in s.threads && i != t ==> end.threads[i] == s.threads[i]
    decreases PcRank(s.threads[t].pc)
  {
    if s.threads[t].pc.Idle? {
      steps, end := [], s;
    } else {
      var u := Unused(s.users);
      var step := CallStep(s.threads[t].pc, t, u);
      CallGoesOn(s, t, u);
      hide Inv, Enabled, Apply, CallStep, PcRank;
      StepKeeps(s, step);
      steps, end := FinishCall(Apply(s, step), t);
      RunCons(s, step, steps, end);
      steps := [step] + steps;
    }
  }

  ghost function Busy(s: State): set<Thread>
  {
    set t | t in s.threads && !s.threads[t].pc.Idle?
  }

  /** Whose turn it is: the reader that has the mutex, or any that is busy. */
  lemma SomeTurn(s: State) returns (t: Thread)
    requires Exclusive(s) && s.stage.Quiet? && Busy(s) != {}
    ensures t in Busy(s) && Turn(s, t)
  {
    if s.mutex.Reader? {
      t := s.mutex.t;
    } else {
      t :| t in Busy(s);
    }
  }

  lemma NobodyBusy(s: State)
    requires Exclusive(s) && s.stage.Quiet?
    ensures s.mutex.Free? || Busy(s) != {}
  {
    if s.mutex.Reader? { assert s.mutex.t in Busy(s); }
  }

  lemma InvExclusive(s: State)
    requires Inv(s)
    ensures Exclusive(s)
  {
  }

  lemma {:induction false} FinishCalls(s: State) returns (steps: seq<Step>, end: State)
    requires Inv(s) && s.stage.Quiet?
    ensures Run(s, steps, end) && Inv(end) && end.stage.Quiet? && end.mutex.Free? && end.current == s.current
    ensures Busy(end) == {}
    decreases |Busy(s)|
  {
    hide Inv, Run, Exclusive;
    InvExclusive(s);
    if Busy(s) == {} {
      NobodyBusy(s);
      steps, end := [], s;
      RunNone(s);
    } else {
      var t := SomeTurn(s);
      var a, mid := FinishCall(s, t);
      assert Busy(mid) == Busy(s) - {t};
      var b;
      b, end := FinishCalls(mid);
      RunJoin(s, a, mid, b, end);
      steps := a + b;
    }
  }

  lemma RunNone(s: State)
    ensures Run(s, [], s)
  {
  }

  // ---------------------------------------------------------------- users and threads leave

  /** Nothing is under way. */
  ghost predicate Still(s: State)
  {
    s.stage.Quiet? && s.mutex.Free? && forall t :: t in s.threads ==> s.threads[t].pc.Idle?
  }

  lemma UserLeaves(s: State, u: User)
    requires Still(s) && u in s.users
    ensures var step := if s.users[u].Holding? then Release(u) else Reap(u);
      && Enabled(s, step) && var s' := Apply(s, step);
      && Still(s') && s'.current == s.current && s'.threads == s.threads
      && if s.users[u].Holding? && Last(s, s.users[u].sv) then s'.users == s.users[u := Doomed(s.users[u].sv)]
         else s'.users == s.users - {u}
  {
  }

  /** The Holding users count twice. */
  lemma {:induction false} FinishUsers(s: State) returns (steps: seq<Step>, end: State)
    requires Inv(s) && Still(s)
    ensures Run(s, steps, end) && Inv(end) && Still(end) && end.users == map[] && end.current == s.current
    decreases |s.users|, 1
  {
    hide Inv, Run, Still;
    if s.users == map[] {
      steps, end := [], s;
      RunNone(s);
    } else {
      var u :| u in s.users;
      steps, end := FinishUser(s, u);
    }
  }

  lemma {:induction false} FinishUser(s: State, u: User) returns (steps: seq<Step>, end: State)
    requires Inv(s) && Still(s) && u in s.users
    ensures Run(s, steps, end) && Inv(end) && Still(end) && end.users == map[] && end.current == s.current
    decreases |s.users|, 0, if s.users[u].Holding? then 1 else 0
  {
    hide Inv, Run, Still, Enabled, Apply;
    var step := if s.users[u].Holding? then Release(u) else Reap(u);
    UserLeaves(s, u);
    StepKeeps(s, step);
    var mid := Apply(s, step);
    if u in mid.users {
      assert mid.users.Keys == s.users.Keys;
      assert |mid.users| == |mid.users.Keys| && |s.users| == |s.users.Keys|;
      steps, end := FinishUser(mid, u);
    } else {
      assert mid.users.Keys == s.users.Keys - {u};
      assert |mid.users| == |mid.users.Keys| && |s.users| == |s.users.Keys|;
      steps, end := FinishUsers(mid);
    }
    RunCons(s, step, steps, end);
    steps := [step] + steps;
  }

  lemma ThreadLeaves(s: State, t: Thread)
    requires Still(s) && t in s.threads
    ensures Enabled(s, Exit(t)) && var s' := Apply(s, Exit(t));
      Still(s') && s'.current == s.current && s'.users == s.users && s'.threads == s.threads - {t}
  {
  }

  lemma {:induction false} FinishThreads(s: State) returns (steps: seq<Step>, end: State)
    requires Inv(s) && Still(s) && s.users == map[]
    ensures Run(s, steps, end) && Inv(end) && Still(end) && end.users == map[] && end.current == s.current
    ensures end.threads == map[]
    decreases |s.threads|
  {
    hide Inv, Run, Still, Enabled, Apply;
    if s.threads == map[] {
      steps, end := [], s;
      RunNone(s);
    } else {
      var t :| t in s.threads;
      ThreadLeaves(s, t);
      StepKeeps(s, Exit(t));
      var mid := Apply(s, Exit(t));
      assert mid.threads.Keys == s.threads.Keys - {t};
      assert |mid.threads| == |mid.threads.Keys| && |s.threads| == |s.threads.Keys|;
      steps, end := FinishThreads(mid);
      RunCons(s, Exit(t), steps, end);
      steps := [Exit(t)] + steps;
    }
  }

  // ---------------------------------------------------------------- the version number

  /** How many installs have incremented the number. */
  function Bumps(steps: seq<Step>): nat
  {
    if steps == [] then 0 else (if steps[0].Bump? then 1 else 0) + Bumps(steps[1..])
  }

  lemma {:induction false} NumberCounts(s: State, steps: seq<Step>, end: State)
    requires Run(s, steps, end)
    ensures end.number == s.number + Bumps(steps)
    decreases |steps|
  {
    if steps != [] {
      NumberStep(s, steps[0]);
      hide Enabled, Apply;
      NumberCounts(Apply(s, steps[0]), steps[1..], end);
    }
  }

  lemma NumberStep(s: State, step: Step)
    requires Enabled(s, step)
    ensures Apply(s, step).number == s.number + if step.Bump? then 1 else 0
  {
  }

  // ---------------------------------------------------------------- what is left

  lemma OnlyCurrent(s: State, x: Sv)
    requires Inv(s) && s.stage.Quiet? && s.threads == map[] && s.users == map[] && x in s.svs
    ensures s.svs[x].refs == (if x == s.current then 1 else 0) && (s.svs[x].cleaned <==> x != s.current)
  {
    hide Fresh, Numbered, Exclusive;
    assert Holders(Held(s), x) == if x == s.current then {Current} else {};
    assert forall r :: !Reaps(s, r);
  }

  /** From every reachable state there is a run in which the install in progress, every call and every user finish and
      every thread exits; then each SuperVersion but the installed one is cleaned up, and that one has one reference. */
  lemma NothingLeaks(s: State, before: seq<Step>, now: State) returns (steps: seq<Step>, end: State)
    requires Init(s) && Run(s, before, now)
    ensures Run(now, steps, end) && end.current == now.current && end.stage.Quiet? && end.mutex.Free?
    ensures end.threads == map[] && end.users == map[]
    ensures forall x :: x in end.svs ==>
      end.svs[x].refs == (if x == end.current then 1 else 0) && (end.svs[x].cleaned <==> x != end.current)
  {
    InitInv(s);
    RunKeeps(s, before, now);
    hide Inv, Run;
    var a, s1 := FinishInstall(now);
    var b, s2 := FinishCalls(s1);
    assert Still(s2) by { forall t | t in s2.threads ensures s2.threads[t].pc.Idle? { assert t !in Busy(s2); } }
    var d, s3 := FinishUsers(s2);
    var e;
    e, end := FinishThreads(s3);
    RunJoin(now, a, s1, b, s2);
    RunJoin(now, a + b, s2, d, s3);
    RunJoin(now, a + b + d, s3, e, end);
    steps := a + b + d + e;
    forall x | x in end.svs
      ensures end.svs[x].refs == (if x == end.current then 1 else 0) && (end.svs[x].cleaned <==> x != end.current) {
      OnlyCurrent(end, x);
    }
  }

  lemma TakesFirst(s: State, t: Thread) returns (end: State)
    requires s.stage.Quiet? && s.mutex.Free? && t !in s.threads
    ensures Run(s, [Start(t), Swap(t), Lock(t), Take(t)], end)
    ensures end.current == s.current && end.users == s.users
    ensures end.threads == s.threads[t := Local(InUse, Using(s.current))]
  {
    var a := Apply(s, Start(t));
    var b := Apply(a, Swap(t));
    var d := Apply(b, Lock(t));
    end := Apply(d, Take(t));
    hide Apply, Enabled;
    RunNone(end);
    RunCons(d, Take(t), [], end);
    RunCons(b, Lock(t), [Take(t)], end);
    RunCons(a, Swap(t), [Lock(t), Take(t)], end);
    RunCons(s, Start(t), [Swap(t), Lock(t), Take(t)], end);
  }

  lemma HandsOver(s: State, t: Thread, u: User) returns (end: State)
    requires t in s.threads && s.threads[t] == Local(InUse, Using(s.current)) && u !in s.users
    ensures Run(s, [Pin(t), Return(t), HandOver(t, u)], end)
    ensures end.current == s.current && end.users == s.users[u := Holding(s.current)]
    ensures end.threads == s.threads[t := Local(Cached(s.current), Idle)]
  {
    var a := Apply(s, Pin(t));
    var b := Apply(a, Return(t));
    end := Apply(b, HandOver(t, u));
    hide Apply, Enabled;
    RunNone(end);
    RunCons(b, HandOver(t, u), [], end);
    RunCons(a, Return(t), [HandOver(t, u)], end);
    RunCons(s, Pin(t), [Return(t), HandOver(t, u)], end);
  }

  /** A thread takes the installed SuperVersion, a second reference of it for a user, and caches it. */
  lemma GetsReference(s: State, t: Thread, u: User) returns (end: State)
    requires s.stage.Quiet? && s.mutex.Free? && t !in s.threads && u !in s.users
    ensures Run(s, [Start(t), Swap(t), Lock(t), Take(t)] + [Pin(t), Return(t), HandOver(t, u)], end)
    ensures end.current == s.current && end.users == s.users[u := Holding(s.current)]
    ensures end.threads == s.threads[t := Local(Cached(s.current), Idle)]
  {
    hide Run;
    var mid := TakesFirst(s, t);
    end := HandsOver(mid, t, u);
    RunJoin(s, [Start(t), Swap(t), Lock(t), Take(t)], mid, [Pin(t), Return(t), HandOver(t, u)], end);
  }
}
