/** What a run of jobs, scans and removals leaves behind, told from its steps alone (db/db_impl.cc: FindObsoleteFiles
    and PurgeObsoleteFiles), and so exactly which files are removed, needed or not. */
module PurgeTrace {
  import opened Purge

  // ---------------------------------------------------------------- the state, from the steps

  /** File numbers given out. */
  function Creates(steps: seq<Step>): nat
  {
    if steps == [] then 0 else Creates(steps[..|steps| - 1]) + if steps[|steps| - 1].Create? then 1 else 0
  }

  /** Background calls begun. */
  function Captures(steps: seq<Step>): nat
  {
    if steps == [] then 0 else Captures(steps[..|steps| - 1]) + if steps[|steps| - 1].Capture? then 1 else 0
  }

  /** n is in some version: it was from the start, or was installed, and has not expired since. */
  predicate InVersion(s: State, steps: seq<Step>, n: nat)
  {
    if steps == [] then n in s.live
    else
      var was := InVersion(s, steps[..|steps| - 1], n);
      match steps[|steps| - 1]
      case Install(m) => m == n || was
      case Expire(m) => m != n && was
      case _ => was
  }

  /** A job with this number, that began when so many files were numbered, has not returned. */
  predicate Runs(s: State, steps: seq<Step>, p: Pending)
  {
    if steps == [] then false
    else
      var before := steps[..|steps| - 1];
      match steps[|steps| - 1]
      case Capture => p == Pending(s.jobs + Captures(before), s.next + Creates(before)) || Runs(s, before, p)
      case Release(j) => p.job != j && Runs(s, before, p)
      case _ => Runs(s, before, p)
  }

  /** Job j wrote n, which has since been neither installed nor given up. */
  predicate Wanted(s: State, steps: seq<Step>, n: nat, j: Job)
  {
    if steps == [] then false
    else
      var before := steps[..|steps| - 1];
      match steps[|steps| - 1]
      case Create(i) => if n == s.next + Creates(before) then i == j else Wanted(s, before, n, j)
      case Install(m) => m != n && Wanted(s, before, n, j)
      case Abandon(m) => m != n && Wanted(s, before, n, j)
      case _ => Wanted(s, before, n, j)
  }

  /** n is there: it was from the start or has been numbered since, and nothing has removed it. */
  predicate OnDisk(s: State, steps: seq<Step>, n: nat)
  {
    if steps == [] then n in s.disk
    else
      var before := steps[..|steps| - 1];
      match steps[|steps| - 1]
      case Create(_) => n == s.next + Creates(before) || OnDisk(s, before, n)
      case Remove(_, m) => m != n && OnDisk(s, before, n)
      case _ => OnDisk(s, before, n)
  }

  /** Some running job began before n was numbered. */
  ghost predicate Shielded(s: State, steps: seq<Step>, n: nat)
  {
    exists p :: Runs(s, steps, p) && p.number <= n
  }

  /** Step k is scan c, and it lists n when n is in no version and no running job began before n was numbered. */
  ghost predicate Lists(s: State, steps: seq<Step>, k: nat, c: nat, n: nat)
    requires k < |steps|
  {
    && steps[k].Find? && steps[k].context == c && n in steps[k].candidates
    && !InVersion(s, steps[..k], n) && !Shielded(s, steps[..k], n)
  }

  ghost predicate Listed(s: State, steps: seq<Step>, c: nat, n: nat)
  {
    exists k :: 0 <= k < |steps| && Lists(s, steps, k, c, n)
  }

  // ---------------------------------------------------------------- they agree

  ghost predicate Follows(s: State, steps: seq<Step>, end: State)
  {
    && end.next == s.next + Creates(steps) && end.jobs == s.jobs + Captures(steps)
    && (forall n :: n in end.live <==> InVersion(s, steps, n))
    && (forall n :: n in end.disk <==> OnDisk(s, steps, n))
    && (forall p :: p in end.pending <==> Runs(s, steps, p))
    && (forall n, j :: n in end.wanted && end.wanted[n] == j <==> Wanted(s, steps, n, j))
  }

  lemma {:induction false} RunLast(s: State, steps: seq<Step>, end: State) returns (mid: State)
    requires AnyRun(s, steps, end) && steps != []
    ensures var n := |steps| - 1;
      AnyRun(s, steps[..n], mid) && Enabled(mid, steps[n]) && end == Apply(mid, steps[n])
    decreases |steps|
  {
    var n := |steps| - 1;
    if n == 0 {
      mid := s;
    } else {
      mid := RunLast(Apply(s, steps[0]), steps[1..], end);
      assert steps[1..][..n - 1] == steps[..n][1..];
    }
  }

  lemma PendingAfter(s: State, steps: seq<Step>, mid: State, p: Pending)
    requires steps != [] && Numbered(mid) && Follows(s, steps[..|steps| - 1], mid) && Enabled(mid, steps[|steps| - 1])
    ensures p in Apply(mid, steps[|steps| - 1]).pending <==> Runs(s, steps, p)
  {
    var step := steps[|steps| - 1];
    if step.Release? { EraseIs(mid.pending, step.job); }
    hide Erase, Numbered;
  }

  lemma FilesAfter(s: State, steps: seq<Step>, mid: State, n: nat, j: Job)
    requires steps != [] && Follows(s, steps[..|steps| - 1], mid) && Enabled(mid, steps[|steps| - 1])
    ensures var s' := Apply(mid, steps[|steps| - 1]);
      && (n in s'.live <==> InVersion(s, steps, n)) && (n in s'.disk <==> OnDisk(s, steps, n))
      && (n in s'.wanted && s'.wanted[n] == j <==> Wanted(s, steps, n, j))
      && s'.next == s.next + Creates(steps) && s'.jobs == s.jobs + Captures(steps)
  {
    hide Erase;
  }

  lemma FollowsAfter(s: State, steps: seq<Step>, mid: State)
    requires steps != [] && Numbered(mid) && Follows(s, steps[..|steps| - 1], mid) && Enabled(mid, steps[|steps| - 1])
    ensures Follows(s, steps, Apply(mid, steps[|steps| - 1]))
  {
    hide Numbered, Apply, Enabled, InVersion, OnDisk, Wanted, Runs, Creates, Captures;
    forall p ensures p in Apply(mid, steps[|steps| - 1]).pending <==> Runs(s, steps, p) {
      PendingAfter(s, steps, mid, p);
    }
    var s' := Apply(mid, steps[|steps| - 1]);
    forall n: nat ensures n in s'.live <==> InVersion(s, steps, n) { FilesAfter(s, steps, mid, n, 0); }
    forall n: nat ensures n in s'.disk <==> OnDisk(s, steps, n) { FilesAfter(s, steps, mid, n, 0); }
    forall n: nat, j: Job ensures n in s'.wanted && s'.wanted[n] == j <==> Wanted(s, steps, n, j) {
      FilesAfter(s, steps, mid, n, j);
    }
    FilesAfter(s, steps, mid, 0, 0);
  }

  lemma {:induction false} RunFollows(s: State, steps: seq<Step>, end: State)
    requires Init(s) && AnyRun(s, steps, end)
    ensures Follows(s, steps, end) && Numbered(end)
    decreases |steps|
  {
    InitKept(s);
    AnyRunKeeps(s, steps, end);
    if steps != [] {
      hide Follows, Numbered, CoveredSpared, OwnedKept, Enabled, Apply, Init;
      var mid := RunLast(s, steps, end);
      RunFollows(s, steps[..|steps| - 1], mid);
      FollowsAfter(s, steps, mid);
    }
  }

  /** Over every run: the next number, the files there, those in a version, those written and not installed, and the
      calls that have not returned are what the steps say. */
  lemma StateIsItsSteps(s: State, steps: seq<Step>, end: State, n: nat, j: Job)
    requires Init(s) && AnyRun(s, steps, end)
    ensures n in end.live <==> InVersion(s, steps, n)
    ensures n in end.disk <==> OnDisk(s, steps, n)
    ensures n in end.wanted && end.wanted[n] == j <==> Wanted(s, steps, n, j)
    ensures IsPending(end.pending, j) <==> exists p :: Runs(s, steps, p) && p.job == j
    ensures end.next == s.next + Creates(steps)
  {
    RunFollows(s, steps, end);
    hide AnyRun, Numbered, Runs;
    if IsPending(end.pending, j) {
      var i :| 0 <= i < |end.pending| && end.pending[i].job == j;
      assert end.pending[i] in end.pending;
    }
    if p :| Runs(s, steps, p) && p.job == j { assert p in end.pending; }
  }

  // ---------------------------------------------------------------- which files are removed

  lemma ShieldedIff(s: State, steps: seq<Step>, end: State, n: nat)
    requires Follows(s, steps, end)
    ensures Shielded(s, steps, n) <==> Covered(end.pending, n)
  {
    hide Runs;
    if p :| Runs(s, steps, p) && p.number <= n {
      assert p in end.pending;
      var i :| 0 <= i < |end.pending| && end.pending[i] == p;
    }
    if Covered(end.pending, n) {
      var i :| 0 <= i < |end.pending| && end.pending[i].number <= n;
      assert end.pending[i] in end.pending;
    }
  }

  ghost predicate Scanned(steps: seq<Step>, c: nat)
  {
    exists k :: 0 <= k < |steps| && steps[k].Find? && steps[k].context == c
  }

  lemma ListedLast(s: State, steps: seq<Step>, c: nat, n: nat)
    requires steps != []
    ensures Listed(s, steps, c, n) <==>
      Listed(s, steps[..|steps| - 1], c, n) || Lists(s, steps, |steps| - 1, c, n)
    ensures Scanned(steps, c) <==>
      Scanned(steps[..|steps| - 1], c) || (steps[|steps| - 1].Find? && steps[|steps| - 1].context == c)
    ensures Listed(s, steps, c, n) ==> Scanned(steps, c)
  {
    var m := |steps| - 1;
    hide InVersion, Shielded;
    forall k | 0 <= k < m ensures Lists(s, steps, k, c, n) <==> Lists(s, steps[..m], k, c, n) {
      assert steps[..m][..k] == steps[..k];
    }
    if Listed(s, steps[..m], c, n) {
      var k :| 0 <= k < m && Lists(s, steps[..m], k, c, n);
      assert Lists(s, steps, k, c, n);
    }
    if Scanned(steps[..m], c) {
      var k :| 0 <= k < m && steps[..m][k].Find? && steps[..m][k].context == c;
      assert steps[k].Find?;
    }
    if Scanned(steps, c) && !(steps[m].Find? && steps[m].context == c) {
      var k :| 0 <= k < |steps| && steps[k].Find? && steps[k].context == c;
      assert steps[..m][k].Find?;
    }
  }

  /** One more step: only scan c decides about the files it lists. */
  lemma CondemnsLast(s: State, steps: seq<Step>, mid: State, c: nat, n: nat)
    requires steps != [] && Numbered(mid) && Enabled(mid, steps[|steps| - 1])
    requires Follows(s, steps[..|steps| - 1], mid) && (c in mid.contexts <==> Scanned(steps[..|steps| - 1], c))
    requires Condemns(mid, c, n) <==> Listed(s, steps[..|steps| - 1], c, n)
    ensures var s' := Apply(mid, steps[|steps| - 1]);
      (Condemns(s', c, n) <==> Listed(s, steps, c, n)) && (c in s'.contexts <==> Scanned(steps, c))
  {
    var m := |steps| - 1;
    ListedLast(s, steps, c, n);
    ShieldedIff(s, steps[..m], mid, n);
    FrontIsLeast(mid.pending, n);
    hide Listed, Scanned, InVersion, Shielded, Erase;
    if steps[m].Find? && steps[m].context == c {
      assert n in mid.live <==> InVersion(s, steps[..m], n);
    }
  }

  lemma {:induction false} CondemnsIff(s: State, steps: seq<Step>, end: State, c: nat, n: nat)
    requires Init(s) && AnyRun(s, steps, end)
    ensures (Condemns(end, c, n) <==> Listed(s, steps, c, n)) && (c in end.contexts <==> Scanned(steps, c))
    decreases |steps|
  {
    if steps != [] {
      hide Follows, Numbered, Condemns, Listed, Scanned, Enabled, Apply, Init;
      var mid := RunLast(s, steps, end);
      RunFollows(s, steps[..|steps| - 1], mid);
      CondemnsIff(s, steps[..|steps| - 1], mid, c, n);
      CondemnsLast(s, steps, mid, c, n);
    }
  }

  /** Over every run and for every file, needed or not: scan c has it removed if and only if it listed the file when
      that was in no version and no running job had begun before it was numbered. */
  lemma RemovableIffListed(s: State, steps: seq<Step>, end: State, c: nat, n: nat)
    requires Init(s) && AnyRun(s, steps, end)
    ensures Enabled(end, Remove(c, n)) <==> Listed(s, steps, c, n)
  {
    CondemnsIff(s, steps, end, c, n);
  }

  /** So a file that is in no version and that no running job shields does go with the next full scan. */
  lemma ObsoleteGoes(s: State, steps: seq<Step>, end: State, n: nat) returns (c: nat)
    requires Init(s) && AnyRun(s, steps, end) && OnDisk(s, steps, n)
    requires !InVersion(s, steps, n) && !Shielded(s, steps, n)
    ensures Enabled(end, Find(c, end.disk))
    ensures var after := Apply(end, Find(c, end.disk));
      Enabled(after, Remove(c, n)) && n !in Apply(after, Remove(c, n)).disk
  {
    RunFollows(s, steps, end);
    ShieldedIff(s, steps, end, n);
    FrontIsLeast(end.pending, n);
    c := Unused(end.contexts);
    assert n in end.disk && n !in end.live;
  }

  // ---------------------------------------------------------------- when each step can be taken

  ghost predicate JobRuns(s: State, steps: seq<Step>, j: Job)
  {
    exists p :: Runs(s, steps, p) && p.job == j
  }

  ghost predicate Owner(s: State, steps: seq<Step>, n: nat)
  {
    exists j :: Wanted(s, steps, n, j)
  }

  /** From the steps taken so far alone; file numbers have 64 bits. */
  ghost predicate Allowed(s: State, steps: seq<Step>, step: Step)
  {
    match step
    case Capture => true
    case Create(j) => JobRuns(s, steps, j) && s.next + Creates(steps) < 18446744073709551615
    case Install(n) => Owner(s, steps, n)
    case Abandon(n) => Owner(s, steps, n)
    case Expire(n) => InVersion(s, steps, n)
    case Release(j) => JobRuns(s, steps, j)
    case Find(c, candidates) => !Scanned(steps, c) && forall n :: n in candidates ==> OnDisk(s, steps, n)
    case Remove(c, n) => Listed(s, steps, c, n)
  }

  /** Over every run, a step can be taken exactly if the steps before it allow it. */
  lemma EnabledIff(s: State, steps: seq<Step>, end: State, step: Step)
    requires Init(s) && AnyRun(s, steps, end)
    ensures Enabled(end, step) <==> Allowed(s, steps, step)
  {
    RunFollows(s, steps, end);
    match step {
      case Create(j) => JobRunsIff(s, steps, end, j);
      case Release(j) => JobRunsIff(s, steps, end, j);
      case Install(n) => OwnerIff(s, steps, end, n);
      case Abandon(n) => OwnerIff(s, steps, end, n);
      case Find(c, _) => CondemnsIff(s, steps, end, c, 0);
      case Remove(c, n) => RemovableIffListed(s, steps, end, c, n);
      case _ =>
    }
    hide Runs, Wanted, InVersion, OnDisk, Listed, Scanned, AnyRun, Numbered, Creates, Captures;
  }

  lemma JobRunsIff(s: State, steps: seq<Step>, end: State, j: Job)
    requires Init(s) && AnyRun(s, steps, end)
    ensures IsPending(end.pending, j) <==> JobRuns(s, steps, j)
  {
    StateIsItsSteps(s, steps, end, 0, j);
  }

  lemma OwnerIff(s: State, steps: seq<Step>, end: State, n: nat)
    requires Follows(s, steps, end)
    ensures n in end.wanted <==> Owner(s, steps, n)
  {
    hide Wanted;
    if n in end.wanted { assert Wanted(s, steps, n, end.wanted[n]); }
  }
}
