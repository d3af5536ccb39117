/** The thread-local SuperVersion cache of a column family, as interleaved atomic steps
    (db/column_family.cc, util/thread_local.cc). */
module SuperVersions {

  type Sv = nat
  type Thread = nat
  type User = nat

  datatype Record = Record(refs: int, number: nat, cleaned: bool)

  /** What a thread's slot of local_sv_ contains. */
  datatype Slot = Obsolete | InUse | Cached(sv: Sv)

  /** Where a thread stands in GetThreadLocalSuperVersion, its use of the result, and the return of it. */
  datatype Pc =
    | Idle
    | Loaded(sv: Sv, seen: bool)  // swapped out of the slot; seen: it was super_version_ at that instant
    | Stale(sv: Sv)               // its version number was not the current one
    | Dead(sv: Sv)                // Unref returned true: Cleanup, then take super_version_
    | Waiting                     // for the database mutex
    | Locked
    | Using(sv: Sv)               // GetThreadLocalSuperVersion has returned
    | Pinning(sv: Sv)             // GetReferencedSuperVersion took a second reference
    | Dropping(sv: Sv)            // the slot was scraped meanwhile: Unref
    | Burying(sv: Sv)             // and that was the last reference: Cleanup
    | Unpinning(sv: Sv)           // GetReferencedSuperVersion: Unref, its result ignored
    | Handing(sv: Sv)             // about to return the second reference to its caller

  datatype Local = Local(slot: Slot, pc: Pc)

  datatype Hold = Holding(sv: Sv) | Doomed(sv: Sv)

  datatype Mutex = Free | Reader(t: Thread) | Installer

  /** Where the holder of the mutex stands in InstallSuperVersion. */
  datatype Stage =
    | Quiet
    | Pointed(prev: Sv)                                          // super_version_ assigned
    | Bumped(prev: Sv)                                           // super_version_number_ incremented
    | Scraping(prev: Sv, todo: set<Thread>, taken: seq<Sv>)      // version_number assigned
    | Unreffing(prev: Sv, taken: seq<Sv>, done: nat)

  datatype State = State(
    svs: map<Sv, Record>, current: Sv, number: nat, threads: map<Thread, Local>, users: map<User, Hold>,
    mutex: Mutex, stage: Stage)

  datatype Step =
    | Start(t: Thread) | Exit(t: Thread)
    | Swap(t: Thread) | Compare(t: Thread) | UnrefStale(t: Thread) | Lock(t: Thread) | Take(t: Thread)
    | Pin(t: Thread) | Return(t: Thread) | Drop(t: Thread) | Bury(t: Thread) | Unpin(t: Thread)
    | HandOver(t: Thread, u: User) | Release(u: User) | Reap(u: User)
    | Publish(sv: Sv) | Bump | Number | Scrape(t: Thread) | EndScrape | UnrefTaken | UnrefOld

  // ---------------------------------------------------------------- the steps

  /** When the schedule may take a step. */
  predicate Enabled(s: State, step: Step)
  {
    match step
    case Start(t) => t !in s.threads && !s.stage.Scraping?
    case Exit(t) => t in s.threads && s.threads[t].pc.Idle? && !s.stage.Scraping?
    case Swap(t) => t in s.threads && s.threads[t].pc.Idle?
    case Compare(t) => t in s.threads && s.threads[t].pc.Loaded?
    case UnrefStale(t) => t in s.threads && s.threads[t].pc.Stale?
    case Lock(t) => t in s.threads && (s.threads[t].pc.Waiting? || s.threads[t].pc.Dead?) && s.mutex.Free?
    case Take(t) => t in s.threads && s.threads[t].pc.Locked?
    case Pin(t) => t in s.threads && s.threads[t].pc.Using?
    case Return(t) => t in s.threads && (s.threads[t].pc.Using? || s.threads[t].pc.Pinning?)
    case Drop(t) => t in s.threads && s.threads[t].pc.Dropping?
    case Bury(t) => t in s.threads && s.threads[t].pc.Burying? && s.mutex.Free?
    case Unpin(t) => t in s.threads && s.threads[t].pc.Unpinning?
    case HandOver(t, u) => t in s.threads && s.threads[t].pc.Handing? && u !in s.users
    case Release(u) => u in s.users && s.users[u].Holding?
    case Reap(u) => u in s.users && s.users[u].Doomed? && s.mutex.Free?
    case Publish(sv) => s.mutex.Free? && s.stage.Quiet? && sv !in s.svs
    case Bump => s.stage.Pointed?
    case Number => s.stage.Bumped?
    case Scrape(t) => s.stage.Scraping? && t in s.stage.todo && t in s.threads
    case EndScrape => s.stage.Scraping? && s.stage.todo == {}
    case UnrefTaken => s.stage.Unreffing? && s.stage.done < |s.stage.taken|
    case UnrefOld => s.stage.Unreffing? && s.stage.done == |s.stage.taken|
  }

  function Rec(s: State, x: Sv): Record
  {
    if x in s.svs then s.svs[x] else Record(0, 0, true)
  }

  function AddRef(s: State, x: Sv, d: int): map<Sv, Record>
  {
    s.svs[x := Rec(s, x).(refs := Rec(s, x).refs + d)]
  }

  function Cleanup(s: State, x: Sv): map<Sv, Record>
  {
    s.svs[x := Rec(s, x).(cleaned := true)]
  }

  /** Whether an Unref of x now would return true. */
  predicate Last(s: State, x: Sv)
  {
    Rec(s, x).refs == 1
  }

  /** Unref, and Cleanup if it returned true. */
  function UnrefCleanup(s: State, x: Sv): map<Sv, Record>
  {
    s.svs[x := Rec(s, x).(refs := Rec(s, x).refs - 1, cleaned := Rec(s, x).cleaned || Last(s, x))]
  }

  /** What a step does to the SuperVersions. */
  function Records(s: State, step: Step): map<Sv, Record>
    requires Enabled(s, step)
  {
    match step
    case Exit(t) => var slot := s.threads[t].slot; if slot.Cached? then UnrefCleanup(s, slot.sv) else s.svs
    case UnrefStale(t) => AddRef(s, s.threads[t].pc.sv, -1)
    case Lock(t) => var pc := s.threads[t].pc; if pc.Dead? then Cleanup(s, pc.sv) else s.svs
    case Take(t) => AddRef(s, s.current, 1)
    case Pin(t) => AddRef(s, s.threads[t].pc.sv, 1)
    case Drop(t) => AddRef(s, s.threads[t].pc.sv, -1)
    case Bury(t) => Cleanup(s, s.threads[t].pc.sv)
    case Unpin(t) => AddRef(s, s.threads[t].pc.sv, -1)
    case Release(u) => AddRef(s, s.users[u].sv, -1)
    case Reap(u) => Cleanup(s, s.users[u].sv)
    case Publish(sv) => s.svs[sv := Record(1, 0, false)]
    case Number => s.svs[s.current := Rec(s, s.current).(number := s.number)]
    case UnrefTaken => UnrefCleanup(s, s.stage.taken[s.stage.done])
    case UnrefOld => UnrefCleanup(s, s.stage.prev)
    case _ => s.svs
  }

  function Go(s: State, t: Thread, slot: Slot, pc: Pc): State
  {
    s.(threads := s.threads[t := Local(slot, pc)])
  }

  /** What a step does to the slots, the threads and users, the mutex and the install in progress. */
  function Control(s: State, step: Step): State
    requires Enabled(s, step)
  {
    match step
    case Start(t) => Go(s, t, Obsolete, Idle)
    case Exit(t) => s.(threads := s.threads - {t})
    case Swap(t) =>
      var slot := s.threads[t].slot;
      Go(s, t, InUse, if slot.Cached? then Loaded(slot.sv, slot.sv == s.current) else Waiting)
    case Compare(t) =>
      var Local(slot, pc) := s.threads[t];
      Go(s, t, slot, if Rec(s, pc.sv).number == s.number then Using(pc.sv) else Stale(pc.sv))
    case UnrefStale(t) =>
      var Local(slot, pc) := s.threads[t];
      Go(s, t, slot, if Last(s, pc.sv) then Dead(pc.sv) else Waiting)
    case Lock(t) => Go(s, t, s.threads[t].slot, Locked).(mutex := Reader(t))
    case Take(t) => Go(s, t, s.threads[t].slot, Using(s.current)).(mutex := Free)
    case Pin(t) => Go(s, t, s.threads[t].slot, Pinning(s.threads[t].pc.sv))
    case Return(t) =>
      var Local(slot, pc) := s.threads[t];
      if slot.InUse? then Go(s, t, Cached(pc.sv), if pc.Using? then Idle else Handing(pc.sv))
      else Go(s, t, slot, if pc.Using? then Dropping(pc.sv) else Unpinning(pc.sv))
    case Drop(t) =>
      var Local(slot, pc) := s.threads[t];
      Go(s, t, slot, if Last(s, pc.sv) then Burying(pc.sv) else Idle)
    case Bury(t) => Go(s, t, s.threads[t].slot, Idle)
    case Unpin(t) => Go(s, t, s.threads[t].slot, Handing(s.threads[t].pc.sv))
    case HandOver(t, u) => Go(s, t, s.threads[t].slot, Idle).(users := s.users[u := Holding(s.threads[t].pc.sv)])
    case Release(u) =>
      var x := s.users[u].sv;
      s.(users := if Last(s, x) then s.users[u := Doomed(x)] else s.users - {u})
    case Reap(u) => s.(users := s.users - {u})
    case Publish(sv) => s.(mutex := Installer, current := sv, stage := Pointed(s.current))
    case Bump => s.(number := s.number + 1, stage := Bumped(s.stage.prev))
    case Number => s.(stage := Scraping(s.stage.prev, s.threads.Keys, []))
    case Scrape(t) =>
      var Local(slot, pc) := s.threads[t];
      Go(s, t, Obsolete, pc).(stage := s.stage.(
        todo := s.stage.todo - {t}, taken := s.stage.taken + (if slot.Cached? then [slot.sv] else [])))
    case EndScrape => s.(stage := Unreffing(s.stage.prev, s.stage.taken, 0))
    case UnrefTaken => s.(stage := s.stage.(done := s.stage.done + 1))
    case UnrefOld => s.(stage := Quiet, mutex := Free)
  }

  /** The atomic step `step` of the thread or job it belongs to. */
  function Apply(s: State, step: Step): State
    requires Enabled(s, step)
  {
    Control(s, step).(svs := Records(s, step))
  }

  predicate Usable(s: State, x: Sv)
  {
    x in s.svs && s.svs[x].refs > 0 && !s.svs[x].cleaned
  }

  predicate Cleanable(s: State, x: Sv)
  {
    x in s.svs && s.svs[x].refs == 0 && !s.svs[x].cleaned
  }

  /** The assertions of the source at a step, and that no step reads or counts a cleaned-up SuperVersion.
      Where the source ignores what Unref returned, or must not block, the reference is not the last one. */
  predicate Asserted(s: State, step: Step)
    requires Enabled(s, step)
  {
    match step
    case Exit(t) =>
      var slot := s.threads[t].slot;
      !slot.InUse? && (slot.Cached? ==> Usable(s, slot.sv) && !Last(s, slot.sv))
    case Swap(t) => !s.threads[t].slot.InUse?
    case Compare(t) => Usable(s, s.threads[t].pc.sv)
    case UnrefStale(t) => Usable(s, s.threads[t].pc.sv)
    case Lock(t) => s.threads[t].pc.Dead? ==> Cleanable(s, s.threads[t].pc.sv)
    case Take(t) => Usable(s, s.current)
    case Pin(t) => Usable(s, s.threads[t].pc.sv)
    case Return(t) => Usable(s, s.threads[t].pc.sv) && !s.threads[t].slot.Cached?
    case Drop(t) => Usable(s, s.threads[t].pc.sv)
    case Bury(t) => Cleanable(s, s.threads[t].pc.sv)
    case Unpin(t) => Usable(s, s.threads[t].pc.sv) && !Last(s, s.threads[t].pc.sv)
    case HandOver(t, u) => Usable(s, s.threads[t].pc.sv)
    case Release(u) => Usable(s, s.users[u].sv)
    case Reap(u) => Cleanable(s, s.users[u].sv)
    case UnrefTaken => Usable(s, s.stage.taken[s.stage.done]) && !Last(s, s.stage.taken[s.stage.done])
    case UnrefOld => Usable(s, s.stage.prev)
    case _ => true
  }

  // ---------------------------------------------------------------- who holds what

  /** Everywhere a counted pointer can be. */
  datatype Place =
    | Current | Old | InSlot(t: Thread) | ByThread(t: Thread) | Pinned(t: Thread) | ByUser(u: User) | Taken(i: nat)

  ghost predicate Holds(s: State, p: Place)
  {
    match p
    case Current => true
    case Old => !s.stage.Quiet?
    case InSlot(t) => t in s.threads && s.threads[t].slot.Cached?
    case ByThread(t) =>
      && t in s.threads
      && var pc := s.threads[t].pc;
      pc.Loaded? || pc.Stale? || pc.Using? || pc.Pinning? || pc.Dropping? || pc.Unpinning?
    case Pinned(t) => t in s.threads && var pc := s.threads[t].pc; pc.Pinning? || pc.Unpinning? || pc.Handing?
    case ByUser(u) => u in s.users && s.users[u].Holding?
    case Taken(i) => match s.stage
      case Scraping(_, _, taken) => i < |taken|
      case Unreffing(_, taken, done) => done <= i < |taken|
      case _ => false
  }

  ghost function Pointer(s: State, p: Place): Sv
    requires Holds(s, p)
  {
    match p
    case Current => s.current
    case Old => s.stage.prev
    case InSlot(t) => s.threads[t].slot.sv
    case ByThread(t) => s.threads[t].pc.sv
    case Pinned(t) => s.threads[t].pc.sv
    case ByUser(u) => s.users[u].sv
    case Taken(i) => s.stage.taken[i]
  }

  ghost function Places(s: State): set<Place>
  {
    {Current, Old}
    + (set t | t in s.threads :: InSlot(t)) + (set t | t in s.threads :: ByThread(t))
    + (set t | t in s.threads :: Pinned(t))
    + (set u | u in s.users :: ByUser(u))
    + (if s.stage.Scraping? || s.stage.Unreffing? then set i: nat | i < |s.stage.taken| :: Taken(i) else {})
  }

  /** The counted pointers, by the place that holds them. */
  ghost function Held(s: State): (m: map<Place, Sv>)
    ensures forall p :: p in m <==> Holds(s, p)
    ensures forall p :: p in m ==> m[p] == Pointer(s, p)
  {
    map p | p in Places(s) && Holds(s, p) :: Pointer(s, p)
  }

  ghost function Holders(m: map<Place, Sv>, x: Sv): set<Place>
  {
    set p | p in m && m[p] == x
  }

  lemma HoldersPlus(m: map<Place, Sv>, p: Place, v: Sv, x: Sv)
    requires p !in m
    ensures |Holders(m[p := v], x)| == |Holders(m, x)| + (if v == x then 1 else 0)
  {
    assert Holders(m[p := v], x) == Holders(m, x) + (if v == x then {p} else {});
  }

  lemma HoldersMinus(m: map<Place, Sv>, p: Place, x: Sv)
    requires p in m
    ensures |Holders(m - {p}, x)| == |Holders(m, x)| - (if m[p] == x then 1 else 0)
  {
    assert Holders(m - {p}, x) == Holders(m, x) - (if m[p] == x then {p} else {});
  }

  lemma TwoHolders(m: map<Place, Sv>, p: Place, q: Place)
    requires p in m && q in m && p != q && m[p] == m[q]
    ensures |Holders(m, m[p])| >= 2
  {
    assert {p, q} <= Holders(m, m[p]);
    assert |{p, q}| == 2;
    Subset({p, q}, Holders(m, m[p]));
  }

  lemma {:induction false} Subset(a: set<Place>, b: set<Place>)
    requires a <= b
    ensures |a| <= |b|
  {
    if a != {} {
      var p :| p in a;
      Subset(a - {p}, b - {p});
    }
  }

  // ---------------------------------------------------------------- reference counts

  /** What a step does to the counted pointers. */
  datatype Effect = Same | Move(from: Place, to: Place) | Gain(to: Place, sv: Sv) | Lose(from: Place)

  ghost function EffectOf(s: State, step: Step): Effect
    requires Enabled(s, step) && !step.Publish?
  {
    match step
    case Exit(t) => if s.threads[t].slot.Cached? then Lose(InSlot(t)) else Same
    case Swap(t) => if s.threads[t].slot.Cached? then Move(InSlot(t), ByThread(t)) else Same
    case UnrefStale(t) => Lose(ByThread(t))
    case Take(t) => Gain(ByThread(t), s.current)
    case Pin(t) => Gain(Pinned(t), s.threads[t].pc.sv)
    case Return(t) => if s.threads[t].slot.InUse? then Move(ByThread(t), InSlot(t)) else Same
    case Drop(t) => Lose(ByThread(t))
    case Unpin(t) => Lose(ByThread(t))
    case HandOver(t, u) => Move(Pinned(t), ByUser(u))
    case Release(u) => Lose(ByUser(u))
    case Scrape(t) => if s.threads[t].slot.Cached? then Move(InSlot(t), Taken(|s.stage.taken|)) else Same
    case UnrefTaken => Lose(Taken(s.stage.done))
    case UnrefOld => Lose(Old)
    case _ => Same
  }

  ghost predicate Fits(m: map<Place, Sv>, e: Effect)
  {
    match e
    case Same => true
    case Move(from, to) => from in m && to !in m
    case Gain(to, _) => to !in m
    case Lose(from) => from in m
  }

  ghost function After(m: map<Place, Sv>, e: Effect): map<Place, Sv>
    requires Fits(m, e)
  {
    match e
    case Same => m
    case Move(from, to) => (m - {from})[to := m[from]]
    case Gain(to, x) => m[to := x]
    case Lose(from) => m - {from}
  }

  /** Place p holds after the step what the step's effect says. */
  ghost predicate Follows(s: State, step: Step, p: Place)
    requires Enabled(s, step) && !step.Publish?
  {
    var e, s' := EffectOf(s, step), Apply(s, step);
    && (e.Move? || e.Lose? ==> Holds(s, e.from)) && (e.Move? || e.Gain? ==> !Holds(s, e.to))
    && (Holds(s', p) <==>
        ((e.Move? || e.Gain?) && p == e.to) || (Holds(s, p) && !((e.Move? || e.Lose?) && p == e.from)))
    && (Holds(s', p) ==>
          && (e.Move? && p == e.to ==> Pointer(s', p) == Pointer(s, e.from))
          && (e.Gain? && p == e.to ==> Pointer(s', p) == e.sv)
          && (!((e.Move? || e.Gain?) && p == e.to) ==> Pointer(s', p) == Pointer(s, p)))
  }

  predicate Getting(step: Step)
  {
    step.Swap? || step.Compare? || step.UnrefStale? || step.Lock?
  }

  predicate Keeping(step: Step)
  {
    step.Take? || step.Pin? || step.Return?
  }

  predicate Installing(step: Step)
  {
    step.Bump? || step.Number? || step.Scrape? || step.EndScrape? || step.UnrefTaken? || step.UnrefOld?
  }

  predicate Returning(step: Step)
  {
    step.Drop? || step.Bury? || step.Unpin? || step.HandOver?
  }

  lemma FollowsGet(s: State, step: Step, p: Place)
    requires Enabled(s, step) && Getting(step)
    ensures Follows(s, step, p)
  {
    hide Records, Rec, Last;
  }

  lemma FollowsHold(s: State, step: Step, p: Place)
    requires Enabled(s, step) && Keeping(step)
    ensures Follows(s, step, p)
  {
    hide Records, Rec, Last;
  }

  lemma FollowsReturn(s: State, step: Step, p: Place)
    requires Enabled(s, step) && Returning(step)
    ensures Follows(s, step, p)
  {
    hide Records, Rec, Last;
  }

  lemma FollowsInstall(s: State, step: Step, p: Place)
    requires Enabled(s, step) && Installing(step)
    ensures Follows(s, step, p)
  {
    hide Records, Rec, Last;
  }

  lemma FollowsOther(s: State, step: Step, p: Place)
    requires Enabled(s, step) && !Getting(step) && !Keeping(step) && !Returning(step) && !Installing(step)
    requires !step.Publish?
    ensures Follows(s, step, p)
  {
    hide Records, Rec, Last;
  }

  lemma FollowsAll(s: State, step: Step, p: Place)
    requires Enabled(s, step) && !step.Publish?
    ensures Follows(s, step, p)
  {
    hide Apply, EffectOf, Enabled, Follows;
    if Getting(step) {
      FollowsGet(s, step, p);
    } else if Keeping(step) {
      FollowsHold(s, step, p);
    } else if Returning(step) {
      FollowsReturn(s, step, p);
    } else if Installing(step) {
      FollowsInstall(s, step, p);
    } else {
      FollowsOther(s, step, p);
    }
  }

  lemma HeldAfter(s: State, step: Step)
    requires Enabled(s, step) && !step.Publish?
    ensures Fits(Held(s), EffectOf(s, step)) && Held(Apply(s, step)) == After(Held(s), EffectOf(s, step))
  {
    hide Apply, EffectOf, Enabled, Holds, Pointer, Held, Places;
    FollowsAll(s, step, Current);
    forall p
      ensures p in Held(Apply(s, step)) <==> p in After(Held(s), EffectOf(s, step))
      ensures p in Held(Apply(s, step)) ==> Held(Apply(s, step))[p] == After(Held(s), EffectOf(s, step))[p]
    {
      FollowsAll(s, step, p);
    }
  }

  lemma HeldPublish(s: State, sv: Sv)
    requires Enabled(s, Publish(sv))
    ensures Old !in Held(s) && Held(Apply(s, Publish(sv))) == Held(s)[Old := s.current][Current := sv]
  {
    hide Records, Places;
  }

  /** Every reference count is the number of places holding the pointer, and every pointer held is to an allocated
      object. */
  ghost predicate Balanced(s: State)
  {
    && (forall x :: x in s.svs ==> s.svs[x].refs == |Holders(Held(s), x)|)
    && (forall p :: p in Held(s) ==> Held(s)[p] in s.svs)
  }

  ghost function Delta(m: map<Place, Sv>, e: Effect, x: Sv): int
    requires Fits(m, e)
  {
    match e
    case Gain(_, y) => if x == y then 1 else 0
    case Lose(from) => if x == m[from] then -1 else 0
    case _ => 0
  }

  lemma HoldersAfter(m: map<Place, Sv>, e: Effect, x: Sv)
    requires Fits(m, e)
    ensures |Holders(After(m, e), x)| == |Holders(m, x)| + Delta(m, e, x)
  {
    match e {
      case Same =>
      case Move(from, to) =>
        HoldersMinus(m, from, x);
        HoldersPlus(m - {from}, to, m[from], x);
      case Gain(to, y) => HoldersPlus(m, to, y, x);
      case Lose(from) => HoldersMinus(m, from, x);
    }
  }

  lemma CurrentAllocated(s: State)
    requires Balanced(s)
    ensures s.current in s.svs && Current in Held(s) && Held(s)[Current] == s.current
  {
    assert Held(s)[Current] in s.svs;
  }

  lemma RefsAfter(s: State, step: Step)
    requires Enabled(s, step) && !step.Publish? && Balanced(s) && Fits(Held(s), EffectOf(s, step))
    requires Asserted(s, step)
    ensures Apply(s, step).svs.Keys == s.svs.Keys
    ensures forall x :: x in s.svs ==>
      Apply(s, step).svs[x].refs == s.svs[x].refs + Delta(Held(s), EffectOf(s, step), x)
  {
    hide Held, Places, Holders, Control, EffectOf, Delta, Enabled, Asserted;
    CurrentAllocated(s);
    NumbersKept(s, step);
    forall x | x in s.svs ensures Apply(s, step).svs[x].refs == s.svs[x].refs + Delta(Held(s), EffectOf(s, step), x) {
      RefAfter(s, step, x);
    }
  }

  lemma RefAfter(s: State, step: Step, x: Sv)
    requires Enabled(s, step) && !step.Publish? && Fits(Held(s), EffectOf(s, step)) && x in s.svs && s.current in s.svs
    requires Asserted(s, step)
    ensures x in Records(s, step) && Records(s, step)[x].refs == s.svs[x].refs + Delta(Held(s), EffectOf(s, step), x)
  {
    hide Held, Places, Holders, Control;
  }

  lemma BalancedAfter(s: State, step: Step)
    requires Enabled(s, step) && Balanced(s) && Asserted(s, step)
    ensures Balanced(Apply(s, step))
  {
    hide Apply, EffectOf, Enabled, Held, Places, Holders, Holds, Pointer, Asserted;
    if step.Publish? {
      BalancedPublish(s, step.sv);
    } else {
      var e := EffectOf(s, step);
      HeldAfter(s, step);
      RefsAfter(s, step);
      forall x | x in s.svs { HoldersAfter(Held(s), e, x); }
      GainAllocated(s, step);
    }
  }

  lemma GainAllocated(s: State, step: Step)
    requires Enabled(s, step) && !step.Publish? && Balanced(s)
    ensures EffectOf(s, step).Gain? ==> EffectOf(s, step).sv in s.svs
  {
    hide Held, Places, Holders;
    assert Held(s)[Current] in s.svs;
    if step.Pin? {
      assert Held(s)[ByThread(step.t)] in s.svs;
    }
  }

  lemma BalancedPublish(s: State, sv: Sv)
    requires Enabled(s, Publish(sv)) && Balanced(s)
    ensures Balanced(Apply(s, Publish(sv)))
  {
    hide Held, Places, Holders, Holds, Pointer;
    HeldPublish(s, sv);
    CurrentAllocated(s);
    var m := Held(s);
    var m1 := m[Old := s.current];
    assert (m1 - {Current})[Current := sv] == m1[Current := sv];
    forall x | x in Apply(s, Publish(sv)).svs
      ensures |Holders(m1[Current := sv], x)| == if x == sv then 1 else |Holders(m, x)|
    {
      HoldersPlus(m, Old, s.current, x);
      HoldersMinus(m1, Current, x);
      HoldersPlus(m1 - {Current}, Current, sv, x);
      if x == sv { Unheld(m, sv); }
    }
  }

  lemma Unheld(m: map<Place, Sv>, x: Sv)
    requires forall p :: p in m ==> m[p] != x
    ensures |Holders(m, x)| == 0
  {
    assert Holders(m, x) == {};
  }

  // ---------------------------------------------------------------- what may be cached

  /** The SuperVersion a slot not yet scraped by the install in progress may give back. */
  ghost predicate Cacheable(s: State, t: Thread, x: Sv)
  {
    match s.stage
    case Quiet => x == s.current
    case Pointed(prev) => x == prev
    case Bumped(prev) => x == prev
    case Scraping(prev, todo, _) => x == prev && t in todo
    case Unreffing(_, _, _) => false
  }

  ghost predicate SlotOk(s: State, t: Thread)
    requires t in s.threads
  {
    var Local(slot, pc) := s.threads[t];
    match slot
    case Obsolete => true
    case InUse =>
      && !pc.Idle? && !pc.Handing? && !pc.Dropping? && !pc.Burying? && !pc.Unpinning?
      && (pc.Loaded? || pc.Using? || pc.Pinning? ==> Cacheable(s, t, pc.sv))
    case Cached(x) => (pc.Idle? || pc.Handing?) && Cacheable(s, t, x)
  }

  /** What an install has scraped out of the slots is its predecessor. */
  ghost predicate TakenOk(s: State)
  {
    match s.stage
    case Scraping(prev, todo, taken) => todo <= s.threads.Keys && forall i :: 0 <= i < |taken| ==> taken[i] == prev
    case Unreffing(prev, taken, done) => done <= |taken| && forall i :: 0 <= i < |taken| ==> taken[i] == prev
    case _ => true
  }

  /** Outside an install every cached pointer is super_version_; during one, those not yet scraped are its
      predecessor. */
  ghost predicate Fresh(s: State)
  {
    (forall t :: t in s.threads ==> SlotOk(s, t)) && TakenOk(s)
  }

  /** The version numbers: only the published SuperVersion carries the current one. */
  ghost predicate Numbered(s: State)
  {
    && s.number > 0 && s.current in s.svs
    && (forall x :: x in s.svs ==> s.svs[x].number <= s.number)
    && match s.stage
       case Pointed(prev) =>
         && prev in s.svs && prev != s.current
         && forall x :: x in s.svs ==> (s.svs[x].number == s.number <==> x == prev)
       case Bumped(prev) => forall x :: x in s.svs ==> s.svs[x].number < s.number
       case _ => forall x :: x in s.svs ==> (s.svs[x].number == s.number <==> x == s.current)
  }

  /** The mutex serializes installs and the readers that take super_version_. */
  ghost predicate Exclusive(s: State)
  {
    && (s.mutex.Installer? <==> !s.stage.Quiet?)
    && (forall t :: s.mutex == Reader(t) <==> t in s.threads && s.threads[t].pc.Locked?)
  }

  /** Who is about to call Cleanup, after an Unref that returned true. */
  ghost predicate Reaps(s: State, r: Place)
  {
    match r
    case ByThread(t) => t in s.threads && (s.threads[t].pc.Dead? || s.threads[t].pc.Burying?)
    case ByUser(u) => u in s.users && s.users[u].Doomed?
    case _ => false
  }

  ghost function Reaped(s: State, r: Place): Sv
    requires Reaps(s, r)
  {
    match r
    case ByThread(t) => s.threads[t].pc.sv
    case ByUser(u) => s.users[u].sv
  }

  /** A count is zero exactly when Cleanup was called or exactly one place is about to call it. */
  ghost predicate Disposed(s: State)
  {
    && (forall r :: Reaps(s, r) ==> Cleanable(s, Reaped(s, r)))
    && (forall r, q :: Reaps(s, r) && Reaps(s, q) && Reaped(s, r) == Reaped(s, q) ==> r == q)
    && (forall x :: x in s.svs && s.svs[x].refs == 0 && !s.svs[x].cleaned ==>
        exists r :: Reaps(s, r) && Reaped(s, r) == x)
    && (forall x :: x in s.svs && s.svs[x].cleaned ==> s.svs[x].refs == 0)
  }

  ghost predicate Inv(s: State)
  {
    Balanced(s) && Disposed(s) && Fresh(s) && Numbered(s) && Exclusive(s)
  }

  // ---------------------------------------------------------------- every step keeps the invariant

  /** A pointer held somewhere is to a SuperVersion with references that is not cleaned up. */
  lemma HeldUsable(s: State, p: Place)
    requires Balanced(s) && Disposed(s) && Holds(s, p)
    ensures Usable(s, Pointer(s, p))
  {
    var m, x := Held(s), Pointer(s, p);
    assert m[p] in s.svs;
    assert p in Holders(m, x);
  }

  lemma NotLast(s: State, p: Place, q: Place)
    requires Balanced(s) && Holds(s, p) && Holds(s, q) && p != q && Pointer(s, p) == Pointer(s, q)
    ensures !Last(s, Pointer(s, p))
  {
    assert Held(s)[p] in s.svs;
    TwoHolders(Held(s), p, q);
  }

  lemma ThreadAsserted(s: State, step: Step)
    requires Balanced(s) && Disposed(s) && Fresh(s) && Enabled(s, step)
    requires (Getting(step) || Keeping(step) || Returning(step))
    ensures Asserted(s, step)
  {
    hide Balanced, Held, Places, Holders, TakenOk, Cacheable;
    var t := step.t;
    assert SlotOk(s, t);
    if Holds(s, ByThread(t)) { HeldUsable(s, ByThread(t)); }
    if Holds(s, Pinned(t)) { HeldUsable(s, Pinned(t)); }
    assert s.threads[t].pc.Dead? || s.threads[t].pc.Burying? ==> Reaps(s, ByThread(t));
    if step.Take? { HeldUsable(s, Current); }
    if step.Unpin? { NotLast(s, ByThread(t), Pinned(t)); }
  }

  /** In a state satisfying the invariant no enabled step violates its assertions. */
  lemma StepAsserted(s: State, step: Step)
    requires Inv(s) && Enabled(s, step)
    ensures Asserted(s, step)
  {
    hide Balanced, Held, Places, Holders, Numbered, Exclusive;
    match step {
      case Exit(t) =>
        if s.threads[t].slot.Cached? {
          HeldUsable(s, InSlot(t));
          NotLast(s, InSlot(t), if s.stage.Quiet? then Current else Old);
        }
      case Release(u) => HeldUsable(s, ByUser(u));
      case Reap(u) => assert Reaps(s, ByUser(u));
      case UnrefTaken =>
        HeldUsable(s, Taken(s.stage.done));
        NotLast(s, Taken(s.stage.done), Old);
      case UnrefOld => HeldUsable(s, Old);
      case _ =>
        if Getting(step) || Keeping(step) || Returning(step) { ThreadAsserted(s, step); }
    }
  }

  lemma ExclusiveThread(s: State, step: Step)
    requires Enabled(s, step) && Exclusive(s) && (Getting(step) || Keeping(step) || Returning(step))
    ensures Exclusive(Apply(s, step))
  {
    hide Records, Rec, Last;
  }

  lemma ExclusiveAfter(s: State, step: Step)
    requires Enabled(s, step) && Exclusive(s)
    ensures Exclusive(Apply(s, step))
  {
    hide Records, Rec, Last;
    if Getting(step) || Keeping(step) || Returning(step) { ExclusiveThread(s, step); }
  }

  lemma NumbersKept(s: State, step: Step)
    requires Enabled(s, step) && Asserted(s, step) && s.current in s.svs && !step.Publish?
    ensures Records(s, step).Keys == s.svs.Keys
    ensures forall x :: x in s.svs && !step.Number? ==> Records(s, step)[x].number == s.svs[x].number
  {
  }

  lemma StageKept(s: State, step: Step)
    requires Enabled(s, step) && !step.Publish? && !step.Bump? && !step.Number?
    ensures var s' := Control(s, step);
      && s'.current == s.current && s'.number == s.number
      && (s.stage.Pointed? || s.stage.Bumped? ==> s'.stage == s.stage)
      && !(!s.stage.Pointed? && s'.stage.Pointed?) && !(!s.stage.Bumped? && s'.stage.Bumped?)
  {
  }

  lemma NumberedAfter(s: State, step: Step)
    requires Enabled(s, step) && Numbered(s) && Asserted(s, step)
    ensures Numbered(Apply(s, step))
  {
    if step.Publish? || step.Bump? || step.Number? {
    } else {
      hide Control, Records, Enabled, Asserted;
      NumbersKept(s, step);
      StageKept(s, step);
    }
  }

  lemma SlotOkGet(s: State, step: Step, t: Thread)
    requires Enabled(s, step) && (Getting(step) || Keeping(step)) && Exclusive(s)
    requires t in s.threads && SlotOk(s, t)
    ensures SlotOk(Control(s, step), t)
  {
    hide Last, Rec;
  }

  lemma SlotOkInstall(s: State, step: Step, t: Thread)
    requires Enabled(s, step) && Fresh(s) && !Getting(step) && !Keeping(step) && !Returning(step)
    requires t in Control(s, step).threads
    ensures SlotOk(Control(s, step), t)
  {
    hide Last, Rec;
    if t in s.threads { assert SlotOk(s, t); }
  }

  lemma SlotOkReturn(s: State, step: Step, t: Thread)
    requires Enabled(s, step) && Returning(step)
    requires t in s.threads && SlotOk(s, t)
    ensures SlotOk(Control(s, step), t)
  {
    hide Last, Rec;
  }

  lemma SlotOkAfter(s: State, step: Step, t: Thread)
    requires Enabled(s, step) && Fresh(s) && Exclusive(s)
    requires t in Control(s, step).threads
    ensures SlotOk(Control(s, step), t)
  {
    hide Last, Rec, SlotOk, Exclusive, TakenOk;
    if Getting(step) || Keeping(step) {
      SlotOkGet(s, step, t);
    } else if Returning(step) {
      SlotOkReturn(s, step, t);
    } else {
      SlotOkInstall(s, step, t);
    }
  }

  lemma TakenAfter(s: State, step: Step)
    requires Enabled(s, step) && Fresh(s)
    ensures TakenOk(Apply(s, step))
  {
    hide Records, Last, Rec;
    if step.Scrape? { assert SlotOk(s, step.t); }
  }

  lemma FreshAfter(s: State, step: Step)
    requires Enabled(s, step) && Fresh(s) && Exclusive(s)
    ensures Fresh(Apply(s, step))
  {
    hide Records, SlotOk, TakenOk, Exclusive, Control, Enabled;
    TakenAfter(s, step);
    forall t | t in Control(s, step).threads ensures SlotOk(Apply(s, step), t) {
      SlotOkAfter(s, step, t);
      SlotFrame(Control(s, step), Apply(s, step), t);
    }
  }

  lemma SlotFrame(s: State, s': State, t: Thread)
    requires t in s.threads && SlotOk(s, t) && s'.threads == s.threads && s'.stage == s.stage && s'.current == s.current
    ensures SlotOk(s', t)
  {
  }

  /** What a step does about a count that is or becomes zero. */
  datatype Fate = Nothing | Doom(r: Place, sv: Sv) | Clean(r: Place) | Vanish(sv: Sv)

  ghost function FateOf(s: State, step: Step): Fate
    requires Enabled(s, step)
  {
    match step
    case UnrefStale(t) => if Last(s, s.threads[t].pc.sv) then Doom(ByThread(t), s.threads[t].pc.sv) else Nothing
    case Drop(t) => if Last(s, s.threads[t].pc.sv) then Doom(ByThread(t), s.threads[t].pc.sv) else Nothing
    case Release(u) => if Last(s, s.users[u].sv) then Doom(ByUser(u), s.users[u].sv) else Nothing
    case Lock(t) => if s.threads[t].pc.Dead? then Clean(ByThread(t)) else Nothing
    case Bury(t) => Clean(ByThread(t))
    case Reap(u) => Clean(ByUser(u))
    case UnrefOld => if Last(s, s.stage.prev) then Vanish(s.stage.prev) else Nothing
    case _ => Nothing
  }

  ghost predicate ReapsFollow(s: State, step: Step, r: Place)
    requires Enabled(s, step)
  {
    var f, s' := FateOf(s, step), Apply(s, step);
    && (f.Doom? ==> !Reaps(s, f.r)) && (f.Clean? ==> Reaps(s, f.r))
    && (Reaps(s', r) <==> (f.Doom? && r == f.r) || (Reaps(s, r) && !(f.Clean? && r == f.r)))
    && (Reaps(s', r) ==> Reaped(s', r) == if f.Doom? && r == f.r then f.sv else Reaped(s, r))
  }

  lemma ReapsGet(s: State, step: Step, r: Place)
    requires Enabled(s, step) && (Getting(step) || Keeping(step))
    ensures ReapsFollow(s, step, r)
  {
    hide Rec, Records;
  }

  lemma ReapsOther(s: State, step: Step, r: Place)
    requires Enabled(s, step) && !Getting(step) && !Keeping(step)
    ensures ReapsFollow(s, step, r)
  {
    hide Rec, Records;
  }

  lemma ReapsAfter(s: State, step: Step, r: Place)
    requires Enabled(s, step)
    ensures ReapsFollow(s, step, r)
  {
    hide ReapsFollow, Enabled;
    if Getting(step) || Keeping(step) { ReapsGet(s, step, r); } else { ReapsOther(s, step, r); }
  }

  lemma FatesAfter(s: State, step: Step, x: Sv)
    requires Enabled(s, step) && Asserted(s, step) && x in s.svs && s.current in s.svs
    ensures var f := FateOf(s, step);
      && x in Records(s, step)
      && (f.Doom? || f.Vanish? ==> Usable(s, f.sv))
      && (Records(s, step)[x].cleaned <==>
          s.svs[x].cleaned || (f.Clean? && Reaps(s, f.r) && x == Reaped(s, f.r)) || f == Vanish(x))
      && (Records(s, step)[x].refs == 0 <==> s.svs[x].refs == 0 || (f.Doom? && f.sv == x) || f == Vanish(x))
  {
    hide Control;
  }

  lemma OnlyPublishAllocates(s: State, step: Step, x: Sv)
    requires Enabled(s, step) && Asserted(s, step) && s.current in s.svs && x in Records(s, step) && x !in s.svs
    ensures Records(s, step)[x] == Record(1, 0, false)
  {
    hide Control;
  }

  lemma DisposedAfter(s: State, step: Step)
    requires Enabled(s, step) && Disposed(s) && Asserted(s, step) && s.current in s.svs
    ensures Disposed(Apply(s, step))
  {
    hide Enabled, Asserted, Control, Records, FateOf, Last, Reaps, Reaped;
    var f, s' := FateOf(s, step), Apply(s, step);
    FatesAfter(s, step, s.current);
    forall r | Reaps(s', r) ensures Cleanable(s', Reaped(s', r)) {
      ReapsAfter(s, step, r);
      FatesAfter(s, step, Reaped(s', r));
    }
    forall r, q | Reaps(s', r) && Reaps(s', q) && Reaped(s', r) == Reaped(s', q) ensures r == q {
      ReapsAfter(s, step, r);
      ReapsAfter(s, step, q);
      FatesAfter(s, step, Reaped(s', r));
    }
    forall x | x in s'.svs && s'.svs[x].refs == 0
      ensures s'.svs[x].cleaned || exists r :: Reaps(s', r) && Reaped(s', r) == x
    {
      ZeroAfter(s, step, x);
    }
    forall x | x in s'.svs && s'.svs[x].cleaned ensures s'.svs[x].refs == 0 {
      if x in s.svs {
        FatesAfter(s, step, x);
      } else {
        OnlyPublishAllocates(s, step, x);
      }
    }
  }

  lemma ZeroAfter(s: State, step: Step, x: Sv)
    requires Enabled(s, step) && Disposed(s) && Asserted(s, step) && s.current in s.svs
    requires x in Records(s, step) && Records(s, step)[x].refs == 0
    ensures Records(s, step)[x].cleaned || exists r :: Reaps(Apply(s, step), r) && Reaped(Apply(s, step), r) == x
  {
    hide Enabled, Asserted, Control, Records, FateOf, Last, Reaps, Reaped;
    var f := FateOf(s, step);
    if x !in s.svs {
      OnlyPublishAllocates(s, step, x);
    } else {
      FatesAfter(s, step, x);
      if f.Doom? && f.sv == x {
        ReapsAfter(s, step, f.r);
      } else if s.svs[x].refs == 0 && !s.svs[x].cleaned {
        var r :| Reaps(s, r) && Reaped(s, r) == x;
        ReapsAfter(s, step, r);
      }
    }
  }

  lemma StepKeeps(s: State, step: Step)
    requires Inv(s) && Enabled(s, step)
    ensures Inv(Apply(s, step))
  {
    hide Balanced, Disposed, Fresh, Exclusive, Enabled, Asserted, Apply;
    StepAsserted(s, step);
    BalancedAfter(s, step);
    DisposedAfter(s, step);
    FreshAfter(s, step);
    NumberedAfter(s, step);
    ExclusiveAfter(s, step);
  }

  // ---------------------------------------------------------------- every run

  /** A column family after its first InstallSuperVersion, before any thread has used it. */
  ghost predicate Init(s: State)
  {
    && s.svs == map[s.current := Record(1, 1, false)] && s.number == 1
    && s.threads == map[] && s.users == map[] && s.mutex == Free && s.stage == Quiet
  }

  /** The states along a run from s, the last one being the result of all the steps. */
  ghost predicate Run(s: State, steps: seq<Step>, end: State)
    decreases |steps|
  {
    if steps == [] then end == s
    else Enabled(s, steps[0]) && Run(Apply(s, steps[0]), steps[1..], end)
  }

  lemma InitInv(s: State)
    requires Init(s)
    ensures Inv(s)
  {
    hide Balanced;
    InitBalanced(s);
  }

  lemma InitBalanced(s: State)
    requires Init(s)
    ensures Balanced(s)
  {
    hide Places;
    assert Holders(Held(s), s.current) == {Current};
  }

  lemma {:induction false} RunKeeps(s: State, steps: seq<Step>, end: State)
    requires Inv(s) && Run(s, steps, end)
    ensures Inv(end)
    decreases |steps|
  {
    hide Inv, Enabled, Apply;
    if steps != [] {
      StepKeeps(s, steps[0]);
      RunKeeps(Apply(s, steps[0]), steps[1..], end);
    }
  }

  /** In every reachable state: refs counts the places holding the pointer; it is zero exactly when Cleanup has been
      called, or exactly one place is about to; and a place that holds the pointer never holds a cleaned-up one. */
  lemma RefsCountHolders(s: State, steps: seq<Step>, end: State, x: Sv)
    requires Init(s) && Run(s, steps, end) && x in end.svs
    ensures end.svs[x].refs == |Holders(Held(end), x)|
    ensures end.svs[x].cleaned ==> Holders(Held(end), x) == {}
    ensures end.svs[x].refs == 0 <==> end.svs[x].cleaned || exists r :: Reaps(end, r) && Reaped(end, r) == x
    ensures forall r, q :: Reaps(end, r) && Reaps(end, q) && Reaped(end, r) == Reaped(end, q) ==> r == q
  {
    InitInv(s);
    RunKeeps(s, steps, end);
    hide Run, Held, Reaps, Reaped, Places;
  }

  /** No assertion of the source fails in any run, no step reads or counts a cleaned-up SuperVersion, Cleanup runs only
      at count zero and once, and the three Unref whose result must be false give false. */
  lemma RunAsserted(s: State, steps: seq<Step>, end: State, step: Step)
    requires Init(s) && Run(s, steps, end) && Enabled(end, step)
    ensures Asserted(end, step)
  {
    InitInv(s);
    RunKeeps(s, steps, end);
    StepAsserted(end, step);
  }

  /** Outside an install no slot caches a stale SuperVersion; during one, only its predecessor and only before the
      scrape. */
  lemma NoStaleSlot(s: State, steps: seq<Step>, end: State, t: Thread)
    requires Init(s) && Run(s, steps, end) && t in end.threads && end.threads[t].slot.Cached?
    ensures end.stage.Quiet? ==> end.threads[t].slot.sv == end.current
    ensures !end.stage.Quiet? ==> end.threads[t].slot.sv == end.stage.prev && !end.stage.Unreffing?
    ensures end.stage.Scraping? ==> t in end.stage.todo
  {
    hide Run, Init, Balanced, Disposed, Numbered, Exclusive;
    InitInv(s);
    RunKeeps(s, steps, end);
    assert SlotOk(end, t);
  }

  /** The SuperVersion whose number is super_version_number_. */
  ghost predicate Published(s: State, x: Sv)
  {
    x in s.svs && s.svs[x].number == s.number
  }

  /** GetThreadLocalSuperVersion returns, at the step that decides it, the one published SuperVersion; it is also
      super_version_ at that instant unless an install has assigned the pointer and not yet the number, and always when
      it is taken under the mutex. */
  lemma ReturnsPublished(s: State, steps: seq<Step>, end: State, step: Step, t: Thread)
    requires Init(s) && Run(s, steps, end) && (step == Compare(t) || step == Take(t)) && Enabled(end, step)
    requires Apply(end, step).threads[t].pc.Using?
    ensures var x := Apply(end, step).threads[t].pc.sv;
      && Published(end, x) && (forall y :: Published(end, y) ==> y == x)
      && (x == end.current <==> !end.stage.Pointed?) && (step.Take? ==> x == end.current)
  {
    hide Run, Init, Balanced, Disposed, Fresh;
    InitInv(s);
    RunKeeps(s, steps, end);
    StepAsserted(end, step);
  }

  // ---------------------------------------------------------------- a whole call

  /** x is super_version_ at some instant of the run. */
  ghost predicate WasCurrent(s: State, steps: seq<Step>, x: Sv)
    decreases |steps|
  {
    s.current == x || (steps != [] && Enabled(s, steps[0]) && WasCurrent(Apply(s, steps[0]), steps[1..], x))
  }

  /** A SuperVersion that no later comparison takes for the published one. */
  ghost predicate Outdated(s: State, x: Sv)
  {
    x in s.svs && s.svs[x].number < s.number && x != s.current
  }

  lemma OutdatedAfter(s: State, step: Step, x: Sv)
    requires Outdated(s, x) && Enabled(s, step)
    ensures Outdated(Apply(s, step), x)
  {
  }

  lemma {:induction false} OutdatedRun(s: State, steps: seq<Step>, end: State, x: Sv)
    requires Outdated(s, x) && Run(s, steps, end)
    ensures Outdated(end, x)
    decreases |steps|
  {
    hide Outdated, Enabled, Apply;
    if steps != [] {
      OutdatedAfter(s, steps[0], x);
      OutdatedRun(Apply(s, steps[0]), steps[1..], end, x);
    }
  }

  /** An install has assigned super_version_ in place of x and not yet incremented the number. */
  ghost predicate InWindow(s: State, x: Sv)
  {
    s.stage == Pointed(x) && x in s.svs && s.svs[x].number <= s.number && x != s.current
  }

  lemma WindowAfter(s: State, step: Step, x: Sv)
    requires InWindow(s, x) && Enabled(s, step)
    ensures if step.Bump? then Outdated(Apply(s, step), x) else InWindow(Apply(s, step), x)
  {
  }

  /** The window lasts until the number is incremented, and all that time x is not super_version_. */
  lemma {:induction false} WindowRun(s: State, steps: seq<Step>, end: State, x: Sv)
    requires InWindow(s, x) && Run(s, steps, end)
    ensures if Bump in steps then Outdated(end, x) else InWindow(end, x) && !WasCurrent(s, steps, x)
    decreases |steps|
  {
    hide Enabled, Apply;
    if steps != [] {
      assert Bump in steps <==> steps[0] == Bump || Bump in steps[1..];
      WindowAfter(s, steps[0], x);
      if steps[0].Bump? {
        OutdatedRun(Apply(s, steps[0]), steps[1..], end, x);
      } else {
        WindowRun(Apply(s, steps[0]), steps[1..], end, x);
      }
    }
  }

  lemma LoadedAfter(s: State, step: Step, t: Thread)
    requires t in s.threads && s.threads[t].pc.Loaded? && Enabled(s, step) && step != Compare(t)
    ensures t in Apply(s, step).threads && Apply(s, step).threads[t].pc == s.threads[t].pc
  {
  }

  /** Between the two steps of its own a call in progress is untouched. */
  lemma {:induction false} LoadedRun(s: State, steps: seq<Step>, end: State, t: Thread)
    requires t in s.threads && s.threads[t].pc.Loaded? && Run(s, steps, end) && Compare(t) !in steps
    ensures t in end.threads && end.threads[t].pc == s.threads[t].pc
    decreases |steps|
  {
    hide Enabled, Apply;
    if steps != [] {
      LoadedAfter(s, steps[0], t);
      LoadedRun(Apply(s, steps[0]), steps[1..], end, t);
    }
  }

  /** What a thread swaps out of its slot: super_version_, what an install is about to replace, or something
      outdated. */
  lemma SwappedOut(s: State, t: Thread)
    requires Inv(s) && t in s.threads && s.threads[t].slot.Cached?
    ensures var x := s.threads[t].slot.sv; x == s.current || InWindow(s, x) || Outdated(s, x)
    ensures var x := s.threads[t].slot.sv; s.stage.Pointed? ==> InWindow(s, x)
  {
    hide Disposed, Exclusive, Held, Places, Holders;
    assert SlotOk(s, t);
    assert Holds(s, InSlot(t));
  }

  lemma SwapSame(s: State, t: Thread, x: Sv)
    requires Enabled(s, Swap(t))
    ensures var s' := Apply(s, Swap(t)); (InWindow(s', x) <==> InWindow(s, x)) && (Outdated(s', x) <==> Outdated(s, x))
    ensures s.threads[t].slot.Cached? ==>
      Apply(s, Swap(t)).threads[t].pc == Loaded(s.threads[t].slot.sv, s.threads[t].slot.sv == s.current)
  {
  }

  /** A call that reuses the cached SuperVersion returns one that was super_version_ at some instant of the call
      exactly if it was when the slot was swapped, or no install has assigned the pointer and not yet the number when
      it compares; this fails exactly if its two steps fall between those two assignments of one install. */
  lemma ReturnsInstalledIff(s: State, before: seq<Step>, a: State, t: Thread, steps: seq<Step>, end: State)
    requires Init(s) && Run(s, before, a) && Enabled(a, Swap(t)) && a.threads[t].slot.Cached?
    requires Run(Apply(a, Swap(t)), steps, end) && Compare(t) !in steps
    ensures Enabled(end, Compare(t))
    ensures Apply(end, Compare(t)).threads[t].pc.Using? ==>
      var x := Apply(end, Compare(t)).threads[t].pc.sv;
      && (WasCurrent(a, [Swap(t)] + steps, x) <==> end.threads[t].pc.seen || !end.stage.Pointed?)
      && (WasCurrent(a, [Swap(t)] + steps, x) <==> !(a.stage.Pointed? && Bump !in steps))
  {
    hide Balanced, Disposed, Fresh, Exclusive, Numbered;
    InitInv(s);
    RunKeeps(s, before, a);
    var x, b := a.threads[t].slot.sv, Apply(a, Swap(t));
    SwappedOut(a, t);
    SwapSame(a, t, x);
    LoadedRun(b, steps, end, t);
    assert ([Swap(t)] + steps)[1..] == steps;
    hide Apply, Inv;
    if InWindow(a, x) {
      WindowRun(b, steps, end, x);
    } else if x != a.current {
      OutdatedRun(b, steps, end, x);
    }
    assert Apply(end, Compare(t)).threads[t].pc.Using? ==>
      Apply(end, Compare(t)).threads[t].pc.sv == x && !Outdated(end, x) by { Compared(end, t); }
  }

  lemma Compared(s: State, t: Thread)
    requires Enabled(s, Compare(t))
    ensures Apply(s, Compare(t)).threads[t].pc.Using? ==>
      Apply(s, Compare(t)).threads[t].pc.sv == s.threads[t].pc.sv && !Outdated(s, s.threads[t].pc.sv)
  {
  }

  /** The window exists: whatever a thread has cached when an install assigns super_version_, a call made before the
      number is incremented returns it, though it is super_version_ at no instant of that call. */
  lemma InstallWindow(s: State, t: Thread, sv: Sv)
    requires Numbered(s) && s.stage.Quiet? && s.mutex.Free? && sv !in s.svs
    requires t in s.threads && s.threads[t] == Local(Cached(s.current), Idle)
    ensures Enabled(s, Publish(sv))
    ensures var s1 := Apply(s, Publish(sv));
      && Enabled(s1, Swap(t)) && var s2 := Apply(s1, Swap(t));
      && Enabled(s2, Compare(t)) && var s3 := Apply(s2, Compare(t));
      && s3.threads[t].pc == Using(s.current) && s1.current == s2.current == s3.current != s.current
  {
  }

  function FirstRead(): seq<Step>
  {
    [Start(0), Swap(0), Lock(0), Take(0), Return(0)]
  }

  function FirstState(i: nat): State
  {
    var empty := State(map[0 := Record(1, 1, false)], 0, 1, map[], map[], Free, Quiet);
    var taken := empty.(svs := map[0 := Record(2, 1, false)]);
    match i
    case 0 => empty
    case 1 => empty.(threads := map[0 := Local(Obsolete, Idle)])
    case 2 => empty.(threads := map[0 := Local(InUse, Waiting)])
    case 3 => empty.(threads := map[0 := Local(InUse, Locked)], mutex := Reader(0))
    case 4 => taken.(threads := map[0 := Local(InUse, Using(0))])
    case _ => taken.(threads := map[0 := Local(Cached(0), Idle)])
  }

  lemma FirstStep(i: nat)
    requires i < 5
    ensures Enabled(FirstState(i), FirstRead()[i]) && Apply(FirstState(i), FirstRead()[i]) == FirstState(i + 1)
  {
  }

  /** Such a state is reachable: a thread's first read caches what it took under the mutex. */
  lemma {:induction false} FirstReadRuns(i: nat)
    requires i <= 5
    ensures Run(FirstState(i), FirstRead()[i..], FirstState(5)) && Init(FirstState(0))
    ensures FirstState(5).threads == map[0 := Local(Cached(FirstState(5).current), Idle)]
    ensures FirstState(5).stage.Quiet? && FirstState(5).mutex.Free?
    decreases 5 - i
  {
    hide Enabled, Apply;
    if i < 5 {
      FirstStep(i);
      FirstReadRuns(i + 1);
      assert FirstRead()[i..][1..] == FirstRead()[i + 1..];
    }
  }

  lemma {:induction false} RunAppend(s: State, steps: seq<Step>, mid: State, step: Step)
    requires Run(s, steps, mid) && Enabled(mid, step)
    ensures Run(s, steps + [step], Apply(mid, step))
    decreases |steps|
  {
    hide Enabled, Apply;
    if steps == [] {
      assert (steps + [step])[1..] == [];
    } else {
      assert (steps + [step])[1..] == steps[1..] + [step];
      RunAppend(Apply(s, steps[0]), steps[1..], mid, step);
    }
  }

  /** The call in that window, as a run: what it returns is super_version_ at no instant of it. */
  lemma WindowCall(s: State, t: Thread, sv: Sv) returns (a: State, end: State)
    requires Numbered(s) && s.stage.Quiet? && s.mutex.Free? && sv !in s.svs
    requires t in s.threads && s.threads[t] == Local(Cached(s.current), Idle)
    ensures Enabled(s, Publish(sv)) && a == Apply(s, Publish(sv))
    ensures Enabled(a, Swap(t)) && Run(a, [Swap(t)] + [Compare(t)], end)
    ensures t in end.threads && end.threads[t].pc == Using(s.current)
    ensures !WasCurrent(a, [Swap(t)] + [Compare(t)], s.current)
  {
    InstallWindow(s, t, sv);
    assert InWindow(Apply(s, Publish(sv)), s.current);
    hide Apply, Enabled, Numbered, InWindow;
    a := Apply(s, Publish(sv));
    var b := Apply(a, Swap(t));
    end := Apply(b, Compare(t));
    assert ([Swap(t)] + [Compare(t)])[1..] == [Compare(t)];
    assert Run(end, [], end) && [Compare(t)][1..] == [];
    assert Run(b, [Compare(t)], end);
    WindowRun(a, [Swap(t)] + [Compare(t)], end, s.current);
  }

  lemma FirstNumbered()
    ensures Numbered(FirstState(5)) && 1 !in FirstState(5).svs && FirstState(5).current == 0
  {
  }

  /** The window is reached: a thread caches 0, an install assigns 1, and a whole call returns 0. */
  lemma WindowIsReached() returns (a: State, end: State)
    ensures Init(FirstState(0)) && Run(FirstState(0), FirstRead() + [Publish(1)], a)
    ensures Enabled(a, Swap(0)) && Run(a, [Swap(0)] + [Compare(0)], end)
    ensures 0 in end.threads && end.threads[0].pc == Using(0) && !WasCurrent(a, [Swap(0)] + [Compare(0)], 0)
  {
    FirstReadRuns(0);
    FirstNumbered();
    assert FirstRead()[0..] == FirstRead();
    hide FirstState, Apply, Enabled, Numbered, Run, Init;
    var s := FirstState(5);
    a, end := WindowCall(s, 0, 1);
    RunAppend(FirstState(0), FirstRead(), s, Publish(1));
  }
}
