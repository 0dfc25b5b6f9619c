/**
 Progress of closures over shared tables: if every closure makes a bounded number of calls, whatever it is
 answered, the lanes, the pool and the writer bring every admitted call to its end.
 */
module SerialProgress {
  import opened Wrappers
  import opened Schema
  import opened Store
  import opened Closures
  import opened Serial
  import Lanes
  import LaneProgress
  import WaitPool

  // ---------------------------------------------------------------- closures that end

  /** At most `n` calls, whatever the answers. */
  ghost predicate Bounded<R(!new)>(c: Closure<R>, n: nat) {
    forall h: seq<Response> | |h| >= n :: !c.next(h).Call?
  }

  ghost predicate ReadOnly<R(!new)>(c: Closure<R>) {
    forall h: seq<Response> | c.next(h).Call? :: !c.next(h).request.Write?
  }

  /** The services meet the bound: three calls for an issuer, four for a security. */
  lemma ServicesAreBounded(cnpj: Option<string>, lei: Option<string>, op: Op, id: Id, d: SecurityData)
    ensures forall h: seq<Response> | Guarded(cnpj, lei, op).next(h).Call? :: |h| < 3
    ensures forall h: seq<Response> | RegisterSecurity(id, d).next(h).Call? :: |h| < 4
  {}

  /** Every call has a job that ends; those of the read lane only read and are live. */
  ghost predicate JobsEnd<R(!new)>(s: State<R>, n: nat) {
    forall t | t in s.lanes.calls ::
      && t in s.jobs
      && Bounded(s.jobs[t].closure, n)
      && (s.lanes.calls[t].lane.Read? ==> !s.jobs[t].dry && ReadOnly(s.jobs[t].closure))
  }

  /** What a running closure runs is its job. */
  ghost predicate RunsItsJob<R(!new)>(s: State<R>, t: Tid) {
    && t in s.jobs && t in s.progress
    && s.progress[t].closure == s.jobs[t].closure && s.progress[t].dry == s.jobs[t].dry
  }

  ghost predicate ProgressInv<R(!new)>(s: State<R>, items: set<WaitPool.Item>, n: nat) {
    && Lanes.Inv(s.lanes, items)
    && JobsEnd(s, n)
    && forall t | Lanes.PhaseIs(s.lanes, t, Lanes.Running) :: RunsItsJob(s, t)
  }

  lemma LanesStay(s: Lanes.System, l: Lanes.Step, t: Tid)
    requires Lanes.Enabled(s, l) && t in s.calls
    ensures t in Lanes.Apply(s, l).calls && Lanes.Apply(s, l).calls[t].lane == s.calls[t].lane
  {
    if Lanes.Actor(l) != Some(t) {
      Lanes.UntouchedCall(s, l, t);
    }
  }

  lemma StepKeepsJobs<R(!new)>(s: State<R>, step: Step, n: nat)
    requires Enabled(s, step) && JobsEnd(s, n)
    ensures JobsEnd(Apply(s, step), n)
  {
    var q := Apply(s, step);
    forall t | t in q.lanes.calls ensures t in s.lanes.calls && q.lanes.calls[t].lane == s.lanes.calls[t].lane {
      if step.Admit? {
        Lanes.StepKeepsKeys(s.lanes, step.step);
        LanesStay(s.lanes, step.step, t);
      }
    }
  }

  lemma StepKeepsRunning<R(!new)>(s: State<R>, step: Step, t: Tid)
    requires Enabled(s, step) && Lanes.PhaseIs(Apply(s, step).lanes, t, Lanes.Running)
    requires Lanes.PhaseIs(s.lanes, t, Lanes.Running) ==> RunsItsJob(s, t)
    ensures RunsItsJob(Apply(s, step), t)
  {
    if step.Admit? && step != Admit(Lanes.Start(t)) {
      var lane := Apply(s, step).lanes.calls[t].lane;
      Lanes.RunningComesFromStart(s.lanes, step.step, lane, t);
    }
  }

  lemma StepKeepsProgressInv<R(!new)>(s: State<R>, step: Step, items: set<WaitPool.Item>, n: nat)
    requires ProgressInv(s, items, n) && Enabled(s, step)
    ensures ProgressInv(Apply(s, step), items, n)
  {
    StepKeepsJobs(s, step, n);
    if step.Admit? {
      Lanes.StepKeepsInv(s.lanes, step.step, items);
    }
    forall t | Lanes.PhaseIs(Apply(s, step).lanes, t, Lanes.Running) ensures RunsItsJob(Apply(s, step), t) {
      StepKeepsRunning(s, step, t);
    }
  }

  // ---------------------------------------------------------------- what a closure needs next

  datatype Need = Nothing | Reader | Writer

  function NeedOf<R(!new)>(s: State<R>, t: Tid): Need {
    if t !in s.progress || !s.progress[t].closure.next(s.progress[t].history).Call? then Nothing
    else if s.progress[t].dry || s.progress[t].closure.next(s.progress[t].history).request.Write? then Writer
    else Reader
  }

  /** It waits in the pool, or holds a connection. */
  predicate AtPool(s: Lanes.System, t: Tid) {
    || Lanes.Holds(s, t)
    || (t in s.pool.phase && (s.pool.phase[t] == WaitPool.Entering || s.pool.phase[t] == WaitPool.Asleep
                              || s.pool.phase[t] == WaitPool.Woken))
  }

  /** It has what the next call needs, or is waiting for it. */
  predicate OnTrack<R(!new)>(s: State<R>, t: Tid)
    requires t in s.lanes.calls
  {
    match NeedOf(s, t)
    case Nothing => true
    case Writer => s.lanes.calls[t].writer != Lanes.NoWriter
    case Reader => s.lanes.calls[t].writer == Lanes.NoWriter && AtPool(s.lanes, t)
  }

  /**
   A step that brings some closure nearer to its end: a call it makes, a step of the lanes, taking what the next call
   needs, or letting go of what it does not.
   */
  predicate Useful<R(!new)>(s: State<R>, step: Step) {
    match step
    case Statement(_) => true
    case Admit(l) =>
      match l
      case WantWriter(t) => NeedOf(s, t) == Writer
      case UnlockWriter(t) => NeedOf(s, t) != Writer
      case OnPool(p) =>
        (match p
         case Begin(t) => NeedOf(s, t) == Reader
         case PutLocked(t, _) => NeedOf(s, t) != Reader
         case Wake(_) => false
         case _ => true)
      case _ => LaneProgress.Progress(l)
  }

  // ---------------------------------------------------------------- there is always one

  lemma CanCall<R(!new)>(s: State<R>, items: set<WaitPool.Item>, n: nat, t: Tid)
    requires ProgressInv(s, items, n) && Lanes.PhaseIs(s.lanes, t, Lanes.Running)
    requires NeedOf(s, t) == Writer ==> s.lanes.calls[t].writer == Lanes.OwnsWriter
    requires NeedOf(s, t) == Reader ==> Lanes.Holds(s.lanes, t)
    requires NeedOf(s, t) != Nothing
    ensures Enabled(s, Statement(t))
  {
    assert RunsItsJob(s, t);
  }

  lemma WriterStep<R(!new)>(s: State<R>, items: set<WaitPool.Item>, n: nat, t: Tid) returns (step: Step)
    requires ProgressInv(s, items, n) && Lanes.PhaseIs(s.lanes, t, Lanes.Running)
    requires s.lanes.calls[t].writer == Lanes.OwnsWriter
    ensures Enabled(s, step) && Useful(s, step)
  {
    assert RunsItsJob(s, t);
    if NeedOf(s, t) == Writer {
      CanCall(s, items, n, t);
      step := Statement(t);
    } else {
      step := Admit(Lanes.UnlockWriter(t));
    }
  }

  lemma HolderStep<R(!new)>(s: State<R>, items: set<WaitPool.Item>, n: nat, t: Tid, x: WaitPool.Item)
    returns (step: Step)
    requires ProgressInv(s, items, n) && Lanes.PhaseIs(s.lanes, t, Lanes.Running)
    requires s.lanes.calls[t].writer == Lanes.NoWriter
    requires t in s.lanes.pool.phase && s.lanes.pool.phase[t] == WaitPool.Outside
    requires x in s.lanes.pool.holder && s.lanes.pool.holder[x] == t
    ensures Enabled(s, step) && Useful(s, step)
  {
    if NeedOf(s, t) == Reader {
      CanCall(s, items, n, t);
      step := Statement(t);
    } else {
      step := Admit(Lanes.OnPool(WaitPool.PutLocked(t, x)));
    }
  }

  lemma FreeStep<R(!new)>(s: State<R>, t: Tid) returns (step: Step)
    requires Lanes.PhaseIs(s.lanes, t, Lanes.Running) && t in s.progress && Lanes.Free(s.lanes, t)
    ensures Enabled(s, step) && Useful(s, step)
  {
    match NeedOf(s, t)
    case Nothing => step := Admit(Lanes.Finish(t));
    case Writer => step := Admit(Lanes.WantWriter(t));
    case Reader => step := Admit(Lanes.OnPool(WaitPool.Begin(t)));
  }

  lemma OutsideStep<R(!new)>(s: State<R>, items: set<WaitPool.Item>, n: nat, t: Tid) returns (step: Step)
    requires ProgressInv(s, items, n) && Lanes.PhaseIs(s.lanes, t, Lanes.Running)
    requires s.lanes.calls[t].writer == Lanes.NoWriter
    requires t in s.lanes.pool.phase && s.lanes.pool.phase[t] == WaitPool.Outside
    ensures Enabled(s, step) && Useful(s, step)
  {
    if x :| x in s.lanes.pool.holder && s.lanes.pool.holder[x] == t {
      step := HolderStep(s, items, n, t, x);
    } else {
      assert RunsItsJob(s, t);
      step := FreeStep(s, t);
    }
  }

  lemma InsidePoolStep<R(!new)>(s: State<R>, t: Tid) returns (step: Step)
    requires Lanes.PhaseIs(s.lanes, t, Lanes.Running) && s.lanes.calls[t].writer == Lanes.NoWriter
    requires t in s.lanes.pool.phase
    requires s.lanes.pool.phase[t] != WaitPool.Outside && s.lanes.pool.phase[t] != WaitPool.Asleep
    ensures Enabled(s, step) && Useful(s, step)
  {
    var l := LaneProgress.InsidePool(s.lanes, t);
    step := Admit(l);
  }

  lemma RunningStep<R(!new)>(s: State<R>, items: set<WaitPool.Item>, n: nat, t: Tid) returns (step: Step)
    requires ProgressInv(s, items, n) && Lanes.PhaseIs(s.lanes, t, Lanes.Running)
    requires t in s.lanes.pool.phase && !LaneProgress.Blocked(s.lanes, t)
    ensures Enabled(s, step) && Useful(s, step)
  {
    if s.lanes.calls[t].writer == Lanes.WantsWriter {
      step := Admit(Lanes.LockWriter(t));
    } else if s.lanes.calls[t].writer == Lanes.OwnsWriter {
      step := WriterStep(s, items, n, t);
    } else if s.lanes.pool.phase[t] == WaitPool.Outside {
      step := OutsideStep(s, items, n, t);
    } else {
      step := InsidePoolStep(s, t);
    }
  }

  /** While a call is unfinished, some step is useful and enabled. */
  lemma UsefulIsPossible<R(!new)>(s: State<R>, items: set<WaitPool.Item>, n: nat, t: Tid) returns (step: Step)
    requires ProgressInv(s, items, n) && LaneProgress.Unfinished(s.lanes, t)
    ensures Enabled(s, step) && Useful(s, step)
  {
    match s.lanes.calls[t].phase
    case Granted => step := Admit(Lanes.Spawn(t));
    case Spawned => step := Admit(Lanes.Start(t));
    case Leaving => step := Admit(Lanes.DropEngine(t));
    case _ =>
      var u := LaneProgress.UnblockedRunning(s.lanes, items, t);
      step := RunningStep(s, items, n, u);
  }

  // ---------------------------------------------------------------- useful steps end

  predicate Admitted(s: Lanes.System, t: Tid) {
    Lanes.PhaseIs(s, t, Lanes.Granted) || Lanes.PhaseIs(s, t, Lanes.Spawned)
  }

  /** The call still has to find its way to what its closure needs next. */
  predicate Astray<R(!new)>(s: State<R>, t: Tid) {
    Admitted(s.lanes, t) || (Lanes.PhaseIs(s.lanes, t, Lanes.Running) && !OnTrack(s, t))
  }

  /** The `k`-th repository call of `t` may still be to come. */
  predicate Pending<R(!new)>(s: State<R>, t: Tid, k: nat) {
    || Admitted(s.lanes, t)
    || (Lanes.PhaseIs(s.lanes, t, Lanes.Running) && t in s.progress && |s.progress[t].history| <= k)
  }

  function AllAstray<R(!new)>(s: State<R>): set<Tid> {
    set t | t in s.lanes.calls && Astray(s, t)
  }

  function AllPending<R(!new)>(s: State<R>, n: nat): set<(Tid, nat)> {
    set t, k: nat | t in s.lanes.calls && k < n && Pending(s, t, k) :: (t, k)
  }

  function Work<R(!new)>(s: State<R>, n: nat): nat {
    11 * |AllPending(s, n)| + 10 * |AllAstray(s)| + LaneProgress.Work(s.lanes)
  }

  /** Only the acting thread may come onto or off its track. */
  lemma AstrayMoves<R(!new)>(s: State<R>, q: State<R>, t: Tid)
    requires t in s.lanes.calls && q.lanes.calls.Keys == s.lanes.calls.Keys
    requires forall u | u in s.lanes.calls && u != t :: Astray(q, u) <==> Astray(s, u)
    ensures |AllAstray(q)| + Lanes.One(Astray(s, t)) == |AllAstray(s)| + Lanes.One(Astray(q, t))
  {
    assert AllAstray(q) == if Astray(q, t) then AllAstray(s) + {t} else AllAstray(s) - {t};
  }

  lemma PendingMoves<R(!new)>(s: State<R>, q: State<R>, n: nat)
    requires q.lanes.calls.Keys == s.lanes.calls.Keys
    requires forall u, k: nat | u in s.lanes.calls && k < n && Pending(q, u, k) :: Pending(s, u, k)
    ensures |AllPending(q, n)| <= |AllPending(s, n)|
    ensures forall u, k: nat | u in s.lanes.calls && k < n && Pending(s, u, k) && !Pending(q, u, k) ::
              |AllPending(q, n)| < |AllPending(s, n)|
  {
    Lanes.SubsetSize(AllPending(q, n), AllPending(s, n));
    forall u, k: nat | u in s.lanes.calls && k < n && Pending(s, u, k) && !Pending(q, u, k)
      ensures |AllPending(q, n)| < |AllPending(s, n)|
    {
      Lanes.SubsetSize(AllPending(q, n), AllPending(s, n) - {(u, k)});
    }
  }

  lemma HoldsStays(s: Lanes.System, p: WaitPool.Step, items: set<WaitPool.Item>, t: Tid)
    requires Lanes.Inv(s, items) && WaitPool.Enabled(s.pool, p) && t != p.t && Lanes.Holds(s, t)
    ensures Lanes.Holds(s.(pool := WaitPool.Apply(s.pool, p)), t)
  {
    var x :| x in s.pool.holder && s.pool.holder[x] == t;
    var q := WaitPool.Apply(s.pool, p);
    assert x !in s.pool.idle;
    assert x in q.holder && q.holder[x] == t;
  }

  /** The thread a lane step belongs to, if any. */
  function Who(l: Lanes.Step): Option<Tid> {
    if l.OnPool? then Some(l.step.t) else Lanes.Actor(l)
  }

  lemma OthersCall(s: Lanes.System, l: Lanes.Step, u: Tid)
    requires Lanes.Enabled(s, l) && Who(l) != Some(u) && u in s.calls
    ensures u in Lanes.Apply(s, l).calls && Lanes.Apply(s, l).calls[u] == s.calls[u]
  {}

  lemma OthersAtPool(s: Lanes.System, l: Lanes.Step, items: set<WaitPool.Item>, u: Tid)
    requires Lanes.Inv(s, items) && Lanes.Enabled(s, l) && Who(l) != Some(u) && u in s.calls
    ensures AtPool(Lanes.Apply(s, l), u) <==> AtPool(s, u)
  {
    if l.OnPool? {
      if Lanes.Holds(s, u) {
        HoldsStays(s, l.step, items, u);
      }
      Lanes.HoldsAfterPool(s, l.step, u);
      assert u in s.pool.phase;
      Lanes.PhaseAfterPool(s.pool, l.step, u);
    } else {
      Lanes.OtherStepsKeepPool(s, l);
    }
  }

  lemma OthersNeed<R(!new)>(s: State<R>, l: Lanes.Step, u: Tid)
    requires Enabled(s, Admit(l)) && Who(l) != Some(u)
    ensures NeedOf(Apply(s, Admit(l)), u) == NeedOf(s, u)
  {}

  lemma SameAstray<R(!new)>(s: State<R>, q: State<R>, u: Tid)
    requires u in s.lanes.calls && u in q.lanes.calls && q.lanes.calls[u] == s.lanes.calls[u]
    requires NeedOf(q, u) == NeedOf(s, u) && AtPool(q.lanes, u) == AtPool(s.lanes, u)
    ensures Astray(q, u) <==> Astray(s, u)
  {}

  lemma OthersAstray<R(!new)>(s: State<R>, l: Lanes.Step, items: set<WaitPool.Item>, u: Tid)
    requires Lanes.Inv(s.lanes, items) && Enabled(s, Admit(l)) && Who(l) != Some(u) && u in s.lanes.calls
    ensures Astray(Apply(s, Admit(l)), u) <==> Astray(s, u)
  {
    OthersCall(s.lanes, l, u);
    OthersAtPool(s.lanes, l, items, u);
    OthersNeed(s, l, u);
    SameAstray(s, Apply(s, Admit(l)), u);
  }

  /** The lane steps that take what the next call needs. */
  predicate Acquires(l: Lanes.Step) {
    l.WantWriter? || (l.OnPool? && l.step.Begin?)
  }

  lemma ActorNeed<R(!new)>(s: State<R>, l: Lanes.Step, t: Tid)
    requires Enabled(s, Admit(l)) && !l.Start?
    ensures NeedOf(Apply(s, Admit(l)), t) == NeedOf(s, t)
  {}

  lemma UseOf(s: Lanes.System, items: set<WaitPool.Item>, t: Tid)
    requires Lanes.Inv(s, items) && t in s.calls
    ensures t in s.pool.phase && Lanes.UseOk(s, t)
  {}

  lemma TakenPlace(s: Lanes.System, t: Tid)
    requires WaitPool.Enabled(s.pool, WaitPool.TakeLocked(t))
    ensures AtPool(s.(pool := WaitPool.Taken(s.pool, t)), t)
  {
    if s.pool.idle != [] {
      var x := s.pool.idle[|s.pool.idle| - 1];
      assert x in WaitPool.Taken(s.pool, t).holder && WaitPool.Taken(s.pool, t).holder[x] == t;
    }
  }

  /** Where a pool step leaves its own thread. */
  lemma OwnPoolPlace(s: Lanes.System, p: WaitPool.Step, items: set<WaitPool.Item>)
    requires Lanes.Inv(s, items) && Lanes.Enabled(s, Lanes.OnPool(p))
    ensures var q := Lanes.Apply(s, Lanes.OnPool(p));
            && q.calls == s.calls
            && (p.Begin? ==> AtPool(q, p.t) && !AtPool(s, p.t))
            && (p.TakeLocked? ==> AtPool(q, p.t))
            && (p.NotifyOne? ==> !AtPool(s, p.t))
  {
    UseOf(s, items, p.t);
    if p.TakeLocked? {
      TakenPlace(s, p.t);
    }
  }

  lemma PlaceAstray<R(!new)>(s: State<R>, q: State<R>, p: WaitPool.Step)
    requires Lanes.PhaseIs(s.lanes, p.t, Lanes.Running) && s.lanes.calls[p.t].writer == Lanes.NoWriter
    requires q.lanes.calls == s.lanes.calls && NeedOf(q, p.t) == NeedOf(s, p.t)
    requires Useful(s, Admit(Lanes.OnPool(p)))
    requires p.Begin? ==> AtPool(q.lanes, p.t) && !AtPool(s.lanes, p.t)
    requires p.TakeLocked? ==> AtPool(q.lanes, p.t)
    requires p.NotifyOne? ==> !AtPool(s.lanes, p.t)
    ensures Astray(q, p.t) ==> Astray(s, p.t)
    ensures p.Begin? ==> Astray(s, p.t) && !Astray(q, p.t)
  {}

  lemma PoolStepAstray<R(!new)>(s: State<R>, p: WaitPool.Step, items: set<WaitPool.Item>)
    requires Lanes.Inv(s.lanes, items)
    requires Enabled(s, Admit(Lanes.OnPool(p))) && Useful(s, Admit(Lanes.OnPool(p)))
    ensures var q := Apply(s, Admit(Lanes.OnPool(p)));
            && p.t in s.lanes.calls
            && (Astray(q, p.t) ==> Astray(s, p.t))
            && (p.Begin? ==> Astray(s, p.t) && !Astray(q, p.t))
  {
    var q := Apply(s, Admit(Lanes.OnPool(p)));
    OwnPoolPlace(s.lanes, p, items);
    ActorNeed(s, Lanes.OnPool(p), p.t);
    PlaceAstray(s, q, p);
  }

  lemma WriterStepAstray<R(!new)>(s: State<R>, l: Lanes.Step)
    requires l.WantWriter? || l.LockWriter? || l.UnlockWriter?
    requires Enabled(s, Admit(l)) && Useful(s, Admit(l))
    ensures var q := Apply(s, Admit(l));
            && l.t in s.lanes.calls
            && (Astray(q, l.t) ==> Astray(s, l.t))
            && (l.WantWriter? ==> Astray(s, l.t) && !Astray(q, l.t))
  {
    ActorNeed(s, l, l.t);
    Lanes.OtherStepsKeepPool(s.lanes, l);
  }

  lemma PhaseStepAstray<R(!new)>(s: State<R>, l: Lanes.Step)
    requires l.Spawn? || l.Start? || l.Finish? || l.DropEngine?
    requires Enabled(s, Admit(l))
    ensures l.t in s.lanes.calls
    ensures Astray(Apply(s, Admit(l)), l.t) ==> Astray(s, l.t)
  {}

  lemma UsefulKinds<R(!new)>(s: State<R>, l: Lanes.Step)
    requires Useful(s, Admit(l)) && !l.OnPool?
    ensures Who(l) == Some(l.t)
    ensures l.WantWriter? || l.LockWriter? || l.UnlockWriter? || l.Spawn? || l.Start? || l.Finish? || l.DropEngine?
  {}

  /** A useful lane step does not lead its own thread astray, and acquiring brings it onto its track. */
  lemma ActorAstray<R(!new)>(s: State<R>, l: Lanes.Step, items: set<WaitPool.Item>) returns (t: Tid)
    requires Lanes.Inv(s.lanes, items) && Enabled(s, Admit(l)) && Useful(s, Admit(l))
    ensures Who(l) == Some(t) && t in s.lanes.calls
    ensures Astray(Apply(s, Admit(l)), t) ==> Astray(s, t)
    ensures Acquires(l) ==> Astray(s, t) && !Astray(Apply(s, Admit(l)), t)
  {
    if l.OnPool? {
      t := l.step.t;
      PoolStepAstray(s, l.step, items);
    } else {
      UsefulKinds(s, l);
      t := l.t;
      if l.WantWriter? || l.LockWriter? || l.UnlockWriter? {
        WriterStepAstray(s, l);
      } else {
        PhaseStepAstray(s, l);
      }
    }
  }

  lemma AdmitAstray<R(!new)>(s: State<R>, l: Lanes.Step, items: set<WaitPool.Item>)
    requires Lanes.Inv(s.lanes, items) && Enabled(s, Admit(l)) && Useful(s, Admit(l))
    ensures |AllAstray(Apply(s, Admit(l)))| <= |AllAstray(s)| - Lanes.One(Acquires(l))
  {
    var q := Apply(s, Admit(l));
    var t := ActorAstray(s, l, items);
    Lanes.StepKeepsKeys(s.lanes, l);
    forall u | u in s.lanes.calls && u != t ensures Astray(q, u) <==> Astray(s, u) {
      OthersAstray(s, l, items, u);
    }
    AstrayMoves(s, q, t);
  }

  lemma AdmitPendingOne<R(!new)>(s: State<R>, l: Lanes.Step, u: Tid, k: nat)
    requires Enabled(s, Admit(l)) && !l.Grant? && u in s.lanes.calls && Pending(Apply(s, Admit(l)), u, k)
    ensures Pending(s, u, k)
  {}

  lemma AdmitPending<R(!new)>(s: State<R>, l: Lanes.Step, n: nat)
    requires Enabled(s, Admit(l)) && Useful(s, Admit(l))
    ensures |AllPending(Apply(s, Admit(l)), n)| <= |AllPending(s, n)|
  {
    var q := Apply(s, Admit(l));
    Lanes.StepKeepsKeys(s.lanes, l);
    forall u, k: nat | u in s.lanes.calls && k < n && Pending(q, u, k) ensures Pending(s, u, k) {
      AdmitPendingOne(s, l, u, k);
    }
    PendingMoves(s, q, n);
  }

  /** Taking what the next call needs costs the lanes at most four steps, any other useful step saves one. */
  lemma AdmitLanesWork(s: Lanes.System, l: Lanes.Step)
    requires Lanes.Enabled(s, l) && (LaneProgress.Progress(l) || Acquires(l))
    ensures LaneProgress.Work(Lanes.Apply(s, l)) <= LaneProgress.Work(s) + (if Acquires(l) then 4 else -1)
  {
    var q := Lanes.Apply(s, l);
    if LaneProgress.Progress(l) {
      LaneProgress.ProgressWorks(s, l);
    } else if l.WantWriter? {
      LaneProgress.CallCosts(s, q, l.t, q.calls[l.t]);
    } else {
      WaitPool.MoveThread(s.pool, q.pool, l.step.t, WaitPool.Outside, WaitPool.Entering);
      assert LaneProgress.CallWork(q) == LaneProgress.CallWork(s);
      assert LaneProgress.WriterWork(q) == LaneProgress.WriterWork(s);
    }
  }

  lemma UsefulLaneStep<R(!new)>(s: State<R>, l: Lanes.Step)
    requires Useful(s, Admit(l))
    ensures LaneProgress.Progress(l) || Acquires(l)
  {}

  lemma CallIsBelowBound<R(!new)>(s: State<R>, items: set<WaitPool.Item>, n: nat, t: Tid)
    requires ProgressInv(s, items, n) && Enabled(s, Statement(t))
    ensures |s.progress[t].history| < n
  {
    assert RunsItsJob(s, t);
  }

  lemma StatementPendingOne<R(!new)>(s: State<R>, t: Tid, u: Tid, k: nat)
    requires Enabled(s, Statement(t))
    ensures Pending(Apply(s, Statement(t)), u, k)
            <==> Pending(s, u, k) && !(u == t && k == |s.progress[t].history|)
  {}

  /** A call made is no longer pending. */
  lemma StatementPending<R(!new)>(s: State<R>, n: nat, t: Tid)
    requires Enabled(s, Statement(t)) && |s.progress[t].history| < n
    ensures |AllPending(Apply(s, Statement(t)), n)| < |AllPending(s, n)|
  {
    var q, made := Apply(s, Statement(t)), |s.progress[t].history|;
    forall u, k: nat | u in s.lanes.calls && k < n && Pending(q, u, k) ensures Pending(s, u, k) {
      StatementPendingOne(s, t, u, k);
    }
    StatementPendingOne(s, t, t, made);
    PendingMoves(s, q, n);
    assert Pending(s, t, made) && !Pending(q, t, made);
  }

  lemma StatementAstray<R(!new)>(s: State<R>, t: Tid)
    requires Enabled(s, Statement(t))
    ensures |AllAstray(Apply(s, Statement(t)))| <= |AllAstray(s)| + 1
  {
    var q := Apply(s, Statement(t));
    forall u | u in s.lanes.calls && u != t ensures Astray(q, u) <==> Astray(s, u) {
      assert NeedOf(q, u) == NeedOf(s, u);
      SameAstray(s, q, u);
    }
    AstrayMoves(s, q, t);
  }

  lemma StatementWorks<R(!new)>(s: State<R>, items: set<WaitPool.Item>, n: nat, t: Tid)
    requires ProgressInv(s, items, n) && Enabled(s, Statement(t))
    ensures Work(Apply(s, Statement(t)), n) < Work(s, n)
  {
    CallIsBelowBound(s, items, n, t);
    StatementPending(s, n, t);
    StatementAstray(s, t);
  }

  lemma UsefulWorks<R(!new)>(s: State<R>, step: Step, items: set<WaitPool.Item>, n: nat)
    requires ProgressInv(s, items, n) && Enabled(s, step) && Useful(s, step)
    ensures Work(Apply(s, step), n) < Work(s, n)
  {
    match step
    case Statement(t) => StatementWorks(s, items, n, t);
    case Admit(l) =>
      UsefulLaneStep(s, l);
      AdmitAstray(s, l, items);
      AdmitPending(s, l, n);
      AdmitLanesWork(s.lanes, l);
  }

  // ---------------------------------------------------------------- every call ends

  predicate UsefulRun<R(!new)>(s: State<R>, steps: seq<Step>)
    requires ValidRun(s, steps)
    decreases |steps|
  {
    steps == [] || (Useful(s, steps[0]) && UsefulRun(Apply(s, steps[0]), steps[1..]))
  }

  lemma {:induction false} RunsKeepProgressInv<R(!new)>(s: State<R>, steps: seq<Step>, items: set<WaitPool.Item>,
                                                        n: nat)
    requires ProgressInv(s, items, n) && ValidRun(s, steps)
    ensures ProgressInv(After(s, steps), items, n)
    decreases |steps|
  {
    if steps != [] {
      StepKeepsProgressInv(s, steps[0], items, n);
      RunsKeepProgressInv(Apply(s, steps[0]), steps[1..], items, n);
    }
  }

  /** Whatever the scheduler picks, useful steps go on for at most `Work` steps. */
  lemma {:induction false} UsefulIsBounded<R(!new)>(s: State<R>, steps: seq<Step>, items: set<WaitPool.Item>, n: nat)
    requires ProgressInv(s, items, n) && ValidRun(s, steps) && UsefulRun(s, steps)
    ensures |steps| <= Work(s, n)
    decreases |steps|
  {
    if steps != [] {
      UsefulWorks(s, steps[0], items, n);
      StepKeepsProgressInv(s, steps[0], items, n);
      UsefulIsBounded(Apply(s, steps[0]), steps[1..], items, n);
    }
  }

  /** A run of useful steps after which no call is unfinished. */
  predicate Ends<R(!new)>(s: State<R>, more: seq<Step>) {
    ValidRun(s, more) && UsefulRun(s, more) && LaneProgress.Quiet(After(s, more).lanes)
  }

  lemma EndsCons<R(!new)>(s: State<R>, step: Step, rest: seq<Step>)
    requires Enabled(s, step) && Useful(s, step) && Ends(Apply(s, step), rest)
    ensures Ends(s, [step] + rest)
  {
    assert ([step] + rest)[1..] == rest;
  }

  lemma NextUseful<R(!new)>(s: State<R>, items: set<WaitPool.Item>, n: nat) returns (step: Step, next: State<R>)
    requires ProgressInv(s, items, n) && !LaneProgress.Quiet(s.lanes)
    ensures Enabled(s, step) && Useful(s, step) && next == Apply(s, step)
    ensures ProgressInv(next, items, n) && Work(next, n) < Work(s, n)
  {
    var t :| t in s.lanes.calls && LaneProgress.Unfinished(s.lanes, t);
    step := UsefulIsPossible(s, items, n, t);
    next := Apply(s, step);
    UsefulWorks(s, step, items, n);
    StepKeepsProgressInv(s, step, items, n);
  }

  lemma {:induction false} Finishing<R(!new)>(s: State<R>, items: set<WaitPool.Item>, n: nat) returns (more: seq<Step>)
    requires ProgressInv(s, items, n)
    ensures Ends(s, more)
    decreases Work(s, n)
  {
    if LaneProgress.Quiet(s.lanes) {
      more := [];
    } else {
      var step, next := NextUseful(s, items, n);
      var rest := Finishing(next, items, n);
      EndsCons(s, step, rest);
      more := [step] + rest;
    }
  }

  /**
   Every call ends: when each closure makes at most `n` repository calls, from every reachable state a run of useful
   steps leads to a state in which no call is unfinished, and no run of useful steps is longer than `Work`.
   */
  lemma EveryCallEnds<R(!new)>(s: State<R>, steps: seq<Step>, items: set<WaitPool.Item>, n: nat)
    returns (more: seq<Step>)
    requires Init(s, items) && ValidRun(s, steps)
    requires forall t | t in s.lanes.calls ::
               t in s.jobs && (s.lanes.calls[t].lane == Lanes.Read ==> !s.jobs[t].dry)
    requires forall t, h: seq<Response> | t in s.lanes.calls && s.jobs[t].closure.next(h).Call? ::
               |h| < n && (s.lanes.calls[t].lane == Lanes.Read ==> !s.jobs[t].closure.next(h).request.Write?)
    ensures Ends(After(s, steps), more) && |more| <= Work(After(s, steps), n)
    ensures var q := After(After(s, steps), more).lanes;
            forall t | t in q.calls ::
              q.calls[t].phase == Lanes.Absent || q.calls[t].phase == Lanes.Queued || q.calls[t].phase == Lanes.Done
              || q.calls[t].phase.Refused?
  {
    assert JobsEnd(s, n) by {
      forall t | t in s.lanes.calls ensures Bounded(s.jobs[t].closure, n) {
      }
      forall t | t in s.lanes.calls && s.lanes.calls[t].lane.Read? ensures ReadOnly(s.jobs[t].closure) {
      }
    }
    Lanes.InitIsInv(s.lanes, items);
    RunsKeepProgressInv(s, steps, items, n);
    more := Finishing(After(s, steps), items, n);
    UsefulIsBounded(After(s, steps), more, items, n);
    LaneProgress.QuietMeans(After(After(s, steps), more).lanes);
  }
}
