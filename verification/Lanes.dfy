/**
 The two admission lanes in front of the database, the writer mutex and the reader pool, as one state
 machine over the steps of any number of calls. A call runs its closure on a thread of its own.
 */
module Lanes {
  import opened Wrappers
  import WaitPool

  type Tid = WaitPool.Tid

  datatype Lane = Read | Write

  datatype Reason = ShuttingDown | Overloaded | Cancelled

  datatype Phase =
    | Absent           // the call has not been made
    | Queued           // waits for a permit
    | Granted          // a permit is assigned to it, its closure has not been spawned
    | Spawned          // its closure owns the permit and an engine reference, and has not started
    | Running          // inside the closure, permit held
    | Leaving          // the closure returned and dropped its permit, not yet its engine reference
    | Done
    | Refused(reason: Reason)

  datatype WriterUse = NoWriter | WantsWriter | OwnsWriter

  datatype Call = Call(lane: Lane, phase: Phase, writer: WriterUse, abandoned: bool)

  datatype System = System(
    maxReads: nat,
    readAvailable: nat,
    writeAvailable: nat,
    readClosed: bool,
    writeClosed: bool,
    calls: map<Tid, Call>,
    pool: WaitPool.Pool,
    handles: nat,      // clones of the facade, each with an engine reference of its own
    reclaimed: bool)   // the engine was moved out of its last reference

  const WRITE_SLOTS: nat := 1

  datatype Step =
    | Arrive(t: Tid)
    | Grant(t: Tid)
    | Refuse(t: Tid, reason: Reason)     // a queued call: closed, timed out, or its caller gone
    | DropGrant(t: Tid, reason: Reason)  // the same after a permit was assigned but before the start
    | Abandon(t: Tid)                    // the caller of a spawned closure stops waiting for it
    | Spawn(t: Tid)
    | Start(t: Tid)
    | OnPool(step: WaitPool.Step)
    | WantWriter(t: Tid)
    | LockWriter(t: Tid)
    | UnlockWriter(t: Tid)
    | Finish(t: Tid)
    | DropEngine(t: Tid)
    | CloseRead
    | CloseWrite
    | CloneHandle
    | DropHandle
    | IntoEngine

  // ---------------------------------------------------------------- steps

  function Available(s: System, lane: Lane): nat {
    if lane.Read? then s.readAvailable else s.writeAvailable
  }

  predicate Closed(s: System, lane: Lane) {
    if lane.Read? then s.readClosed else s.writeClosed
  }

  predicate Holds(s: System, t: Tid) {
    exists x :: x in s.pool.holder && s.pool.holder[x] == t
  }

  /** The thread owns nothing and waits for nothing. */
  predicate Free(s: System, t: Tid)
    requires t in s.calls
  {
    && s.calls[t].writer == NoWriter
    && OutsidePool(s, t)
    && !Holds(s, t)
  }

  /** The thread is not inside the pool: a thread asleep there cannot do anything else. */
  predicate OutsidePool(s: System, t: Tid) {
    t in s.pool.phase && s.pool.phase[t] == WaitPool.Outside
  }

  predicate WriterFree(s: System) {
    forall t | t in s.calls :: s.calls[t].writer != OwnsWriter
  }

  predicate PhaseIs(s: System, t: Tid, ph: Phase) {
    t in s.calls && s.calls[t].phase == ph
  }

  /** A caller that waits for its call borrows the handle it made the call on. */
  predicate Borrows(c: Call) {
    || c.phase == Queued
    || c.phase == Granted
    || ((c.phase == Spawned || c.phase == Running || c.phase == Leaving) && !c.abandoned)
  }

  /** A handle can be given up when no call borrows it; other handles may carry the calls there are. */
  predicate HandleFree(s: System) {
    s.handles > 0 && (s.handles == 1 ==> forall t | t in s.calls :: !Borrows(s.calls[t]))
  }

  /** The closures that own a reference to the engine: from the spawn to after the permit's return. */
  function EngineRefs(s: System): set<Tid> {
    set t | t in s.calls &&
            (s.calls[t].phase == Spawned || s.calls[t].phase == Running || s.calls[t].phase == Leaving)
  }

  predicate Enabled(s: System, step: Step) {
    match step
    case Arrive(t) => PhaseIs(s, t, Absent) && s.handles > 0
    case Grant(t) => PhaseIs(s, t, Queued) && !Closed(s, s.calls[t].lane) && Available(s, s.calls[t].lane) > 0
    case Refuse(t, reason) => PhaseIs(s, t, Queued) && (reason == ShuttingDown ==> Closed(s, s.calls[t].lane))
    case DropGrant(t, reason) =>
      && (PhaseIs(s, t, Granted) || PhaseIs(s, t, Spawned))
      && (reason == ShuttingDown ==> Closed(s, s.calls[t].lane))
    case Abandon(t) => PhaseIs(s, t, Spawned) || PhaseIs(s, t, Running) || PhaseIs(s, t, Leaving)
    case Spawn(t) => PhaseIs(s, t, Granted)
    case Start(t) => PhaseIs(s, t, Spawned)
    case OnPool(p) =>
      && WaitPool.Enabled(s.pool, p)
      && PhaseIs(s, p.t, Running)
      && s.calls[p.t].writer == NoWriter
      && (p.Begin? ==> !Holds(s, p.t))
    case WantWriter(t) => PhaseIs(s, t, Running) && Free(s, t)
    case LockWriter(t) =>
      PhaseIs(s, t, Running) && s.calls[t].writer == WantsWriter && WriterFree(s) && OutsidePool(s, t)
    case UnlockWriter(t) => PhaseIs(s, t, Running) && s.calls[t].writer == OwnsWriter && OutsidePool(s, t)
    case Finish(t) => PhaseIs(s, t, Running) && Free(s, t)
    case DropEngine(t) => PhaseIs(s, t, Leaving)
    case CloseRead => true
    case CloseWrite => true
    case CloneHandle => s.handles > 0
    case DropHandle => HandleFree(s)
    case IntoEngine => HandleFree(s)
  }

  /** `Arc::try_unwrap` on the handle's reference: it succeeds when there is no other one. */
  predicate IntoEngineOk(s: System) {
    s.handles + |EngineRefs(s)| == 1
  }

  function WithCall(s: System, t: Tid, c: Call): System {
    s.(calls := s.calls[t := c])
  }

  function WithPhase(s: System, t: Tid, ph: Phase): System
    requires t in s.calls
  {
    WithCall(s, t, s.calls[t].(phase := ph))
  }

  function WithAvailable(s: System, lane: Lane, n: nat): System {
    if lane.Read? then s.(readAvailable := n) else s.(writeAvailable := n)
  }

  function Apply(s: System, step: Step): System
    requires Enabled(s, step)
  {
    match step
    case Arrive(t) => WithPhase(s, t, Queued)
    case Grant(t) =>
      var lane := s.calls[t].lane;
      WithAvailable(WithPhase(s, t, Granted), lane, Available(s, lane) - 1)
    case Refuse(t, reason) => WithPhase(s, t, Refused(reason))
    case DropGrant(t, reason) =>
      var lane := s.calls[t].lane;
      WithAvailable(WithPhase(s, t, Refused(reason)), lane, Available(s, lane) + 1)
    case Abandon(t) => WithCall(s, t, s.calls[t].(abandoned := true))
    case Spawn(t) => WithPhase(s, t, Spawned)
    case Start(t) => WithPhase(s, t, Running)
    case OnPool(p) => s.(pool := WaitPool.Apply(s.pool, p))
    case WantWriter(t) => WithCall(s, t, s.calls[t].(writer := WantsWriter))
    case LockWriter(t) => WithCall(s, t, s.calls[t].(writer := OwnsWriter))
    case UnlockWriter(t) => WithCall(s, t, s.calls[t].(writer := NoWriter))
    case Finish(t) =>
      var lane := s.calls[t].lane;
      WithAvailable(WithPhase(s, t, Leaving), lane, Available(s, lane) + 1)
    case DropEngine(t) => WithPhase(s, t, Done)
    case CloseRead => s.(readClosed := true)
    case CloseWrite => s.(writeClosed := true)
    case CloneHandle => s.(handles := s.handles + 1)
    case DropHandle => s.(handles := s.handles - 1)
    case IntoEngine => if IntoEngineOk(s) then s.(handles := 0, reclaimed := true) else s
  }

  /** The call a step changes, if it changes one. */
  function Actor(step: Step): Option<Tid> {
    if step.OnPool? || step.CloseRead? || step.CloseWrite? || step.CloneHandle? || step.DropHandle? || step.IntoEngine?
    then None else Some(step.t)
  }

  // ---------------------------------------------------------------- permits

  predicate HasPermit(c: Call, lane: Lane) {
    c.lane == lane && (c.phase == Granted || c.phase == Spawned || c.phase == Running)
  }

  function Permits(s: System, lane: Lane): set<Tid> {
    set t | t in s.calls && HasPermit(s.calls[t], lane)
  }

  predicate PermitInv(s: System) {
    && s.readAvailable + |Permits(s, Read)| == s.maxReads
    && s.writeAvailable + |Permits(s, Write)| == WRITE_SLOTS
  }

  function One(b: bool): nat {
    if b then 1 else 0
  }

  lemma UpdateCall(s: System, q: System, t: Tid, c: Call, lane: Lane)
    requires t in s.calls && q.calls == s.calls[t := c]
    ensures |Permits(q, lane)| + One(HasPermit(s.calls[t], lane)) == |Permits(s, lane)| + One(HasPermit(c, lane))
  {
    assert Permits(q, lane) == if HasPermit(c, lane) then Permits(s, lane) + {t} else Permits(s, lane) - {t};
  }

  /** A step of one call keeps the books when the permit it gains or loses is taken or returned. */
  lemma PermitBalance(s: System, q: System, t: Tid, c: Call)
    requires PermitInv(s) && t in s.calls && q.calls == s.calls[t := c] && q.maxReads == s.maxReads
    requires q.readAvailable + One(HasPermit(c, Read)) == s.readAvailable + One(HasPermit(s.calls[t], Read))
    requires q.writeAvailable + One(HasPermit(c, Write)) == s.writeAvailable + One(HasPermit(s.calls[t], Write))
    ensures PermitInv(q)
  {
    UpdateCall(s, q, t, c, Read);
    UpdateCall(s, q, t, c, Write);
  }

  /** A step of a call changes that call and no other. */
  lemma CallStepCalls(s: System, step: Step)
    requires Enabled(s, step) && Actor(step).Some?
    ensures step.t in s.calls && step.t in Apply(s, step).calls
    ensures Apply(s, step).calls == s.calls[step.t := Apply(s, step).calls[step.t]]
    ensures Apply(s, step).maxReads == s.maxReads
  {
    match step
    case Grant(_) =>
    case DropGrant(_, _) =>
    case Finish(_) =>
    case _ =>
  }

  lemma PermitStepBooks(s: System, step: Step, lane: Lane)
    requires Enabled(s, step) && (step.Grant? || step.DropGrant? || step.Finish?)
    ensures step.t in s.calls && step.t in Apply(s, step).calls
    ensures Available(Apply(s, step), lane) + One(HasPermit(Apply(s, step).calls[step.t], lane))
         == Available(s, lane) + One(HasPermit(s.calls[step.t], lane))
  {
    match step
    case Grant(t) =>
    case DropGrant(t, _) =>
    case Finish(t) =>
  }

  lemma OtherStepBooks(s: System, step: Step, lane: Lane)
    requires Enabled(s, step) && Actor(step).Some? && !step.Grant? && !step.DropGrant? && !step.Finish?
    ensures step.t in s.calls && step.t in Apply(s, step).calls
    ensures Available(Apply(s, step), lane) == Available(s, lane)
    ensures HasPermit(Apply(s, step).calls[step.t], lane) == HasPermit(s.calls[step.t], lane)
  {}

  /** What a step does to its own call's permit it does to the semaphore of that lane. */
  lemma CallStepBooks(s: System, step: Step, lane: Lane)
    requires Enabled(s, step) && Actor(step).Some?
    ensures step.t in s.calls && step.t in Apply(s, step).calls
    ensures Available(Apply(s, step), lane) + One(HasPermit(Apply(s, step).calls[step.t], lane))
         == Available(s, lane) + One(HasPermit(s.calls[step.t], lane))
  {
    if step.Grant? || step.DropGrant? || step.Finish? {
      PermitStepBooks(s, step, lane);
    } else {
      OtherStepBooks(s, step, lane);
    }
  }

  lemma OtherStepsKeepCalls(s: System, step: Step)
    requires Enabled(s, step) && Actor(step).None?
    ensures var q := Apply(s, step);
            && q.calls == s.calls && q.maxReads == s.maxReads
            && q.readAvailable == s.readAvailable && q.writeAvailable == s.writeAvailable
  {}

  lemma StepKeepsPermits(s: System, step: Step)
    requires Enabled(s, step) && PermitInv(s)
    ensures PermitInv(Apply(s, step))
  {
    var q := Apply(s, step);
    if Actor(step).None? {
      OtherStepsKeepCalls(s, step);
      assert Permits(q, Read) == Permits(s, Read) && Permits(q, Write) == Permits(s, Write);
    } else {
      CallStepCalls(s, step);
      CallStepBooks(s, step, Read);
      CallStepBooks(s, step, Write);
      PermitBalance(s, q, step.t, q.calls[step.t]);
    }
  }

  // ---------------------------------------------------------------- resources

  /** Resources are used by running closures only, one at a time, and never both kinds at once. */
  predicate UseOk(s: System, t: Tid)
    requires t in s.calls && t in s.pool.phase
  {
    && (s.calls[t].phase != Running ==> Free(s, t))
    && (s.calls[t].writer != NoWriter ==> s.pool.phase[t] == WaitPool.Outside && !Holds(s, t))
    && (Holds(s, t) ==> s.pool.phase[t] == WaitPool.Outside)
  }

  /** No thread holds two connections. */
  predicate SingleCheckout(pool: WaitPool.Pool) {
    forall x, y | x in pool.holder && y in pool.holder && pool.holder[x] == pool.holder[y] :: x == y
  }

  predicate ResourceInv(s: System, items: set<WaitPool.Item>) {
    && WaitPool.Inv(s.pool, items)
    && s.pool.phase.Keys == s.calls.Keys
    && (forall t | t in s.calls :: UseOk(s, t))
    && WriterInv(s)
    && SingleCheckout(s.pool)
  }

  /** A step leaves every call alone but its actor's. */
  lemma UntouchedCall(s: System, step: Step, t: Tid)
    requires Enabled(s, step) && Actor(step) != Some(t)
    ensures t in Apply(s, step).calls <==> t in s.calls
    ensures t in s.calls ==> Apply(s, step).calls[t] == s.calls[t]
  {
    if Actor(step).None? {
      OtherStepsKeepCalls(s, step);
    } else {
      CallStepCalls(s, step);
    }
  }

  lemma StepKeepsKeys(s: System, step: Step)
    requires Enabled(s, step)
    ensures Apply(s, step).calls.Keys == s.calls.Keys
  {
    if Actor(step).None? {
      OtherStepsKeepCalls(s, step);
    } else {
      CallStepCalls(s, step);
    }
  }

  lemma OtherStepsKeepPool(s: System, step: Step)
    requires Enabled(s, step) && !step.OnPool?
    ensures Apply(s, step).pool == s.pool
  {}

  /** A writer step leaves its thread running, the other steps leave its use of the writer alone. */
  lemma ActorAfter(s: System, step: Step)
    requires Enabled(s, step) && Actor(step).Some?
    ensures step.t in s.calls && step.t in Apply(s, step).calls
    ensures var c, d := s.calls[step.t], Apply(s, step).calls[step.t];
            if step.WantWriter? || step.LockWriter? || step.UnlockWriter?
            then d.phase == c.phase == Running else d.writer == c.writer
    ensures Apply(s, step).calls[step.t].phase != Running ==> s.calls[step.t].phase != Running || Free(s, step.t)
  {
    match step
    case Grant(_) =>
    case DropGrant(_, _) =>
    case Finish(_) =>
    case _ =>
  }

  /** No step moves a call to the other lane, and none but its start makes it run. */
  lemma LaneStays(s: System, step: Step, t: Tid)
    requires Enabled(s, step) && t in s.calls && t in Apply(s, step).calls
    ensures Apply(s, step).calls[t].lane == s.calls[t].lane
    ensures Apply(s, step).calls[t].phase == Running ==> s.calls[t].phase == Running || step == Start(t)
  {
    match step
    case Grant(_) =>
    case DropGrant(_, _) =>
    case Finish(_) =>
    case _ =>
  }

  /** A step changes at most its actor's call; that call uses resources only while it runs. */
  lemma CallAfter(s: System, step: Step, t: Tid)
    requires Enabled(s, step) && !step.OnPool? && t in s.calls && t in s.pool.phase && UseOk(s, t)
    ensures var q := Apply(s, step);
            && t in q.calls
            && (q.calls[t].writer == NoWriter || q.calls[t].writer == s.calls[t].writer || Free(s, t)
                || s.calls[t].writer != NoWriter)
            && (q.calls[t].phase != Running ==> Free(s, t) && q.calls[t].writer == NoWriter)
  {
    if Actor(step) == Some(t) {
      ActorAfter(s, step);
      if step.WantWriter? || step.LockWriter? || step.UnlockWriter? {
        WriterMoves(s, step);
      }
    } else {
      UntouchedCall(s, step, t);
    }
  }

  /** Only a thread that owns nothing and waits for nothing comes to want the writer. */
  lemma WriterMoves(s: System, step: Step)
    requires Enabled(s, step) && (step.WantWriter? || step.LockWriter? || step.UnlockWriter?)
    ensures step.t in s.calls
    ensures Free(s, step.t) || s.calls[step.t].writer != NoWriter
  {}

  lemma CallStepKeepsUse(s: System, step: Step, items: set<WaitPool.Item>, t: Tid)
    requires Enabled(s, step) && !step.OnPool? && ResourceInv(s, items) && t in s.calls
    ensures t in Apply(s, step).calls && t in Apply(s, step).pool.phase && UseOk(Apply(s, step), t)
  {
    assert UseOk(s, t);
    OtherStepsKeepPool(s, step);
    StepKeepsKeys(s, step);
    CallAfter(s, step, t);
    assert Holds(Apply(s, step), t) == Holds(s, t);
  }

  /** At most one thread owns the writer. */
  predicate WriterInv(s: System) {
    forall t, u | t in s.calls && u in s.calls && s.calls[t].writer == OwnsWriter && s.calls[u].writer == OwnsWriter ::
      t == u
  }

  /** A thread owns the writer after a step if it did before, or if the step is its lock on a free one. */
  lemma OwnerBefore(s: System, step: Step, t: Tid)
    requires Enabled(s, step) && t in Apply(s, step).calls && Apply(s, step).calls[t].writer == OwnsWriter
    ensures t in s.calls
    ensures s.calls[t].writer == OwnsWriter || (step == LockWriter(t) && WriterFree(s))
  {
    if Actor(step) == Some(t) {
      ActorAfter(s, step);
    } else {
      UntouchedCall(s, step, t);
    }
  }

  lemma StepKeepsWriter(s: System, step: Step)
    requires Enabled(s, step) && WriterInv(s)
    ensures WriterInv(Apply(s, step))
  {
    var q := Apply(s, step);
    forall t, u | t in q.calls && u in q.calls && q.calls[t].writer == OwnsWriter && q.calls[u].writer == OwnsWriter
      ensures t == u
    {
      OwnerBefore(s, step, t);
      OwnerBefore(s, step, u);
    }
  }

  lemma HoldsAfterPool(s: System, p: WaitPool.Step, t: Tid)
    requires WaitPool.Enabled(s.pool, p) && t != p.t
    ensures Holds(s.(pool := WaitPool.Apply(s.pool, p)), t) ==> Holds(s, t)
  {}

  lemma PhaseAfterPool(pool: WaitPool.Pool, p: WaitPool.Step, t: Tid)
    requires WaitPool.Enabled(pool, p) && t != p.t && t in pool.phase
    ensures var q := WaitPool.Apply(pool, p);
            && t in q.phase
            && (q.phase[t] == pool.phase[t] || (pool.phase[t] == WaitPool.Asleep && q.phase[t] == WaitPool.Woken))
  {}

  lemma PoolStepKeepsUse(s: System, p: WaitPool.Step, items: set<WaitPool.Item>, t: Tid)
    requires Enabled(s, OnPool(p)) && ResourceInv(s, items) && t in s.calls
    ensures t in Apply(s, OnPool(p)).pool.phase && UseOk(Apply(s, OnPool(p)), t)
  {
    assert UseOk(s, t);
    if t != p.t {
      HoldsAfterPool(s, p, t);
      PhaseAfterPool(s.pool, p, t);
    } else {
      OwnPoolStep(s, p, items);
    }
  }

  /** The thread that takes the pool step holds a connection only between its take and its put. */
  lemma OwnPoolStep(s: System, p: WaitPool.Step, items: set<WaitPool.Item>)
    requires Enabled(s, OnPool(p)) && ResourceInv(s, items)
    ensures p.t in Apply(s, OnPool(p)).pool.phase && UseOk(Apply(s, OnPool(p)), p.t)
  {
    assert UseOk(s, p.t);
  }

  lemma PoolStepKeepsSingle(s: System, p: WaitPool.Step, items: set<WaitPool.Item>)
    requires Enabled(s, OnPool(p)) && ResourceInv(s, items)
    ensures SingleCheckout(WaitPool.Apply(s.pool, p))
  {
    assert UseOk(s, p.t);
    assert forall x | x in s.pool.holder && s.pool.holder[x] == p.t :: Holds(s, p.t);
  }

  predicate Inv(s: System, items: set<WaitPool.Item>) {
    && PermitInv(s)
    && ResourceInv(s, items)
    && |items| == s.maxReads
    && s.maxReads >= 1
  }

  lemma PoolStepKeepsResources(s: System, p: WaitPool.Step, items: set<WaitPool.Item>)
    requires Enabled(s, OnPool(p)) && ResourceInv(s, items)
    ensures ResourceInv(Apply(s, OnPool(p)), items)
  {
    var q := Apply(s, OnPool(p));
    WaitPool.StepKeepsInv(s.pool, p, items);
    PoolStepKeepsSingle(s, p, items);
    PoolPhases(s.pool, p);
    forall t | t in q.calls ensures UseOk(q, t) {
      PoolStepKeepsUse(s, p, items, t);
    }
  }

  lemma CallStepKeepsResources(s: System, step: Step, items: set<WaitPool.Item>)
    requires Enabled(s, step) && !step.OnPool? && ResourceInv(s, items)
    ensures ResourceInv(Apply(s, step), items)
  {
    var q := Apply(s, step);
    StepKeepsWriter(s, step);
    OtherStepsKeepPool(s, step);
    StepKeepsKeys(s, step);
    forall t | t in q.calls ensures UseOk(q, t) {
      CallStepKeepsUse(s, step, items, t);
    }
  }

  lemma StepKeepsResources(s: System, step: Step, items: set<WaitPool.Item>)
    requires Enabled(s, step) && ResourceInv(s, items)
    ensures ResourceInv(Apply(s, step), items)
  {
    if step.OnPool? {
      PoolStepKeepsResources(s, step.step, items);
    } else {
      CallStepKeepsResources(s, step, items);
    }
  }

  lemma PoolPhases(pool: WaitPool.Pool, p: WaitPool.Step)
    requires WaitPool.Enabled(pool, p)
    ensures WaitPool.Apply(pool, p).phase.Keys == pool.phase.Keys
  {}

  lemma StepKeepsInv(s: System, step: Step, items: set<WaitPool.Item>)
    requires Enabled(s, step) && Inv(s, items)
    ensures Inv(Apply(s, step), items)
  {
    StepKeepsPermits(s, step);
    StepKeepsResources(s, step, items);
  }

  predicate Fresh(c: Call) {
    c.phase == Absent && c.writer == NoWriter && !c.abandoned
  }

  /** The storage as opened: every permit available, every connection idle, no call made. */
  predicate Init(s: System, items: set<WaitPool.Item>) {
    && s.readAvailable == s.maxReads == |items|
    && s.maxReads >= 1
    && s.writeAvailable == WRITE_SLOTS
    && !s.readClosed && !s.writeClosed
    && s.handles == 1 && !s.reclaimed
    && WaitPool.Init(s.pool, items)
    && s.pool.phase.Keys == s.calls.Keys
    && forall t | t in s.calls :: Fresh(s.calls[t])
  }

  lemma InitIsInv(s: System, items: set<WaitPool.Item>)
    requires Init(s, items)
    ensures Inv(s, items)
  {
    assert Permits(s, Read) == {} && Permits(s, Write) == {};
    WaitPool.InitIsInv(s.pool, items);
    forall t | t in s.calls ensures UseOk(s, t) {
      assert t in s.pool.phase;
    }
  }

  // ---------------------------------------------------------------- runs

  predicate ValidRun(s: System, steps: seq<Step>)
    decreases |steps|
  {
    steps == [] || (Enabled(s, steps[0]) && ValidRun(Apply(s, steps[0]), steps[1..]))
  }

  function After(s: System, steps: seq<Step>): System
    requires ValidRun(s, steps)
    decreases |steps|
  {
    if steps == [] then s else After(Apply(s, steps[0]), steps[1..])
  }

  lemma {:induction false} RunsKeepInv(s: System, steps: seq<Step>, items: set<WaitPool.Item>)
    requires Inv(s, items) && ValidRun(s, steps)
    ensures Inv(After(s, steps), items)
    decreases |steps|
  {
    if steps != [] {
      StepKeepsInv(s, steps[0], items);
      RunsKeepInv(Apply(s, steps[0]), steps[1..], items);
    }
  }

  function RunningIn(s: System, lane: Lane): set<Tid> {
    set t | t in s.calls && s.calls[t].lane == lane && s.calls[t].phase == Running
  }

  lemma SubsetSize<T>(a: set<T>, b: set<T>)
    requires a <= b
    ensures |a| <= |b|
  {
    assert b == a + (b - a);
  }

  /** In every interleaving at most `maxReads` read closures and one write closure run. */
  lemma LaneSafety(s: System, steps: seq<Step>, items: set<WaitPool.Item>)
    requires Init(s, items) && ValidRun(s, steps)
    ensures |RunningIn(After(s, steps), Read)| <= After(s, steps).maxReads
    ensures |RunningIn(After(s, steps), Write)| <= 1
  {
    InitIsInv(s, items);
    RunsKeepInv(s, steps, items);
    var q := After(s, steps);
    SubsetSize(RunningIn(q, Read), Permits(q, Read));
    SubsetSize(RunningIn(q, Write), Permits(q, Write));
  }

  lemma OnePermitOut(s: System, t: Tid, u: Tid)
    requires PermitInv(s) && t in Permits(s, Write) && u in Permits(s, Write)
    ensures t == u
  {
    if t != u {
      SubsetSize({t, u}, Permits(s, Write));
    }
  }

  /** Two calls cannot both have the write permit. */
  lemma OnePermit(s: System, items: set<WaitPool.Item>, t: Tid, u: Tid)
    requires Inv(s, items) && t in Permits(s, Write) && u in Permits(s, Write)
    ensures t == u
  {
    OnePermitOut(s, t, u);
  }

  /** Two running write closures are the same one. */
  lemma OneWriter(s: System, items: set<WaitPool.Item>, t: Tid, u: Tid)
    requires Inv(s, items) && t in RunningIn(s, Write) && u in RunningIn(s, Write)
    ensures t == u
  {
    OnePermit(s, items, t, u);
  }

  lemma StartAdds(s: System, t: Tid)
    requires Enabled(s, Start(t))
    ensures RunningIn(Apply(s, Start(t)), s.calls[t].lane) == RunningIn(s, s.calls[t].lane) + {t}
  {}

  /** A write closure starts when none is running, and its end leaves none running. */
  lemma WriteStartsAlone(s: System, items: set<WaitPool.Item>, t: Tid)
    requires Inv(s, items) && Enabled(s, Start(t)) && s.calls[t].lane == Write
    ensures RunningIn(s, Write) == {} && RunningIn(Apply(s, Start(t)), Write) == {t}
  {
    StartAdds(s, t);
    assert t in Permits(s, Write) && t !in RunningIn(s, Write);
    if u :| u in RunningIn(s, Write) {
      assert u in Permits(s, Write);
      OnePermit(s, items, t, u);
    }
  }

  lemma WriteEndsAlone(s: System, items: set<WaitPool.Item>, t: Tid)
    requires Inv(s, items) && Enabled(s, Finish(t)) && s.calls[t].lane == Write
    ensures RunningIn(Apply(s, Finish(t)), Write) == {}
  {
    forall u | u in RunningIn(Apply(s, Finish(t)), Write) ensures false {
      OneWriter(s, items, t, u);
    }
  }

  lemma RunningStays(s: System, step: Step, t: Tid)
    requires Enabled(s, step) && PhaseIs(s, t, Running) && step != Finish(t)
    ensures PhaseIs(Apply(s, step), t, Running) && Apply(s, step).calls[t].lane == s.calls[t].lane
  {}

  /** Only the end of its own closure returns a running call's permit: over every run without it the permit is out. */
  lemma {:induction false} PermitOutlivesCaller(s: System, steps: seq<Step>, t: Tid)
    requires ValidRun(s, steps) && PhaseIs(s, t, Running)
    requires forall i | 0 <= i < |steps| :: steps[i] != Finish(t)
    ensures PhaseIs(After(s, steps), t, Running)
    ensures t in Permits(After(s, steps), s.calls[t].lane)
    decreases |steps|
  {
    if steps != [] {
      RunningStays(s, steps[0], t);
      PermitOutlivesCaller(Apply(s, steps[0]), steps[1..], t);
    }
  }

  /** A call is running after a step only if it was running before, or this step started it. */
  lemma RunningComesFromStart(s: System, step: Step, lane: Lane, t: Tid)
    requires Enabled(s, step) && t in RunningIn(Apply(s, step), lane)
    ensures step == Start(t) || t in RunningIn(s, lane)
  {}

  // ---------------------------------------------------------------- shutdown

  function Saturating(a: nat, b: nat): nat {
    if a < b then 0 else a - b
  }

  /** `in_flight`, one lane at a time as the code reads them. */
  function InFlightIn(s: System, lane: Lane): nat {
    Saturating(if lane.Read? then s.maxReads else WRITE_SLOTS, Available(s, lane))
  }

  function InFlight(s: System): nat {
    InFlightIn(s, Read) + InFlightIn(s, Write)
  }

  lemma InFlightIsPermits(s: System, lane: Lane)
    requires PermitInv(s)
    ensures InFlightIn(s, lane) == |Permits(s, lane)|
  {}

  /** In every reachable state `in_flight` counts the calls that have a permit and have not returned it. */
  lemma InFlightCounts(s: System, steps: seq<Step>, items: set<WaitPool.Item>)
    requires Init(s, items) && ValidRun(s, steps)
    ensures var q := After(s, steps);
            InFlight(q) == |set t | t in q.calls && (q.calls[t].phase == Granted || q.calls[t].phase == Spawned
                                                     || q.calls[t].phase == Running)|
  {
    InitIsInv(s, items);
    RunsKeepInv(s, steps, items);
    var q := After(s, steps);
    InFlightIsPermits(q, Read);
    InFlightIsPermits(q, Write);
    PermitsAdd(q);
  }

  /** A call that gives up before its closure started returns the slot to its own lane, whatever the reason. */
  lemma GivingUpReturnsTheSlot(s: System, t: Tid, reason: Reason)
    requires t in s.calls && (s.calls[t].phase == Granted || s.calls[t].phase == Spawned)
    requires reason == ShuttingDown ==> if s.calls[t].lane == Read then s.readClosed else s.writeClosed
    ensures Enabled(s, DropGrant(t, reason))
    ensures var q := Apply(s, DropGrant(t, reason));
            && q.calls == s.calls[t := s.calls[t].(phase := Refused(reason))]
            && q.readAvailable == s.readAvailable + (if s.calls[t].lane == Read then 1 else 0)
            && q.writeAvailable == s.writeAvailable + (if s.calls[t].lane == Write then 1 else 0)
  {}

  lemma PermitsAdd(q: System)
    ensures |Permits(q, Read)| + |Permits(q, Write)|
         == |set t | t in q.calls && (q.calls[t].phase == Granted || q.calls[t].phase == Spawned
                                      || q.calls[t].phase == Running)|
  {
    var all := set t | t in q.calls && (q.calls[t].phase == Granted || q.calls[t].phase == Spawned
                                        || q.calls[t].phase == Running);
    assert all == Permits(q, Read) + Permits(q, Write) && Permits(q, Read) !! Permits(q, Write);
  }

  predicate Drained(s: System, lane: Lane) {
    Closed(s, lane) && Permits(s, lane) == {}
  }

  lemma StepKeepsDrained(s: System, step: Step, lane: Lane)
    requires Enabled(s, step) && Drained(s, lane)
    ensures Drained(Apply(s, step), lane)
  {
    var q := Apply(s, step);
    forall t | t in q.calls ensures !HasPermit(q.calls[t], lane) {
      assert t in s.calls ==> t !in Permits(s, lane);
    }
  }

  lemma {:induction false} DrainedForGood(s: System, steps: seq<Step>, lane: Lane)
    requires ValidRun(s, steps) && Drained(s, lane)
    ensures Drained(After(s, steps), lane)
    ensures RunningIn(After(s, steps), lane) == {}
    decreases |steps|
  {
    if steps == [] {
      assert RunningIn(s, lane) <= Permits(s, lane);
    } else {
      StepKeepsDrained(s, steps[0], lane);
      DrainedForGood(Apply(s, steps[0]), steps[1..], lane);
    }
  }

  lemma {:induction false} StaysClosed(s: System, steps: seq<Step>)
    requires ValidRun(s, steps)
    ensures s.readClosed ==> After(s, steps).readClosed
    ensures s.writeClosed ==> After(s, steps).writeClosed
    decreases |steps|
  {
    if steps != [] {
      StaysClosed(Apply(s, steps[0]), steps[1..]);
    }
  }

  /** Closing closes for good: a lane whose close is among the steps of a run is closed at its end. */
  lemma {:induction false} ClosingCloses(s: System, steps: seq<Step>)
    requires ValidRun(s, steps)
    ensures CloseRead in steps ==> After(s, steps).readClosed
    ensures CloseWrite in steps ==> After(s, steps).writeClosed
    decreases |steps|
  {
    if steps != [] {
      var q := Apply(s, steps[0]);
      ClosingCloses(q, steps[1..]);
      StaysClosed(q, steps[1..]);
      assert forall step :: step in steps ==> step == steps[0] || step in steps[1..];
    }
  }

  /** After `close` no waiting call gets a permit in any later state, and each can be told of the shutdown. */
  lemma NoGrantAfterClose(s: System, steps: seq<Step>, t: Tid)
    requires ValidRun(s, steps) && CloseRead in steps && CloseWrite in steps
    ensures !Enabled(After(s, steps), Grant(t))
    ensures t in After(s, steps).calls && After(s, steps).calls[t].phase == Queued ==>
            Enabled(After(s, steps), Refuse(t, ShuttingDown))
  {
    ClosingCloses(s, steps);
  }

  /**
   After `close`, an `in_flight` of 0 means no closure ever runs again, even though `in_flight` reads the write
   semaphore some steps (`between`) after the read semaphore.
   */
  lemma ClosedAndIdleIsFinal(s: System, steps: seq<Step>, between: seq<Step>, later: seq<Step>,
                             items: set<WaitPool.Item>)
    requires Init(s, items) && ValidRun(s, steps) && CloseRead in steps && CloseWrite in steps
    requires ValidRun(After(s, steps), between) && ValidRun(After(After(s, steps), between), later)
    requires InFlightIn(After(s, steps), Read) == 0 && InFlightIn(After(After(s, steps), between), Write) == 0
    ensures var last := After(After(After(s, steps), between), later);
            RunningIn(last, Read) == {} && RunningIn(last, Write) == {}
  {
    InitIsInv(s, items);
    RunsKeepInv(s, steps, items);
    ClosingCloses(s, steps);
    IdleStaysIdle(After(s, steps), between, later, items);
  }

  lemma IdleStaysIdle(s: System, between: seq<Step>, later: seq<Step>, items: set<WaitPool.Item>)
    requires Inv(s, items) && s.readClosed && s.writeClosed
    requires ValidRun(s, between) && ValidRun(After(s, between), later)
    requires InFlightIn(s, Read) == 0 && InFlightIn(After(s, between), Write) == 0
    ensures RunningIn(After(After(s, between), later), Read) == {}
    ensures RunningIn(After(After(s, between), later), Write) == {}
  {
    var q := After(s, between);
    RunsKeepInv(s, between, items);
    InFlightIsPermits(s, Read);
    InFlightIsPermits(q, Write);
    StaysClosed(s, between);
    DrainedForGood(s, between, Read);
    DrainedForGood(q, later, Read);
    DrainedForGood(q, later, Write);
  }

  // ---------------------------------------------------------------- refusals

  /** Nobody is told that the storage shuts down while the lane of the call is open. */
  predicate ShutdownInv(s: System) {
    forall t | t in s.calls && s.calls[t].phase == Refused(ShuttingDown) ::
      if s.calls[t].lane == Read then s.readClosed else s.writeClosed
  }

  lemma StepKeepsShutdown(s: System, step: Step)
    requires Enabled(s, step) && ShutdownInv(s)
    ensures ShutdownInv(Apply(s, step))
  {
    var q := Apply(s, step);
    forall t | t in q.calls && q.calls[t].phase == Refused(ShuttingDown)
      ensures if q.calls[t].lane == Read then q.readClosed else q.writeClosed
    {
      if Actor(step) != Some(t) {
        UntouchedCall(s, step, t);
      }
    }
  }

  /** Over every run: a call that was told so belongs to a lane that is closed. */
  lemma {:induction false} ShutdownMeansClosed(s: System, steps: seq<Step>)
    requires ValidRun(s, steps)
    requires forall t | t in s.calls && s.calls[t].phase == Refused(ShuttingDown) ::
               if s.calls[t].lane == Read then s.readClosed else s.writeClosed
    ensures forall t | t in After(s, steps).calls && After(s, steps).calls[t].phase == Refused(ShuttingDown) ::
              if After(s, steps).calls[t].lane == Read then After(s, steps).readClosed else After(s, steps).writeClosed
    decreases |steps|
  {
    if steps != [] {
      StepKeepsShutdown(s, steps[0]);
      ShutdownMeansClosed(Apply(s, steps[0]), steps[1..]);
    }
  }

  lemma RefusedStays(s: System, step: Step, t: Tid, reason: Reason)
    requires Enabled(s, step) && PhaseIs(s, t, Refused(reason))
    ensures PhaseIs(Apply(s, step), t, Refused(reason))
  {
    if Actor(step) != Some(t) {
      UntouchedCall(s, step, t);
    }
  }

  lemma {:induction false} RefusedForGood(s: System, steps: seq<Step>, t: Tid, reason: Reason)
    requires ValidRun(s, steps) && PhaseIs(s, t, Refused(reason))
    ensures PhaseIs(After(s, steps), t, Refused(reason))
    decreases |steps|
  {
    if steps != [] {
      RefusedStays(s, steps[0], t, reason);
      RefusedForGood(Apply(s, steps[0]), steps[1..], t, reason);
    }
  }

  /** A call that is refused, before or after its permit was assigned, hears that reason and never runs. */
  lemma RefusalIsFinal(s: System, step: Step, later: seq<Step>)
    requires Enabled(s, step) && (step.Refuse? || step.DropGrant?) && ValidRun(Apply(s, step), later)
    ensures var q := After(Apply(s, step), later);
            step.t in q.calls && q.calls[step.t].phase == Refused(step.reason)
  {
    RefusedForGood(Apply(s, step), later, step.t, step.reason);
  }

  // ---------------------------------------------------------------- reclaiming the engine

  /** The call is over or was never made. */
  predicate Settled(c: Call) {
    c.phase == Absent || c.phase == Done || c.phase.Refused?
  }

  /** Without a handle nobody waits for a call; a reclaimed engine has no reference left. */
  predicate HandleInv(s: System) {
    && (s.handles == 0 ==> forall t | t in s.calls :: !Borrows(s.calls[t]))
    && (s.reclaimed ==> s.handles == 0 && forall t | t in s.calls :: Settled(s.calls[t]))
  }

  /**
   `into_engine` gives the engine back exactly when its handle is the only one and no call is under way: none
   queued, none granted, no closure spawned, running or about to drop its reference. Otherwise nothing changes.
   */
  lemma IntoEngineIff(s: System)
    requires Enabled(s, IntoEngine)
    ensures IntoEngineOk(s) <==> s.handles == 1 && forall t | t in s.calls :: Settled(s.calls[t])
    ensures !IntoEngineOk(s) ==> Apply(s, IntoEngine) == s
  {
    if IntoEngineOk(s) {
      assert EngineRefs(s) == {};
      assert forall t | t in s.calls :: t !in EngineRefs(s);
    } else if s.handles == 1 {
      var t :| t in EngineRefs(s);
    }
  }

  function Count(steps: seq<Step>, step: Step): nat {
    multiset(steps)[step]
  }

  /** Until the engine is handed back there is one handle more than were cloned since the start, less those dropped. */
  lemma {:induction false} HandlesAreCounted(s: System, steps: seq<Step>)
    requires ValidRun(s, steps) && !After(s, steps).reclaimed
    ensures !s.reclaimed && After(s, steps).handles + Count(steps, DropHandle) == s.handles + Count(steps, CloneHandle)
    decreases |steps|
  {
    if steps != [] {
      var q, rest := Apply(s, steps[0]), steps[1..];
      HandlesAreCounted(q, rest);
      assert steps == [steps[0]] + rest;
      assert multiset(steps) == multiset([steps[0]]) + multiset(rest);
      HandleStep(s, steps[0]);
    }
  }

  lemma HandleStep(s: System, step: Step)
    requires Enabled(s, step) && !Apply(s, step).reclaimed
    ensures !s.reclaimed
    ensures Apply(s, step).handles + (if step == DropHandle then 1 else 0)
         == s.handles + (if step == CloneHandle then 1 else 0)
  {}

  lemma StepKeepsHandles(s: System, step: Step)
    requires Enabled(s, step) && HandleInv(s)
    ensures HandleInv(Apply(s, step))
  {
    if step.IntoEngine? {
      IntoEngineIff(s);
    }
  }

  lemma {:induction false} RunsKeepHandles(s: System, steps: seq<Step>)
    requires HandleInv(s) && ValidRun(s, steps)
    ensures HandleInv(After(s, steps))
    ensures s.reclaimed ==> After(s, steps).reclaimed
    decreases |steps|
  {
    if steps != [] {
      StepKeepsHandles(s, steps[0]);
      RunsKeepHandles(Apply(s, steps[0]), steps[1..]);
    }
  }

  /** Once the engine was given back, no closure runs and no permit is out in any later state. */
  lemma ReclaimedIsFinal(s: System, steps: seq<Step>, later: seq<Step>, items: set<WaitPool.Item>)
    requires Init(s, items) && ValidRun(s, steps) && After(s, steps).reclaimed
    requires ValidRun(After(s, steps), later)
    ensures forall lane :: RunningIn(After(After(s, steps), later), lane) == {}
    ensures forall lane :: Permits(After(After(s, steps), later), lane) == {}
  {
    RunsKeepHandles(s, steps);
    RunsKeepHandles(After(s, steps), later);
  }

  // ---------------------------------------------------------------- the mutable facade

  /** The semaphores and the calls as the program updates them. */
  class AsyncStorage {
    const maxReads: nat
    var readAvailable: nat
    var writeAvailable: nat
    var readClosed: bool
    var writeClosed: bool
    var calls: map<Tid, Call>
    var pool: WaitPool.Pool
    var handles: nat
    var reclaimed: bool

    function View(): System
      reads this
    {
      System(maxReads, readAvailable, writeAvailable, readClosed, writeClosed, calls, pool, handles, reclaimed)
    }

    /** Admission control is sized to the reader pool. */
    constructor (readers: WaitPool.Pool, requests: map<Tid, Call>)
      requires WaitPool.Init(readers, WaitPool.Elements(readers.idle)) && |readers.idle| >= 1
      requires readers.phase.Keys == requests.Keys
      requires forall t | t in requests ::
                 requests[t].phase == Absent && requests[t].writer == NoWriter && !requests[t].abandoned
      ensures Init(View(), WaitPool.Elements(readers.idle))
      ensures readAvailable == maxReads == |readers.idle| && writeAvailable == 1 && handles == 1
      ensures !readClosed && !writeClosed && !reclaimed && calls == requests && pool == readers
    {
      maxReads := |readers.idle|;
      readAvailable := |readers.idle|;
      writeAvailable := WRITE_SLOTS;
      readClosed, writeClosed := false, false;
      handles, reclaimed := 1, false;
      calls := requests;
      pool := readers;
      new;
      ElementsSize(readers.idle);
    }

    /** One poll of `acquire_slot`: closed, granted, timed out, or still waiting. */
    method AcquireSlot(t: Tid, elapsed: bool)
      requires PhaseIs(View(), t, Queued)
      modifies this
      ensures var s, lane := old(View()), old(calls[t].lane);
              View() == if Closed(s, lane) then Apply(s, Refuse(t, ShuttingDown))
                        else if Available(s, lane) > 0 then Apply(s, Grant(t))
                        else if elapsed then Apply(s, Refuse(t, Overloaded))
                        else s
      ensures var closed := if old(calls[t].lane) == Read then old(readClosed) else old(writeClosed);
              var free := if old(calls[t].lane) == Read then old(readAvailable) else old(writeAvailable);
              var phase := if closed then Refused(ShuttingDown) else if free > 0 then Granted
                           else if elapsed then Refused(Overloaded) else Queued;
              var taken := if !closed && free > 0 then 1 else 0;
              && calls == old(calls)[t := old(calls)[t].(phase := phase)]
              && readAvailable == old(readAvailable) - (if old(calls[t].lane) == Read then taken else 0)
              && writeAvailable == old(writeAvailable) - (if old(calls[t].lane) == Write then taken else 0)
    {
      var lane := calls[t].lane;
      if (if lane.Read? then readClosed else writeClosed) {
        calls := calls[t := calls[t].(phase := Refused(ShuttingDown))];
      } else if lane.Read? && readAvailable > 0 {
        calls := calls[t := calls[t].(phase := Granted)];
        readAvailable := readAvailable - 1;
      } else if lane.Write? && writeAvailable > 0 {
        calls := calls[t := calls[t].(phase := Granted)];
        writeAvailable := writeAvailable - 1;
      } else if elapsed {
        calls := calls[t := calls[t].(phase := Refused(Overloaded))];
      }
    }

    /** The closure's body ends: its permit goes back before its engine reference does. */
    method FinishClosure(t: Tid)
      requires t in calls && calls[t].phase == Running && calls[t].writer == NoWriter
      requires t in pool.phase && pool.phase[t] == WaitPool.Outside
      requires forall x | x in pool.holder :: pool.holder[x] != t
      modifies this
      ensures View() == Apply(old(View()), Finish(t))
      ensures calls == old(calls)[t := old(calls)[t].(phase := Leaving)]
      ensures readAvailable == old(readAvailable) + (if old(calls[t].lane) == Read then 1 else 0)
      ensures writeAvailable == old(writeAvailable) + (if old(calls[t].lane) == Write then 1 else 0)
    {
      if calls[t].lane.Read? {
        readAvailable := readAvailable + 1;
      } else {
        writeAvailable := writeAvailable + 1;
      }
      calls := calls[t := calls[t].(phase := Leaving)];
    }

    method Close()
      modifies this
      ensures View() == Apply(Apply(old(View()), CloseRead), CloseWrite)
      ensures readClosed && writeClosed
      ensures calls == old(calls) && pool == old(pool) && handles == old(handles)
      ensures readAvailable == old(readAvailable) && writeAvailable == old(writeAvailable)
    {
      readClosed := true;
      writeClosed := true;
    }

    /** Consumes the handle it is called on, or gives it back. */
    method TakeEngine() returns (ok: bool)
      requires Enabled(View(), IntoEngine)
      modifies this
      ensures View() == Apply(old(View()), IntoEngine)
      ensures ok <==> old(handles == 1 && forall u | u in calls :: Settled(calls[u]))
      ensures handles == (if ok then 0 else old(handles)) && reclaimed == (ok || old(reclaimed))
      ensures calls == old(calls)
    {
      IntoEngineIff(View());
      ok := handles + |EngineRefs(View())| == 1;
      if ok {
        handles := 0;
        reclaimed := true;
      }
    }
  }

  lemma {:induction false} ElementsSize(items: seq<WaitPool.Item>)
    requires WaitPool.NoDuplicates(items)
    ensures |WaitPool.Elements(items)| == |items|
  {
    if items != [] {
      var n := |items| - 1;
      ElementsSize(items[..n]);
      assert WaitPool.Elements(items) == WaitPool.Elements(items[..n]) + {items[n]};
    }
  }

  /** The polling loop of `wait_idle` over the states it observes before its deadline. */
  method WaitIdle(observed: seq<System>) returns (idle: bool, at: nat)
    ensures idle ==> at < |observed| && InFlight(observed[at]) == 0
    ensures forall i | 0 <= i < at && i < |observed| :: InFlight(observed[i]) > 0
    ensures !idle ==> at == |observed|
  {
    at := 0;
    while at < |observed|
      invariant at <= |observed|
      invariant forall i | 0 <= i < at :: InFlight(observed[i]) > 0
    {
      if InFlight(observed[at]) == 0 {
        return true, at;
      }
      at := at + 1;
    }
    return false, at;
  }
}
