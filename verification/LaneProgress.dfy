/**
 Progress of admitted calls: which steps bring a closure nearer to its end, why one of them is always
 possible while a closure is unfinished, and that they end every closure.
 */
module LaneProgress {
  import opened Wrappers
  import opened Lanes
  import WaitPool

  // ---------------------------------------------------------------- progress

  /** A closure that was admitted and has not let go of the engine yet. */
  predicate Unfinished(s: System, t: Tid) {
    PhaseIs(s, t, Granted) || PhaseIs(s, t, Spawned) || PhaseIs(s, t, Running) || PhaseIs(s, t, Leaving)
  }

  /**
   A step of a closure on its own way to the end. Callers that give up, arriving calls, timeouts, spurious
   wake-ups and closing lanes are no progress.
   */
  predicate Progress(step: Step) {
    || step.Spawn? || step.Start? || step.Finish? || step.DropEngine?
    || step.LockWriter? || step.UnlockWriter?
    || (step.OnPool? && (step.step.TakeLocked? || step.step.PutLocked? || step.step.NotifyOne?))
  }

  predicate By(step: Step, t: Tid) {
    if step.OnPool? then step.step.t == t else Actor(step) == Some(t)
  }

  /** A running closure that can only wait: asleep in the pool, or behind another owner of the writer. */
  predicate Blocked(s: System, t: Tid)
    requires t in s.calls && t in s.pool.phase
  {
    || s.pool.phase[t] == WaitPool.Asleep
    || (s.calls[t].writer == WantsWriter && !WriterFree(s))
  }

  /** A running closure that is not blocked has a step of its own. */
  lemma UnblockedCanStep(s: System, t: Tid, items: set<WaitPool.Item>) returns (step: Step)
    requires Inv(s, items) && PhaseIs(s, t, Running) && !Blocked(s, t)
    ensures Enabled(s, step) && Progress(step) && By(step, t)
  {
    assert UseOk(s, t);
    if s.calls[t].writer == WantsWriter {
      step := LockWriter(t);
    } else if s.calls[t].writer == OwnsWriter {
      step := UnlockWriter(t);
    } else {
      var p := UnblockedOnPool(s, t, items);
      step := p;
    }
  }

  lemma UnblockedOnPool(s: System, t: Tid, items: set<WaitPool.Item>) returns (step: Step)
    requires Inv(s, items) && PhaseIs(s, t, Running) && !Blocked(s, t) && s.calls[t].writer == NoWriter
    ensures Enabled(s, step) && Progress(step) && By(step, t)
  {
    assert UseOk(s, t);
    if s.pool.phase[t] == WaitPool.Outside {
      if x :| x in s.pool.holder && s.pool.holder[x] == t {
        step := OnPool(WaitPool.PutLocked(t, x));
      } else {
        step := Finish(t);
      }
    } else {
      step := InsidePool(s, t);
    }
  }

  lemma InsidePool(s: System, t: Tid) returns (step: Step)
    requires PhaseIs(s, t, Running) && s.calls[t].writer == NoWriter && t in s.pool.phase
    requires s.pool.phase[t] != WaitPool.Outside && s.pool.phase[t] != WaitPool.Asleep
    ensures Enabled(s, step) && step.OnPool? && step.step.t == t
    ensures step.step.TakeLocked? || step.step.NotifyOne?
  {
    if s.pool.phase[t] == WaitPool.Notifying {
      if w :| w in WaitPool.In(s.pool, WaitPool.Asleep) {
        step := OnPool(WaitPool.NotifyOne(t, Some(w)));
      } else {
        step := OnPool(WaitPool.NotifyOne(t, None));
      }
    } else {
      step := OnPool(WaitPool.TakeLocked(t));
    }
  }

  /** The owner of the writer mutex never waits. */
  lemma OwnerIsNotBlocked(s: System, items: set<WaitPool.Item>) returns (u: Tid)
    requires Inv(s, items) && !WriterFree(s)
    ensures PhaseIs(s, u, Running) && u in s.pool.phase && !Blocked(s, u)
  {
    u :| u in s.calls && s.calls[u].writer == OwnsWriter;
    assert UseOk(s, u);
  }

  /** A thread asleep in the pool is waiting for one that is not blocked. */
  lemma SleeperWaitsForUnblocked(s: System, items: set<WaitPool.Item>) returns (u: Tid)
    requires Inv(s, items) && WaitPool.In(s.pool, WaitPool.Asleep) != {}
    ensures PhaseIs(s, u, Running) && u in s.pool.phase && !Blocked(s, u)
  {
    forall x | x in s.pool.holder ensures s.pool.phase[s.pool.holder[x]] != WaitPool.Asleep {
      assert UseOk(s, s.pool.holder[x]);
      assert Holds(s, s.pool.holder[x]);
    }
    WaitPool.SleeperIsNotStuck(s.pool, items);
    u :| && u in s.pool.phase && s.pool.phase[u] != WaitPool.Asleep
         && (s.pool.phase[u] != WaitPool.Outside || exists x :: x in s.pool.holder && s.pool.holder[x] == u);
    assert UseOk(s, u);
  }

  lemma UnblockedRunning(q: System, items: set<WaitPool.Item>, t: Tid) returns (u: Tid)
    requires Inv(q, items) && PhaseIs(q, t, Running)
    ensures PhaseIs(q, u, Running) && u in q.pool.phase && !Blocked(q, u)
  {
    if !Blocked(q, t) {
      u := t;
    } else if q.pool.phase[t] == WaitPool.Asleep {
      assert t in WaitPool.In(q.pool, WaitPool.Asleep);
      u := SleeperWaitsForUnblocked(q, items);
    } else {
      u := OwnerIsNotBlocked(q, items);
    }
  }

  /**
   No stuck state: while any closure is unfinished, some unfinished closure can make progress. Pool waits do
   happen; they cannot close a circle, because no thread waits for the pool or the writer while it holds the other.
   */
  lemma SomeClosureCanStep(s: System, steps: seq<Step>, items: set<WaitPool.Item>, t: Tid)
    returns (u: Tid, step: Step)
    requires Init(s, items) && ValidRun(s, steps) && Unfinished(After(s, steps), t)
    ensures Unfinished(After(s, steps), u) && Progress(step) && Enabled(After(s, steps), step)
    ensures if step.OnPool? then step.step.t == u else step.t == u
  {
    InitIsInv(s, items);
    RunsKeepInv(s, steps, items);
    u, step := ProgressIsPossible(After(s, steps), items, t);
  }

  /**
   What the discipline rules out: a thread that holds the only connection and waits for the writer, beside the
   writer's owner asleep on the empty pool. No progress step is enabled there.
   */
  lemma HoldAndWaitIsStuck(s: System, step: Step)
    requires s.calls.Keys == s.pool.phase.Keys == {0, 1}
    requires s.calls[0].phase == s.calls[1].phase == Running
    requires s.calls[0].writer == WantsWriter && s.calls[1].writer == OwnsWriter
    requires s.pool.phase[0] == WaitPool.Outside && s.pool.phase[1] == WaitPool.Asleep
    requires s.pool.idle == [] && s.pool.holder == map[7 := 0]
    ensures Enabled(s, step) ==> !Progress(step)
  {
    assert 1 in s.calls && s.calls[1].writer == OwnsWriter;
    assert 7 in s.pool.holder && s.pool.holder[7] == 0;
  }

  lemma ProgressIsPossible(q: System, items: set<WaitPool.Item>, t: Tid) returns (u: Tid, step: Step)
    requires Inv(q, items) && Unfinished(q, t)
    ensures Unfinished(q, u) && Progress(step) && By(step, u) && Enabled(q, step)
  {
    match q.calls[t].phase
    case Granted => u, step := t, Spawn(t);
    case Spawned => u, step := t, Start(t);
    case Leaving => u, step := t, DropEngine(t);
    case _ =>
      u := UnblockedRunning(q, items, t);
      step := UnblockedCanStep(q, u, items);
  }

  // ---------------------------------------------------------------- progress ends

  function CallsIn(s: System, ph: Phase): set<Tid> {
    set t | t in s.calls && s.calls[t].phase == ph
  }

  function CallsUsing(s: System, w: WriterUse): set<Tid> {
    set t | t in s.calls && s.calls[t].writer == w
  }

  function CallWork(s: System): nat {
    4 * |CallsIn(s, Granted)| + 3 * |CallsIn(s, Spawned)| + 2 * |CallsIn(s, Running)| + |CallsIn(s, Leaving)|
  }

  function WriterWork(s: System): nat {
    2 * |CallsUsing(s, WantsWriter)| + |CallsUsing(s, OwnsWriter)|
  }

  /** A thread that still wants a connection is dearer than one that holds it, and that than one that returned it. */
  function PoolWork(p: WaitPool.Pool): nat {
    4 * |WaitPool.In(p, WaitPool.Entering)| + 4 * |WaitPool.In(p, WaitPool.Woken)|
    + 3 * |WaitPool.In(p, WaitPool.Asleep)| + 2 * |WaitPool.In(p, WaitPool.Notifying)| + 3 * |p.holder|
  }

  function Work(s: System): nat {
    CallWork(s) + WriterWork(s) + PoolWork(s.pool)
  }

  lemma CallMoves(s: System, q: System, t: Tid, c: Call, ph: Phase)
    requires t in s.calls && q.calls == s.calls[t := c]
    ensures |CallsIn(q, ph)| + One(s.calls[t].phase == ph) == |CallsIn(s, ph)| + One(c.phase == ph)
  {
    assert CallsIn(q, ph) == if c.phase == ph then CallsIn(s, ph) + {t} else CallsIn(s, ph) - {t};
  }

  lemma WriterMoves(s: System, q: System, t: Tid, c: Call, w: WriterUse)
    requires t in s.calls && q.calls == s.calls[t := c]
    ensures |CallsUsing(q, w)| + One(s.calls[t].writer == w) == |CallsUsing(s, w)| + One(c.writer == w)
  {
    assert CallsUsing(q, w) == if c.writer == w then CallsUsing(s, w) + {t} else CallsUsing(s, w) - {t};
  }

  function PhaseCost(ph: Phase): nat {
    match ph
    case Granted => 4
    case Spawned => 3
    case Running => 2
    case Leaving => 1
    case _ => 0
  }

  function WriterCost(w: WriterUse): nat {
    match w
    case NoWriter => 0
    case WantsWriter => 2
    case OwnsWriter => 1
  }

  lemma CallCosts(s: System, q: System, t: Tid, c: Call)
    requires t in s.calls && q.calls == s.calls[t := c]
    ensures CallWork(q) + PhaseCost(s.calls[t].phase) == CallWork(s) + PhaseCost(c.phase)
    ensures WriterWork(q) + WriterCost(s.calls[t].writer) == WriterWork(s) + WriterCost(c.writer)
  {
    CallMoves(s, q, t, c, Granted);
    CallMoves(s, q, t, c, Spawned);
    CallMoves(s, q, t, c, Running);
    CallMoves(s, q, t, c, Leaving);
    WriterMoves(s, q, t, c, WantsWriter);
    WriterMoves(s, q, t, c, OwnsWriter);
  }

  lemma HolderGrows(holder: map<WaitPool.Item, Tid>, x: WaitPool.Item, t: Tid)
    ensures |holder[x := t]| <= |holder| + 1
  {
    assert holder[x := t].Keys == holder.Keys + {x};
    assert |holder[x := t]| == |holder.Keys + {x}|;
  }

  lemma HolderShrinks(holder: map<WaitPool.Item, Tid>, x: WaitPool.Item)
    requires x in holder
    ensures |holder - {x}| == |holder| - 1
  {
    assert (holder - {x}).Keys == holder.Keys - {x};
    assert |holder - {x}| == |holder.Keys - {x}|;
  }

  lemma TakeWorks(p: WaitPool.Pool, t: Tid)
    requires WaitPool.Enabled(p, WaitPool.TakeLocked(t))
    ensures PoolWork(WaitPool.Taken(p, t)) < PoolWork(p)
  {
    var q := WaitPool.Taken(p, t);
    if p.idle == [] {
      WaitPool.MoveThread(p, q, t, p.phase[t], WaitPool.Asleep);
    } else {
      WaitPool.MoveThread(p, q, t, p.phase[t], WaitPool.Outside);
      HolderGrows(p.holder, p.idle[|p.idle| - 1], t);
    }
  }

  lemma NotifyWorks(p: WaitPool.Pool, t: Tid, woken: Option<Tid>)
    requires WaitPool.Enabled(p, WaitPool.NotifyOne(t, woken))
    ensures PoolWork(WaitPool.Apply(p, WaitPool.NotifyOne(t, woken))) < PoolWork(p)
  {
    var mid := p.(phase := p.phase[t := WaitPool.Outside]);
    WaitPool.MoveThread(p, mid, t, WaitPool.Notifying, WaitPool.Outside);
    if woken.Some? {
      WaitPool.MoveThread(mid, WaitPool.Apply(p, WaitPool.NotifyOne(t, woken)), woken.value,
                          WaitPool.Asleep, WaitPool.Woken);
    }
  }

  lemma PutWorks(p: WaitPool.Pool, t: Tid, x: WaitPool.Item)
    requires WaitPool.Enabled(p, WaitPool.PutLocked(t, x))
    ensures PoolWork(WaitPool.Apply(p, WaitPool.PutLocked(t, x))) < PoolWork(p)
  {
    WaitPool.MoveThread(p, WaitPool.Apply(p, WaitPool.PutLocked(t, x)), t, WaitPool.Outside, WaitPool.Notifying);
    HolderShrinks(p.holder, x);
  }

  lemma PoolStepWorks(p: WaitPool.Pool, step: WaitPool.Step)
    requires WaitPool.Enabled(p, step) && Progress(OnPool(step))
    ensures PoolWork(WaitPool.Apply(p, step)) < PoolWork(p)
  {
    match step
    case TakeLocked(t) => TakeWorks(p, t);
    case PutLocked(t, x) => PutWorks(p, t, x);
    case NotifyOne(t, woken) => NotifyWorks(p, t, woken);
  }

  lemma CostFalls(s: System, step: Step)
    requires Enabled(s, step) && Progress(step) && !step.OnPool?
    ensures step.t in s.calls
    ensures var q := Apply(s, step);
            && q.pool == s.pool && q.calls == s.calls[step.t := q.calls[step.t]]
            && PhaseCost(q.calls[step.t].phase) + WriterCost(q.calls[step.t].writer)
               < PhaseCost(s.calls[step.t].phase) + WriterCost(s.calls[step.t].writer)
  {}

  lemma ProgressWorks(s: System, step: Step)
    requires Enabled(s, step) && Progress(step)
    ensures Work(Apply(s, step)) < Work(s)
  {
    var q := Apply(s, step);
    if step.OnPool? {
      assert CallWork(q) == CallWork(s) && WriterWork(q) == WriterWork(s);
      PoolStepWorks(s.pool, step.step);
    } else {
      CostFalls(s, step);
      CallCosts(s, q, step.t, q.calls[step.t]);
    }
  }

  predicate ProgressRun(steps: seq<Step>) {
    forall i | 0 <= i < |steps| :: Progress(steps[i])
  }

  /** Whatever the scheduler picks, progress alone goes on for at most `Work` steps. */
  lemma {:induction false} ProgressIsBounded(s: System, steps: seq<Step>)
    requires ValidRun(s, steps) && ProgressRun(steps)
    ensures |steps| <= Work(s)
    decreases |steps|
  {
    if steps != [] {
      assert Progress(steps[0]);
      ProgressWorks(s, steps[0]);
      ProgressIsBounded(Apply(s, steps[0]), steps[1..]);
    }
  }

  /** No closure is unfinished. */
  predicate Quiet(s: System) {
    forall t | t in s.calls :: !Unfinished(s, t)
  }

  /** Then every call is still to come, waiting for its slot, finished or refused. */
  lemma QuietMeans(s: System)
    requires Quiet(s)
    ensures forall t | t in s.calls ::
              s.calls[t].phase == Absent || s.calls[t].phase == Queued || s.calls[t].phase == Done
              || s.calls[t].phase.Refused?
  {
    forall t | t in s.calls
      ensures s.calls[t].phase == Absent || s.calls[t].phase == Queued || s.calls[t].phase == Done
              || s.calls[t].phase.Refused?
    {
      assert !Unfinished(s, t);
    }
  }

  /** A run of progress steps after which no closure is unfinished. */
  predicate Ends(q: System, more: seq<Step>) {
    ValidRun(q, more) && ProgressRun(more) && Quiet(After(q, more))
  }

  lemma EndsCons(q: System, step: Step, rest: seq<Step>)
    requires Enabled(q, step) && Progress(step) && Ends(Apply(q, step), rest)
    ensures Ends(q, [step] + rest)
  {
    assert ([step] + rest)[1..] == rest;
  }

  lemma NextProgress(q: System, items: set<WaitPool.Item>) returns (step: Step, next: System)
    requires Inv(q, items) && !Quiet(q)
    ensures Enabled(q, step) && Progress(step) && next == Apply(q, step)
    ensures Inv(next, items) && Work(next) < Work(q)
  {
    var t :| t in q.calls && Unfinished(q, t);
    var u;
    u, step := ProgressIsPossible(q, items, t);
    next := Apply(q, step);
    ProgressWorks(q, step);
    StepKeepsInv(q, step, items);
  }

  lemma {:induction false} Finishing(q: System, items: set<WaitPool.Item>) returns (more: seq<Step>)
    requires Inv(q, items)
    ensures Ends(q, more)
    decreases Work(q)
  {
    if Quiet(q) {
      more := [];
    } else {
      var step, next := NextProgress(q, items);
      var rest := Finishing(next, items);
      EndsCons(q, step, rest);
      more := [step] + rest;
    }
  }

  /**
   Every closure ends: from every reachable state a run of progress steps leads to a state in which no closure is
   unfinished, and no run of progress steps is longer than `Work`.
   */
  lemma EveryClosureEnds(s: System, steps: seq<Step>, items: set<WaitPool.Item>) returns (more: seq<Step>)
    requires Init(s, items) && ValidRun(s, steps)
    ensures Ends(After(s, steps), more) && |more| <= Work(After(s, steps))
    ensures var q := After(After(s, steps), more);
            forall t | t in q.calls ::
              q.calls[t].phase == Absent || q.calls[t].phase == Queued || q.calls[t].phase == Done
              || q.calls[t].phase.Refused?
  {
    InitIsInv(s, items);
    RunsKeepInv(s, steps, items);
    more := Finishing(After(s, steps), items);
    ProgressIsBounded(After(s, steps), more);
    QuietMeans(After(After(s, steps), more));
  }

  // ---------------------------------------------------------------- pool waits do happen

  ghost predicate Reachable(s: System, q: System) {
    exists steps :: ValidRun(s, steps) && After(s, steps) == q
  }

  lemma {:induction false} RunPush(s: System, steps: seq<Step>, step: Step)
    requires ValidRun(s, steps) && Enabled(After(s, steps), step)
    ensures ValidRun(s, steps + [step]) && After(s, steps + [step]) == Apply(After(s, steps), step)
    decreases |steps|
  {
    if steps == [] {
      assert ([step])[1..] == [];
    } else {
      assert (steps + [step])[1..] == steps[1..] + [step];
      RunPush(Apply(s, steps[0]), steps[1..], step);
    }
  }

  lemma ReachStep(s: System, q: System, step: Step) returns (r: System)
    requires Reachable(s, q) && Enabled(q, step)
    ensures r == Apply(q, step) && Reachable(s, r)
  {
    var steps :| ValidRun(s, steps) && After(s, steps) == q;
    RunPush(s, steps, step);
    r := Apply(q, step);
  }

  lemma ReachGranted(s: System, q: System, t: Tid) returns (r: System)
    requires Reachable(s, q) && PhaseIs(q, t, Absent)
    requires !Closed(q, q.calls[t].lane) && Available(q, q.calls[t].lane) > 0 && q.handles > 0
    ensures Reachable(s, r)
    ensures r.calls == q.calls[t := q.calls[t].(phase := Granted)] && r.pool == q.pool && r.handles == q.handles
    ensures forall lane | lane != q.calls[t].lane ::
              Available(r, lane) == Available(q, lane) && Closed(r, lane) == Closed(q, lane)
  {
    var a := ReachStep(s, q, Arrive(t));
    r := ReachStep(s, a, Grant(t));
  }

  lemma ReachRunning(s: System, q: System, t: Tid) returns (r: System)
    requires Reachable(s, q) && PhaseIs(q, t, Absent)
    requires !Closed(q, q.calls[t].lane) && Available(q, q.calls[t].lane) > 0 && q.handles > 0
    ensures Reachable(s, r)
    ensures r.calls == q.calls[t := q.calls[t].(phase := Running)] && r.pool == q.pool && r.handles == q.handles
    ensures forall lane | lane != q.calls[t].lane ::
              Available(r, lane) == Available(q, lane) && Closed(r, lane) == Closed(q, lane)
  {
    var a := ReachGranted(s, q, t);
    var b := ReachStep(s, a, Spawn(t));
    r := ReachStep(s, b, Start(t));
  }

  lemma ReachTake(s: System, q: System, t: Tid) returns (r: System)
    requires Reachable(s, q) && PhaseIs(q, t, Running) && Free(q, t)
    ensures Reachable(s, r)
    ensures r.calls == q.calls && r.readAvailable == q.readAvailable && r.writeAvailable == q.writeAvailable
    ensures r.handles == q.handles && r.readClosed == q.readClosed && r.writeClosed == q.writeClosed
    ensures r.pool == WaitPool.Taken(q.pool.(phase := q.pool.phase[t := WaitPool.Entering]), t)
  {
    var a := ReachStep(s, q, OnPool(WaitPool.Begin(t)));
    r := ReachStep(s, a, OnPool(WaitPool.TakeLocked(t)));
  }

  /** Read permits match the pool, yet a live write closure can find it empty and sleep. */
  lemma PoolWaitIsReachable(s: System)
    requires Init(s, {7}) && s.pool.idle == [7]
    requires s.calls.Keys == {0, 1} && s.calls[0].lane == Read && s.calls[1].lane == Write
    ensures exists q :: Reachable(s, q) && WaitPool.In(q.pool, WaitPool.Asleep) == {1}
  {
    assert ValidRun(s, []) && After(s, []) == s;
    assert Reachable(s, s);
    assert s.pool.phase.Keys == {0, 1};
    assert 0 in s.calls && 1 in s.calls;
    var a := ReachRunning(s, s, 0);
    assert Available(a, Write) == 1 && !Closed(a, Write);
    assert a.calls[1] == s.calls[1];
    var b := ReachTake(s, a, 0);
    var c := ReachRunning(s, b, 1);
    var d := ReachTake(s, c, 1);
    assert WaitPool.In(d.pool, WaitPool.Asleep) == {1};
  }

  /** A call is made, its closure runs, its caller goes away and the closure returns its permit. */
  lemma ReachLeaving(s: System, q: System, t: Tid) returns (r: System)
    requires Reachable(s, q) && PhaseIs(q, t, Absent) && Free(q, t)
    requires !Closed(q, q.calls[t].lane) && Available(q, q.calls[t].lane) > 0 && q.handles > 0
    ensures Reachable(s, r)
    ensures r.calls == q.calls[t := q.calls[t].(phase := Leaving, abandoned := true)] && r.handles == q.handles
  {
    var a := ReachRunning(s, q, t);
    var b := ReachStep(s, a, Abandon(t));
    assert Free(b, t);
    r := ReachStep(s, b, Finish(t));
  }

  /**
   Idle lanes are not enough to reclaim the engine: with nothing in flight and one handle left, a closure whose
   caller went away can still own its reference.
   */
  lemma IdleIsNotEnough(s: System, items: set<WaitPool.Item>)
    requires Init(s, items) && 0 in s.calls
    ensures exists q :: Reachable(s, q) && InFlight(q) == 0 && Enabled(q, IntoEngine) && !IntoEngineOk(q)
  {
    assert ValidRun(s, []) && After(s, []) == s;
    var c := ReachLeaving(s, s, 0);
    assert 0 in EngineRefs(c);
    ReachableBooks(s, c, items);
  }

  /** With no permit out, nothing is in flight. */
  lemma ReachableBooks(s: System, q: System, items: set<WaitPool.Item>)
    requires Init(s, items) && Reachable(s, q)
    requires forall t, lane | t in q.calls :: !HasPermit(q.calls[t], lane)
    ensures InFlight(q) == 0
  {
    var steps :| ValidRun(s, steps) && After(s, steps) == q;
    InitIsInv(s, items);
    RunsKeepInv(s, steps, items);
    InFlightIsPermits(q, Read);
    InFlightIsPermits(q, Write);
    assert Permits(q, Read) == {} && Permits(q, Write) == {};
  }
}
