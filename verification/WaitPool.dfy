/**
 The reader pool: a vector of idle connections behind a mutex and a condition variable, as a state
 machine over the steps of any number of threads. A step is one critical section, one notification
 or one wake-up; `put` is two steps, because the lock is released before the notification.
 */
module WaitPool {
  import opened Wrappers

  type Tid = nat

  /** The identity of one pooled connection. */
  type Item = nat

  datatype Phase =
    | Outside    // not inside take or put
    | Entering   // has called take, does not own the lock yet
    | Asleep     // waits on the condition variable
    | Woken      // notified, timed out or woken spuriously; must take the lock again
    | Notifying  // has pushed its connection, has not notified yet

  datatype Pool = Pool(idle: seq<Item>, phase: map<Tid, Phase>, holder: map<Item, Tid>)

  datatype Step =
    | Begin(t: Tid)
    | TakeLocked(t: Tid)
    | PutLocked(t: Tid, item: Item)
    | NotifyOne(t: Tid, woken: Option<Tid>)
    | Wake(t: Tid)

  function In(p: Pool, ph: Phase): set<Tid> {
    set t | t in p.phase && p.phase[t] == ph
  }

  predicate Enabled(p: Pool, step: Step) {
    && step.t in p.phase
    && match step
       case Begin(t) => p.phase[t] == Outside
       case TakeLocked(t) => p.phase[t] == Entering || p.phase[t] == Woken
       case PutLocked(t, item) => p.phase[t] == Outside && item in p.holder && p.holder[item] == t
       case NotifyOne(t, woken) =>
         && p.phase[t] == Notifying
         && (if woken.Some? then woken.value in In(p, Asleep) else In(p, Asleep) == {})
       case Wake(t) => p.phase[t] == Asleep
  }

  /** The critical section of `take`: pop the last idle connection, or go to sleep. */
  function Taken(p: Pool, t: Tid): Pool {
    if p.idle == [] then p.(phase := p.phase[t := Asleep])
    else
      var n := |p.idle| - 1;
      Pool(p.idle[..n], p.phase[t := Outside], p.holder[p.idle[n] := t])
  }

  function Apply(p: Pool, step: Step): Pool
    requires Enabled(p, step)
  {
    match step
    case Begin(t) => p.(phase := p.phase[t := Entering])
    case TakeLocked(t) => Taken(p, t)
    case PutLocked(t, item) => Pool(p.idle + [item], p.phase[t := Notifying], p.holder - {item})
    case NotifyOne(t, woken) =>
      var phase := p.phase[t := Outside];
      p.(phase := if woken.Some? then phase[woken.value := Woken] else phase)
    case Wake(t) => p.(phase := p.phase[t := Woken])
  }

  // ---------------------------------------------------------------- invariants

  predicate NoDuplicates(items: seq<Item>) {
    forall i, j | 0 <= i < j < |items| :: items[i] != items[j]
  }

  function Elements(items: seq<Item>): set<Item> {
    set x | x in items
  }

  /** Every connection is either idle once or held by one thread. */
  predicate Conserved(p: Pool, items: set<Item>) {
    && NoDuplicates(p.idle)
    && Elements(p.idle) !! p.holder.Keys
    && Elements(p.idle) + p.holder.Keys == items
    && forall x | x in p.holder :: p.holder[x] in p.phase
  }

  /** While a thread sleeps, at least as many wake-ups are in flight as there are idle connections. */
  predicate NoLostWakeup(p: Pool) {
    In(p, Asleep) != {} ==> |p.idle| <= |In(p, Woken)| + |In(p, Notifying)|
  }

  predicate Inv(p: Pool, items: set<Item>) {
    Conserved(p, items) && NoLostWakeup(p)
  }

  /** The pool as built: all connections idle, no thread inside. */
  predicate Init(p: Pool, items: set<Item>) {
    && NoDuplicates(p.idle)
    && Elements(p.idle) == items
    && p.holder == map[]
    && forall t | t in p.phase :: p.phase[t] == Outside
  }

  lemma InitIsInv(p: Pool, items: set<Item>)
    requires Init(p, items)
    ensures Inv(p, items)
  {
    assert In(p, Asleep) == {};
  }

  /** Moving one thread from phase `a` to phase `b` changes two of the phase sets. */
  lemma MoveThread(p: Pool, q: Pool, t: Tid, a: Phase, b: Phase)
    requires t in p.phase && p.phase[t] == a && q.phase == p.phase[t := b] && a != b
    ensures In(q, a) == In(p, a) - {t} && In(q, b) == In(p, b) + {t}
    ensures |In(q, a)| == |In(p, a)| - 1 && |In(q, b)| == |In(p, b)| + 1
    ensures forall c | c != a && c != b :: In(q, c) == In(p, c)
  {
    assert In(q, a) == In(p, a) - {t};
    assert In(q, b) == In(p, b) + {t};
    forall c | c != a && c != b ensures In(q, c) == In(p, c) {}
  }

  lemma NotifyMoves(p: Pool, t: Tid, woken: Option<Tid>)
    requires Enabled(p, NotifyOne(t, woken))
    ensures var q := Apply(p, NotifyOne(t, woken));
            && |In(q, Notifying)| == |In(p, Notifying)| - 1
            && |In(q, Woken)| == |In(p, Woken)| + (if woken.Some? then 1 else 0)
            && In(q, Entering) == In(p, Entering)
            && (woken.None? ==> In(q, Asleep) == {})
  {
    var mid := p.(phase := p.phase[t := Outside]);
    MoveThread(p, mid, t, Notifying, Outside);
    if woken.Some? {
      assert woken.value in In(mid, Asleep);
      MoveThread(mid, Apply(p, NotifyOne(t, woken)), woken.value, Asleep, Woken);
    }
  }

  lemma TakeKeepsWakeups(p: Pool, t: Tid)
    requires Enabled(p, TakeLocked(t)) && NoLostWakeup(p)
    ensures NoLostWakeup(Taken(p, t))
  {
    var q := Taken(p, t);
    if p.idle == [] {
      assert q.idle == [];
    } else {
      MoveThread(p, q, t, p.phase[t], Outside);
    }
  }

  lemma StepKeepsWakeups(p: Pool, step: Step)
    requires Enabled(p, step) && NoLostWakeup(p)
    ensures NoLostWakeup(Apply(p, step))
  {
    var q := Apply(p, step);
    match step
    case Begin(t) => MoveThread(p, q, t, Outside, Entering);
    case TakeLocked(t) => TakeKeepsWakeups(p, t);
    case PutLocked(t, item) => MoveThread(p, q, t, Outside, Notifying);
    case NotifyOne(t, woken) => NotifyMoves(p, t, woken);
    case Wake(t) => MoveThread(p, q, t, Asleep, Woken);
  }

  lemma StepConserves(p: Pool, step: Step, items: set<Item>)
    requires Enabled(p, step) && Conserved(p, items)
    ensures Conserved(Apply(p, step), items)
  {
    var q := Apply(p, step);
    match step
    case TakeLocked(t) =>
      if p.idle != [] {
        var n := |p.idle| - 1;
        assert Elements(p.idle) == Elements(p.idle[..n]) + {p.idle[n]};
        assert p.idle[n] !in p.idle[..n];
      }
    case PutLocked(t, item) =>
      assert Elements(q.idle) == Elements(p.idle) + {item};
      assert item !in Elements(p.idle);
    case _ =>
  }

  lemma StepKeepsInv(p: Pool, step: Step, items: set<Item>)
    requires Enabled(p, step) && Inv(p, items)
    ensures Inv(Apply(p, step), items)
  {
    StepKeepsWakeups(p, step);
    StepConserves(p, step, items);
  }

  // ---------------------------------------------------------------- runs

  predicate ValidRun(p: Pool, steps: seq<Step>)
    decreases |steps|
  {
    steps == [] || (Enabled(p, steps[0]) && ValidRun(Apply(p, steps[0]), steps[1..]))
  }

  function After(p: Pool, steps: seq<Step>): Pool
    requires ValidRun(p, steps)
    decreases |steps|
  {
    if steps == [] then p else After(Apply(p, steps[0]), steps[1..])
  }

  /**
   Over every interleaving: nothing is lost or duplicated, and a thread that sleeps beside an idle
   connection is covered by a wake-up in flight.
   */
  lemma {:induction false} RunsKeepInv(p: Pool, steps: seq<Step>, items: set<Item>)
    requires Inv(p, items) && ValidRun(p, steps)
    ensures Inv(After(p, steps), items)
    ensures var q := After(p, steps);
            && (forall i, j | 0 <= i < j < |q.idle| :: q.idle[i] != q.idle[j])
            && (forall x :: x in items <==> x in q.idle || x in q.holder)
            && (forall x | x in q.holder :: x !in q.idle && q.holder[x] in q.phase)
    ensures In(After(p, steps), Asleep) != {} && After(p, steps).idle != [] ==>
            In(After(p, steps), Woken) + In(After(p, steps), Notifying) != {}
    decreases |steps|
  {
    if steps != [] {
      StepKeepsInv(p, steps[0], items);
      RunsKeepInv(Apply(p, steps[0]), steps[1..], items);
    } else {
      assert forall x :: x in p.idle <==> x in Elements(p.idle);
    }
  }

  /**
   A wait may end without a notification. Its thread then looks again under the lock: it takes the last idle connection
   if there is one, and sleeps on otherwise.
   */
  lemma TimedOutLooksAgain(p: Pool, t: Tid)
    requires t in p.phase && p.phase[t] == Asleep
    ensures ValidRun(p, [Wake(t), TakeLocked(t)])
    ensures var q := After(p, [Wake(t), TakeLocked(t)]);
            if p.idle == [] then q == p
            else
              && p.idle == q.idle + [p.idle[|p.idle| - 1]]
              && q.holder == p.holder[p.idle[|p.idle| - 1] := t]
              && q.phase == p.phase[t := Outside]
  {
    var steps := [Wake(t), TakeLocked(t)];
    var woken := Apply(p, Wake(t));
    assert steps[1..] == [TakeLocked(t)] && steps[1..][1..] == [];
    assert ValidRun(Apply(woken, TakeLocked(t)), []);
    assert ValidRun(woken, steps[1..]) && After(p, steps) == After(woken, steps[1..]) == Taken(woken, t);
    assert p.phase[t := Woken][t := Asleep] == p.phase && p.phase[t := Woken][t := Outside] == p.phase[t := Outside];
  }

  // ---------------------------------------------------------------- progress

  /** The steps the pool owes without outside help: finishing a take and notifying. */
  predicate Internal(step: Step) {
    step.TakeLocked? || step.NotifyOne?
  }

  function Work(p: Pool): nat {
    2 * |In(p, Notifying)| + |In(p, Woken)| + |In(p, Entering)|
  }

  lemma InternalStepWorks(p: Pool, step: Step)
    requires Enabled(p, step) && Internal(step)
    ensures Work(Apply(p, step)) == Work(p) - 1 || (step.NotifyOne? && Work(Apply(p, step)) == Work(p) - 2)
  {
    match step
    case TakeLocked(t) => MoveThread(p, Apply(p, step), t, p.phase[t], if p.idle == [] then Asleep else Outside);
    case NotifyOne(t, woken) => NotifyMoves(p, t, woken);
  }

  predicate Quiescent(p: Pool) {
    In(p, Entering) == {} && In(p, Woken) == {} && In(p, Notifying) == {}
  }

  /** A pool that is not quiescent can take an internal step. */
  lemma InternalStepExists(p: Pool) returns (step: Step)
    requires !Quiescent(p)
    ensures Enabled(p, step) && Internal(step)
  {
    if In(p, Notifying) != {} {
      var t :| t in In(p, Notifying);
      if In(p, Asleep) != {} {
        var w :| w in In(p, Asleep);
        step := NotifyOne(t, Some(w));
      } else {
        step := NotifyOne(t, None);
      }
    } else {
      var t :| t in In(p, Entering) + In(p, Woken);
      assert t in In(p, Entering) || t in In(p, Woken);
      step := TakeLocked(t);
    }
  }

  /**
   Left to itself the pool settles in at most `Work(p)` steps, whatever the scheduler picks, and it
   settles with no thread asleep beside an idle connection.
   */
  lemma {:induction false} PoolSettles(p: Pool, steps: seq<Step>, items: set<Item>)
    requires Inv(p, items) && ValidRun(p, steps)
    requires forall i | 0 <= i < |steps| :: steps[i].TakeLocked? || steps[i].NotifyOne?
    ensures |steps| <= Work(p)
    ensures Quiescent(After(p, steps)) ==> In(After(p, steps), Asleep) == {} || After(p, steps).idle == []
    decreases |steps|
  {
    if steps != [] {
      assert Internal(steps[0]);
      InternalStepWorks(p, steps[0]);
      StepKeepsInv(p, steps[0], items);
      PoolSettles(Apply(p, steps[0]), steps[1..], items);
    }
  }

  /**
   Nobody is stuck for good: while a thread sleeps, some thread that is not asleep either holds a
   connection or has an internal step to take, provided no sleeping thread holds a connection.
   */
  lemma SleeperIsNotStuck(p: Pool, items: set<Item>)
    requires Inv(p, items) && items != {}
    requires forall x | x in p.holder :: p.phase[p.holder[x]] != Asleep
    requires In(p, Asleep) != {}
    ensures exists t ::
              && t in p.phase && p.phase[t] != Asleep
              && (p.phase[t] != Outside || exists x :: x in p.holder && p.holder[x] == t)
  {
    if p.idle == [] {
      assert Elements(p.idle) == {};
      var x :| x in items;
      assert p.holder[x] in p.phase;
    } else {
      var t :| t in In(p, Woken) + In(p, Notifying);
    }
  }

  // ---------------------------------------------------------------- the mutable pool

  /** The pool as the program holds it: fields updated in place, one method per atomic step. */
  class ReaderPool {
    var idle: seq<Item>
    var phase: map<Tid, Phase>
    var holder: map<Item, Tid>

    function View(): Pool
      reads this
    {
      Pool(idle, phase, holder)
    }

    constructor (items: seq<Item>, threads: set<Tid>)
      requires forall i, j | 0 <= i < j < |items| :: items[i] != items[j]
      ensures Init(View(), Elements(items)) && phase.Keys == threads && idle == items
    {
      idle := items;
      phase := map t | t in threads :: Outside;
      holder := map[];
    }

    method BeginTake(t: Tid)
      requires t in phase && phase[t] == Outside
      modifies this
      ensures View() == Apply(old(View()), Begin(t))
      ensures phase == old(phase)[t := Entering] && idle == old(idle) && holder == old(holder)
    {
      phase := phase[t := Entering];
    }

    /** Under the lock: pop from the end, or sleep. */
    method TakeUnderLock(t: Tid) returns (item: Option<Item>)
      requires t in phase && (phase[t] == Entering || phase[t] == Woken)
      modifies this
      ensures View() == Apply(old(View()), Step.TakeLocked(t))
      ensures item.Some? <==> old(idle) != []
      ensures item.Some? ==> old(idle) == idle + [item.value] && holder == old(holder)[item.value := t]
      ensures item.None? ==> idle == [] && holder == old(holder)
      ensures phase == old(phase)[t := if item.Some? then Outside else Asleep]
    {
      if |idle| > 0 {
        var n := |idle| - 1;
        item := Some(idle[n]);
        holder := holder[idle[n] := t];
        idle := idle[..n];
        phase := phase[t := Outside];
      } else {
        item := None;
        phase := phase[t := Asleep];
      }
    }

    method Push(t: Tid, item: Item)
      requires t in phase && phase[t] == Outside && item in holder && holder[item] == t
      modifies this
      ensures View() == Apply(old(View()), PutLocked(t, item))
      ensures idle == old(idle) + [item] && holder == old(holder) - {item}
      ensures phase == old(phase)[t := Notifying]
    {
      idle := idle + [item];
      holder := holder - {item};
      phase := phase[t := Notifying];
    }

    /** Wakes one sleeper, any of them, if there is one. */
    method Notify(t: Tid) returns (woken: Option<Tid>)
      requires t in phase && phase[t] == Notifying
      modifies this
      ensures old(Enabled(View(), NotifyOne(t, woken)))
      ensures View() == Apply(old(View()), NotifyOne(t, woken))
      ensures woken.Some? ==> woken.value in old(phase) && old(phase)[woken.value] == Asleep
      ensures woken.None? ==> forall u | u in old(phase) :: old(phase)[u] != Asleep
      ensures phase == if woken.Some? then old(phase)[t := Outside][woken.value := Woken] else old(phase)[t := Outside]
      ensures idle == old(idle) && holder == old(holder)
    {
      var sleepers := In(View(), Asleep);
      assert forall u | u in phase && phase[u] == Asleep :: u in sleepers;
      if sleepers != {} {
        var w :| w in sleepers;
        woken := Some(w);
        phase := phase[t := Outside][w := Woken];
      } else {
        woken := None;
        phase := phase[t := Outside];
      }
    }

    /** A timeout of the wait, or a spurious wake-up. */
    method WakeUp(t: Tid)
      requires t in phase && phase[t] == Asleep
      modifies this
      ensures View() == Apply(old(View()), Step.Wake(t))
      ensures phase == old(phase)[t := Woken] && idle == old(idle) && holder == old(holder)
    {
      phase := phase[t := Woken];
    }
  }
}
