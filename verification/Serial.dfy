/**
 Closures running concurrently behind the two lanes, over shared tables. Statements of different
 threads interleave freely, within the permits, the reader pool and the writer mutex.
 */
module Serial {
  import opened Wrappers
  import opened Schema
  import opened Store
  import opened Closures
  import opened Integrity
  import DryRun
  import WaitPool
  import Lanes

  type Tid = Lanes.Tid

  /** What a call asks for. */
  datatype Job<R> = Job(closure: Closure<R>, dry: bool)

  /** A started closure: the tables it started on, its answers, and a dry run's private tables. */
  datatype Progress<R> = Progress(
    closure: Closure<R>,
    dry: bool,
    start: Tables,
    working: Tables,
    history: seq<Response>)

  datatype State<R> = State(
    lanes: Lanes.System,
    tables: Tables,
    jobs: map<Tid, Job<R>>,
    progress: map<Tid, Progress<R>>)

  datatype Step = Admit(step: Lanes.Step) | Statement(t: Tid)

  // ---------------------------------------------------------------- steps

  /** The tables the closure's next statement works on. */
  function Current<R>(s: State<R>, t: Tid): Tables
    requires t in s.progress
  {
    if s.progress[t].dry then s.progress[t].working else s.tables
  }

  predicate Ended<R>(s: State<R>, t: Tid) {
    t in s.progress && !s.progress[t].closure.next(s.progress[t].history).Call?
  }

  /**
   A live read holds a pooled connection and a live write the writer; a dry run holds the writer for
   every call. Closures in the read lane only read and are never dry.
   */
  predicate MayCall<R>(s: State<R>, t: Tid, request: Request)
    requires t in s.lanes.calls && t in s.progress
  {
    && (s.lanes.calls[t].lane.Read? ==> !request.Write? && !s.progress[t].dry)
    && (if s.progress[t].dry || request.Write? then s.lanes.calls[t].writer == Lanes.OwnsWriter
        else Lanes.Holds(s.lanes, t))
  }

  predicate Enabled<R>(s: State<R>, step: Step) {
    match step
    case Admit(l) =>
      && Lanes.Enabled(s.lanes, l)
      && (l.Start? ==> l.t in s.jobs && (s.lanes.calls[l.t].lane.Read? ==> !s.jobs[l.t].dry))
      && (l.Finish? ==> Ended(s, l.t))
      && (l.UnlockWriter? && l.t in s.progress && s.progress[l.t].dry ==> Ended(s, l.t))
    case Statement(t) =>
      && Lanes.PhaseIs(s.lanes, t, Lanes.Running)
      && t in s.progress
      && s.progress[t].closure.next(s.progress[t].history).Call?
      && MayCall(s, t, s.progress[t].closure.next(s.progress[t].history).request)
  }

  function Started<R>(s: State<R>, t: Tid): Progress<R>
    requires t in s.jobs
  {
    Progress(s.jobs[t].closure, s.jobs[t].dry, s.tables, s.tables, [])
  }

  function AfterStatement<R>(s: State<R>, t: Tid): State<R>
    requires Enabled(s, Statement(t))
  {
    var p := s.progress[t];
    var (q, response) := Perform(Current(s, t), p.closure.next(p.history).request);
    var p' := p.(history := p.history + [response], working := if p.dry then q else p.working);
    s.(tables := if p.dry then s.tables else q, progress := s.progress[t := p'])
  }

  function Apply<R>(s: State<R>, step: Step): State<R>
    requires Enabled(s, step)
  {
    match step
    case Statement(t) => AfterStatement(s, t)
    case Admit(l) =>
      var s' := s.(lanes := Lanes.Apply(s.lanes, l));
      if l.Start? then s'.(progress := s.progress[l.t := Started(s, l.t)]) else s'
  }

  // ---------------------------------------------------------------- the invariant

  /** Finishing from here is finishing a run that had the tables to itself from the start. */
  ghost predicate Tracks<R>(p: Progress<R>, current: Tables) {
    forall n: nat {:trigger Run(p.closure, current, p.history, n)} ::
      Run(p.closure, p.start, [], |p.history| + n) == Run(p.closure, current, p.history, n)
  }

  ghost predicate JobOk<R>(s: State<R>, t: Tid) {
    && t in s.progress
    && Tracks(s.progress[t], Current(s, t))
    && (s.progress[t].dry ==> s.tables == s.progress[t].start)
  }

  ghost predicate Inv<R>(s: State<R>, items: set<WaitPool.Item>) {
    && Lanes.Inv(s.lanes, items)
    && forall t | t in Lanes.RunningIn(s.lanes, Lanes.Write) :: JobOk(s, t)
  }

  lemma StartTracks<R>(p: Progress<R>)
    requires p.history == []
    ensures Tracks(p, p.start)
  {}

  lemma StatementTracks<R>(p: Progress<R>, current: Tables, request: Request)
    requires Tracks(p, current) && p.closure.next(p.history) == Call(request)
    ensures var (q, response) := Perform(current, request);
            Tracks(p.(history := p.history + [response]), q)
  {
    var (q, response) := Perform(current, request);
    var h := p.history + [response];
    forall n: nat
      ensures Run(p.closure, p.start, [], |h| + n) == Run(p.closure, q, h, n)
    {
      assert Run(p.closure, current, p.history, n + 1) == Run(p.closure, q, h, n);
      assert |h| + n == |p.history| + (n + 1);
    }
  }

  lemma TracksWorkingIrrelevant<R>(p: Progress<R>, working: Tables, current: Tables)
    requires Tracks(p, current)
    ensures Tracks(p.(working := working), current)
  {
    var q := p.(working := working);
    forall n: nat ensures Run(q.closure, q.start, [], |q.history| + n) == Run(q.closure, current, q.history, n) {
      assert Run(p.closure, current, p.history, n) == Run(p.closure, p.start, [], |p.history| + n);
    }
  }

  lemma AdmitKeepsJob<R>(s: State<R>, l: Lanes.Step, t: Tid)
    requires Enabled(s, Admit(l)) && l != Lanes.Start(t) && JobOk(s, t)
    ensures JobOk(Apply(s, Admit(l)), t)
  {
    var q := Apply(s, Admit(l));
    assert q.progress[t] == s.progress[t] && Current(q, t) == Current(s, t);
  }

  lemma StartMakesJob<R>(s: State<R>, t: Tid)
    requires Enabled(s, Admit(Lanes.Start(t)))
    ensures JobOk(Apply(s, Admit(Lanes.Start(t))), t)
  {
    var q := Apply(s, Admit(Lanes.Start(t)));
    StartTracks(q.progress[t]);
    assert Current(q, t) == q.progress[t].start;
  }

  lemma AdmitKeepsInv<R>(s: State<R>, l: Lanes.Step, items: set<WaitPool.Item>)
    requires Inv(s, items) && Enabled(s, Admit(l))
    ensures Inv(Apply(s, Admit(l)), items)
  {
    var q := Apply(s, Admit(l));
    Lanes.StepKeepsInv(s.lanes, l, items);
    forall t | t in Lanes.RunningIn(q.lanes, Lanes.Write) ensures JobOk(q, t) {
      Lanes.RunningComesFromStart(s.lanes, l, Lanes.Write, t);
      if l == Lanes.Start(t) {
        StartMakesJob(s, t);
      } else {
        AdmitKeepsJob(s, l, t);
      }
    }
  }

  lemma OwnStatementKeepsJob<R>(s: State<R>, t: Tid)
    requires Enabled(s, Statement(t)) && JobOk(s, t)
    ensures JobOk(Apply(s, Statement(t)), t)
  {
    var p := s.progress[t];
    var request := p.closure.next(p.history).request;
    StatementTracks(p, Current(s, t), request);
    var (q, response) := Perform(Current(s, t), request);
    TracksWorkingIrrelevant(p.(history := p.history + [response]), if p.dry then q else p.working, q);
  }

  /** A read never changes the tables it looks at. */
  lemma ReadsDoNotWrite(t: Tables, request: Request)
    requires !request.Write?
    ensures Perform(t, request).0 == t
  {}

  /** Another thread's statement leaves a running write closure and its tables alone. */
  lemma OtherStatementKeepsJob<R>(s: State<R>, u: Tid, t: Tid, items: set<WaitPool.Item>)
    requires Inv(s, items) && Enabled(s, Statement(u)) && u != t
    requires t in Lanes.RunningIn(s.lanes, Lanes.Write)
    ensures JobOk(Apply(s, Statement(u)), t)
  {
    assert JobOk(s, t);
    if s.lanes.calls[u].lane.Write? {
      Lanes.OneWriter(s.lanes, items, t, u);
    } else {
      ReadsDoNotWrite(s.tables, s.progress[u].closure.next(s.progress[u].history).request);
      assert Current(Apply(s, Statement(u)), t) == Current(s, t);
    }
  }

  lemma StepKeepsInv<R>(s: State<R>, step: Step, items: set<WaitPool.Item>)
    requires Inv(s, items) && Enabled(s, step)
    ensures Inv(Apply(s, step), items)
  {
    match step
    case Admit(l) => AdmitKeepsInv(s, l, items);
    case Statement(u) =>
      forall t | t in Lanes.RunningIn(s.lanes, Lanes.Write) ensures JobOk(Apply(s, step), t) {
        if t == u {
          assert JobOk(s, t);
          OwnStatementKeepsJob(s, t);
        } else {
          OtherStatementKeepsJob(s, u, t, items);
        }
      }
  }

  // ---------------------------------------------------------------- runs

  predicate ValidRun<R>(s: State<R>, steps: seq<Step>)
    decreases |steps|
  {
    steps == [] || (Enabled(s, steps[0]) && ValidRun(Apply(s, steps[0]), steps[1..]))
  }

  function After<R>(s: State<R>, steps: seq<Step>): State<R>
    requires ValidRun(s, steps)
    decreases |steps|
  {
    if steps == [] then s else After(Apply(s, steps[0]), steps[1..])
  }

  lemma {:induction false} RunsKeepInv<R>(s: State<R>, steps: seq<Step>, items: set<WaitPool.Item>)
    requires Inv(s, items) && ValidRun(s, steps)
    ensures Inv(After(s, steps), items)
    decreases |steps|
  {
    if steps != [] {
      StepKeepsInv(s, steps[0], items);
      RunsKeepInv(Apply(s, steps[0]), steps[1..], items);
    }
  }

  predicate Init<R>(s: State<R>, items: set<WaitPool.Item>) {
    Lanes.Init(s.lanes, items) && s.progress == map[]
  }

  /** A freshly opened storage is such a state, over any tables and with any jobs to come. */
  lemma OpeningIsInit<R>(lanes: Lanes.System, items: set<WaitPool.Item>, tables: Tables, jobs: map<Tid, Job<R>>)
    requires Lanes.Init(lanes, items)
    ensures Init(State(lanes, tables, jobs, map[]), items)
  {}

  lemma InitIsInv<R>(s: State<R>, items: set<WaitPool.Item>)
    requires Init(s, items)
    ensures Inv(s, items)
  {
    Lanes.InitIsInv(s.lanes, items);
  }

  // ---------------------------------------------------------------- connections

  /** A dry run only in the write lane, and the writer kept from its first call to its last. */
  predicate JobKeepsWriter<R>(s: State<R>, t: Tid)
    requires t in s.progress
  {
    && t in s.lanes.calls
    && (s.lanes.calls[t].lane == Lanes.Read ==> !s.progress[t].dry)
    && (s.progress[t].dry && s.progress[t].history != [] && s.lanes.calls[t].phase == Lanes.Running
        && s.progress[t].closure.next(s.progress[t].history).Call? ==>
          s.lanes.calls[t].writer == Lanes.OwnsWriter)
  }

  lemma AdmitKeepsWriter<R>(s: State<R>, l: Lanes.Step, t: Tid)
    requires Enabled(s, Admit(l)) && t in s.progress && JobKeepsWriter(s, t) && l != Lanes.Start(t)
    ensures JobKeepsWriter(Apply(s, Admit(l)), t)
  {
    if Lanes.Actor(l) == Some(t) {
      Lanes.CallStepCalls(s.lanes, l);
      Lanes.ActorAfter(s.lanes, l);
      Lanes.LaneStays(s.lanes, l, t);
    } else {
      Lanes.UntouchedCall(s.lanes, l, t);
    }
  }

  lemma StepKeepsWriter<R>(s: State<R>, step: Step, t: Tid)
    requires Enabled(s, step) && (t in s.progress ==> JobKeepsWriter(s, t)) && t in Apply(s, step).progress
    ensures JobKeepsWriter(Apply(s, step), t)
  {
    match step
    case Statement(u) =>
    case Admit(l) =>
      if l != Lanes.Start(t) {
        AdmitKeepsWriter(s, l, t);
      }
  }

  lemma {:induction false} RunsKeepWriter<R>(s: State<R>, steps: seq<Step>, t: Tid)
    requires ValidRun(s, steps) && (t in s.progress ==> JobKeepsWriter(s, t))
    ensures t in After(s, steps).progress ==> JobKeepsWriter(After(s, steps), t)
    decreases |steps|
  {
    if steps != [] {
      var q := Apply(s, steps[0]);
      if t in q.progress {
        StepKeepsWriter(s, steps[0], t);
      }
      RunsKeepWriter(q, steps[1..], t);
    }
  }

  /**
   A dry run keeps the writer: in every reachable state, one that has made a call and has another to make owns it, no
   other thread does, and it is not in the read lane.
   */
  lemma DryRunsKeepTheWriter<R>(s: State<R>, steps: seq<Step>, items: set<WaitPool.Item>, t: Tid)
    requires Init(s, items) && ValidRun(s, steps)
    requires t in After(s, steps).progress && After(s, steps).progress[t].dry
    ensures var q := After(s, steps);
            t in q.lanes.calls && q.lanes.calls[t].lane == Lanes.Write
    ensures var q := After(s, steps);
            q.progress[t].history != [] && q.lanes.calls[t].phase == Lanes.Running
            && q.progress[t].closure.next(q.progress[t].history).Call? ==>
              && q.lanes.calls[t].writer == Lanes.OwnsWriter
              && forall u | u in q.lanes.calls && u != t :: q.lanes.calls[u].writer != Lanes.OwnsWriter
  {
    InitIsInv(s, items);
    RunsKeepInv(s, steps, items);
    RunsKeepWriter(s, steps, t);
  }

  /**
   Every statement runs on a connection of its own: a live read on one checked out of the pool, any other statement on
   the writer, which no other thread owns then; and the read lane only reads.
   */
  lemma StatementsOwnTheirConnection<R>(s: State<R>, steps: seq<Step>, items: set<WaitPool.Item>, t: Tid)
    requires Init(s, items) && ValidRun(s, steps) && Enabled(After(s, steps), Statement(t))
    ensures var q := After(s, steps);
            var request := q.progress[t].closure.next(q.progress[t].history).request;
            && q.lanes.calls[t].phase == Lanes.Running
            && (q.progress[t].dry || request.Write? ==>
                  && q.lanes.calls[t].lane == Lanes.Write
                  && q.lanes.calls[t].writer == Lanes.OwnsWriter
                  && forall u | u in q.lanes.calls && u != t :: q.lanes.calls[u].writer != Lanes.OwnsWriter)
            && (!q.progress[t].dry && !request.Write? ==>
                  exists x :: x in q.lanes.pool.holder && q.lanes.pool.holder[x] == t)
  {
    InitIsInv(s, items);
    RunsKeepInv(s, steps, items);
  }

  /**
   Write closures are atomic. Whatever else runs beside it, when a closure of the write lane is about to
   return, its result is the one it has alone on the tables it started from; a live closure leaves exactly
   the tables that run leaves, and a dry run leaves the tables it found.
   */
  lemma WriteClosuresAreAtomic<R>(s: State<R>, steps: seq<Step>, items: set<WaitPool.Item>, t: Tid, r: R)
    requires Init(s, items) && ValidRun(s, steps)
    requires t in Lanes.RunningIn(After(s, steps).lanes, Lanes.Write) && t in After(s, steps).progress
    requires var p := After(s, steps).progress[t]; p.closure.next(p.history) == Return(r)
    ensures var q := After(s, steps);
            var p := q.progress[t];
            var alone := Run(p.closure, p.start, [], |p.history|);
            && alone.1 == Returned(r)
            && q.tables == if p.dry then p.start else alone.0
  {
    InitIsInv(s, items);
    RunsKeepInv(s, steps, items);
    var q := After(s, steps);
    assert JobOk(q, t);
    var p := q.progress[t];
    assert Run(p.closure, Current(q, t), p.history, 0) == (Current(q, t), Returned(r));
  }

  /**
   Check-then-insert, concurrently: `register_issuer` reports a duplicate CNPJ or LEI exactly when such a
   row existed when its closure started, and its insert never meets a UNIQUE constraint on them.
   */
  lemma RegistrationIsAtomic(s: State<GuardedResult>, steps: seq<Step>, items: set<WaitPool.Item>, t: Tid,
                             id: Id, d: IssuerData, r: GuardedResult)
    requires Init(s, items) && ValidRun(s, steps)
    requires t in Lanes.RunningIn(After(s, steps).lanes, Lanes.Write) && t in After(s, steps).progress
    requires var p := After(s, steps).progress[t];
             p.closure == RegisterIssuer(id, d) && p.closure.next(p.history) == Return(r)
    ensures var q := After(s, steps);
            var start := q.progress[t].start;
            var cnpjStored := d.cnpj.Some? && exists o :: o in start.issuers && start.issuers[o].cnpj == d.cnpj;
            var leiStored := d.lei.Some? && exists o :: o in start.issuers && start.issuers[o].lei == d.lei;
            && (r == DuplicateCnpj <==> cnpjStored)
            && (r == DuplicateLei <==> !cnpjStored && leiStored)
            && r != Replied(Faulted(Violated(UniqueCnpj)))
            && r != Replied(Faulted(Violated(UniqueLei)))
            && (!q.progress[t].dry ==> q.tables == GuardedWrite(start, d.cnpj, d.lei, InsertIssuer(id, d)).0)
  {
    WriteClosuresAreAtomic(s, steps, items, t, r);
    var p := After(s, steps).progress[t];
    var fuel := |p.history| + 3;
    EnoughFuel(p.closure, p.start, [], |p.history|, fuel);
    GuardedRuns(p.start, d.cnpj, d.lei, InsertIssuer(id, d), fuel);
    RegistrationMeans(p.start, id, d);
  }

  /** The patch service, concurrently: what it reports and writes is read off the tables its closure started on. */
  lemma PatchIsAtomic(s: State<GuardedResult>, steps: seq<Step>, items: set<WaitPool.Item>, t: Tid,
                      id: Id, expected: u32, p: IssuerPatch, r: GuardedResult)
    requires Init(s, items) && ValidRun(s, steps)
    requires t in Lanes.RunningIn(After(s, steps).lanes, Lanes.Write) && t in After(s, steps).progress
    requires var progress := After(s, steps).progress[t];
             progress.closure == PatchIssuerService(id, expected, p)
             && progress.closure.next(progress.history) == Return(r)
    ensures var q := After(s, steps);
            var start := q.progress[t].start;
            var cnpjStored := p.cnpj.Some? && exists o :: o in start.issuers && start.issuers[o].cnpj == p.cnpj;
            var leiStored := p.lei.Some? && exists o :: o in start.issuers && start.issuers[o].lei == p.lei;
            && (r == DuplicateCnpj <==> cnpjStored)
            && (r == DuplicateLei <==> !cnpjStored && leiStored)
            && (r == Replied(Faulted(Violated(UniqueCnpj))) ==> p.cnpj.None?)
            && (r == Replied(Faulted(Violated(UniqueLei))) ==> p.lei.None?)
            && (!q.progress[t].dry ==>
                  q.tables == GuardedWrite(start, p.cnpj, p.lei, Op.PatchIssuer(id, expected, p)).0)
  {
    WriteClosuresAreAtomic(s, steps, items, t, r);
    var progress := After(s, steps).progress[t];
    var fuel := |progress.history| + 3;
    EnoughFuel(progress.closure, progress.start, [], |progress.history|, fuel);
    GuardedRuns(progress.start, p.cnpj, p.lei, Op.PatchIssuer(id, expected, p), fuel);
    PatchServiceMeans(progress.start, id, expected, p);
  }

  /** `register_security`, concurrently: each refusal is exact on the tables the closure started on. */
  lemma SecurityRegistrationIsAtomic(s: State<RegisterSecurityResult>, steps: seq<Step>, items: set<WaitPool.Item>,
                                     t: Tid, id: Id, d: SecurityData, r: RegisterSecurityResult)
    requires Init(s, items) && ValidRun(s, steps)
    requires t in Lanes.RunningIn(After(s, steps).lanes, Lanes.Write) && t in After(s, steps).progress
    requires var p := After(s, steps).progress[t];
             p.closure == RegisterSecurity(id, d) && p.closure.next(p.history) == Return(r)
    ensures var q := After(s, steps);
            var start := q.progress[t].start;
            var isinStored := d.isin.Some? && exists o :: o in start.securities && start.securities[o].isin == d.isin;
            var underlyingStored := d.underlying.Some? ==> d.underlying.value in start.securities;
            && (r == UnknownIssuer <==> d.issuer !in start.issuers)
            && (r == DuplicateIsin <==> d.issuer in start.issuers && isinStored)
            && (r == UnknownUnderlyingSecurity <==> d.issuer in start.issuers && !isinStored && !underlyingStored)
            && r != SecurityStorage(Violated(ForeignKey))
            && r != SecurityStorage(Violated(UniqueIsin))
            && (!q.progress[t].dry ==> q.tables == SecurityRegisteredIn(start, id, d).0)
  {
    WriteClosuresAreAtomic(s, steps, items, t, r);
    var p := After(s, steps).progress[t];
    var fuel := |p.history| + 4;
    EnoughFuel(p.closure, p.start, [], |p.history|, fuel);
    RegisterSecurityRuns(p.start, id, d, fuel);
    SecurityRegisteredMeans(p.start, id, d);
  }

  // ---------------------------------------------------------------- the whole run is serial

  predicate WriteRunning<R>(s: State<R>, t: Tid) {
    t in Lanes.RunningIn(s.lanes, Lanes.Write)
  }

  /** The step ends a closure of the write lane. */
  predicate EndsWrite<R>(s: State<R>, step: Step) {
    step.Admit? && step.step.Finish? && WriteRunning(s, step.step.t) && step.step.t in s.progress
  }

  function Ending<R>(s: State<R>, step: Step): DryRun.Job<R>
    requires EndsWrite(s, step)
  {
    var p := s.progress[step.step.t];
    DryRun.Job(p.dry, p.closure, |p.history|)
  }

  /** The write-lane closures that ended, in the order in which they ended. */
  function WritesEnded<R>(s: State<R>, steps: seq<Step>): seq<DryRun.Job<R>>
    requires ValidRun(s, steps)
    decreases |steps|
  {
    if steps == [] then []
    else
      (if EndsWrite(s, steps[0]) then [Ending(s, steps[0])] else []) + WritesEnded(Apply(s, steps[0]), steps[1..])
  }

  /** `base` is what the closures that have ended left behind: the tables now, or those the running one started on. */
  predicate Based<R>(s: State<R>, base: Tables) {
    if Lanes.RunningIn(s.lanes, Lanes.Write) == {} then s.tables == base
    else forall t | t in Lanes.RunningIn(s.lanes, Lanes.Write) :: t in s.progress && s.progress[t].start == base
  }

  function NextBase<R>(s: State<R>, step: Step, base: Tables): Tables {
    DryRun.LiveOnly(base, if EndsWrite(s, step) then [Ending(s, step)] else [])
  }

  lemma StatementKeepsBase<R>(s: State<R>, u: Tid, base: Tables)
    requires Enabled(s, Statement(u)) && Based(s, base)
    ensures Based(Apply(s, Statement(u)), base)
  {
    var q := Apply(s, Statement(u));
    assert q.lanes == s.lanes;
    if Lanes.RunningIn(s.lanes, Lanes.Write) == {} {
      assert !WriteRunning(s, u);
      ReadsDoNotWrite(s.tables, s.progress[u].closure.next(s.progress[u].history).request);
    } else {
      forall t | WriteRunning(q, t) ensures t in q.progress && q.progress[t].start == base {
        assert WriteRunning(s, t);
      }
    }
  }

  lemma WriteStartKeepsBase<R>(s: State<R>, u: Tid, items: set<WaitPool.Item>, base: Tables)
    requires Enabled(s, Admit(Lanes.Start(u))) && Lanes.Inv(s.lanes, items) && Based(s, base)
    requires s.lanes.calls[u].lane.Write?
    ensures Based(Apply(s, Admit(Lanes.Start(u))), base)
  {
    Lanes.WriteStartsAlone(s.lanes, items, u);
    assert Apply(s, Admit(Lanes.Start(u))).progress[u].start == base;
  }

  lemma ReadStartKeepsBase<R>(s: State<R>, u: Tid, base: Tables)
    requires Enabled(s, Admit(Lanes.Start(u))) && Based(s, base)
    requires s.lanes.calls[u].lane.Read?
    ensures Based(Apply(s, Admit(Lanes.Start(u))), base)
  {
    var q := Apply(s, Admit(Lanes.Start(u)));
    assert Lanes.RunningIn(q.lanes, Lanes.Write) == Lanes.RunningIn(s.lanes, Lanes.Write);
  }

  lemma StartKeepsBase<R>(s: State<R>, u: Tid, items: set<WaitPool.Item>, base: Tables)
    requires Enabled(s, Admit(Lanes.Start(u))) && Lanes.Inv(s.lanes, items) && Based(s, base)
    ensures Based(Apply(s, Admit(Lanes.Start(u))), base)
  {
    if s.lanes.calls[u].lane.Write? {
      WriteStartKeepsBase(s, u, items, base);
    } else {
      ReadStartKeepsBase(s, u, base);
    }
  }

  /** When a write closure ends, its whole run was a run alone on the tables it started from. */
  lemma EndedAlone<R>(s: State<R>, u: Tid)
    requires JobOk(s, u) && Ended(s, u)
    ensures var p := s.progress[u];
            Run(p.closure, p.start, [], |p.history|).0 == Current(s, u)
  {
    var p := s.progress[u];
    assert Run(p.closure, p.start, [], |p.history| + 0) == Run(p.closure, Current(s, u), p.history, 0);
  }

  lemma FinishMovesBase<R>(s: State<R>, u: Tid, items: set<WaitPool.Item>, base: Tables)
    requires Enabled(s, Admit(Lanes.Finish(u))) && Lanes.Inv(s.lanes, items) && Based(s, base)
    requires WriteRunning(s, u) && JobOk(s, u)
    ensures Based(Apply(s, Admit(Lanes.Finish(u))), NextBase(s, Admit(Lanes.Finish(u)), base))
  {
    var p := s.progress[u];
    Lanes.WriteEndsAlone(s.lanes, items, u);
    EndedAlone(s, u);
    OneJob(base, Ending(s, Admit(Lanes.Finish(u))));
    assert p.start == base;
  }

  lemma OneJob<R>(base: Tables, job: DryRun.Job<R>)
    ensures DryRun.LiveOnly(base, [job]) == if job.dry then base else Run(job.closure, base, [], job.fuel).0
  {
    assert [job][1..] == [];
  }

  lemma LiveOnlyFront<R>(base: Tables, front: seq<DryRun.Job<R>>, rest: seq<DryRun.Job<R>>)
    requires |front| <= 1
    ensures DryRun.LiveOnly(base, front + rest) == DryRun.LiveOnly(DryRun.LiveOnly(base, front), rest)
  {
    if front == [] {
      assert front + rest == rest;
    } else {
      assert (front + rest)[1..] == rest;
      OneJob(base, front[0]);
      assert front == [front[0]];
    }
  }

  lemma OtherKeepsRunning(s: Lanes.System, l: Lanes.Step)
    requires Lanes.Enabled(s, l) && !l.Start?
    requires !(l.Finish? && l.t in Lanes.RunningIn(s, Lanes.Write))
    ensures Lanes.RunningIn(Lanes.Apply(s, l), Lanes.Write) == Lanes.RunningIn(s, Lanes.Write)
  {}

  lemma OtherKeepsBase<R>(s: State<R>, l: Lanes.Step, base: Tables)
    requires Enabled(s, Admit(l)) && Based(s, base) && !l.Start?
    requires !(l.Finish? && WriteRunning(s, l.t))
    ensures Based(Apply(s, Admit(l)), base)
  {
    OtherKeepsRunning(s.lanes, l);
  }

  lemma StepKeepsBase<R>(s: State<R>, step: Step, items: set<WaitPool.Item>, base: Tables)
    requires Inv(s, items) && Enabled(s, step) && Based(s, base)
    ensures Based(Apply(s, step), NextBase(s, step, base))
  {
    match step
    case Statement(u) => StatementKeepsBase(s, u, base);
    case Admit(l) =>
      if l.Start? {
        StartKeepsBase(s, l.t, items, base);
      } else if l.Finish? && WriteRunning(s, l.t) {
        assert JobOk(s, l.t);
        FinishMovesBase(s, l.t, items, base);
      } else {
        OtherKeepsBase(s, l, base);
      }
  }

  lemma {:induction false} RunsAreBased<R>(s: State<R>, steps: seq<Step>, items: set<WaitPool.Item>, base: Tables)
    requires Inv(s, items) && ValidRun(s, steps) && Based(s, base)
    ensures Based(After(s, steps), DryRun.LiveOnly(base, WritesEnded(s, steps)))
    decreases |steps|
  {
    if steps != [] {
      StepKeepsInv(s, steps[0], items);
      StepKeepsBase(s, steps[0], items, base);
      var q, rest := Apply(s, steps[0]), steps[1..];
      RunsAreBased(q, rest, items, NextBase(s, steps[0], base));
      LiveOnlyFront(base, if EndsWrite(s, steps[0]) then [Ending(s, steps[0])] else [], WritesEnded(q, rest));
    }
  }

  /**
   Every interleaving is serial. Whenever no closure of the write lane is running, the tables are those that
   the live write closures leave when run one after another, each alone, in the order in which they ended.
   */
  lemma InterleavingsAreSerial<R>(s: State<R>, steps: seq<Step>, items: set<WaitPool.Item>)
    requires Init(s, items) && ValidRun(s, steps)
    requires Lanes.RunningIn(After(s, steps).lanes, Lanes.Write) == {}
    ensures After(s, steps).tables == DryRun.LiveOnly(s.tables, WritesEnded(s, steps))
  {
    InitIsInv(s, items);
    assert Lanes.RunningIn(s.lanes, Lanes.Write) == {};
    RunsAreBased(s, steps, items, s.tables);
  }

  /** The stored tables are sound in every state of every interleaving, closures half done included. */
  lemma {:induction false} TablesStaySound<R>(s: State<R>, steps: seq<Step>)
    requires ValidRun(s, steps) && Sound(s.tables)
    ensures Sound(After(s, steps).tables)
    decreases |steps|
  {
    if steps != [] {
      if steps[0].Statement? {
        var request := s.progress[steps[0].t].closure.next(s.progress[steps[0].t].history).request;
        if request.Write? {
          WriteKeepsSound(s.tables, request.op);
        }
      }
      TablesStaySound(Apply(s, steps[0]), steps[1..]);
    }
  }
}
