/**
 The writer connection: autocommit statements, the dry-run savepoint, and the recovery of a writer
 whose mutex was poisoned by a panic. Readers see the committed tables only.
 A rollback is taken to succeed.
 */
module DryRun {
  import opened Wrappers
  import opened Schema
  import opened Store
  import opened Closures

  datatype Writer = Writer(committed: Tables, working: Tables, savepoint: Option<Tables>, poisoned: bool)

  // ---------------------------------------------------------------- SQL on the writer connection

  predicate Autocommit(w: Writer) {
    w.savepoint.None?
  }

  function Savepoint(w: Writer): Writer {
    w.(savepoint := Some(w.working))
  }

  function RollbackTo(w: Writer): Writer {
    if w.savepoint.Some? then w.(working := w.savepoint.value) else w
  }

  /** Releasing the outermost savepoint commits what is there. */
  function Release(w: Writer): Writer {
    w.(committed := w.working, savepoint := None)
  }

  function Rollback(w: Writer): Writer {
    w.(working := w.committed, savepoint := None)
  }

  function Statement(w: Writer, request: Request): (Writer, Response) {
    var (q, response) := Perform(w.working, request);
    (w.(working := q, committed := if Autocommit(w) then q else w.committed), response)
  }

  /** `lock_writer`: a poisoned mutex with an open transaction is rolled back first. */
  function Locked(w: Writer): Writer {
    if w.poisoned && !Autocommit(w) then Rollback(w) else w
  }

  // ---------------------------------------------------------------- closures on the writer

  /** Inside a dry run every call, reading or writing, uses the writer connection. */
  function DryBody<R>(w: Writer, c: Closure<R>, history: seq<Response>, fuel: nat): (Writer, Outcome<R>)
    decreases fuel
  {
    match c.next(history)
    case Return(r) => (w, Returned(r))
    case Panic => (w, Panicked)
    case Call(request) =>
      if fuel == 0 then (w, Unfinished)
      else
        var (q, response) := Statement(w, request);
        DryBody(q, c, history + [response], fuel - 1)
  }

  function DryRun<R>(w: Writer, c: Closure<R>, fuel: nat): (Writer, Outcome<R>) {
    var (q, outcome) := DryBody(Savepoint(Locked(w)), c, [], fuel);
    match outcome
    case Returned(r) => (Release(RollbackTo(q)), outcome)
    case Panicked => (q.(poisoned := true), outcome)
    case Unfinished => (q, outcome)
  }

  /** A live call: reads go to a reader connection, writes lock the writer and autocommit. */
  function LiveCall(w: Writer, request: Request): (Writer, Response) {
    if request.Write? then Statement(Locked(w), request) else (w, Perform(w.committed, request).1)
  }

  function LiveRun<R>(w: Writer, c: Closure<R>, history: seq<Response>, fuel: nat): (Writer, Outcome<R>)
    decreases fuel
  {
    match c.next(history)
    case Return(r) => (w, Returned(r))
    case Panic => (w, Panicked)
    case Call(request) =>
      if fuel == 0 then (w, Unfinished)
      else
        var (q, response) := LiveCall(w, request);
        LiveRun(q, c, history + [response], fuel - 1)
  }

  // ---------------------------------------------------------------- what holds between closures

  /** Autocommit with nothing pending, or a savepoint stranded by a panic over unchanged committed tables. */
  predicate Valid(w: Writer) {
    if Autocommit(w) then w.working == w.committed
    else w.poisoned && w.savepoint == Some(w.committed)
  }

  /** Whatever a panic left behind, the next lock sees exactly the committed tables. */
  lemma StrandedWritesAreDropped(w: Writer)
    requires Valid(w)
    ensures Autocommit(Locked(w)) && Locked(w).working == Locked(w).committed == w.committed
  {}

  lemma {:induction false} DryBodyIsRun<R>(w: Writer, c: Closure<R>, history: seq<Response>, fuel: nat)
    requires !Autocommit(w)
    ensures var (q, outcome) := DryBody(w, c, history, fuel);
            && (q.working, outcome) == Run(c, w.working, history, fuel)
            && q == w.(working := q.working)
    decreases fuel
  {
    match c.next(history)
    case Call(request) =>
      if fuel > 0 {
        var (q, response) := Statement(w, request);
        DryBodyIsRun(q, c, history + [response], fuel - 1);
      }
    case _ =>
  }

  /**
   A dry run is faithful and invisible: its result is that of a live run from the committed tables, and
   the committed tables stay as they were, panic or not.
   */
  lemma DryRunIsFaithful<R>(w: Writer, c: Closure<R>, fuel: nat)
    requires Valid(w)
    ensures var (q, outcome) := DryRun(w, c, fuel);
            && outcome == Run(c, w.committed, [], fuel).1
            && q.committed == w.committed
            && (!outcome.Unfinished? ==> Valid(q))
            && (outcome.Returned? ==> Autocommit(q) && q.poisoned == w.poisoned)
  {
    StrandedWritesAreDropped(w);
    DryBodyIsRun(Savepoint(Locked(w)), c, [], fuel);
  }

  /**
   Why the rollback has to succeed: releasing the savepoint without it commits everything the closure wrote, and the
   result looks the same.
   */
  lemma ReleaseAloneCommits<R>(w: Writer, c: Closure<R>, fuel: nat)
    requires Valid(w)
    ensures var (q, outcome) := DryBody(Savepoint(Locked(w)), c, [], fuel);
            && outcome == Run(c, w.committed, [], fuel).1
            && Release(q).committed == Run(c, w.committed, [], fuel).0
            && Autocommit(Release(q))
  {
    StrandedWritesAreDropped(w);
    DryBodyIsRun(Savepoint(Locked(w)), c, [], fuel);
  }

  /** A live run computes what the closure computes alone on the committed tables. */
  lemma {:induction false} LiveRunIsRun<R>(w: Writer, c: Closure<R>, history: seq<Response>, fuel: nat)
    requires Valid(w)
    ensures var (q, outcome) := LiveRun(w, c, history, fuel);
            && (q.committed, outcome) == Run(c, w.committed, history, fuel)
            && Valid(q)
    decreases fuel
  {
    match c.next(history)
    case Call(request) =>
      if fuel > 0 {
        StrandedWritesAreDropped(w);
        var (q, response) := LiveCall(w, request);
        LiveRunIsRun(q, c, history + [response], fuel - 1);
      }
    case _ =>
  }

  // ---------------------------------------------------------------- sessions

  /** One closure handed to the write lane, live or dry, with a bound on the calls it makes. */
  datatype Job<R> = Job(dry: bool, closure: Closure<R>, fuel: nat)

  function RunJob<R>(w: Writer, job: Job<R>): (Writer, Outcome<R>) {
    if job.dry then DryRun(w, job.closure, job.fuel) else LiveRun(w, job.closure, [], job.fuel)
  }

  /** Every closure ends: by returning or by panicking. */
  predicate AllEnd<R>(w: Writer, jobs: seq<Job<R>>)
    decreases |jobs|
  {
    jobs == [] || (!RunJob(w, jobs[0]).1.Unfinished? && AllEnd(RunJob(w, jobs[0]).0, jobs[1..]))
  }

  function Session<R>(w: Writer, jobs: seq<Job<R>>): Writer
    decreases |jobs|
  {
    if jobs == [] then w else Session(RunJob(w, jobs[0]).0, jobs[1..])
  }

  /** The committed tables after the live jobs alone, each run from where the last one ended. */
  function LiveOnly<R>(t: Tables, jobs: seq<Job<R>>): Tables
    decreases |jobs|
  {
    if jobs == [] then t
    else if jobs[0].dry then LiveOnly(t, jobs[1..])
    else LiveOnly(Run(jobs[0].closure, t, [], jobs[0].fuel).0, jobs[1..])
  }

  lemma {:induction false} EachEnds<R>(w: Writer, jobs: seq<Job<R>>)
    requires forall i | 0 <= i < |jobs| :: !RunJob(Session(w, jobs[..i]), jobs[i]).1.Unfinished?
    ensures AllEnd(w, jobs)
    decreases |jobs|
  {
    if jobs != [] {
      var q, rest := RunJob(w, jobs[0]).0, jobs[1..];
      assert jobs[..0] == [] && Session(w, jobs[..0]) == w;
      forall i | 0 <= i < |rest| ensures !RunJob(Session(q, rest[..i]), rest[i]).1.Unfinished? {
        assert jobs[..i + 1][1..] == rest[..i] && jobs[..i + 1][0] == jobs[0];
        assert Session(w, jobs[..i + 1]) == Session(q, rest[..i]);
      }
      EachEnds(q, rest);
    }
  }

  /** Over a whole session of closures that each end, panics included, dry runs leave no trace. */
  lemma DryRunsLeaveNoTrace<R>(w: Writer, jobs: seq<Job<R>>)
    requires Valid(w)
    requires forall i | 0 <= i < |jobs| :: !RunJob(Session(w, jobs[..i]), jobs[i]).1.Unfinished?
    ensures Session(w, jobs).committed == LiveOnly(w.committed, jobs)
    ensures Valid(Session(w, jobs))
  {
    EachEnds(w, jobs);
    SessionIsLiveOnly(w, jobs);
  }

  lemma {:induction false} SessionIsLiveOnly<R>(w: Writer, jobs: seq<Job<R>>)
    requires Valid(w) && AllEnd(w, jobs)
    ensures Session(w, jobs).committed == LiveOnly(w.committed, jobs)
    ensures Valid(Session(w, jobs))
    decreases |jobs|
  {
    if jobs != [] {
      if jobs[0].dry {
        DryRunIsFaithful(w, jobs[0].closure, jobs[0].fuel);
      } else {
        LiveRunIsRun(w, jobs[0].closure, [], jobs[0].fuel);
      }
      SessionIsLiveOnly(RunJob(w, jobs[0]).0, jobs[1..]);
    }
  }

  // ---------------------------------------------------------------- the mutable database

  /** The writer connection behind its mutex, and the per-thread slot that routes dry-run calls. */
  class Database {
    var committed: Tables
    var working: Tables
    var savepoint: Option<Tables>
    var poisoned: bool
    var dryRunActive: bool

    function View(): Writer
      reads this
    {
      Writer(committed, working, savepoint, poisoned)
    }

    constructor (t: Tables)
      ensures Valid(View()) && committed == t && !poisoned && !dryRunActive
    {
      committed, working, savepoint, poisoned, dryRunActive := t, t, None, false, false;
    }

    method LockWriter()
      modifies this`working, this`savepoint
      ensures View() == Locked(old(View()))
    {
      if poisoned && savepoint.Some? {
        working := committed;
        savepoint := None;
      }
    }

    method ExecuteOnWriter(request: Request) returns (response: Response)
      modifies this`working, this`committed
      ensures (View(), response) == Statement(old(View()), request)
    {
      var (q, r) := Perform(working, request);
      working := q;
      if savepoint.None? {
        committed := q;
      }
      return r;
    }

    /** Savepoint, closure with the slot published, rollback and release; a panic skips the last two. */
    method RunDry<R>(c: Closure<R>, ghost fuel: nat) returns (outcome: Outcome<R>)
      requires Valid(View()) && !dryRunActive
      requires !Run(c, committed, [], fuel).1.Unfinished?
      modifies this
      ensures (View(), outcome) == DryRun(old(View()), c, fuel)
      ensures outcome == old(Run(c, committed, [], fuel).1)
      ensures committed == old(committed) && Valid(View()) && !dryRunActive
    {
      ghost var w := View();
      DryRunIsFaithful(w, c, fuel);
      LockWriter();
      savepoint := Some(working);
      dryRunActive := true;
      var history := [];
      ghost var left := fuel;
      while c.next(history).Call?
        invariant DryBody(View(), c, history, left) == DryBody(Savepoint(Locked(w)), c, [], fuel)
        invariant !DryBody(View(), c, history, left).1.Unfinished?
        invariant dryRunActive && savepoint.Some?
        decreases left
      {
        var response := ExecuteOnWriter(c.next(history).request);
        history := history + [response];
        left := left - 1;
      }
      dryRunActive := false;
      if c.next(history).Panic? {
        poisoned := true;
        return Panicked;
      }
      working := savepoint.value;
      committed := working;
      savepoint := None;
      return Returned(c.next(history).result);
    }
  }
}
