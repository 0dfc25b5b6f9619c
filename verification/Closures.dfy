/**
 Closures over the repositories. A closure is any deterministic program that makes repository calls,
 sees their answers and decides what to do next; it may return or panic at any point.
 */
module Closures {
  import opened Wrappers
  import opened Schema
  import opened Store

  datatype Request =
    | ExistsIssuer(issuer: Id)
    | ExistsSecurity(security: Id)
    | ExistsByCnpj(cnpj: string)
    | ExistsByLei(lei: string)
    | ExistsByIsin(isin: string)
    | FindIssuer(issuer: Id)
    | FindSecurity(security: Id)
    | Write(op: Op)

  datatype Response =
    | Flag(flag: bool)
    | IssuerFound(issuerRow: Option<IssuerRow>)
    | SecurityFound(securityRow: Option<SecurityRow>)
    | Written(reply: Reply)
    | Failed  // a storage fault

  datatype Action<R> = Return(result: R) | Panic | Call(request: Request)

  /** What to do after the answers received so far. */
  datatype Closure<R> = Closure(next: seq<Response> -> Action<R>)

  datatype Outcome<R> = Returned(result: R) | Panicked | Unfinished

  predicate CnpjStored(t: Tables, cnpj: string) {
    exists id :: id in t.issuers && t.issuers[id].cnpj == Some(cnpj)
  }

  predicate LeiStored(t: Tables, lei: string) {
    exists id :: id in t.issuers && t.issuers[id].lei == Some(lei)
  }

  predicate IsinStored(t: Tables, isin: string) {
    exists id :: id in t.securities && t.securities[id].isin == Some(isin)
  }

  /** One repository call on the tables its connection sees. */
  function Perform(t: Tables, request: Request): (Tables, Response) {
    match request
    case ExistsIssuer(id) => (t, Flag(id in t.issuers))
    case ExistsSecurity(id) => (t, Flag(id in t.securities))
    case ExistsByCnpj(cnpj) => (t, Flag(CnpjStored(t, cnpj)))
    case ExistsByLei(lei) => (t, Flag(LeiStored(t, lei)))
    case ExistsByIsin(isin) => (t, Flag(IsinStored(t, isin)))
    case FindIssuer(id) => (t, IssuerFound(if id in t.issuers then Some(t.issuers[id]) else None))
    case FindSecurity(id) => (t, SecurityFound(if id in t.securities then Some(t.securities[id]) else None))
    case Write(op) => var (q, reply) := Execute(t, op); (q, Written(reply))
  }

  /** A live run of the rest of a closure, alone on the tables, for at most `fuel` more calls. */
  function Run<R>(c: Closure<R>, t: Tables, history: seq<Response>, fuel: nat): (Tables, Outcome<R>)
    decreases fuel
  {
    match c.next(history)
    case Return(r) => (t, Returned(r))
    case Panic => (t, Panicked)
    case Call(request) =>
      if fuel == 0 then (t, Unfinished)
      else
        var (q, response) := Perform(t, request);
        Run(c, q, history + [response], fuel - 1)
  }

  /** The same, when the calls numbered in `faults` meet a storage fault, which changes nothing. */
  function FaultyRun<R>(c: Closure<R>, t: Tables, history: seq<Response>, faults: set<nat>, fuel: nat)
    : (Tables, Outcome<R>)
    decreases fuel
  {
    match c.next(history)
    case Return(r) => (t, Returned(r))
    case Panic => (t, Panicked)
    case Call(request) =>
      if fuel == 0 then (t, Unfinished)
      else
        var (q, response) := if |history| in faults then (t, Failed) else Perform(t, request);
        FaultyRun(c, q, history + [response], faults, fuel - 1)
  }

  lemma {:induction false} NoFaults<R>(c: Closure<R>, t: Tables, history: seq<Response>, fuel: nat)
    ensures FaultyRun(c, t, history, {}, fuel) == Run(c, t, history, fuel)
    decreases fuel
  {
    match c.next(history)
    case Call(request) =>
      if fuel > 0 {
        var (q, response) := Perform(t, request);
        NoFaults(c, q, history + [response], fuel - 1);
      }
    case _ =>
  }

  /** More fuel changes nothing once a run has ended. */
  lemma {:induction false} EnoughFuel<R>(c: Closure<R>, t: Tables, history: seq<Response>, fuel: nat, more: nat)
    requires fuel <= more && !Run(c, t, history, fuel).1.Unfinished?
    ensures Run(c, t, history, more) == Run(c, t, history, fuel)
    decreases fuel
  {
    match c.next(history)
    case Call(request) =>
      var (q, response) := Perform(t, request);
      EnoughFuel(c, q, history + [response], fuel - 1, more - 1);
    case _ =>
  }

  // ---------------------------------------------------------------- registering and patching an issuer

  /** `Replied` carries the write's answer; a faulted reply is the `Storage` error, as is a fault of any call. */
  datatype GuardedResult = DuplicateCnpj | DuplicateLei | Replied(reply: Reply) | StorageFailed

  /** The shared shape of both services: is the CNPJ stored, is the LEI stored, then the write. */
  function NextGuarded(cnpj: Option<string>, lei: Option<string>, op: Op, h: seq<Response>): Action<GuardedResult> {
    var c := if cnpj.Some? then 1 else 0;
    var l := if lei.Some? then 1 else 0;
    if |h| < c then Call(ExistsByCnpj(cnpj.value))
    else if c == 1 && h[0] == Failed then Return(StorageFailed)
    else if c == 1 && h[0] == Flag(true) then Return(DuplicateCnpj)
    else if |h| < c + l then Call(ExistsByLei(lei.value))
    else if l == 1 && h[c] == Failed then Return(StorageFailed)
    else if l == 1 && h[c] == Flag(true) then Return(DuplicateLei)
    else if |h| == c + l then Call(Write(op))
    else if h[c + l] == Failed then Return(StorageFailed)
    else if h[c + l].Written? then Return(Replied(h[c + l].reply))
    else Panic
  }

  function Guarded(cnpj: Option<string>, lei: Option<string>, op: Op): Closure<GuardedResult> {
    Closure(h => NextGuarded(cnpj, lei, op, h))
  }

  function RegisterIssuer(id: Id, d: IssuerData): Closure<GuardedResult> {
    Guarded(d.cnpj, d.lei, InsertIssuer(id, d))
  }

  function PatchIssuerService(id: Id, expected: u32, p: IssuerPatch): Closure<GuardedResult> {
    Guarded(p.cnpj, p.lei, Op.PatchIssuer(id, expected, p))
  }

  predicate CnpjTaken(t: Tables, cnpj: Option<string>) {
    cnpj.Some? && CnpjStored(t, cnpj.value)
  }

  predicate LeiTaken(t: Tables, lei: Option<string>) {
    lei.Some? && LeiStored(t, lei.value)
  }

  /** What the guarded write means, read off the tables it starts from. */
  function GuardedWrite(t: Tables, cnpj: Option<string>, lei: Option<string>, op: Op): (Tables, GuardedResult) {
    if CnpjTaken(t, cnpj) then (t, DuplicateCnpj)
    else if LeiTaken(t, lei) then (t, DuplicateLei)
    else
      var (q, reply) := Execute(t, op);
      (q, Replied(reply))
  }

  /** The same under faults: the first call that fails ends the service, before anything was written. */
  function GuardedFaulty(t: Tables, cnpj: Option<string>, lei: Option<string>, op: Op, faults: set<nat>)
    : (Tables, GuardedResult)
  {
    var c := if cnpj.Some? then 1 else 0;
    var l := if lei.Some? then 1 else 0;
    if cnpj.Some? && 0 in faults then (t, StorageFailed)
    else if CnpjTaken(t, cnpj) then (t, DuplicateCnpj)
    else if lei.Some? && c in faults then (t, StorageFailed)
    else if LeiTaken(t, lei) then (t, DuplicateLei)
    else if c + l in faults then (t, StorageFailed)
    else
      var (q, reply) := Execute(t, op);
      (q, Replied(reply))
  }

  lemma GuardedReachesWrite(t: Tables, cnpj: Option<string>, lei: Option<string>, op: Op, h: seq<Response>,
                            faults: set<nat>, fuel: nat)
    requires |h| == (if cnpj.Some? then 1 else 0) + (if lei.Some? then 1 else 0)
    requires forall i | 0 <= i < |h| :: h[i] == Flag(false)
    requires fuel >= 1
    ensures FaultyRun(Guarded(cnpj, lei, op), t, h, faults, fuel)
            == if |h| in faults then (t, Returned(StorageFailed))
               else (Execute(t, op).0, Returned(Replied(Execute(t, op).1)))
  {
    var c := Guarded(cnpj, lei, op);
    assert c.next(h) == Call(Write(op));
    var (q, reply) := Execute(t, op);
    var answer := if |h| in faults then Failed else Written(reply);
    var last := h + [answer];
    assert forall i | 0 <= i < |h| :: last[i] == Flag(false);
    assert last[|h|] == answer;
    assert c.next(last) == Return(if |h| in faults then StorageFailed else Replied(reply));
  }

  lemma GuardedAfterCnpj(t: Tables, cnpj: Option<string>, lei: Option<string>, op: Op, h: seq<Response>,
                         faults: set<nat>, fuel: nat)
    requires |h| == (if cnpj.Some? then 1 else 0) && forall i | 0 <= i < |h| :: h[i] == Flag(false)
    requires fuel >= 2 && !CnpjTaken(t, cnpj) && (cnpj.Some? ==> 0 !in faults)
    ensures FaultyRun(Guarded(cnpj, lei, op), t, h, faults, fuel)
            == (GuardedFaulty(t, cnpj, lei, op, faults).0, Returned(GuardedFaulty(t, cnpj, lei, op, faults).1))
  {
    if lei.Some? {
      var c := Guarded(cnpj, lei, op);
      assert c.next(h) == Call(ExistsByLei(lei.value));
      var next := h + [if |h| in faults then Failed else Flag(LeiStored(t, lei.value))];
      if |h| in faults {
        assert c.next(next) == Return(StorageFailed);
      } else if LeiTaken(t, lei) {
        assert c.next(next) == Return(DuplicateLei);
      } else {
        GuardedReachesWrite(t, cnpj, lei, op, next, faults, fuel - 1);
      }
    } else {
      GuardedReachesWrite(t, cnpj, lei, op, h, faults, fuel);
    }
  }

  /** Whichever calls fail: the CNPJ, then the LEI, then the write, ended by the first fault or hit. */
  lemma GuardedRunsUnderFaults(t: Tables, cnpj: Option<string>, lei: Option<string>, op: Op, faults: set<nat>,
                               fuel: nat)
    requires fuel >= 3
    ensures FaultyRun(Guarded(cnpj, lei, op), t, [], faults, fuel)
            == (GuardedFaulty(t, cnpj, lei, op, faults).0, Returned(GuardedFaulty(t, cnpj, lei, op, faults).1))
    ensures GuardedFaulty(t, cnpj, lei, op, faults).1 == StorageFailed ==>
            GuardedFaulty(t, cnpj, lei, op, faults).0 == t
  {
    if cnpj.Some? {
      var c := Guarded(cnpj, lei, op);
      assert c.next([]) == Call(ExistsByCnpj(cnpj.value));
      var next := [if 0 in faults then Failed else Flag(CnpjStored(t, cnpj.value))];
      assert [] + next == next;
      if 0 in faults {
        assert c.next(next) == Return(StorageFailed);
      } else if CnpjTaken(t, cnpj) {
        assert c.next(next) == Return(DuplicateCnpj);
      } else {
        GuardedAfterCnpj(t, cnpj, lei, op, next, faults, fuel - 1);
      }
    } else {
      GuardedAfterCnpj(t, cnpj, lei, op, [], faults, fuel);
    }
  }

  /** Alone on the tables and without faults, the service does the guarded write. */
  lemma GuardedRuns(t: Tables, cnpj: Option<string>, lei: Option<string>, op: Op, fuel: nat)
    requires fuel >= 3
    ensures Run(Guarded(cnpj, lei, op), t, [], fuel)
            == (GuardedWrite(t, cnpj, lei, op).0, Returned(GuardedWrite(t, cnpj, lei, op).1))
  {
    NoFaults(Guarded(cnpj, lei, op), t, [], fuel);
    GuardedRunsUnderFaults(t, cnpj, lei, op, {}, fuel);
  }

  lemma StoredMeans(t: Tables, cnpj: Option<string>, lei: Option<string>)
    ensures CnpjTaken(t, cnpj) <==> cnpj.Some? && exists o :: o in t.issuers && t.issuers[o].cnpj == cnpj
    ensures LeiTaken(t, lei) <==> lei.Some? && exists o :: o in t.issuers && t.issuers[o].lei == lei
  {}

  /** The duplicate reports of a registration are exact, and its insert never meets a UNIQUE constraint. */
  lemma RegistrationMeans(t: Tables, id: Id, d: IssuerData)
    ensures var (q, result) := GuardedWrite(t, d.cnpj, d.lei, InsertIssuer(id, d));
            var cnpjStored := d.cnpj.Some? && exists o :: o in t.issuers && t.issuers[o].cnpj == d.cnpj;
            var leiStored := d.lei.Some? && exists o :: o in t.issuers && t.issuers[o].lei == d.lei;
            && (result == DuplicateCnpj <==> cnpjStored)
            && (result == DuplicateLei <==> !cnpjStored && leiStored)
            && result != Replied(Faulted(Violated(UniqueCnpj)))
            && result != Replied(Faulted(Violated(UniqueLei)))
            && (result == Replied(Inserted) ==>
                  id !in t.issuers && q == t.(issuers := t.issuers[id := NewIssuer(d)]))
            && (result != Replied(Inserted) ==> q == t)
  {
    StoredMeans(t, d.cnpj, d.lei);
    if !CnpjTaken(t, d.cnpj) && !LeiTaken(t, d.lei) {
      assert CnpjFree(t, id, d.cnpj) && LeiFree(t, id, d.lei);
    }
  }

  /** A stored value that the constraint leaves free for row `id` is the row's own. */
  lemma StoredIsOwn(t: Tables, id: Id, cnpj: Option<string>, lei: Option<string>)
    requires id in t.issuers
    ensures CnpjFree(t, id, cnpj) ==> (CnpjTaken(t, cnpj) <==> cnpj.Some? && t.issuers[id].cnpj == cnpj)
    ensures LeiFree(t, id, lei) ==> (LeiTaken(t, lei) <==> lei.Some? && t.issuers[id].lei == lei)
  {}

  /**
   The patch service compares with every row, the patched one included. Of the patches that the statement itself
   accepts, it refuses exactly those that write back the row's own CNPJ or, failing that, the row's own LEI.
   */
  lemma PatchRefusesOwnIff(t: Tables, id: Id, expected: u32, p: IssuerPatch, fuel: nat)
    requires fuel >= 3 && Execute(t, Op.PatchIssuer(id, expected, p)).1 == Wrote(Applied)
    ensures id in t.issuers
    ensures Run(PatchIssuerService(id, expected, p), t, [], fuel)
            == if p.cnpj.Some? && t.issuers[id].cnpj == p.cnpj then (t, Returned(DuplicateCnpj))
               else if p.lei.Some? && t.issuers[id].lei == p.lei then (t, Returned(DuplicateLei))
               else (Execute(t, Op.PatchIssuer(id, expected, p)).0, Returned(Replied(Wrote(Applied))))
  {
    GuardedRuns(t, p.cnpj, p.lei, Op.PatchIssuer(id, expected, p), fuel);
    var row := PatchedIssuer(t.issuers[id], p);
    assert CnpjFree(t, id, row.cnpj) && LeiFree(t, id, row.lei);
    StoredIsOwn(t, id, p.cnpj, p.lei);
  }

  /** The patch service on any tables: exact duplicates, and a UNIQUE fault never from its own values. */
  lemma PatchServiceMeans(t: Tables, id: Id, expected: u32, p: IssuerPatch)
    ensures var (q, result) := GuardedWrite(t, p.cnpj, p.lei, Op.PatchIssuer(id, expected, p));
            var cnpjStored := p.cnpj.Some? && exists o :: o in t.issuers && t.issuers[o].cnpj == p.cnpj;
            var leiStored := p.lei.Some? && exists o :: o in t.issuers && t.issuers[o].lei == p.lei;
            && (result == DuplicateCnpj <==> cnpjStored)
            && (result == DuplicateLei <==> !cnpjStored && leiStored)
            && (result == Replied(Faulted(Violated(UniqueCnpj))) ==> p.cnpj.None?)
            && (result == Replied(Faulted(Violated(UniqueLei))) ==> p.lei.None?)
            && (result != Replied(Wrote(Applied)) ==> q == t)
  {
    StoredMeans(t, p.cnpj, p.lei);
    if !CnpjTaken(t, p.cnpj) && !LeiTaken(t, p.lei) {
      assert CnpjFree(t, id, p.cnpj) && LeiFree(t, id, p.lei);
    }
  }

  /** Both refusals happen: a newly registered issuer cannot be patched with its own CNPJ, nor with its own LEI. */
  lemma OwnIdentifiersAreRefused(id: Id, cnpj: string, lei: string)
    ensures var d := IssuerData(None, Active, "", Some(cnpj), Some(lei), Some(BR));
            var registered := Run(RegisterIssuer(id, d), EMPTY, [], 3);
            var ownCnpj := IssuerPatch(None, None, Some(cnpj), None, None);
            var ownLei := IssuerPatch(None, None, None, Some(lei), None);
            && registered.1 == Returned(Replied(Inserted))
            && Execute(registered.0, Op.PatchIssuer(id, 1, ownCnpj)).1 == Wrote(Applied)
            && Run(PatchIssuerService(id, 1, ownCnpj), registered.0, [], 3).1 == Returned(DuplicateCnpj)
            && Execute(registered.0, Op.PatchIssuer(id, 1, ownLei)).1 == Wrote(Applied)
            && Run(PatchIssuerService(id, 1, ownLei), registered.0, [], 3).1 == Returned(DuplicateLei)
  {
    var d := IssuerData(None, Active, "", Some(cnpj), Some(lei), Some(BR));
    GuardedRuns(EMPTY, d.cnpj, d.lei, InsertIssuer(id, d), 3);
    var t := Run(RegisterIssuer(id, d), EMPTY, [], 3).0;
    assert |BR| == 2;
    assert t == Tables(map[id := NewIssuer(d)], map[]);
    PatchRefusesOwnIff(t, id, 1, IssuerPatch(None, None, Some(cnpj), None, None), 3);
    PatchRefusesOwnIff(t, id, 1, IssuerPatch(None, None, None, Some(lei), None), 3);
  }

  // ---------------------------------------------------------------- registering a security

  datatype RegisterSecurityResult =
    | SecurityRegistered
    | UnknownIssuer
    | DuplicateIsin
    | UnknownUnderlyingSecurity
    | SecurityStorage(fault: Fault)
    | SecurityStorageFailed

  function NextRegisterSecurity(id: Id, d: SecurityData, h: seq<Response>): Action<RegisterSecurityResult> {
    var i := if d.isin.Some? then 1 else 0;
    var u := if d.underlying.Some? then 1 else 0;
    if |h| == 0 then Call(ExistsIssuer(d.issuer))
    else if h[0] == Failed then Return(SecurityStorageFailed)
    else if h[0] == Flag(false) then Return(UnknownIssuer)
    else if |h| < 1 + i then Call(ExistsByIsin(d.isin.value))
    else if i == 1 && h[1] == Failed then Return(SecurityStorageFailed)
    else if i == 1 && h[1] == Flag(true) then Return(DuplicateIsin)
    else if |h| < 1 + i + u then Call(ExistsSecurity(d.underlying.value))
    else if u == 1 && h[1 + i] == Failed then Return(SecurityStorageFailed)
    else if u == 1 && h[1 + i] == Flag(false) then Return(UnknownUnderlyingSecurity)
    else if |h| == 1 + i + u then Call(Write(InsertSecurity(id, d)))
    else if h[1 + i + u] == Failed then Return(SecurityStorageFailed)
    else if h[1 + i + u].Written? && h[1 + i + u].reply.Faulted? then Return(SecurityStorage(h[1 + i + u].reply.fault))
    else Return(SecurityRegistered)
  }

  function RegisterSecurity(id: Id, d: SecurityData): Closure<RegisterSecurityResult> {
    Closure(h => NextRegisterSecurity(id, d, h))
  }

  predicate IsinTaken(t: Tables, d: SecurityData) {
    d.isin.Some? && IsinStored(t, d.isin.value)
  }

  predicate UnderlyingKnown(t: Tables, d: SecurityData) {
    d.underlying.Some? ==> d.underlying.value in t.securities
  }

  function SecurityRegisteredIn(t: Tables, id: Id, d: SecurityData): (Tables, RegisterSecurityResult) {
    if d.issuer !in t.issuers then (t, UnknownIssuer)
    else if IsinTaken(t, d) then (t, DuplicateIsin)
    else if !UnderlyingKnown(t, d) then (t, UnknownUnderlyingSecurity)
    else
      var (q, reply) := Execute(t, InsertSecurity(id, d));
      (q, if reply.Faulted? then SecurityStorage(reply.fault) else SecurityRegistered)
  }

  /** The same under faults: the first call that fails ends the service, before anything was written. */
  function SecurityRegisteredFaulty(t: Tables, id: Id, d: SecurityData, faults: set<nat>)
    : (Tables, RegisterSecurityResult)
  {
    var i := if d.isin.Some? then 1 else 0;
    var u := if d.underlying.Some? then 1 else 0;
    if 0 in faults then (t, SecurityStorageFailed)
    else if d.issuer !in t.issuers then (t, UnknownIssuer)
    else if d.isin.Some? && 1 in faults then (t, SecurityStorageFailed)
    else if IsinTaken(t, d) then (t, DuplicateIsin)
    else if d.underlying.Some? && 1 + i in faults then (t, SecurityStorageFailed)
    else if !UnderlyingKnown(t, d) then (t, UnknownUnderlyingSecurity)
    else if 1 + i + u in faults then (t, SecurityStorageFailed)
    else SecurityRegisteredIn(t, id, d)
  }

  /** Running the registration from `h` ends as the faulty registration does. */
  predicate RegistersFrom(t: Tables, id: Id, d: SecurityData, h: seq<Response>, faults: set<nat>, fuel: nat) {
    FaultyRun(RegisterSecurity(id, d), t, h, faults, fuel)
    == (SecurityRegisteredFaulty(t, id, d, faults).0, Returned(SecurityRegisteredFaulty(t, id, d, faults).1))
  }

  /** The answers of a registration that has passed its first checks. */
  function PassedChecks(n: nat, isin: nat): seq<Response> {
    seq(n, k => if k == 1 && isin == 1 then Flag(false) else Flag(true))
  }

  lemma RegisterSecurityInsert(t: Tables, id: Id, d: SecurityData, faults: set<nat>, fuel: nat)
    requires fuel >= 1
    ensures var i, u := if d.isin.Some? then 1 else 0, if d.underlying.Some? then 1 else 0;
            var (q, reply) := Execute(t, InsertSecurity(id, d));
            FaultyRun(RegisterSecurity(id, d), t, PassedChecks(1 + i + u, i), faults, fuel)
            == if 1 + i + u in faults then (t, Returned(SecurityStorageFailed))
               else (q, Returned(if reply.Faulted? then SecurityStorage(reply.fault) else SecurityRegistered))
  {
    var i, u := if d.isin.Some? then 1 else 0, if d.underlying.Some? then 1 else 0;
    var c, h := RegisterSecurity(id, d), PassedChecks(1 + i + u, i);
    assert c.next(h) == Call(Write(InsertSecurity(id, d)));
    var (q, reply) := Execute(t, InsertSecurity(id, d));
    var last := h + [if 1 + i + u in faults then Failed else Written(reply)];
    assert c.next(last) == Return(if 1 + i + u in faults then SecurityStorageFailed
                                  else if reply.Faulted? then SecurityStorage(reply.fault) else SecurityRegistered);
  }

  lemma RegisterSecurityUnderlying(t: Tables, id: Id, d: SecurityData, faults: set<nat>, fuel: nat)
    requires fuel >= 2 && d.issuer in t.issuers && !IsinTaken(t, d)
    requires 0 !in faults && (d.isin.Some? ==> 1 !in faults)
    ensures var i := if d.isin.Some? then 1 else 0;
            RegistersFrom(t, id, d, PassedChecks(1 + i, i), faults, fuel)
  {
    var i := if d.isin.Some? then 1 else 0;
    if d.underlying.Some? {
      var c, h := RegisterSecurity(id, d), PassedChecks(1 + i, i);
      assert c.next(h) == Call(ExistsSecurity(d.underlying.value));
      var next := h + [if 1 + i in faults then Failed else Flag(d.underlying.value in t.securities)];
      if 1 + i in faults {
        assert c.next(next) == Return(SecurityStorageFailed);
      } else if UnderlyingKnown(t, d) {
        assert next == PassedChecks(2 + i, i);
        RegisterSecurityInsert(t, id, d, faults, fuel - 1);
      } else {
        assert c.next(next) == Return(UnknownUnderlyingSecurity);
      }
    } else {
      RegisterSecurityInsert(t, id, d, faults, fuel);
    }
  }

  lemma RegisterSecurityIsin(t: Tables, id: Id, d: SecurityData, faults: set<nat>, fuel: nat)
    requires fuel >= 3 && d.issuer in t.issuers && 0 !in faults
    ensures RegistersFrom(t, id, d, [Flag(true)], faults, fuel)
  {
    if d.isin.Some? {
      var c, h := RegisterSecurity(id, d), [Flag(true)];
      assert c.next(h) == Call(ExistsByIsin(d.isin.value));
      var next := h + [if 1 in faults then Failed else Flag(IsinStored(t, d.isin.value))];
      if 1 in faults {
        assert c.next(next) == Return(SecurityStorageFailed);
      } else if IsinTaken(t, d) {
        assert c.next(next) == Return(DuplicateIsin);
      } else {
        assert next == PassedChecks(2, 1);
        RegisterSecurityUnderlying(t, id, d, faults, fuel - 1);
      }
    } else {
      assert [Flag(true)] == PassedChecks(1, 0);
      RegisterSecurityUnderlying(t, id, d, faults, fuel);
    }
  }

  /** Whichever calls fail: issuer, then ISIN, then underlying, then the insert, ended by the first fault or refusal. */
  lemma RegisterSecurityRunsUnderFaults(t: Tables, id: Id, d: SecurityData, faults: set<nat>, fuel: nat)
    requires fuel >= 4
    ensures RegistersFrom(t, id, d, [], faults, fuel)
    ensures SecurityRegisteredFaulty(t, id, d, faults).1 == SecurityStorageFailed ==>
            SecurityRegisteredFaulty(t, id, d, faults).0 == t
  {
    var c := RegisterSecurity(id, d);
    assert c.next([]) == Call(ExistsIssuer(d.issuer));
    var next := [if 0 in faults then Failed else Flag(d.issuer in t.issuers)];
    assert [] + next == next;
    if 0 in faults {
      assert c.next(next) == Return(SecurityStorageFailed);
    } else if d.issuer in t.issuers {
      RegisterSecurityIsin(t, id, d, faults, fuel - 1);
    } else {
      assert c.next(next) == Return(UnknownIssuer);
    }
  }

  /** Alone on the tables and without faults, the registration is the one read off the tables. */
  lemma RegisterSecurityRuns(t: Tables, id: Id, d: SecurityData, fuel: nat)
    requires fuel >= 4
    ensures Run(RegisterSecurity(id, d), t, [], fuel)
            == (SecurityRegisteredIn(t, id, d).0, Returned(SecurityRegisteredIn(t, id, d).1))
  {
    NoFaults(RegisterSecurity(id, d), t, [], fuel);
    RegisterSecurityRunsUnderFaults(t, id, d, {}, fuel);
  }

  lemma IsinMeans(t: Tables, d: SecurityData)
    ensures IsinTaken(t, d) <==> d.isin.Some? && exists o :: o in t.securities && t.securities[o].isin == d.isin
  {}

  /** Each refusal is exact, and the insert never meets a foreign key or the UNIQUE ISIN. */
  lemma SecurityRegisteredMeans(t: Tables, id: Id, d: SecurityData)
    ensures var (q, result) := SecurityRegisteredIn(t, id, d);
            var isinStored := d.isin.Some? && exists o :: o in t.securities && t.securities[o].isin == d.isin;
            var underlyingStored := d.underlying.Some? ==> d.underlying.value in t.securities;
            && (result == UnknownIssuer <==> d.issuer !in t.issuers)
            && (result == DuplicateIsin <==> d.issuer in t.issuers && isinStored)
            && (result == UnknownUnderlyingSecurity <==> d.issuer in t.issuers && !isinStored && !underlyingStored)
            && result != SecurityStorage(Violated(ForeignKey))
            && result != SecurityStorage(Violated(UniqueIsin))
            && (result == SecurityRegistered ==>
                  id !in t.securities && q == t.(securities := t.securities[id := NewSecurity(d)]))
            && (result != SecurityRegistered ==> q == t)
  {
    IsinMeans(t, d);
    if d.issuer in t.issuers && !IsinTaken(t, d) && UnderlyingKnown(t, d) {
      assert IsinFree(t, id, d.isin);
      assert ReferencesExist(t, id, NewSecurity(d));
    }
  }
}
