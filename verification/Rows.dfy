/** What is written is what is read: the repositories' writes against the rows they leave behind. */
module Rows {
  import opened Wrappers
  import opened Schema
  import opened Store
  import opened Integrity
  import opened History

  // ---------------------------------------------------------------- reading a row back

  function ReadIssuer(r: IssuerRow): IssuerData {
    IssuerData(r.name, r.status, r.createdAt, r.cnpj, r.lei, r.country)
  }

  /** A security, unless its two ratio columns cannot be read as a ratio. */
  function ReadSecurity(r: SecurityRow): Option<SecurityData> {
    match ReadRatio(r)
    case None => None
    case Some(ratio) =>
      Some(SecurityData(r.issuer, r.name, r.kind, r.status, r.createdAt, r.isin, r.cfi, r.underlying, ratio))
  }

  /** A write touches the one row it names, in its own table. */
  lemma WriteTouchesOneRow(t: Tables, op: Op)
    ensures var q := Execute(t, op).0;
            var onIssuers := op.InsertIssuer? || op.PatchIssuer? || op.UpdateIssuer? || op.DeleteIssuer?;
            && (if onIssuers then q.securities == t.securities else q.issuers == t.issuers)
            && (forall id | id != op.id :: id in q.issuers <==> id in t.issuers)
            && (forall id | id != op.id :: id in q.securities <==> id in t.securities)
            && (forall id | id != op.id && id in t.issuers :: q.issuers[id] == t.issuers[id])
            && (forall id | id != op.id && id in t.securities :: q.securities[id] == t.securities[id])
  {}

  /** Insert, then find: the issuer comes back as given, at version 1. */
  lemma InsertedIssuerIsFound(t: Tables, id: Id, d: IssuerData)
    requires Execute(t, InsertIssuer(id, d)).1 == Inserted
    ensures var q := Execute(t, InsertIssuer(id, d)).0;
            id in q.issuers && ReadIssuer(q.issuers[id]) == d && q.issuers[id].version == 1
  {}

  /** The ratio survives its two columns. */
  lemma InsertedSecurityIsFound(t: Tables, id: Id, d: SecurityData)
    requires Execute(t, InsertSecurity(id, d)).1 == Inserted
    ensures var q := Execute(t, InsertSecurity(id, d)).0;
            && id in q.securities && ReadSecurity(q.securities[id]) == Some(d) && q.securities[id].version == 1
            && q.securities[id].receipts == (if d.ratio.Some? then Some(d.ratio.value.receipts) else None)
            && q.securities[id].underlyingUnits == (if d.ratio.Some? then Some(d.ratio.value.underlying) else None)
  {}

  /** Update, then find: the given data with the creation time of the row. */
  lemma UpdatedIssuerIsFound(t: Tables, id: Id, expected: u32, d: IssuerData)
    requires Execute(t, UpdateIssuer(id, expected, d)).1 == Wrote(Applied)
    ensures var q := Execute(t, UpdateIssuer(id, expected, d)).0;
            && id in q.issuers && id in t.issuers
            && ReadIssuer(q.issuers[id]) == d.(createdAt := t.issuers[id].createdAt)
  {}

  /** Update, then find: the given data with the identity facts of the row. */
  lemma UpdatedSecurityIsFound(t: Tables, id: Id, expected: u32, d: SecurityData)
    requires Execute(t, UpdateSecurity(id, expected, d)).1 == Wrote(Applied)
    ensures var q := Execute(t, UpdateSecurity(id, expected, d)).0;
            && id in q.securities && id in t.securities
            && var r := t.securities[id];
               ReadSecurity(q.securities[id])
               == Some(d.(issuer := r.issuer, kind := r.kind, underlying := r.underlying, createdAt := r.createdAt))
  {}

  // ---------------------------------------------------------------- patches

  /** The patch that says what `d` says, as far as a patch can. */
  function IssuerPatchOf(d: IssuerData): IssuerPatch {
    IssuerPatch(d.name, Some(d.status), d.cnpj, d.lei, d.country)
  }

  predicate KeepsValue<T>(given: Option<T>, column: Option<T>) {
    given.None? ==> column.None?
  }

  /** A patch does what a full replace does exactly when the replace clears nothing. */
  lemma PatchIsReplaceIff(t: Tables, id: Id, expected: u32, d: IssuerData)
    requires id in t.issuers && t.issuers[id].version == expected
    requires IssuerViolation(t, id, ReplacedIssuer(t.issuers[id], d)).None?
             || IssuerViolation(t, id, PatchedIssuer(t.issuers[id], IssuerPatchOf(d))).None?
    ensures var r := t.issuers[id];
            Execute(t, PatchIssuer(id, expected, IssuerPatchOf(d))) == Execute(t, UpdateIssuer(id, expected, d))
            <==> KeepsValue(d.name, r.name) && KeepsValue(d.cnpj, r.cnpj)
                 && KeepsValue(d.lei, r.lei) && KeepsValue(d.country, r.country)
  {
    var r := t.issuers[id];
    var patched, replaced := PatchedIssuer(r, IssuerPatchOf(d)), ReplacedIssuer(r, d);
    if IssuerViolation(t, id, patched).None? && IssuerViolation(t, id, replaced).None? {
      assert Execute(t, PatchIssuer(id, expected, IssuerPatchOf(d))).0.issuers[id] == patched;
      assert Execute(t, UpdateIssuer(id, expected, d)).0.issuers[id] == replaced;
    }
  }

  /** A patch reads back with the given values over the old ones. */
  lemma PatchedIssuerIsFound(t: Tables, id: Id, expected: u32, p: IssuerPatch)
    requires Execute(t, PatchIssuer(id, expected, p)).1 == Wrote(Applied)
    ensures var q := Execute(t, PatchIssuer(id, expected, p)).0;
            && id in q.issuers && id in t.issuers
            && Some(ReadIssuer(q.issuers[id]))
               == IssuerAfter(Some(ReadIssuer(t.issuers[id])), PatchIssuer(id, expected, p))
  {}

  /** The patch that does both: what the second leaves out the first decides. */
  function Both(p: IssuerPatch, q: IssuerPatch): IssuerPatch {
    IssuerPatch(Coalesce(q.name, p.name), Coalesce(q.status, p.status), Coalesce(q.cnpj, p.cnpj),
                Coalesce(q.lei, p.lei), Coalesce(q.country, p.country))
  }

  /** Two patches in a row read back as one. */
  lemma PatchesCompose(t: Tables, id: Id, expected: u32, p: IssuerPatch, q: IssuerPatch)
    requires expected + 1 < U32_SPACE
    requires var first := Execute(t, PatchIssuer(id, expected, p));
             first.1 == Wrote(Applied) && Execute(first.0, PatchIssuer(id, expected + 1, q)).1 == Wrote(Applied)
    ensures var twice := Execute(Execute(t, PatchIssuer(id, expected, p)).0, PatchIssuer(id, expected + 1, q)).0;
            && id in twice.issuers && id in t.issuers
            && ReadIssuer(twice.issuers[id]) == ReadIssuer(PatchedIssuer(t.issuers[id], Both(p, q)))
            && Execute(t, PatchIssuer(id, expected, Both(p, q))).1 == Wrote(Applied)
  {
    var first := Execute(t, PatchIssuer(id, expected, p)).0;
    var second := PatchedIssuer(first.issuers[id], q);
    var once := PatchedIssuer(t.issuers[id], Both(p, q));
    assert first.issuers[id] == PatchedIssuer(t.issuers[id], p);
    assert second == once.(version := once.version + 1);
    SameViolation(t, first, id, second, once);
  }

  /** Constraints neither look at the version nor at the row that is being replaced. */
  lemma SameViolation(t: Tables, q: Tables, id: Id, second: IssuerRow, once: IssuerRow)
    requires second == once.(version := once.version + 1)
    requires q.issuers.Keys == t.issuers.Keys && forall o | o in t.issuers && o != id :: q.issuers[o] == t.issuers[o]
    requires IssuerViolation(q, id, second).None?
    ensures IssuerViolation(t, id, once).None?
  {
    assert CnpjFree(q, id, second.cnpj) && LeiFree(q, id, second.lei);
  }

  /** A security patch writes both sides of the ratio or neither, and never the identity facts. */
  lemma PatchedSecurityIsFound(t: Tables, id: Id, expected: u32, p: SecurityPatch)
    requires Execute(t, PatchSecurity(id, expected, p)).1 == Wrote(Applied)
    requires id in t.securities && ReadSecurity(t.securities[id]).Some?
    ensures var q := Execute(t, PatchSecurity(id, expected, p)).0;
            && id in q.securities
            && var before := ReadSecurity(t.securities[id]).value;
               ReadSecurity(q.securities[id])
               == Some(before.(name := Coalesce(p.name, before.name),
                               status := if p.status.Some? then p.status.value else before.status,
                               isin := Coalesce(p.isin, before.isin),
                               cfi := Coalesce(p.cfi, before.cfi),
                               ratio := Coalesce(p.ratio, before.ratio)))
  {}

  // ---------------------------------------------------------------- whole runs

  function StoredIssuer(t: Tables, id: Id): Option<IssuerData> {
    if id in t.issuers then Some(ReadIssuer(t.issuers[id])) else None
  }

  function StoredSecurity(t: Tables, id: Id): Option<SecurityData> {
    if id in t.securities then ReadSecurity(t.securities[id]) else None
  }

  /** The write took effect: its caller heard `Inserted` or `Applied`. */
  predicate Succeeded(reply: Reply) {
    reply == Inserted || reply == Wrote(Applied)
  }

  /** What a successful write makes of an issuer, told on the data that callers see. */
  function IssuerAfter(before: Option<IssuerData>, op: Op): Option<IssuerData> {
    match op
    case InsertIssuer(_, d) => Some(d)
    case PatchIssuer(_, _, p) =>
      if before.None? then None
      else
        var d := before.value;
        Some(d.(name := Coalesce(p.name, d.name),
                status := if p.status.Some? then p.status.value else d.status,
                cnpj := Coalesce(p.cnpj, d.cnpj),
                lei := Coalesce(p.lei, d.lei),
                country := Coalesce(p.country, d.country)))
    case UpdateIssuer(_, _, d) => if before.None? then None else Some(d.(createdAt := before.value.createdAt))
    case _ => None
  }

  /** The same for a security: an update keeps the identity facts, the ratio changes as a pair. */
  function SecurityAfter(before: Option<SecurityData>, op: Op): Option<SecurityData> {
    match op
    case InsertSecurity(_, d) => Some(d)
    case PatchSecurity(_, _, p) =>
      if before.None? then None
      else
        var d := before.value;
        Some(d.(name := Coalesce(p.name, d.name),
                status := if p.status.Some? then p.status.value else d.status,
                isin := Coalesce(p.isin, d.isin),
                cfi := Coalesce(p.cfi, d.cfi),
                ratio := Coalesce(p.ratio, d.ratio)))
    case UpdateSecurity(_, _, d) =>
      if before.None? then None
      else
        var b := before.value;
        Some(d.(issuer := b.issuer, kind := b.kind, underlying := b.underlying, createdAt := b.createdAt))
    case _ => None
  }

  /** An issuer replayed from the writes on it that succeeded; the tables are consulted for the replies only. */
  function ReplayedIssuer(t: Tables, ops: seq<Op>, id: Id): Option<IssuerData> {
    if ops == [] then StoredIssuer(t, id)
    else
      var n := |ops| - 1;
      var before := ReplayedIssuer(t, ops[..n], id);
      if KeyOf(ops[n]) == IssuerKey(id) && Succeeded(ReplyAt(t, ops, n)) then IssuerAfter(before, ops[n]) else before
  }

  function ReplayedSecurity(t: Tables, ops: seq<Op>, id: Id): Option<SecurityData> {
    if ops == [] then StoredSecurity(t, id)
    else
      var n := |ops| - 1;
      var before := ReplayedSecurity(t, ops[..n], id);
      if KeyOf(ops[n]) == SecurityKey(id) && Succeeded(ReplyAt(t, ops, n)) then SecurityAfter(before, ops[n])
      else before
  }

  lemma IssuerStep(t: Tables, op: Op, id: Id)
    ensures StoredIssuer(Execute(t, op).0, id)
         == if KeyOf(op) == IssuerKey(id) && Succeeded(Execute(t, op).1)
            then IssuerAfter(StoredIssuer(t, id), op) else StoredIssuer(t, id)
  {
    ReplyMeaning(t, op);
    WriteTouchesOneRow(t, op);
    if KeyOf(op) == IssuerKey(id) && Succeeded(Execute(t, op).1) {
      match op
      case InsertIssuer(_, d) => InsertedIssuerIsFound(t, id, d);
      case PatchIssuer(_, expected, p) => PatchedIssuerIsFound(t, id, expected, p);
      case UpdateIssuer(_, expected, d) => UpdatedIssuerIsFound(t, id, expected, d);
      case _ =>
    }
  }

  lemma SecurityStep(t: Tables, op: Op, id: Id)
    requires Sound(t)
    ensures StoredSecurity(Execute(t, op).0, id)
         == if KeyOf(op) == SecurityKey(id) && Succeeded(Execute(t, op).1)
            then SecurityAfter(StoredSecurity(t, id), op) else StoredSecurity(t, id)
  {
    ReplyMeaning(t, op);
    WriteTouchesOneRow(t, op);
    if id in t.securities {
      RatiosAreReadable(t, id);
    }
    if KeyOf(op) == SecurityKey(id) && Succeeded(Execute(t, op).1) {
      match op
      case InsertSecurity(_, d) => InsertedSecurityIsFound(t, id, d);
      case PatchSecurity(_, expected, p) => PatchedSecurityIsFound(t, id, expected, p);
      case UpdateSecurity(_, expected, d) => UpdatedSecurityIsFound(t, id, expected, d);
      case _ =>
    }
  }

  /** Over every run, what is read of an issuer is the replay of the successful writes on it and no others. */
  lemma {:induction false} IssuerIsReplay(t: Tables, ops: seq<Op>, id: Id)
    ensures StoredIssuer(Final(t, ops), id) == ReplayedIssuer(t, ops, id)
  {
    if ops != [] {
      var n := |ops| - 1;
      IssuerIsReplay(t, ops[..n], id);
      IssuerStep(Final(t, ops[..n]), ops[n], id);
    }
  }

  /** The same for securities, and every stored one can be read. */
  lemma {:induction false} SecurityIsReplay(t: Tables, ops: seq<Op>, id: Id)
    requires Sound(t)
    ensures StoredSecurity(Final(t, ops), id) == ReplayedSecurity(t, ops, id)
    ensures id in Final(t, ops).securities <==> ReplayedSecurity(t, ops, id).Some?
  {
    RunsKeepSound(t, ops);
    if id in Final(t, ops).securities {
      RatiosAreReadable(Final(t, ops), id);
    }
    if ops != [] {
      var n := |ops| - 1;
      RunsKeepSound(t, ops[..n]);
      SecurityIsReplay(t, ops[..n], id);
      SecurityStep(Final(t, ops[..n]), ops[n], id);
    }
  }
}
