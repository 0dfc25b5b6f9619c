/** The repositories' writes: one guarded SQL statement each, and what the caller is told. */
module Store {
  import opened Wrappers
  import opened Schema

  // ---------------------------------------------------------------- what callers send

  datatype IssuerData = IssuerData(
    name: Option<string>,
    status: Status,
    createdAt: string,
    cnpj: Option<string>,
    lei: Option<string>,
    country: Option<string>)

  datatype IssuerPatch = IssuerPatch(
    name: Option<string>,
    status: Option<Status>,
    cnpj: Option<string>,
    lei: Option<string>,
    country: Option<string>)

  /** Both sides are `NonZeroU32`. */
  type Side = x: int | 0 < x < U32_SPACE witness 1

  datatype Ratio = Ratio(receipts: Side, underlying: Side)

  datatype SecurityData = SecurityData(
    issuer: Id,
    name: Option<string>,
    kind: Kind,
    status: Status,
    createdAt: string,
    isin: Option<string>,
    cfi: Option<string>,
    underlying: Option<Id>,
    ratio: Option<Ratio>)

  datatype SecurityPatch = SecurityPatch(
    name: Option<string>,
    status: Option<Status>,
    isin: Option<string>,
    cfi: Option<string>,
    ratio: Option<Ratio>)

  datatype Op =
    | InsertIssuer(id: Id, issuer: IssuerData)
    | PatchIssuer(id: Id, expected: u32, issuerPatch: IssuerPatch)
    | UpdateIssuer(id: Id, expected: u32, issuer: IssuerData)
    | DeleteIssuer(id: Id, expected: u32)
    | InsertSecurity(id: Id, security: SecurityData)
    | PatchSecurity(id: Id, expected: u32, securityPatch: SecurityPatch)
    | UpdateSecurity(id: Id, expected: u32, security: SecurityData)
    | DeleteSecurity(id: Id, expected: u32)

  datatype WriteOutcome = Applied | VersionMismatch(expected: u32, actual: u32) | Missing

  /** A constraint violation, or a stored version the 32-bit column mapping cannot read. */
  datatype Fault = Violated(constraint: Constraint) | UnreadableVersion

  datatype Reply = Inserted | Wrote(outcome: WriteOutcome) | Faulted(fault: Fault)

  // ---------------------------------------------------------------- rows

  /** `COALESCE(?, column)`. */
  function Coalesce<T>(given: Option<T>, column: Option<T>): Option<T> {
    if given.Some? then given else column
  }

  function NewIssuer(d: IssuerData): IssuerRow {
    IssuerRow(d.name, d.status, d.createdAt, 1, d.cnpj, d.lei, d.country)
  }

  function PatchedIssuer(r: IssuerRow, p: IssuerPatch): IssuerRow {
    IssuerRow(
      Coalesce(p.name, r.name),
      if p.status.Some? then p.status.value else r.status,
      r.createdAt,
      r.version + 1,
      Coalesce(p.cnpj, r.cnpj),
      Coalesce(p.lei, r.lei),
      Coalesce(p.country, r.country))
  }

  function ReplacedIssuer(r: IssuerRow, d: IssuerData): IssuerRow {
    IssuerRow(d.name, d.status, r.createdAt, r.version + 1, d.cnpj, d.lei, d.country)
  }

  function Receipts(ratio: Option<Ratio>): Option<int> {
    if ratio.Some? then Some(ratio.value.receipts) else None
  }

  function UnderlyingUnits(ratio: Option<Ratio>): Option<int> {
    if ratio.Some? then Some(ratio.value.underlying) else None
  }

  function NewSecurity(d: SecurityData): SecurityRow {
    SecurityRow(d.issuer, d.name, d.kind, d.status, d.createdAt, 1, d.isin, d.cfi, d.underlying,
                Receipts(d.ratio), UnderlyingUnits(d.ratio))
  }

  function PatchedSecurity(r: SecurityRow, p: SecurityPatch): SecurityRow {
    r.(name := Coalesce(p.name, r.name),
       status := if p.status.Some? then p.status.value else r.status,
       version := r.version + 1,
       isin := Coalesce(p.isin, r.isin),
       cfi := Coalesce(p.cfi, r.cfi),
       receipts := Coalesce(Receipts(p.ratio), r.receipts),
       underlyingUnits := Coalesce(UnderlyingUnits(p.ratio), r.underlyingUnits))
  }

  /** Issuer, kind, underlying link and creation time are not written by a full replace. */
  function ReplacedSecurity(r: SecurityRow, d: SecurityData): SecurityRow {
    r.(name := d.name,
       status := d.status,
       version := r.version + 1,
       isin := d.isin,
       cfi := d.cfi,
       receipts := Receipts(d.ratio),
       underlyingUnits := UnderlyingUnits(d.ratio))
  }

  // ---------------------------------------------------------------- statements

  /** Zero rows affected: the version is read again to tell a stale write from a missing row. */
  function ZeroRows(version: Option<nat>, expected: u32): Reply {
    if version.None? then Wrote(Missing)
    else if version.value >= U32_SPACE then Faulted(UnreadableVersion)
    else Wrote(VersionMismatch(expected, version.value))
  }

  function IssuerVersion(t: Tables, id: Id): Option<nat> {
    if id in t.issuers then Some(t.issuers[id].version) else None
  }

  function SecurityVersion(t: Tables, id: Id): Option<nat> {
    if id in t.securities then Some(t.securities[id].version) else None
  }

  function PutIssuer(t: Tables, id: Id, row: IssuerRow, reply: Reply): (Tables, Reply) {
    var v := IssuerViolation(t, id, row);
    if v.Some? then (t, Faulted(Violated(v.value))) else (t.(issuers := t.issuers[id := row]), reply)
  }

  function PutSecurity(t: Tables, id: Id, row: SecurityRow, reply: Reply): (Tables, Reply) {
    var v := SecurityViolation(t, id, row);
    if v.Some? then (t, Faulted(Violated(v.value))) else (t.(securities := t.securities[id := row]), reply)
  }

  /** One repository write on the tables. */
  function Execute(t: Tables, op: Op): (Tables, Reply) {
    match op
    case InsertIssuer(id, d) =>
      if id in t.issuers then (t, Faulted(Violated(PrimaryKey)))
      else PutIssuer(t, id, NewIssuer(d), Inserted)
    case PatchIssuer(id, expected, p) =>
      if IssuerVersion(t, id) != Some(expected) then (t, ZeroRows(IssuerVersion(t, id), expected))
      else PutIssuer(t, id, PatchedIssuer(t.issuers[id], p), Wrote(Applied))
    case UpdateIssuer(id, expected, d) =>
      if IssuerVersion(t, id) != Some(expected) then (t, ZeroRows(IssuerVersion(t, id), expected))
      else PutIssuer(t, id, ReplacedIssuer(t.issuers[id], d), Wrote(Applied))
    case DeleteIssuer(id, expected) =>
      if IssuerVersion(t, id) != Some(expected) then (t, ZeroRows(IssuerVersion(t, id), expected))
      else if IssuerReferenced(t, id) then (t, Faulted(Violated(ForeignKey)))
      else (t.(issuers := t.issuers - {id}), Wrote(Applied))
    case InsertSecurity(id, d) =>
      if id in t.securities then (t, Faulted(Violated(PrimaryKey)))
      else PutSecurity(t, id, NewSecurity(d), Inserted)
    case PatchSecurity(id, expected, p) =>
      if SecurityVersion(t, id) != Some(expected) then (t, ZeroRows(SecurityVersion(t, id), expected))
      else PutSecurity(t, id, PatchedSecurity(t.securities[id], p), Wrote(Applied))
    case UpdateSecurity(id, expected, d) =>
      if SecurityVersion(t, id) != Some(expected) then (t, ZeroRows(SecurityVersion(t, id), expected))
      else PutSecurity(t, id, ReplacedSecurity(t.securities[id], d), Wrote(Applied))
    case DeleteSecurity(id, expected) =>
      if SecurityVersion(t, id) != Some(expected) then (t, ZeroRows(SecurityVersion(t, id), expected))
      else if SecurityReferenced(t, id) then (t, Faulted(Violated(ForeignKey)))
      else (t.(securities := t.securities - {id}), Wrote(Applied))
  }

  // ---------------------------------------------------------------- the tables in place

  /** The tables as the connection changes them, one method per repository write. */
  class Connection {
    var issuers: map<Id, IssuerRow>
    var securities: map<Id, SecurityRow>

    function View(): Tables
      reads this
    {
      Tables(issuers, securities)
    }

    constructor ()
      ensures View() == EMPTY
    {
      issuers, securities := map[], map[];
    }

    method AddIssuer(id: Id, d: IssuerData) returns (reply: Reply)
      modifies this
      ensures (View(), reply) == Execute(old(View()), InsertIssuer(id, d))
    {
      if id in issuers {
        return Faulted(Violated(PrimaryKey));
      }
      var row := NewIssuer(d);
      var v := IssuerViolation(View(), id, row);
      if v.Some? {
        return Faulted(Violated(v.value));
      }
      issuers := issuers[id := row];
      return Inserted;
    }

    /** The shared shape of the two guarded issuer writes: `WHERE id = ? AND version = ?`. */
    method WriteIssuer(id: Id, expected: u32, change: IssuerRow -> IssuerRow) returns (reply: Reply)
      modifies this
      ensures var t := old(View());
              (View(), reply) ==
              if IssuerVersion(t, id) != Some(expected) then (t, ZeroRows(IssuerVersion(t, id), expected))
              else PutIssuer(t, id, change(t.issuers[id]), Wrote(Applied))
    {
      if id in issuers && issuers[id].version == expected {
        var row := change(issuers[id]);
        var v := IssuerViolation(View(), id, row);
        if v.Some? {
          return Faulted(Violated(v.value));
        }
        issuers := issuers[id := row];
        return Wrote(Applied);
      }
      return ZeroRows(IssuerVersion(View(), id), expected);
    }

    method ApplyIssuerPatch(id: Id, expected: u32, p: IssuerPatch) returns (reply: Reply)
      modifies this
      ensures (View(), reply) == Execute(old(View()), PatchIssuer(id, expected, p))
    {
      reply := WriteIssuer(id, expected, r => PatchedIssuer(r, p));
    }

    method ReplaceIssuer(id: Id, expected: u32, d: IssuerData) returns (reply: Reply)
      modifies this
      ensures (View(), reply) == Execute(old(View()), UpdateIssuer(id, expected, d))
    {
      reply := WriteIssuer(id, expected, r => ReplacedIssuer(r, d));
    }

    method RemoveIssuer(id: Id, expected: u32) returns (reply: Reply)
      modifies this
      ensures (View(), reply) == Execute(old(View()), DeleteIssuer(id, expected))
    {
      if id in issuers && issuers[id].version == expected {
        if IssuerReferenced(View(), id) {
          return Faulted(Violated(ForeignKey));
        }
        issuers := issuers - {id};
        return Wrote(Applied);
      }
      return ZeroRows(IssuerVersion(View(), id), expected);
    }

    method AddSecurity(id: Id, d: SecurityData) returns (reply: Reply)
      modifies this
      ensures (View(), reply) == Execute(old(View()), InsertSecurity(id, d))
    {
      if id in securities {
        return Faulted(Violated(PrimaryKey));
      }
      var row := NewSecurity(d);
      var v := SecurityViolation(View(), id, row);
      if v.Some? {
        return Faulted(Violated(v.value));
      }
      securities := securities[id := row];
      return Inserted;
    }

    method WriteSecurity(id: Id, expected: u32, change: SecurityRow -> SecurityRow) returns (reply: Reply)
      modifies this
      ensures var t := old(View());
              (View(), reply) ==
              if SecurityVersion(t, id) != Some(expected) then (t, ZeroRows(SecurityVersion(t, id), expected))
              else PutSecurity(t, id, change(t.securities[id]), Wrote(Applied))
    {
      if id in securities && securities[id].version == expected {
        var row := change(securities[id]);
        var v := SecurityViolation(View(), id, row);
        if v.Some? {
          return Faulted(Violated(v.value));
        }
        securities := securities[id := row];
        return Wrote(Applied);
      }
      return ZeroRows(SecurityVersion(View(), id), expected);
    }

    method ApplySecurityPatch(id: Id, expected: u32, p: SecurityPatch) returns (reply: Reply)
      modifies this
      ensures (View(), reply) == Execute(old(View()), PatchSecurity(id, expected, p))
    {
      reply := WriteSecurity(id, expected, r => PatchedSecurity(r, p));
    }

    method ReplaceSecurity(id: Id, expected: u32, d: SecurityData) returns (reply: Reply)
      modifies this
      ensures (View(), reply) == Execute(old(View()), UpdateSecurity(id, expected, d))
    {
      reply := WriteSecurity(id, expected, r => ReplacedSecurity(r, d));
    }

    method RemoveSecurity(id: Id, expected: u32) returns (reply: Reply)
      modifies this
      ensures (View(), reply) == Execute(old(View()), DeleteSecurity(id, expected))
    {
      if id in securities && securities[id].version == expected {
        if SecurityReferenced(View(), id) {
          return Faulted(Violated(ForeignKey));
        }
        securities := securities - {id};
        return Wrote(Applied);
      }
      return ZeroRows(SecurityVersion(View(), id), expected);
    }
  }
}
