/** The domain builders, and how their checks relate to the schema's. */
module Domain {
  import opened Wrappers
  import opened Schema
  import opened Store
  import opened Integrity

  // ---------------------------------------------------------------- issuers

  datatype IssuerBuilder = IssuerBuilder(
    id: Option<Id>,
    status: Option<Status>,
    createdAt: Option<string>,
    name: Option<string>,
    cnpj: Option<string>,
    lei: Option<string>,
    country: Option<string>)

  datatype IssuerError = InvalidCountryForCnpj(country: string)

  /** `build`, given the fresh id and the present time it falls back on. */
  function BuildIssuer(b: IssuerBuilder, newId: Id, now: string): Result<(Id, IssuerData), IssuerError> {
    var id := if b.id.Some? then b.id.value else newId;
    var status := if b.status.Some? then b.status.value else Active;
    var createdAt := if b.createdAt.Some? then b.createdAt.value else now;
    if b.cnpj.Some? && b.country.Some? && b.country.value != BR then
      Err(InvalidCountryForCnpj(b.country.value))
    else
      var country := if b.cnpj.Some? && b.country.None? then Some(BR) else b.country;
      Ok((id, IssuerData(b.name, status, createdAt, b.cnpj, b.lei, country)))
  }

  /**
   A built issuer is Brazilian when it has a CNPJ. Country codes are two letters long, and so no schema CHECK ever
   rejects it.
   */
  lemma BuiltIssuerPassesChecks(b: IssuerBuilder, newId: Id, now: string)
    requires b.country.Some? ==> |b.country.value| == 2
    ensures BuildIssuer(b, newId, now).Ok? <==> (b.cnpj.Some? ==> b.country == None || b.country == Some(BR))
    ensures BuildIssuer(b, newId, now).Ok? ==>
            var row := NewIssuer(BuildIssuer(b, newId, now).value.1);
            Brazilian(row) && IssuerChecks(row)
  {
    assert |BR| == 2;
  }

  /** What is built holds what was given; for the rest, an active status, the present time and a fresh id. */
  lemma BuiltIssuerHolds(b: IssuerBuilder, newId: Id, now: string)
    requires BuildIssuer(b, newId, now).Ok?
    ensures var (id, d) := BuildIssuer(b, newId, now).value;
            && d.name == b.name && d.cnpj == b.cnpj && d.lei == b.lei
            && d.country == (if b.cnpj.Some? then Some("BR") else b.country)
            && (b.id == Some(id) || (b.id == None && id == newId))
            && (b.status == Some(d.status) || (b.status == None && d.status == Active))
            && (b.createdAt == Some(d.createdAt) || (b.createdAt == None && d.createdAt == now))
  {}

  /** The only refusal is a CNPJ with a country other than Brazil, and it names the country. */
  lemma IssuerRefusal(b: IssuerBuilder, newId: Id, now: string, country: string)
    ensures BuildIssuer(b, newId, now) == Err(InvalidCountryForCnpj(country)) <==>
            b.cnpj.Some? && b.country == Some(country) && country != "BR"
  {}

  // ---------------------------------------------------------------- securities

  datatype SecurityBuilder = SecurityBuilder(
    issuer: Id,
    kind: Kind,
    id: Option<Id>,
    status: Option<Status>,
    createdAt: Option<string>,
    name: Option<string>,
    isin: Option<string>,
    cfi: Option<string>,
    underlying: Option<Id>,
    ratio: Option<Ratio>)

  datatype SecurityError =
    | UnderlyingRequiresDepositaryReceipt(kind: Kind)
    | DrRatioRequiresDepositaryReceipt(kind: Kind)
    | SelfUnderlying

  function BuildSecurity(b: SecurityBuilder, newId: Id, now: string): Result<(Id, SecurityData), SecurityError> {
    var id := if b.id.Some? then b.id.value else newId;
    var status := if b.status.Some? then b.status.value else Active;
    var createdAt := if b.createdAt.Some? then b.createdAt.value else now;
    if b.kind != DepositaryReceipt && b.underlying.Some? then Err(UnderlyingRequiresDepositaryReceipt(b.kind))
    else if b.kind != DepositaryReceipt && b.ratio.Some? then Err(DrRatioRequiresDepositaryReceipt(b.kind))
    else if b.underlying == Some(id) then Err(SelfUnderlying)
    else Ok((id, SecurityData(b.issuer, b.name, b.kind, status, createdAt, b.isin, b.cfi, b.underlying, b.ratio)))
  }

  /** The builder accepts exactly the data whose row the schema's CHECKs accept (a CFI has six letters). */
  lemma BuildSecurityMatchesChecks(b: SecurityBuilder, newId: Id, now: string)
    requires b.cfi.Some? ==> |b.cfi.value| == 6
    ensures var id := if b.id.Some? then b.id.value else newId;
            var status := if b.status.Some? then b.status.value else Active;
            var createdAt := if b.createdAt.Some? then b.createdAt.value else now;
            var data := SecurityData(b.issuer, b.name, b.kind, status, createdAt, b.isin, b.cfi, b.underlying, b.ratio);
            BuildSecurity(b, newId, now).Ok? <==> SecurityChecks(id, NewSecurity(data))
  {
    var id := if b.id.Some? then b.id.value else newId;
    var row := NewSecurity(SecurityData(b.issuer, b.name, b.kind, Active, "", b.isin, b.cfi, b.underlying, b.ratio));
    SecurityChecksMean(id, row);
  }

  lemma BuiltSecurityHolds(b: SecurityBuilder, newId: Id, now: string)
    requires BuildSecurity(b, newId, now).Ok?
    ensures var (id, d) := BuildSecurity(b, newId, now).value;
            && d.issuer == b.issuer && d.kind == b.kind && d.name == b.name && d.isin == b.isin && d.cfi == b.cfi
            && d.underlying == b.underlying && d.ratio == b.ratio
            && (b.id == Some(id) || (b.id == None && id == newId))
            && (b.status == Some(d.status) || (b.status == None && d.status == Active))
            && (b.createdAt == Some(d.createdAt) || (b.createdAt == None && d.createdAt == now))
  {}

  /** The first refusal that holds: an underlying, then a ratio, on what is no receipt; then a receipt of itself. */
  lemma SecurityRefusals(b: SecurityBuilder, newId: Id, now: string)
    ensures var r := BuildSecurity(b, newId, now);
            var plain := b.kind != DepositaryReceipt;
            && (r == Err(UnderlyingRequiresDepositaryReceipt(b.kind)) <==> plain && b.underlying.Some?)
            && (r == Err(DrRatioRequiresDepositaryReceipt(b.kind)) <==> plain && b.underlying.None? && b.ratio.Some?)
            && (r == Err(SelfUnderlying) <==>
                  !plain && b.underlying.Some? && b.underlying.value == (if b.id.Some? then b.id.value else newId))
  {}
}
