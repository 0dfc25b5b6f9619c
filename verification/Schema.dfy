/** The two tables and the constraints every write must pass, with SQL's three-valued CHECKs. */
module Schema {
  import opened Wrappers

  /** Sixteen-byte identifiers compare as blobs, which is to say as big-endian numbers. */
  const ID_SPACE: nat := 0x1_0000_0000_0000_0000_0000_0000_0000_0000

  type Id = x: nat | x < ID_SPACE

  const U32_SPACE: nat := 0x1_0000_0000

  type u32 = x: nat | x < U32_SPACE

  datatype Status = Active | Retired

  datatype Kind = CommonShare | PreferredShare | Unit | DepositaryReceipt

  datatype IssuerRow = IssuerRow(
    name: Option<string>,
    status: Status,
    createdAt: string,
    version: nat,
    cnpj: Option<string>,
    lei: Option<string>,
    country: Option<string>)

  datatype SecurityRow = SecurityRow(
    issuer: Id,
    name: Option<string>,
    kind: Kind,
    status: Status,
    createdAt: string,
    version: nat,
    isin: Option<string>,
    cfi: Option<string>,
    underlying: Option<Id>,
    receipts: Option<int>,
    underlyingUnits: Option<int>)

  datatype Tables = Tables(issuers: map<Id, IssuerRow>, securities: map<Id, SecurityRow>)

  const EMPTY: Tables := Tables(map[], map[])

  // ---------------------------------------------------------------- three-valued logic

  datatype Truth = True | False | Unknown

  function Of(b: bool): Truth {
    if b then True else False
  }

  function Or(a: Truth, b: Truth): Truth {
    if a == True || b == True then True
    else if a == False && b == False then False
    else Unknown
  }

  function And(a: Truth, b: Truth): Truth {
    if a == False || b == False then False
    else if a == True && b == True then True
    else Unknown
  }

  function IsNull<T>(column: Option<T>): Truth {
    Of(column.None?)
  }

  /** `column = value`: unknown on NULL. */
  function Equals<T(==)>(column: Option<T>, value: T): Truth {
    if column.None? then Unknown else Of(column.value == value)
  }

  function Differs<T(==)>(column: Option<T>, value: T): Truth {
    if column.None? then Unknown else Of(column.value != value)
  }

  function LengthIs(column: Option<string>, n: nat): Truth {
    if column.None? then Unknown else Of(|column.value| == n)
  }

  function Positive(column: Option<int>): Truth {
    if column.None? then Unknown else Of(column.value > 0)
  }

  /** A CHECK rejects a row only when it is false; unknown passes. */
  predicate Passes(check: Truth) {
    check != False
  }

  // ---------------------------------------------------------------- the constraints

  const BR: string := "BR"

  predicate IssuerChecks(r: IssuerRow) {
    && Passes(Or(IsNull(r.country), LengthIs(r.country, 2)))
    && Passes(Or(IsNull(r.cnpj), Equals(r.country, BR)))
  }

  predicate SecurityChecks(id: Id, r: SecurityRow) {
    && Passes(Or(IsNull(r.cfi), LengthIs(r.cfi, 6)))
    && Passes(Or(IsNull(r.receipts), Positive(r.receipts)))
    && Passes(Or(IsNull(r.underlyingUnits), Positive(r.underlyingUnits)))
    && Passes(Of(IsNull(r.receipts) == IsNull(r.underlyingUnits)))
    && Passes(Or(Of(r.kind == DepositaryReceipt),
                 And(IsNull(r.underlying), And(IsNull(r.receipts), IsNull(r.underlyingUnits)))))
    && Passes(Or(IsNull(r.underlying), Differs(r.underlying, id)))
  }

  /** UNIQUE ignores NULLs: no other row carries the same value. */
  predicate CnpjFree(t: Tables, id: Id, cnpj: Option<string>) {
    cnpj.Some? ==> forall o | o in t.issuers && o != id :: t.issuers[o].cnpj != cnpj
  }

  predicate LeiFree(t: Tables, id: Id, lei: Option<string>) {
    lei.Some? ==> forall o | o in t.issuers && o != id :: t.issuers[o].lei != lei
  }

  predicate IsinFree(t: Tables, id: Id, isin: Option<string>) {
    isin.Some? ==> forall o | o in t.securities && o != id :: t.securities[o].isin != isin
  }

  /** Foreign keys are judged on the table after the statement, so a row may name itself. */
  predicate ReferencesExist(t: Tables, id: Id, r: SecurityRow) {
    && r.issuer in t.issuers
    && (r.underlying.Some? ==> r.underlying.value in t.securities || r.underlying.value == id)
  }

  datatype Constraint = PrimaryKey | UniqueCnpj | UniqueLei | UniqueIsin | Check | ForeignKey

  /** The constraint a new or changed issuer row violates first, if any. */
  function IssuerViolation(t: Tables, id: Id, r: IssuerRow): (v: Option<Constraint>)
    ensures v.None? <==> IssuerChecks(r) && CnpjFree(t, id, r.cnpj) && LeiFree(t, id, r.lei)
    ensures v == Some(UniqueCnpj) ==> !CnpjFree(t, id, r.cnpj)
    ensures v == Some(UniqueLei) ==> !LeiFree(t, id, r.lei)
  {
    if !IssuerChecks(r) then Some(Check)
    else if !CnpjFree(t, id, r.cnpj) then Some(UniqueCnpj)
    else if !LeiFree(t, id, r.lei) then Some(UniqueLei)
    else None
  }

  function SecurityViolation(t: Tables, id: Id, r: SecurityRow): (v: Option<Constraint>)
    ensures v.None? <==> SecurityChecks(id, r) && IsinFree(t, id, r.isin) && ReferencesExist(t, id, r)
    ensures v == Some(UniqueIsin) ==> !IsinFree(t, id, r.isin)
    ensures v == Some(ForeignKey) ==> !ReferencesExist(t, id, r)
  {
    if !SecurityChecks(id, r) then Some(Check)
    else if !IsinFree(t, id, r.isin) then Some(UniqueIsin)
    else if !ReferencesExist(t, id, r) then Some(ForeignKey)
    else None
  }

  predicate IssuerReferenced(t: Tables, id: Id) {
    exists s :: s in t.securities && t.securities[s].issuer == id
  }

  /** Another row names `id` as its underlying; a row that names itself goes away with the delete. */
  predicate SecurityReferenced(t: Tables, id: Id) {
    exists s :: s in t.securities && s != id && t.securities[s].underlying == Some(id)
  }
}
