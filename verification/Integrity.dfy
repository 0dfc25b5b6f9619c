/** What holds of the tables in every state the repositories can reach. */
module Integrity {
  import opened Wrappers
  import opened Schema
  import opened Store

  // ---------------------------------------------------------------- the invariant

  /** Versions start at 1; an expected version fits 32 bits, so no write goes past 2^32. */
  predicate VersionOk(version: nat) {
    1 <= version <= U32_SPACE
  }

  predicate SideOk(side: Option<int>) {
    side.Some? ==> 0 < side.value < U32_SPACE
  }

  predicate IssuersOk(t: Tables) {
    forall id | id in t.issuers ::
      && IssuerChecks(t.issuers[id])
      && VersionOk(t.issuers[id].version)
      && CnpjFree(t, id, t.issuers[id].cnpj)
      && LeiFree(t, id, t.issuers[id].lei)
  }

  predicate SecurityOk(t: Tables, id: Id)
    requires id in t.securities
  {
    var r := t.securities[id];
    && SecurityChecks(id, r)
    && VersionOk(r.version)
    && SideOk(r.receipts) && SideOk(r.underlyingUnits)
    && IsinFree(t, id, r.isin)
    && ReferencesExist(t, id, r)
  }

  predicate SecuritiesOk(t: Tables) {
    forall id | id in t.securities :: SecurityOk(t, id)
  }

  predicate NoRepeats(order: seq<Id>) {
    forall i, j | 0 <= i < j < |order| :: order[i] != order[j]
  }

  predicate ListsAll(securities: map<Id, SecurityRow>, order: seq<Id>) {
    && (forall i | 0 <= i < |order| :: order[i] in securities)
    && (forall id | id in securities :: id in order)
  }

  predicate UnderlyingBefore(securities: map<Id, SecurityRow>, order: seq<Id>, i: nat)
    requires i < |order| && order[i] in securities
  {
    securities[order[i]].underlying.Some? ==> securities[order[i]].underlying.value in order[..i]
  }

  /** The securities listed so that every underlying comes before the receipt that names it. */
  predicate Arranged(securities: map<Id, SecurityRow>, order: seq<Id>) {
    && NoRepeats(order)
    && ListsAll(securities, order)
    && forall i | 0 <= i < |order| :: UnderlyingBefore(securities, order, i)
  }

  ghost predicate Acyclic(t: Tables) {
    exists order :: Arranged(t.securities, order)
  }

  ghost predicate Sound(t: Tables) {
    IssuersOk(t) && SecuritiesOk(t) && Acyclic(t)
  }

  lemma EmptyIsSound()
    ensures Sound(EMPTY)
  {
    assert Arranged(EMPTY.securities, []);
  }

  // ---------------------------------------------------------------- what the checks mean

  /** The CHECKs of a security, without the three-valued reading. */
  lemma SecurityChecksMean(id: Id, r: SecurityRow)
    ensures SecurityChecks(id, r) <==>
            && (r.cfi.Some? ==> |r.cfi.value| == 6)
            && (r.receipts.Some? <==> r.underlyingUnits.Some?)
            && (r.receipts.Some? ==> r.receipts.value > 0 && r.underlyingUnits.value > 0)
            && (r.kind != DepositaryReceipt ==> r.underlying.None? && r.receipts.None?)
            && r.underlying != Some(id)
  {}

  /** The CHECKs of an issuer: a CNPJ admits country BR, and also no country at all. */
  lemma IssuerChecksMean(r: IssuerRow)
    ensures IssuerChecks(r) <==>
            && (r.country.Some? ==> |r.country.value| == 2)
            && (r.cnpj.Some? ==> r.country == None || r.country == Some(BR))
  {}

  // ---------------------------------------------------------------- every write keeps it

  lemma PutIssuerKeepsIssuers(t: Tables, id: Id, row: IssuerRow)
    requires IssuersOk(t) && IssuerViolation(t, id, row).None? && VersionOk(row.version)
    ensures IssuersOk(t.(issuers := t.issuers[id := row]))
  {
    var q := t.(issuers := t.issuers[id := row]);
    forall o | o in q.issuers
      ensures IssuerChecks(q.issuers[o]) && VersionOk(q.issuers[o].version)
      ensures CnpjFree(q, o, q.issuers[o].cnpj) && LeiFree(q, o, q.issuers[o].lei)
    {
      if o != id {
        assert CnpjFree(t, o, t.issuers[o].cnpj) && LeiFree(t, o, t.issuers[o].lei);
        assert CnpjFree(t, id, row.cnpj) && LeiFree(t, id, row.lei);
      }
    }
  }

  /** More issuers, or the same ones with other data, never break a security. */
  lemma IssuersDoNotMatter(t: Tables, q: Tables)
    requires SecuritiesOk(t) && q.securities == t.securities && t.issuers.Keys <= q.issuers.Keys
    ensures SecuritiesOk(q)
  {
    forall id | id in q.securities ensures SecurityOk(q, id) {
      assert SecurityOk(t, id);
      assert IsinFree(q, id, q.securities[id].isin);
    }
  }

  lemma RemoveIssuerKeepsSound(t: Tables, id: Id)
    requires IssuersOk(t) && SecuritiesOk(t) && !IssuerReferenced(t, id)
    ensures IssuersOk(t.(issuers := t.issuers - {id})) && SecuritiesOk(t.(issuers := t.issuers - {id}))
  {
    var q := t.(issuers := t.issuers - {id});
    forall o | o in q.issuers
      ensures CnpjFree(q, o, q.issuers[o].cnpj) && LeiFree(q, o, q.issuers[o].lei)
    {
      assert CnpjFree(t, o, t.issuers[o].cnpj) && LeiFree(t, o, t.issuers[o].lei);
    }
    forall s | s in q.securities ensures SecurityOk(q, s) {
      assert SecurityOk(t, s);
      assert IsinFree(q, s, q.securities[s].isin);
    }
  }

  lemma PutSecurityKeepsSecurities(t: Tables, id: Id, row: SecurityRow)
    requires SecuritiesOk(t) && SecurityViolation(t, id, row).None? && VersionOk(row.version)
    requires SideOk(row.receipts) && SideOk(row.underlyingUnits)
    ensures SecuritiesOk(t.(securities := t.securities[id := row]))
  {
    var q := t.(securities := t.securities[id := row]);
    forall s | s in q.securities ensures SecurityOk(q, s) {
      if s == id {
        assert IsinFree(q, id, row.isin);
        assert ReferencesExist(q, id, row);
      } else {
        assert SecurityOk(t, s);
        IsinStaysFree(t, id, row, s);
      }
    }
  }

  lemma IsinStaysFree(t: Tables, id: Id, row: SecurityRow, s: Id)
    requires s in t.securities && s != id && IsinFree(t, s, t.securities[s].isin) && IsinFree(t, id, row.isin)
    ensures IsinFree(t.(securities := t.securities[id := row]), s, t.securities[s].isin)
  {}

  lemma InsertKeepsArranged(t: Tables, id: Id, row: SecurityRow, order: seq<Id>)
    requires Arranged(t.securities, order) && id !in t.securities
    requires row.underlying.Some? ==> row.underlying.value in t.securities
    ensures Arranged(t.securities[id := row], order + [id])
  {
    var next := order + [id];
    var q := t.securities[id := row];
    forall i | 0 <= i < |next| ensures UnderlyingBefore(q, next, i) {
      if i < |order| {
        assert UnderlyingBefore(t.securities, order, i);
        assert next[..i] == order[..i];
      } else {
        assert next[..i] == order;
      }
    }
  }

  lemma ChangeKeepsArranged(t: Tables, id: Id, row: SecurityRow, order: seq<Id>)
    requires Arranged(t.securities, order) && id in t.securities
    requires row.underlying == t.securities[id].underlying
    ensures Arranged(t.securities[id := row], order)
  {
    var q := t.securities[id := row];
    forall i | 0 <= i < |order| ensures UnderlyingBefore(q, order, i) {
      assert UnderlyingBefore(t.securities, order, i);
    }
  }

  /** The list without its `k`-th entry; entry `i` of it is entry `Origin(i, k)` of the list. */
  function Without(order: seq<Id>, k: nat): (r: seq<Id>)
    requires k < |order|
    ensures |r| == |order| - 1
    ensures forall i | 0 <= i < |r| :: r[i] == order[Origin(i, k)]
  {
    order[..k] + order[k + 1..]
  }

  function Origin(i: int, k: int): int {
    if i < k then i else i + 1
  }

  lemma WithoutKeeps(order: seq<Id>, k: nat, j: nat, limit: nat)
    requires k < |order| && j < |order| && j != k && limit < |order| && j < Origin(limit, k)
    ensures order[j] in Without(order, k)[..limit]
  {
    var i := if j < k then j else j - 1;
    assert Without(order, k)[..limit][i] == order[j];
  }

  lemma WithoutLists(t: Tables, order: seq<Id>, k: nat)
    requires NoRepeats(order) && ListsAll(t.securities, order) && k < |order|
    ensures NoRepeats(Without(order, k)) && ListsAll(t.securities - {order[k]}, Without(order, k))
  {
    var next := Without(order, k);
    forall s | s in t.securities && s != order[k] ensures s in next {
      var j :| 0 <= j < |order| && order[j] == s;
      WithoutKeeps(order, k, j, |next|);
      assert next[..|next|] == next;
    }
  }

  lemma WithoutUnderlying(t: Tables, order: seq<Id>, k: nat, i: nat)
    requires Arranged(t.securities, order) && k < |order| && !SecurityReferenced(t, order[k])
    requires i < |order| - 1 && ListsAll(t.securities - {order[k]}, Without(order, k))
    ensures UnderlyingBefore(t.securities - {order[k]}, Without(order, k), i)
  {
    var from := Origin(i, k);
    assert UnderlyingBefore(t.securities, order, from);
    var underlying := t.securities[order[from]].underlying;
    if underlying.Some? {
      var j :| 0 <= j < from && order[j] == underlying.value;
      assert j != k;
      WithoutKeeps(order, k, j, i);
    }
  }

  lemma RemoveKeepsArranged(t: Tables, order: seq<Id>, k: nat)
    requires Arranged(t.securities, order) && k < |order| && !SecurityReferenced(t, order[k])
    ensures Arranged(t.securities - {order[k]}, Without(order, k))
  {
    WithoutLists(t, order, k);
    forall i | 0 <= i < |order| - 1 ensures UnderlyingBefore(t.securities - {order[k]}, Without(order, k), i) {
      WithoutUnderlying(t, order, k, i);
    }
  }

  lemma RemoveSecurityKeepsSecurities(t: Tables, id: Id)
    requires SecuritiesOk(t) && !SecurityReferenced(t, id)
    ensures SecuritiesOk(t.(securities := t.securities - {id}))
  {
    var q := t.(securities := t.securities - {id});
    forall s | s in q.securities ensures SecurityOk(q, s) {
      assert SecurityOk(t, s);
      assert IsinFree(q, s, q.securities[s].isin);
      assert t.securities[s].underlying != Some(id);
    }
  }

  lemma IssuerWriteKeepsSound(t: Tables, op: Op)
    requires Sound(t) && (op.InsertIssuer? || op.PatchIssuer? || op.UpdateIssuer? || op.DeleteIssuer?)
    ensures Sound(Execute(t, op).0)
  {
    var q := Execute(t, op).0;
    if q != t {
      if op.DeleteIssuer? {
        RemoveIssuerKeepsSound(t, op.id);
      } else {
        PutIssuerKeepsIssuers(t, op.id, q.issuers[op.id]);
        IssuersDoNotMatter(t, q);
      }
    }
  }

  /** The row a security write puts in place, when it succeeds. */
  lemma SecurityWriteRow(t: Tables, op: Op)
    requires SecuritiesOk(t) && (op.InsertSecurity? || op.PatchSecurity? || op.UpdateSecurity?)
    requires Execute(t, op).1 == Inserted || Execute(t, op).1 == Wrote(Applied)
    ensures var row := Execute(t, op).0.securities[op.id];
            && Execute(t, op).0 == t.(securities := t.securities[op.id := row])
            && SecurityViolation(t, op.id, row).None?
            && VersionOk(row.version) && SideOk(row.receipts) && SideOk(row.underlyingUnits)
            && (op.InsertSecurity? <==> op.id !in t.securities)
            && (!op.InsertSecurity? ==> row.underlying == t.securities[op.id].underlying)
  {
    if !op.InsertSecurity? {
      assert SecurityOk(t, op.id);
    }
  }

  lemma SecurityInsertKeepsAcyclic(t: Tables, id: Id, row: SecurityRow)
    requires Acyclic(t) && id !in t.securities && SecurityViolation(t, id, row).None?
    ensures Acyclic(t.(securities := t.securities[id := row]))
  {
    var order :| Arranged(t.securities, order);
    SecurityChecksMean(id, row);
    InsertKeepsArranged(t, id, row, order);
  }

  lemma SecurityChangeKeepsAcyclic(t: Tables, id: Id, row: SecurityRow)
    requires Acyclic(t) && id in t.securities && row.underlying == t.securities[id].underlying
    ensures Acyclic(t.(securities := t.securities[id := row]))
  {
    var order :| Arranged(t.securities, order);
    ChangeKeepsArranged(t, id, row, order);
  }

  lemma SecurityPutKeepsSound(t: Tables, op: Op)
    requires Sound(t) && (op.InsertSecurity? || op.PatchSecurity? || op.UpdateSecurity?)
    ensures Sound(Execute(t, op).0)
  {
    var (q, reply) := Execute(t, op);
    if reply == Inserted || reply == Wrote(Applied) {
      SecurityWriteRow(t, op);
      var row := q.securities[op.id];
      PutSecurityKeepsSecurities(t, op.id, row);
      if op.InsertSecurity? {
        SecurityInsertKeepsAcyclic(t, op.id, row);
      } else {
        SecurityChangeKeepsAcyclic(t, op.id, row);
      }
    }
  }

  lemma SecurityDeleteKeepsSound(t: Tables, op: Op)
    requires Sound(t) && op.DeleteSecurity?
    ensures Sound(Execute(t, op).0)
  {
    if Execute(t, op).1 == Wrote(Applied) {
      RemoveSecurityKeepsSecurities(t, op.id);
      var order :| Arranged(t.securities, order);
      var k :| 0 <= k < |order| && order[k] == op.id;
      RemoveKeepsArranged(t, order, k);
    }
  }

  /** No write, whatever its reply, breaks soundness. */
  lemma WriteKeepsSound(t: Tables, op: Op)
    requires Sound(t)
    ensures Sound(Execute(t, op).0)
  {
    if op.DeleteSecurity? {
      SecurityDeleteKeepsSound(t, op);
    } else if op.InsertSecurity? || op.PatchSecurity? || op.UpdateSecurity? {
      SecurityPutKeepsSound(t, op);
    } else {
      IssuerWriteKeepsSound(t, op);
    }
  }

  // ---------------------------------------------------------------- chains of receipts

  /** Stored securities, each the underlying of the one before, down to one that wraps nothing. */
  predicate Chain(t: Tables, id: Id, path: seq<Id>) {
    && path != [] && path[0] == id
    && (forall i | 0 <= i < |path| :: path[i] in t.securities)
    && (forall i | 1 <= i < |path| :: t.securities[path[i - 1]].underlying == Some(path[i]))
    && t.securities[path[|path| - 1]].underlying.None?
  }

  lemma {:induction false} ChainFrom(t: Tables, order: seq<Id>, i: nat) returns (path: seq<Id>)
    requires Arranged(t.securities, order) && i < |order|
    ensures |path| <= i + 1 && Chain(t, order[i], path)
  {
    assert UnderlyingBefore(t.securities, order, i);
    var underlying := t.securities[order[i]].underlying;
    if underlying.None? {
      path := [order[i]];
    } else {
      var j :| 0 <= j < i && order[j] == underlying.value;
      var rest := ChainFrom(t, order, j);
      path := [order[i]] + rest;
    }
  }

  lemma {:induction false} OrderSize(order: seq<Id>, ids: set<Id>)
    requires NoRepeats(order) && forall i | 0 <= i < |order| :: order[i] in ids
    ensures |order| <= |ids|
  {
    if order != [] {
      var n := |order| - 1;
      OrderSize(order[..n], ids - {order[n]});
    }
  }

  /** Every chain of depositary receipts ends, and is no longer than there are securities. */
  lemma ChainsEnd(t: Tables, id: Id)
    requires Sound(t) && id in t.securities
    ensures exists path ::
              && path != [] && path[0] == id && |path| <= |t.securities|
              && (forall i | 0 <= i < |path| :: path[i] in t.securities)
              && (forall i | 1 <= i < |path| :: t.securities[path[i - 1]].underlying == Some(path[i]))
              && t.securities[path[|path| - 1]].underlying.None?
  {
    var order :| Arranged(t.securities, order);
    var i :| 0 <= i < |order| && order[i] == id;
    var path := ChainFrom(t, order, i);
    OrderSize(order, t.securities.Keys);
  }

  // ---------------------------------------------------------------- reading a ratio back

  /** `column_opt_dr_ratio`: both sides, none, or an error. */
  function ReadRatio(r: SecurityRow): Option<Option<Ratio>> {
    match (r.receipts, r.underlyingUnits)
    case (Some(a), Some(b)) => if SideOk(Some(a)) && SideOk(Some(b)) then Some(Some(Ratio(a, b))) else None
    case (None, None) => Some(None)
    case _ => None
  }

  /** A ratio is read from two positive 32-bit columns, its absence from two NULLs, and anything else is an error. */
  lemma RatioReading(r: SecurityRow)
    ensures ReadRatio(r) == Some(None) <==> r.receipts.None? && r.underlyingUnits.None?
    ensures ReadRatio(r).Some? && ReadRatio(r).value.Some? <==>
            r.receipts.Some? && r.underlyingUnits.Some?
            && 0 < r.receipts.value < 4294967296 && 0 < r.underlyingUnits.value < 4294967296
    ensures ReadRatio(r).Some? && ReadRatio(r).value.Some? ==>
            ReadRatio(r).value.value.receipts == r.receipts.value
            && ReadRatio(r).value.value.underlying == r.underlyingUnits.value
  {}

  /** In a sound state no stored ratio is unreadable, and a ratio belongs to a depositary receipt. */
  lemma RatiosAreReadable(t: Tables, id: Id)
    requires Sound(t) && id in t.securities
    ensures ReadRatio(t.securities[id]).Some?
    ensures ReadRatio(t.securities[id]).value.Some? || t.securities[id].underlying.Some? ==>
            t.securities[id].kind == DepositaryReceipt
  {
    assert SecurityOk(t, id);
    SecurityChecksMean(id, t.securities[id]);
  }

  // ---------------------------------------------------------------- the CNPJ and its country

  /** What the domain promises of an issuer: a CNPJ comes with country BR. */
  predicate Brazilian(r: IssuerRow) {
    r.cnpj.Some? ==> r.country == Some(BR)
  }

  /** A patch that applies keeps the promise unless it adds a CNPJ where no country is or gets set. */
  lemma PatchKeepsBrazilianIff(t: Tables, id: Id, expected: u32, p: IssuerPatch)
    requires id in t.issuers && Brazilian(t.issuers[id])
    requires Execute(t, PatchIssuer(id, expected, p)).1 == Wrote(Applied)
    ensures Brazilian(Execute(t, PatchIssuer(id, expected, p)).0.issuers[id])
            <==> !(p.cnpj.Some? && p.country.None? && t.issuers[id].country.None?)
  {
    IssuerChecksMean(PatchedIssuer(t.issuers[id], p));
  }

  /** The exception is reachable: insert an issuer without CNPJ and country, then patch a CNPJ in. */
  lemma CnpjWithoutCountryIsReachable(cnpj: string)
    ensures var inserted := Execute(EMPTY, InsertIssuer(1, IssuerData(None, Active, "", None, None, None)));
            var patched := Execute(inserted.0, PatchIssuer(1, 1, IssuerPatch(None, None, Some(cnpj), None, None)));
            && inserted.1 == Inserted
            && patched.1 == Wrote(Applied)
            && Sound(patched.0)
            && patched.0.issuers[1].cnpj == Some(cnpj) && patched.0.issuers[1].country == None
  {
    var insert := InsertIssuer(1, IssuerData(None, Active, "", None, None, None));
    EmptyIsSound();
    WriteKeepsSound(EMPTY, insert);
    WriteKeepsSound(Execute(EMPTY, insert).0, PatchIssuer(1, 1, IssuerPatch(None, None, Some(cnpj), None, None)));
  }
}
