/** When a write goes through and when it faults, read off the stored rows and nothing else. */
module Admission {
  import opened Wrappers
  import opened Schema
  import opened Store
  import opened Integrity
  import opened History

  // ---------------------------------------------------------------- no value is stored twice

  /** In every state reached from the empty tables a CNPJ, a LEI and an ISIN each belong to one row. */
  lemma ValuesAreUnique(ops: seq<Op>, a: Id, b: Id)
    ensures var t := Final(EMPTY, ops);
            a in t.issuers && b in t.issuers ==>
              && (t.issuers[a].cnpj.Some? && t.issuers[a].cnpj == t.issuers[b].cnpj ==> a == b)
              && (t.issuers[a].lei.Some? && t.issuers[a].lei == t.issuers[b].lei ==> a == b)
    ensures var t := Final(EMPTY, ops);
            a in t.securities && b in t.securities ==>
              (t.securities[a].isin.Some? && t.securities[a].isin == t.securities[b].isin ==> a == b)
  {
    EmptyIsSound();
    RunsKeepSound(EMPTY, ops);
    var t := Final(EMPTY, ops);
    if a in t.issuers {
      assert CnpjFree(t, a, t.issuers[a].cnpj) && LeiFree(t, a, t.issuers[a].lei);
    }
    if a in t.securities {
      assert SecurityOk(t, a);
    }
  }

  /** In every such state each security's issuer is stored, and so is its underlying, which is another security. */
  lemma ReferencesAreStored(ops: seq<Op>, s: Id)
    requires s in Final(EMPTY, ops).securities
    ensures var t := Final(EMPTY, ops);
            var r := t.securities[s];
            && r.issuer in t.issuers
            && (r.underlying.Some? ==>
                  r.underlying.value != s && r.underlying.value in t.securities && r.kind == DepositaryReceipt)
  {
    EmptyIsSound();
    RunsKeepSound(EMPTY, ops);
    var t := Final(EMPTY, ops);
    assert SecurityOk(t, s);
    SecurityChecksMean(s, t.securities[s]);
  }

  /** What the CHECKs leave of a row in every such state. */
  lemma StoredRowsPassChecks(ops: seq<Op>, id: Id)
    ensures var t := Final(EMPTY, ops);
            id in t.issuers ==>
              var r := t.issuers[id];
              && (r.country.Some? ==> |r.country.value| == 2)
              && (r.cnpj.Some? ==> r.country == None || r.country == Some("BR"))
              && 1 <= r.version <= 4294967296
    ensures var t := Final(EMPTY, ops);
            id in t.securities ==>
              var r := t.securities[id];
              && (r.cfi.Some? ==> |r.cfi.value| == 6)
              && (r.receipts.Some? <==> r.underlyingUnits.Some?)
              && (r.receipts.Some? ==>
                    0 < r.receipts.value < 4294967296 && 0 < r.underlyingUnits.value < 4294967296
                    && r.kind == DepositaryReceipt)
              && 1 <= r.version <= 4294967296
  {
    EmptyIsSound();
    RunsKeepSound(EMPTY, ops);
    var t := Final(EMPTY, ops);
    if id in t.issuers {
      IssuerChecksMean(t.issuers[id]);
    }
    if id in t.securities {
      assert SecurityOk(t, id);
      SecurityChecksMean(id, t.securities[id]);
    }
  }

  // ---------------------------------------------------------------- issuers

  /** The stored rows admit these columns for issuer `id`. */
  ghost predicate IssuerColumns(t: Tables, id: Id, cnpj: Option<string>, lei: Option<string>, country: Option<string>) {
    && (country.Some? ==> |country.value| == 2)
    && (cnpj.Some? ==> country == None || country == Some("BR"))
    && (cnpj.Some? ==> !exists o :: o in t.issuers && o != id && t.issuers[o].cnpj == cnpj)
    && (lei.Some? ==> !exists o :: o in t.issuers && o != id && t.issuers[o].lei == lei)
  }

  lemma IssuerColumnsIff(t: Tables, id: Id, r: IssuerRow)
    ensures IssuerViolation(t, id, r).None? <==> IssuerColumns(t, id, r.cnpj, r.lei, r.country)
    ensures IssuerViolation(t, id, r) == Some(UniqueCnpj) ==>
            r.cnpj.Some? && exists o :: o in t.issuers && o != id && t.issuers[o].cnpj == r.cnpj
    ensures IssuerViolation(t, id, r) == Some(UniqueLei) ==>
            r.lei.Some? && exists o :: o in t.issuers && o != id && t.issuers[o].lei == r.lei
  {
    IssuerChecksMean(r);
  }

  lemma InsertIssuerIff(t: Tables, id: Id, d: IssuerData)
    ensures var reply := Execute(t, InsertIssuer(id, d)).1;
            && (reply == Inserted <==> id !in t.issuers && IssuerColumns(t, id, d.cnpj, d.lei, d.country))
            && (reply == Faulted(Violated(PrimaryKey)) <==> id in t.issuers)
            && (reply == Faulted(Violated(UniqueCnpj)) ==>
                  d.cnpj.Some? && exists o :: o in t.issuers && o != id && t.issuers[o].cnpj == d.cnpj)
            && (reply == Faulted(Violated(UniqueLei)) ==>
                  d.lei.Some? && exists o :: o in t.issuers && o != id && t.issuers[o].lei == d.lei)
  {
    IssuerColumnsIff(t, id, NewIssuer(d));
  }

  lemma PatchIssuerIff(t: Tables, id: Id, expected: u32, p: IssuerPatch)
    ensures Execute(t, PatchIssuer(id, expected, p)).1 == Wrote(Applied) <==>
            && id in t.issuers && t.issuers[id].version == expected
            && var r := t.issuers[id];
               IssuerColumns(t, id, if p.cnpj.Some? then p.cnpj else r.cnpj, if p.lei.Some? then p.lei else r.lei,
                             if p.country.Some? then p.country else r.country)
  {
    if id in t.issuers {
      IssuerColumnsIff(t, id, PatchedIssuer(t.issuers[id], p));
    }
  }

  lemma UpdateIssuerIff(t: Tables, id: Id, expected: u32, d: IssuerData)
    ensures Execute(t, UpdateIssuer(id, expected, d)).1 == Wrote(Applied) <==>
            id in t.issuers && t.issuers[id].version == expected && IssuerColumns(t, id, d.cnpj, d.lei, d.country)
  {
    if id in t.issuers {
      IssuerColumnsIff(t, id, ReplacedIssuer(t.issuers[id], d));
    }
  }

  /** An issuer goes exactly when its version is the expected one and no security names it. */
  lemma DeleteIssuerIff(t: Tables, id: Id, expected: u32)
    ensures var (q, reply) := Execute(t, DeleteIssuer(id, expected));
            var matched := id in t.issuers && t.issuers[id].version == expected;
            var named := exists s :: s in t.securities && t.securities[s].issuer == id;
            && (reply == Wrote(Applied) <==> matched && !named)
            && (reply == Faulted(Violated(ForeignKey)) <==> matched && named)
            && (reply == Wrote(Applied) ==> q == t.(issuers := t.issuers - {id}))
  {}

  // ---------------------------------------------------------------- securities

  /** The stored rows admit these columns for security `id`. */
  ghost predicate SecurityColumns(t: Tables, id: Id, kind: Kind, isin: Option<string>, cfi: Option<string>,
                                  underlying: Option<Id>, hasRatio: bool) {
    && (cfi.Some? ==> |cfi.value| == 6)
    && (kind != DepositaryReceipt ==> underlying.None? && !hasRatio)
    && underlying != Some(id)
    && (isin.Some? ==> !exists o :: o in t.securities && o != id && t.securities[o].isin == isin)
  }

  lemma SecurityColumnsIff(t: Tables, id: Id, r: SecurityRow)
    requires r.receipts.Some? <==> r.underlyingUnits.Some?
    requires r.receipts.Some? ==> r.receipts.value > 0 && r.underlyingUnits.value > 0
    ensures SecurityViolation(t, id, r).None? <==>
            && SecurityColumns(t, id, r.kind, r.isin, r.cfi, r.underlying, r.receipts.Some?)
            && r.issuer in t.issuers
            && (r.underlying.Some? ==> r.underlying.value in t.securities)
    ensures SecurityViolation(t, id, r) == Some(UniqueIsin) ==>
            r.isin.Some? && exists o :: o in t.securities && o != id && t.securities[o].isin == r.isin
    ensures SecurityViolation(t, id, r) == Some(ForeignKey) ==>
            r.issuer !in t.issuers || (r.underlying.Some? && r.underlying.value !in t.securities)
  {
    SecurityChecksMean(id, r);
  }

  lemma InsertSecurityIff(t: Tables, id: Id, d: SecurityData)
    ensures var reply := Execute(t, InsertSecurity(id, d)).1;
            && (reply == Inserted <==>
                  && id !in t.securities
                  && SecurityColumns(t, id, d.kind, d.isin, d.cfi, d.underlying, d.ratio.Some?)
                  && d.issuer in t.issuers
                  && (d.underlying.Some? ==> d.underlying.value in t.securities))
            && (reply == Faulted(Violated(PrimaryKey)) <==> id in t.securities)
            && (reply == Faulted(Violated(UniqueIsin)) ==>
                  d.isin.Some? && exists o :: o in t.securities && o != id && t.securities[o].isin == d.isin)
            && (reply == Faulted(Violated(ForeignKey)) ==>
                  d.issuer !in t.issuers || (d.underlying.Some? && d.underlying.value !in t.securities))
  {
    SecurityColumnsIff(t, id, NewSecurity(d));
  }

  lemma PatchSecurityIff(t: Tables, id: Id, expected: u32, p: SecurityPatch)
    requires Sound(t)
    ensures var reply := Execute(t, PatchSecurity(id, expected, p)).1;
            && (reply == Wrote(Applied) <==>
                  && id in t.securities && t.securities[id].version == expected
                  && var r := t.securities[id];
                     SecurityColumns(t, id, r.kind, if p.isin.Some? then p.isin else r.isin,
                                     if p.cfi.Some? then p.cfi else r.cfi, r.underlying,
                                     p.ratio.Some? || r.receipts.Some?))
            && (reply == Faulted(Violated(UniqueIsin)) ==>
                  p.isin.Some? && exists o :: o in t.securities && o != id && t.securities[o].isin == p.isin)
  {
    if id in t.securities {
      assert SecurityOk(t, id);
      SecurityChecksMean(id, t.securities[id]);
      SecurityColumnsIff(t, id, PatchedSecurity(t.securities[id], p));
    }
  }

  lemma UpdateSecurityIff(t: Tables, id: Id, expected: u32, d: SecurityData)
    requires Sound(t)
    ensures var reply := Execute(t, UpdateSecurity(id, expected, d)).1;
            && (reply == Wrote(Applied) <==>
                  && id in t.securities && t.securities[id].version == expected
                  && var r := t.securities[id];
                     SecurityColumns(t, id, r.kind, d.isin, d.cfi, r.underlying, d.ratio.Some?))
            && (reply == Faulted(Violated(UniqueIsin)) ==>
                  d.isin.Some? && exists o :: o in t.securities && o != id && t.securities[o].isin == d.isin)
  {
    if id in t.securities {
      assert SecurityOk(t, id);
      SecurityChecksMean(id, t.securities[id]);
      SecurityColumnsIff(t, id, ReplacedSecurity(t.securities[id], d));
    }
  }

  /** A security goes exactly when its version is the expected one and no other security wraps it. */
  lemma DeleteSecurityIff(t: Tables, id: Id, expected: u32)
    ensures var (q, reply) := Execute(t, DeleteSecurity(id, expected));
            var matched := id in t.securities && t.securities[id].version == expected;
            var wrapped := exists s :: s in t.securities && s != id && t.securities[s].underlying == Some(id);
            && (reply == Wrote(Applied) <==> matched && !wrapped)
            && (reply == Faulted(Violated(ForeignKey)) <==> matched && wrapped)
            && (reply == Wrote(Applied) ==> q == t.(securities := t.securities - {id}))
  {}

  // ---------------------------------------------------------------- replies

  /** A guarded write that meets another version or no row says which; past 32 bits the version cannot be read. */
  lemma StaleOrMissing(t: Tables, op: Op)
    requires !IsInsert(op) && VersionAt(t, KeyOf(op)) != Some(op.expected)
    ensures var (q, reply) := Execute(t, op);
            && q == t
            && reply == match VersionAt(t, KeyOf(op))
                        case None => Wrote(Missing)
                        case Some(v) =>
                          if v < 4294967296 then Wrote(VersionMismatch(op.expected, v)) else Faulted(UnreadableVersion)
  {}
}
