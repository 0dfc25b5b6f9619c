/** The repositories' reads after any run of writes, against the replay of the writes that went through. */
module Answers {
  import opened Wrappers
  import opened Schema
  import opened Store
  import opened Integrity
  import opened History
  import opened Rows
  import opened Closures

  /** A lookup finds the replayed data at the version the writes have brought it to; existence answers agree with it. */
  lemma IssuerAnswers(ops: seq<Op>, id: Id)
    ensures var t := Final(EMPTY, ops);
            var replayed := ReplayedIssuer(EMPTY, ops, id);
            var (q, found) := Perform(t, FindIssuer(id));
            && q == t
            && Perform(t, ExistsIssuer(id)) == (t, Flag(replayed.Some?))
            && found.IssuerFound?
            && (found.issuerRow.Some? <==> replayed.Some?)
            && (replayed.Some? ==>
                  && ReadIssuer(found.issuerRow.value) == replayed.value
                  && found.issuerRow.value.version == 1 + WritesSinceInsert(EMPTY, ops, IssuerKey(id)))
  {
    IssuerIsReplay(EMPTY, ops, id);
    VersionCountsWrites(ops, IssuerKey(id));
  }

  lemma SecurityAnswers(ops: seq<Op>, id: Id)
    ensures var t := Final(EMPTY, ops);
            var replayed := ReplayedSecurity(EMPTY, ops, id);
            var (q, found) := Perform(t, FindSecurity(id));
            && q == t
            && Perform(t, ExistsSecurity(id)) == (t, Flag(replayed.Some?))
            && found.SecurityFound?
            && (found.securityRow.Some? <==> replayed.Some?)
            && (replayed.Some? ==>
                  && ReadSecurity(found.securityRow.value) == replayed
                  && found.securityRow.value.version == 1 + WritesSinceInsert(EMPTY, ops, SecurityKey(id)))
  {
    EmptyIsSound();
    SecurityIsReplay(EMPTY, ops, id);
    VersionCountsWrites(ops, SecurityKey(id));
  }

  /** A value exists exactly when some replayed row carries it. */
  lemma ValueAnswers(ops: seq<Op>, value: string)
    ensures var t := Final(EMPTY, ops);
            && Perform(t, ExistsByCnpj(value))
               == (t, Flag(exists id :: ReplayedIssuer(EMPTY, ops, id).Some?
                                        && ReplayedIssuer(EMPTY, ops, id).value.cnpj == Some(value)))
            && Perform(t, ExistsByLei(value))
               == (t, Flag(exists id :: ReplayedIssuer(EMPTY, ops, id).Some?
                                        && ReplayedIssuer(EMPTY, ops, id).value.lei == Some(value)))
            && Perform(t, ExistsByIsin(value))
               == (t, Flag(exists id :: ReplayedSecurity(EMPTY, ops, id).Some?
                                        && ReplayedSecurity(EMPTY, ops, id).value.isin == Some(value)))
  {
    EmptyIsSound();
    var t := Final(EMPTY, ops);
    forall id: Id ensures StoredIssuer(t, id) == ReplayedIssuer(EMPTY, ops, id) {
      IssuerIsReplay(EMPTY, ops, id);
    }
    forall id: Id
      ensures StoredSecurity(t, id) == ReplayedSecurity(EMPTY, ops, id)
      ensures id in t.securities <==> ReplayedSecurity(EMPTY, ops, id).Some?
    {
      SecurityIsReplay(EMPTY, ops, id);
    }
    CnpjValues(t, ops, value);
    LeiValues(t, ops, value);
    IsinValues(t, ops, value);
  }

  lemma CnpjValues(t: Tables, ops: seq<Op>, value: string)
    requires forall id: Id :: StoredIssuer(t, id) == ReplayedIssuer(EMPTY, ops, id)
    ensures CnpjStored(t, value) <==> exists id :: ReplayedIssuer(EMPTY, ops, id).Some?
                                                   && ReplayedIssuer(EMPTY, ops, id).value.cnpj == Some(value)
  {
    if id: Id :| id in t.issuers && t.issuers[id].cnpj == Some(value) {
      assert StoredIssuer(t, id) == ReplayedIssuer(EMPTY, ops, id);
    }
    if id: Id :| ReplayedIssuer(EMPTY, ops, id).Some? && ReplayedIssuer(EMPTY, ops, id).value.cnpj == Some(value) {
      assert StoredIssuer(t, id) == ReplayedIssuer(EMPTY, ops, id);
      assert id in t.issuers && t.issuers[id].cnpj == Some(value);
    }
  }

  lemma LeiValues(t: Tables, ops: seq<Op>, value: string)
    requires forall id: Id :: StoredIssuer(t, id) == ReplayedIssuer(EMPTY, ops, id)
    ensures LeiStored(t, value) <==> exists id :: ReplayedIssuer(EMPTY, ops, id).Some?
                                                   && ReplayedIssuer(EMPTY, ops, id).value.lei == Some(value)
  {
    if id: Id :| id in t.issuers && t.issuers[id].lei == Some(value) {
      assert StoredIssuer(t, id) == ReplayedIssuer(EMPTY, ops, id);
    }
    if id: Id :| ReplayedIssuer(EMPTY, ops, id).Some? && ReplayedIssuer(EMPTY, ops, id).value.lei == Some(value) {
      assert StoredIssuer(t, id) == ReplayedIssuer(EMPTY, ops, id);
      assert id in t.issuers && t.issuers[id].lei == Some(value);
    }
  }

  lemma IsinValues(t: Tables, ops: seq<Op>, value: string)
    requires forall id: Id :: StoredSecurity(t, id) == ReplayedSecurity(EMPTY, ops, id)
    requires forall id: Id :: id in t.securities <==> ReplayedSecurity(EMPTY, ops, id).Some?
    ensures IsinStored(t, value) <==> exists id :: ReplayedSecurity(EMPTY, ops, id).Some?
                                                   && ReplayedSecurity(EMPTY, ops, id).value.isin == Some(value)
  {
    if id: Id :| id in t.securities && t.securities[id].isin == Some(value) {
      assert StoredSecurity(t, id) == ReplayedSecurity(EMPTY, ops, id);
    }
    if id: Id :| ReplayedSecurity(EMPTY, ops, id).Some? && ReplayedSecurity(EMPTY, ops, id).value.isin == Some(value) {
      assert StoredSecurity(t, id) == ReplayedSecurity(EMPTY, ops, id);
      assert id in t.securities && t.securities[id].isin == Some(value);
    }
  }
}
