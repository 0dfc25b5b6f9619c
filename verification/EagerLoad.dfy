/** Batched eager loading: two statements and a grouping instead of one query per issuer. */
module EagerLoad {
  import opened Wrappers
  import opened Schema
  import Keyset

  datatype Owner = Owner(id: Id, row: IssuerRow)

  datatype Owned = Owned(id: Id, row: SecurityRow)

  /** An issuer whose securities relation is loaded. */
  datatype Loaded = Loaded(owner: Owner, securities: seq<Owned>)

  // ---------------------------------------------------------------- the queries

  function SecuritiesOf(t: Tables, issuer: Id): set<Id> {
    set s | s in t.securities && t.securities[s].issuer == issuer
  }

  function OwnedRows(t: Tables, ids: seq<Id>): seq<Owned>
    requires forall i | 0 <= i < |ids| :: ids[i] in t.securities
  {
    seq(|ids|, i requires 0 <= i < |ids| => Owned(ids[i], t.securities[ids[i]]))
  }

  /** `SELECT ... FROM security WHERE issuer_id = ?1 ORDER BY id`. */
  function ListByIssuer(t: Tables, issuer: Id): seq<Owned> {
    var ids := Keyset.AllAscending(SecuritiesOf(t, issuer));
    Keyset.AllAscendingListsAll(SecuritiesOf(t, issuer));
    assert forall i | 0 <= i < |ids| :: ids[i] in ids;
    OwnedRows(t, ids)
  }

  /** The simple form of eager loading: one row, then its own query. */
  function FindEager(t: Tables, id: Id): Option<Loaded> {
    if id in t.issuers then Some(Loaded(Owner(id, t.issuers[id]), ListByIssuer(t, id))) else None
  }

  predicate Before(a: Owned, b: Owned) {
    a.row.issuer < b.row.issuer || (a.row.issuer == b.row.issuer && a.id < b.id)
  }

  predicate Ordered(listing: seq<Owned>) {
    forall i, j | 0 <= i < j < |listing| :: Before(listing[i], listing[j])
  }

  /**
   What `ORDER BY s.issuer_id, s.id` returns for the securities of the given issuers: each of them once,
   in that order, and nothing else.
   */
  predicate IsListing(listing: seq<Owned>, t: Tables, owners: set<Id>) {
    && Ordered(listing)
    && (forall e | e in listing ::
          e.id in t.securities && e.row == t.securities[e.id] && e.row.issuer in owners)
    && (forall s | s in t.securities && t.securities[s].issuer in owners ::
          Owned(s, t.securities[s]) in listing)
  }

  function IssuerPage(t: Tables, after: Option<Id>, limit: nat): seq<Id> {
    Keyset.Page(t.issuers.Keys, after, limit)
  }

  function OwnerRows(t: Tables, ids: seq<Id>): seq<Owner>
    requires forall i | 0 <= i < |ids| :: ids[i] in t.issuers
  {
    seq(|ids|, i requires 0 <= i < |ids| => Owner(ids[i], t.issuers[ids[i]]))
  }

  function Members(ids: seq<Id>): set<Id> {
    set id | id in ids
  }

  function AllOwners(t: Tables): set<Id> {
    set s | s in t.securities :: t.securities[s].issuer
  }

  // ---------------------------------------------------------------- grouping

  /** The entries of one issuer, in the order of the listing. */
  function Select(listing: seq<Owned>, issuer: Id): seq<Owned> {
    if listing == [] then []
    else
      var n := |listing| - 1;
      Select(listing[..n], issuer) + (if listing[n].row.issuer == issuer then [listing[n]] else [])
  }

  lemma {:induction false} SelectMembers(listing: seq<Owned>, issuer: Id, e: Owned)
    ensures e in Select(listing, issuer) <==> e in listing && e.row.issuer == issuer
    decreases |listing|
  {
    if listing != [] {
      var n := |listing| - 1;
      SelectMembers(listing[..n], issuer, e);
      assert e in listing <==> e in listing[..n] || e == listing[n];
    }
  }

  function Ids(entries: seq<Owned>): (ids: seq<Id>)
    ensures |ids| == |entries| && forall i | 0 <= i < |ids| :: ids[i] == entries[i].id
  {
    seq(|entries|, i requires 0 <= i < |entries| => entries[i].id)
  }

  lemma {:induction false} SelectAscends(listing: seq<Owned>, issuer: Id)
    requires Ordered(listing)
    ensures Keyset.Ascending(Ids(Select(listing, issuer)))
    decreases |listing|
  {
    if listing != [] {
      var n := |listing| - 1;
      var front := Select(listing[..n], issuer);
      SelectAscends(listing[..n], issuer);
      forall i | 0 <= i < |front| && listing[n].row.issuer == issuer ensures front[i].id < listing[n].id {
        SelectMembers(listing[..n], issuer, front[i]);
        assert front[i] in listing[..n];
        var k :| 0 <= k < n && listing[k] == front[i];
        assert Before(listing[k], listing[n]);
      }
      var ids, before := Ids(Select(listing, issuer)), Ids(front);
      forall i, j | 0 <= i < j < |ids| ensures ids[i] < ids[j] {
        if j < |front| {
          assert before[i] < before[j];
        }
      }
    }
  }

  lemma SelectIsListByIssuer(listing: seq<Owned>, t: Tables, owners: set<Id>, issuer: Id)
    requires IsListing(listing, t, owners)
    ensures Select(listing, issuer) == if issuer in owners then ListByIssuer(t, issuer) else []
  {
    var chosen := Select(listing, issuer);
    assert chosen != [] ==> chosen[0] in chosen;
    forall e ensures e in chosen <==> e in listing && e.row.issuer == issuer {
      SelectMembers(listing, issuer, e);
    }
    if issuer in owners {
      SelectAscends(listing, issuer);
      SameIds(listing, t, owners, issuer);
      var ids := Keyset.AllAscending(SecuritiesOf(t, issuer));
      Keyset.AllAscendingListsAll(SecuritiesOf(t, issuer));
      Keyset.AscendingIsUnique(Ids(chosen), ids);
      assert forall i | 0 <= i < |ids| :: ids[i] in ids;
      SameRows(chosen, t, ids);
    }
  }

  lemma SameIds(listing: seq<Owned>, t: Tables, owners: set<Id>, issuer: Id)
    requires IsListing(listing, t, owners) && issuer in owners
    ensures forall id: Id ::
              id in Ids(Select(listing, issuer)) <==> id in Keyset.AllAscending(SecuritiesOf(t, issuer))
  {
    var chosen := Select(listing, issuer);
    Keyset.AllAscendingListsAll(SecuritiesOf(t, issuer));
    forall id: Id ensures id in Ids(chosen) <==> id in SecuritiesOf(t, issuer) {
      if id in SecuritiesOf(t, issuer) {
        var e := Owned(id, t.securities[id]);
        SelectMembers(listing, issuer, e);
        var k :| 0 <= k < |chosen| && chosen[k] == e;
        assert Ids(chosen)[k] == id;
      }
      if id in Ids(chosen) {
        var k :| 0 <= k < |chosen| && Ids(chosen)[k] == id;
        SelectMembers(listing, issuer, chosen[k]);
      }
    }
  }

  lemma SameRows(chosen: seq<Owned>, t: Tables, ids: seq<Id>)
    requires Ids(chosen) == ids
    requires forall e | e in chosen :: e.id in t.securities && e.row == t.securities[e.id]
    requires forall i | 0 <= i < |ids| :: ids[i] in t.securities
    ensures chosen == OwnedRows(t, ids)
  {
    forall i | 0 <= i < |chosen| ensures chosen[i] == OwnedRows(t, ids)[i] {
      assert chosen[i] in chosen;
    }
  }

  predicate Taken(rows: seq<Owner>, n: nat, id: Id)
    requires n <= |rows|
  {
    exists k :: 0 <= k < n && rows[k].id == id
  }

  /** The row asked for first takes the group; a repeated id would find nothing left. */
  function Hydrated(rows: seq<Owner>, securities: seq<Owned>, i: nat): Loaded
    requires i < |rows|
  {
    Loaded(rows[i], if Taken(rows, i, rows[i].id) then [] else Select(securities, rows[i].id))
  }

  function Held(grouped: map<Id, seq<Owned>>, issuer: Id): seq<Owned> {
    if issuer in grouped then grouped[issuer] else []
  }

  method Group(securities: seq<Owned>) returns (grouped: map<Id, seq<Owned>>)
    ensures forall issuer: Id :: Held(grouped, issuer) == Select(securities, issuer)
  {
    grouped := map[];
    for n := 0 to |securities|
      invariant forall issuer: Id :: Held(grouped, issuer) == Select(securities[..n], issuer)
    {
      var owner := securities[n].row.issuer;
      assert securities[..n + 1][..n] == securities[..n];
      assert Held(grouped, owner) == Select(securities[..n], owner);
      grouped := grouped[owner := Held(grouped, owner) + [securities[n]]];
    }
    assert securities[..|securities|] == securities;
  }

  lemma TakenGrows(rows: seq<Owner>, n: nat, id: Id)
    requires n < |rows|
    ensures Taken(rows, n + 1, id) <==> Taken(rows, n, id) || rows[n].id == id
  {}

  /** What the map holds once the first `n` rows have taken their groups. */
  ghost predicate Left(grouped: map<Id, seq<Owned>>, rows: seq<Owner>, n: nat, securities: seq<Owned>)
    requires n <= |rows|
  {
    forall issuer: Id ::
      Held(grouped, issuer) == if Taken(rows, n, issuer) then [] else Select(securities, issuer)
  }

  lemma TakeGroup(grouped: map<Id, seq<Owned>>, rows: seq<Owner>, n: nat, securities: seq<Owned>)
    requires n < |rows| && Left(grouped, rows, n, securities)
    ensures Left(grouped - {rows[n].id}, rows, n + 1, securities)
  {
    var after := grouped - {rows[n].id};
    forall issuer: Id
      ensures Held(after, issuer) == if Taken(rows, n + 1, issuer) then [] else Select(securities, issuer)
    {
      TakenGrows(rows, n, issuer);
      assert issuer != rows[n].id ==> Held(after, issuer) == Held(grouped, issuer);
    }
  }

  method HydrateRows(rows: seq<Owner>, securities: seq<Owned>) returns (loaded: seq<Loaded>)
    ensures |loaded| == |rows|
    ensures forall i | 0 <= i < |rows| :: loaded[i] == Hydrated(rows, securities, i)
  {
    var grouped := Group(securities);
    loaded := [];
    for n := 0 to |rows|
      invariant |loaded| == n
      invariant forall i | 0 <= i < n :: loaded[i] == Hydrated(rows, securities, i)
      invariant Left(grouped, rows, n, securities)
    {
      var id := rows[n].id;
      loaded := loaded + [Loaded(rows[n], Held(grouped, id))];
      TakeGroup(grouped, rows, n, securities);
      grouped := grouped - {id};
    }
  }

  // ---------------------------------------------------------------- the two-query reads

  lemma AscendingRowsDiffer(rows: seq<Owner>, ids: seq<Id>, i: nat)
    requires Keyset.Ascending(ids) && |rows| == |ids| && i < |ids|
    requires forall k | 0 <= k < |ids| :: rows[k].id == ids[k]
    ensures !Taken(rows, i, rows[i].id)
  {}

  /** The rows and the batch meet in memory: each row gets what the batch holds for it. */
  method Hydrate(first: Tables, ids: seq<Id>, second: Tables, owners: set<Id>, listing: seq<Owned>)
    returns (loaded: seq<Loaded>)
    requires Keyset.Ascending(ids) && forall i | 0 <= i < |ids| :: ids[i] in first.issuers
    requires IsListing(listing, second, owners)
    ensures |loaded| == |ids|
    ensures forall i | 0 <= i < |ids| ::
              loaded[i] == Loaded(Owner(ids[i], first.issuers[ids[i]]),
                                  if ids[i] in owners then ListByIssuer(second, ids[i]) else [])
  {
    var rows := OwnerRows(first, ids);
    loaded := HydrateRows(rows, listing);
    forall i | 0 <= i < |ids|
      ensures loaded[i] == Loaded(Owner(ids[i], first.issuers[ids[i]]),
                                  if ids[i] in owners then ListByIssuer(second, ids[i]) else [])
    {
      AscendingRowsDiffer(rows, ids, i);
      SelectIsListByIssuer(listing, second, owners, ids[i]);
    }
  }

  /**
   `list_paged` in eager mode. The page is read in state `first`; the batch joins the same page query, run
   again in state `second`. A writer may commit in between.
   */
  method ListPagedEager(first: Tables, second: Tables, after: Option<Id>, limit: nat, listing: seq<Owned>)
    returns (loaded: seq<Loaded>)
    requires IsListing(listing, second, Members(IssuerPage(second, after, limit)))
    ensures var page := IssuerPage(first, after, limit);
            && |loaded| == |page|
            && forall i | 0 <= i < |page| ::
                 && page[i] in first.issuers
                 && loaded[i] == Loaded(Owner(page[i], first.issuers[page[i]]),
                                        if page[i] in IssuerPage(second, after, limit)
                                        then ListByIssuer(second, page[i]) else [])
                 && (first == second ==> Some(loaded[i]) == FindEager(first, page[i]))
  {
    var page := IssuerPage(first, after, limit);
    Keyset.PageIsPage(first.issuers.Keys, after, limit);
    loaded := Hydrate(first, page, second, Members(IssuerPage(second, after, limit)), listing);
  }

  /** `list_all` in eager mode: the batch is every security there is. */
  method ListAllEager(first: Tables, second: Tables, listing: seq<Owned>) returns (loaded: seq<Loaded>)
    requires IsListing(listing, second, AllOwners(second))
    ensures var all := Keyset.AllAscending(first.issuers.Keys);
            && |loaded| == |all|
            && forall i | 0 <= i < |all| ::
                 && all[i] in first.issuers
                 && loaded[i] == Loaded(Owner(all[i], first.issuers[all[i]]), ListByIssuer(second, all[i]))
                 && (first == second ==> Some(loaded[i]) == FindEager(first, all[i]))
  {
    var all := Keyset.AllAscending(first.issuers.Keys);
    Keyset.AllAscendingListsAll(first.issuers.Keys);
    loaded := Hydrate(first, all, second, AllOwners(second), listing);
    forall i | 0 <= i < |all| && all[i] !in AllOwners(second) ensures ListByIssuer(second, all[i]) == [] {
      ChildlessListsNothing(second, all[i]);
    }
  }

  lemma ChildlessListsNothing(t: Tables, issuer: Id)
    requires issuer !in AllOwners(t)
    ensures ListByIssuer(t, issuer) == []
  {
    assert forall s | s in t.securities :: t.securities[s].issuer in AllOwners(t);
    assert SecuritiesOf(t, issuer) == {};
  }

  lemma ListingOfChildless(t: Tables, issuer: Id)
    ensures ListByIssuer(t, issuer) == [] <==> issuer !in AllOwners(t)
  {
    if issuer in AllOwners(t) {
      var s :| s in t.securities && t.securities[s].issuer == issuer;
      ListByIssuerMembers(t, issuer, Owned(s, t.securities[s]));
    } else {
      ChildlessListsNothing(t, issuer);
    }
  }

  /**
   When a commit lands between the two statements, an issuer of the page that is still stored is shown with its
   securities exactly when it has none or is still among the first `limit` issuers above the cursor. Pushed off
   the page by an insert, it is shown as an issuer without securities.
   */
  lemma CompleteIff(second: Tables, after: Option<Id>, limit: nat, issuer: Id)
    requires issuer in second.issuers && Keyset.Above(issuer, after)
    ensures (if issuer in IssuerPage(second, after, limit) then ListByIssuer(second, issuer) else [])
            == ListByIssuer(second, issuer)
            <==> issuer !in AllOwners(second) || |Keyset.Below(second.issuers.Keys, after, issuer)| < limit
  {
    Keyset.InPageIff(second.issuers.Keys, after, limit, issuer);
    ListingOfChildless(second, issuer);
  }

  /**
   The gap is real: issuer 5 and its security are stored before and after, an insert of issuer 3 lands between the
   two statements, and the page of one issuer shows 5 as having no securities.
   */
  lemma SecuritiesCanVanish(first: Tables, second: Tables)
    requires first.issuers.Keys == {5} && second.issuers.Keys == {3, 5} && first.securities == second.securities
    requires first.securities.Keys == {9} && first.securities[9].issuer == 5
    ensures IssuerPage(first, None, 1) == [5]
    ensures |ListByIssuer(first, 5)| == |ListByIssuer(second, 5)| == 1
    ensures (if 5 in IssuerPage(second, None, 1) then ListByIssuer(second, 5) else []) == []
  {
    Keyset.InPageIff({5}, None, 1, 5);
    Keyset.PageIsPage({5}, None, 1);
    assert Keyset.Below({5}, None, 5) == {};
    Keyset.InPageIff({3, 5}, None, 1, 5);
    assert 3 in Keyset.Below({3, 5}, None, 5);
    OnlySecurity(first, 9);
    OnlySecurity(second, 9);
  }

  lemma OnlySecurity(t: Tables, s: Id)
    requires t.securities.Keys == {s}
    ensures ListByIssuer(t, t.securities[s].issuer) == [Owned(s, t.securities[s])]
  {
    var i := t.securities[s].issuer;
    Keyset.AllAscendingListsAll({s});
    assert SecuritiesOf(t, i) == {s};
    var ids := Keyset.AllAscending({s});
    assert Keyset.Ascending([s]);
    Keyset.AscendingIsUnique(ids, [s]);
  }

  // ---------------------------------------------------------------- listings exist

  function Batch(t: Tables, owners: seq<Id>): seq<Owned> {
    if owners == [] then []
    else
      var n := |owners| - 1;
      Batch(t, owners[..n]) + ListByIssuer(t, owners[n])
  }

  lemma ListByIssuerMembers(t: Tables, issuer: Id, e: Owned)
    ensures e in ListByIssuer(t, issuer) <==>
            e.id in t.securities && e.row == t.securities[e.id] && e.row.issuer == issuer
  {
    var ids := Keyset.AllAscending(SecuritiesOf(t, issuer));
    Keyset.AllAscendingListsAll(SecuritiesOf(t, issuer));
    var list := ListByIssuer(t, issuer);
    if e.id in SecuritiesOf(t, issuer) && e.row == t.securities[e.id] {
      var k :| 0 <= k < |ids| && ids[k] == e.id;
      assert list[k] == e;
    }
    if e in list {
      var k :| 0 <= k < |list| && list[k] == e;
      assert ids[k] in ids;
    }
  }

  lemma {:induction false} BatchMembers(t: Tables, owners: seq<Id>, e: Owned)
    ensures e in Batch(t, owners) <==>
            e.id in t.securities && e.row == t.securities[e.id] && e.row.issuer in owners
    decreases |owners|
  {
    if owners != [] {
      var n := |owners| - 1;
      BatchMembers(t, owners[..n], e);
      ListByIssuerMembers(t, owners[n], e);
      assert e.row.issuer in owners <==> e.row.issuer in owners[..n] || e.row.issuer == owners[n];
    }
  }

  lemma {:induction false} BatchOrdered(t: Tables, owners: seq<Id>)
    requires Keyset.Ascending(owners)
    ensures Ordered(Batch(t, owners))
    decreases |owners|
  {
    if owners != [] {
      var n := |owners| - 1;
      var front, tail := Batch(t, owners[..n]), ListByIssuer(t, owners[n]);
      BatchOrdered(t, owners[..n]);
      Keyset.AllAscendingListsAll(SecuritiesOf(t, owners[n]));
      forall i, j | 0 <= i < |front| && 0 <= j < |tail| ensures Before(front[i], tail[j]) {
        BatchMembers(t, owners[..n], front[i]);
        ListByIssuerMembers(t, owners[n], tail[j]);
        var k :| 0 <= k < n && owners[k] == front[i].row.issuer;
      }
      forall i, j | 0 <= i < j < |tail| ensures Before(tail[i], tail[j]) {
        ListByIssuerMembers(t, owners[n], tail[i]);
        ListByIssuerMembers(t, owners[n], tail[j]);
      }
      OrderedConcat(front, tail);
    }
  }

  lemma OrderedConcat(a: seq<Owned>, b: seq<Owned>)
    requires Ordered(a) && Ordered(b)
    requires forall i, j | 0 <= i < |a| && 0 <= j < |b| :: Before(a[i], b[j])
    ensures Ordered(a + b)
  {}

  /** Every set of issuers has a listing: their own lists one after the other. */
  lemma BatchIsListing(t: Tables, owners: set<Id>)
    ensures IsListing(Batch(t, Keyset.AllAscending(owners)), t, owners)
  {
    var ids := Keyset.AllAscending(owners);
    var batch := Batch(t, ids);
    Keyset.AllAscendingListsAll(owners);
    BatchOrdered(t, ids);
    forall e | e in batch
      ensures e.id in t.securities && e.row == t.securities[e.id] && e.row.issuer in owners
    {
      BatchMembers(t, ids, e);
    }
    forall s | s in t.securities && t.securities[s].issuer in owners
      ensures Owned(s, t.securities[s]) in batch
    {
      BatchMembers(t, ids, Owned(s, t.securities[s]));
    }
  }
}
