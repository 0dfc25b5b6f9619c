/** Keyset pages and the walk over them while other writers insert and delete. */
module Keyset {
  import opened Wrappers
  import opened Schema

  // ---------------------------------------------------------------- ascending sequences

  predicate Ascending(ids: seq<Id>) {
    forall i, j | 0 <= i < j < |ids| :: ids[i] < ids[j]
  }

  predicate Above(id: Id, after: Option<Id>) {
    after.Some? ==> id > after.value
  }

  predicate AllAbove(ids: seq<Id>, after: Option<Id>) {
    forall i | 0 <= i < |ids| :: Above(ids[i], after)
  }

  lemma AscendingConcat(a: seq<Id>, b: seq<Id>)
    requires a != [] && Ascending(a) && Ascending(b) && AllAbove(b, Some(a[|a| - 1]))
    ensures Ascending(a + b)
  {
    forall i, j | 0 <= i < j < |a + b| ensures (a + b)[i] < (a + b)[j] {
      if i < |a| <= j {
        assert Above(b[j - |a|], Some(a[|a| - 1]));
      }
    }
  }

  /** An ascending sequence is determined by its elements. */
  lemma {:induction false} AscendingIsUnique(a: seq<Id>, b: seq<Id>)
    requires Ascending(a) && Ascending(b)
    requires forall x: Id :: x in a <==> x in b
    ensures a == b
    decreases |a|
  {
    assert b != [] ==> b[0] in b;
    if a == [] {
    } else {
      assert a[0] in b && b != [];
      assert b[0] in a;
      assert a[0] == b[0];
      forall x: Id ensures x in a[1..] <==> x in b[1..] {
        assert x in a <==> x == a[0] || x in a[1..];
        assert x in b <==> x == b[0] || x in b[1..];
      }
      AscendingIsUnique(a[1..], b[1..]);
    }
  }

  // ---------------------------------------------------------------- one page

  function Candidates(ids: set<Id>, after: Option<Id>): set<Id> {
    set id | id in ids && Above(id, after)
  }

  predicate IsLeast(m: Id, ids: set<Id>) {
    m in ids && forall x | x in ids :: m <= x
  }

  lemma {:induction false} LeastExists(ids: set<Id>)
    requires ids != {}
    ensures exists m :: IsLeast(m, ids)
    decreases |ids|
  {
    var y :| y in ids;
    var rest := ids - {y};
    assert forall x | x in ids :: x == y || x in rest;
    if rest == {} {
      assert IsLeast(y, ids);
    } else {
      LeastExists(rest);
      var r :| IsLeast(r, rest);
      var m := if y < r then y else r;
      assert IsLeast(m, ids);
    }
  }

  function Least(ids: set<Id>): (m: Id)
    requires ids != {}
    ensures IsLeast(m, ids)
  {
    LeastExists(ids);
    var m :| m in ids && IsLeast(m, ids);
    m
  }

  /** `SELECT ... WHERE id > ?1 ORDER BY id LIMIT ?2`. */
  function Page(ids: set<Id>, after: Option<Id>, limit: nat): seq<Id>
    decreases limit
  {
    var candidates := Candidates(ids, after);
    if limit == 0 || candidates == {} then []
    else
      var m := Least(candidates);
      [m] + Page(ids, Some(m), limit - 1)
  }

  /** The page without reference to how it is computed: the first `limit` ids above the cursor. */
  predicate IsPage(page: seq<Id>, ids: set<Id>, after: Option<Id>, limit: nat) {
    && Ascending(page)
    && AllAbove(page, after)
    && (forall i | 0 <= i < |page| :: page[i] in ids)
    && |page| <= limit
    && forall id | id in ids && Above(id, after) ::
         id in page || (|page| == limit && forall i | 0 <= i < limit :: page[i] < id)
  }

  lemma {:induction false} PageIsPage(ids: set<Id>, after: Option<Id>, limit: nat)
    ensures IsPage(Page(ids, after, limit), ids, after, limit)
    decreases limit
  {
    var candidates := Candidates(ids, after);
    if limit > 0 && candidates != {} {
      var m := Least(candidates);
      var rest := Page(ids, Some(m), limit - 1);
      PageIsPage(ids, Some(m), limit - 1);
      AscendingConcat([m], rest);
      var page := [m] + rest;
      forall id | id in ids && Above(id, after)
        ensures id in page || (|page| == limit && forall i | 0 <= i < limit :: page[i] < id)
      {
        assert id in candidates;
        if id != m {
          assert Above(id, Some(m));
          assert id in rest || (|rest| == limit - 1 && forall i | 0 <= i < limit - 1 :: rest[i] < id);
        }
      }
      forall i | 0 <= i < |page| ensures Above(page[i], after) {
        if i > 0 {
          assert Above(rest[i - 1], Some(m));
        }
      }
    } else if candidates == {} {
      assert forall id | id in ids && Above(id, after) :: id in candidates;
    }
  }

  lemma {:induction false} AscendingFits(page: seq<Id>, ids: set<Id>)
    requires Ascending(page) && forall i | 0 <= i < |page| :: page[i] in ids
    ensures |page| <= |ids|
    ensures |page| == |ids| ==> forall id | id in ids :: id in page
    decreases |page|
  {
    if page != [] {
      var n := |page| - 1;
      AscendingFits(page[..n], ids - {page[n]});
      if |page| == |ids| {
        assert |page[..n]| == |ids - {page[n]}|;
        forall id | id in ids ensures id in page {
          if id != page[n] {
            assert id in page[..n];
          }
        }
      }
    } else if |ids| == 0 {
      assert ids == {};
    }
  }

  /** The candidates that come before an id. */
  function Below(ids: set<Id>, after: Option<Id>, id: Id): set<Id> {
    set x | x in ids && Above(x, after) && x < id
  }

  lemma {:induction false} AscendingCovers(page: seq<Id>, ids: set<Id>)
    requires Ascending(page) && forall id | id in ids :: id in page
    ensures |ids| <= |page|
    decreases |page|
  {
    if page == [] {
      assert ids == {};
    } else {
      var n := |page| - 1;
      forall id | id in ids - {page[n]} ensures id in page[..n] {
        assert id in page;
      }
      AscendingCovers(page[..n], ids - {page[n]});
    }
  }

  /** An id is on the page exactly when fewer than `limit` stored ids lie between the cursor and it. */
  lemma InPageIff(ids: set<Id>, after: Option<Id>, limit: nat, id: Id)
    ensures id in Page(ids, after, limit) <==>
            id in ids && Above(id, after) && |Below(ids, after, id)| < limit
  {
    PageIsPage(ids, after, limit);
    var page := Page(ids, after, limit);
    if id in page {
      var k :| 0 <= k < |page| && page[k] == id;
      assert Above(page[k], after);
      forall x | x in Below(ids, after, id) ensures x in page[..k] {
        assert x in page;
      }
      AscendingCovers(page[..k], Below(ids, after, id));
    } else if id in ids && Above(id, after) {
      AscendingFits(page, Below(ids, after, id));
    }
  }

  /** All ids, ascending: the page without a cursor and with room for every id. */
  function AllAscending(ids: set<Id>): seq<Id> {
    Page(ids, None, |ids|)
  }

  lemma AllAscendingListsAll(ids: set<Id>)
    ensures Ascending(AllAscending(ids))
    ensures forall id: Id :: id in AllAscending(ids) <==> id in ids
  {
    PageIsPage(ids, None, |ids|);
    AscendingFits(AllAscending(ids), ids);
    forall id | id in ids ensures id in AllAscending(ids) {
      assert Above(id, None);
    }
  }

  // ---------------------------------------------------------------- the walk

  /** What remains above the cursor; it shrinks with every non-empty page. */
  function Remaining(after: Option<Id>): nat {
    if after.None? then ID_SPACE + 1 else ID_SPACE - after.value
  }

  lemma LastIsAbove(ids: set<Id>, after: Option<Id>, limit: nat)
    requires Page(ids, after, limit) != []
    ensures var page := Page(ids, after, limit);
            Above(page[|page| - 1], after) && Remaining(Some(page[|page| - 1])) < Remaining(after)
  {
    PageIsPage(ids, after, limit);
  }

  /**
   Page after page until one comes back empty. `stored(k)` is what is stored when page `k` is read, an
   arbitrary set each time. The walk ends because the cursor rises in a finite space.
   */
  function Walk(stored: nat -> set<Id>, k: nat, after: Option<Id>, limit: nat): seq<Id>
    decreases Remaining(after)
  {
    var page := Page(stored(k), after, limit);
    if page == [] then []
    else
      LastIsAbove(stored(k), after, limit);
      page + Walk(stored, k + 1, Some(page[|page| - 1]), limit)
  }

  lemma WalkUnfolds(stored: nat -> set<Id>, k: nat, after: Option<Id>, limit: nat, before: seq<Id>)
    ensures var page := Page(stored(k), after, limit);
            && (page == [] ==> Walk(stored, k, after, limit) == [])
            && (page != [] ==>
                  && Remaining(Some(page[|page| - 1])) < Remaining(after)
                  && before + Walk(stored, k, after, limit)
                     == before + page + Walk(stored, k + 1, Some(page[|page| - 1]), limit))
  {
    var page := Page(stored(k), after, limit);
    if page != [] {
      LastIsAbove(stored(k), after, limit);
    }
  }

  /** The caller's loop. */
  method WalkPages(stored: nat -> set<Id>, limit: nat) returns (collected: seq<Id>)
    ensures collected == Walk(stored, 0, None, limit)
  {
    collected := [];
    var after: Option<Id> := None;
    var k := 0;
    while true
      invariant collected + Walk(stored, k, after, limit) == Walk(stored, 0, None, limit)
      decreases Remaining(after)
    {
      WalkUnfolds(stored, k, after, limit, collected);
      var page := Page(stored(k), after, limit);
      if page == [] {
        return;
      }
      collected := collected + page;
      after := Some(page[|page| - 1]);
      k := k + 1;
    }
  }

  /** Strictly ascending, so no id twice, and all above the cursor the walk started from. */
  lemma {:induction false} WalkAscends(stored: nat -> set<Id>, k: nat, after: Option<Id>, limit: nat)
    ensures Ascending(Walk(stored, k, after, limit))
    ensures AllAbove(Walk(stored, k, after, limit), after)
    decreases Remaining(after)
  {
    var page := Page(stored(k), after, limit);
    if page != [] {
      PageIsPage(stored(k), after, limit);
      LastIsAbove(stored(k), after, limit);
      var last := page[|page| - 1];
      var rest := Walk(stored, k + 1, Some(last), limit);
      WalkAscends(stored, k + 1, Some(last), limit);
      AscendingConcat(page, rest);
      RaisedCursor(rest, last, after);
    }
  }

  lemma RaisedCursor(ids: seq<Id>, last: Id, after: Option<Id>)
    requires AllAbove(ids, Some(last)) && Above(last, after)
    ensures AllAbove(ids, after)
  {
    forall i | 0 <= i < |ids| ensures Above(ids[i], after) {
      assert Above(ids[i], Some(last));
    }
  }

  /** How many pages the walk reads, the empty last one included. */
  function PagesRead(stored: nat -> set<Id>, k: nat, after: Option<Id>, limit: nat): (n: nat)
    ensures n >= 1
    decreases Remaining(after)
  {
    var page := Page(stored(k), after, limit);
    if page == [] then 1
    else
      LastIsAbove(stored(k), after, limit);
      1 + PagesRead(stored, k + 1, Some(page[|page| - 1]), limit)
  }

  /** The cursor with which page `k + i` is read. */
  function CursorAt(stored: nat -> set<Id>, k: nat, after: Option<Id>, limit: nat, i: nat): Option<Id>
    requires i < PagesRead(stored, k, after, limit)
    decreases i
  {
    if i == 0 then after
    else
      var page := Page(stored(k), after, limit);
      CursorAt(stored, k + 1, Some(page[|page| - 1]), limit, i - 1)
  }

  /** Page `k + i` as the walk reads it. */
  function PageAt(stored: nat -> set<Id>, k: nat, after: Option<Id>, limit: nat, i: nat): seq<Id>
    requires i < PagesRead(stored, k, after, limit)
  {
    Page(stored(k + i), CursorAt(stored, k, after, limit, i), limit)
  }

  lemma LaterPage(stored: nat -> set<Id>, k: nat, after: Option<Id>, limit: nat, i: nat)
    requires Page(stored(k), after, limit) != []
    requires var page := Page(stored(k), after, limit);
             i < PagesRead(stored, k + 1, Some(page[|page| - 1]), limit)
    ensures i + 1 < PagesRead(stored, k, after, limit)
    ensures var page := Page(stored(k), after, limit);
            PageAt(stored, k, after, limit, i + 1) == PageAt(stored, k + 1, Some(page[|page| - 1]), limit, i)
  {
    assert k + (i + 1) == (k + 1) + i;
  }

  lemma {:induction false} FoundOn(stored: nat -> set<Id>, k: nat, after: Option<Id>, limit: nat, id: Id)
    returns (i: nat)
    requires id in Walk(stored, k, after, limit)
    ensures i < PagesRead(stored, k, after, limit) && id in PageAt(stored, k, after, limit, i)
    decreases Remaining(after)
  {
    var page := Page(stored(k), after, limit);
    if id in page {
      i := 0;
    } else {
      LastIsAbove(stored(k), after, limit);
      var j := FoundOn(stored, k + 1, Some(page[|page| - 1]), limit, id);
      LaterPage(stored, k, after, limit, j);
      i := j + 1;
    }
  }

  /** Nothing is invented: every id returned is on a page the walk read, so it was stored when that page was read. */
  lemma WalkIsSound(stored: nat -> set<Id>, k: nat, after: Option<Id>, limit: nat, id: Id) returns (i: nat)
    requires id in Walk(stored, k, after, limit)
    ensures i < PagesRead(stored, k, after, limit)
    ensures id in PageAt(stored, k, after, limit, i) && id in stored(k + i)
  {
    i := FoundOn(stored, k, after, limit, id);
    PageIsPage(stored(k + i), CursorAt(stored, k, after, limit, i), limit);
  }

  /** Nothing that stays is missed: an id stored at every page the walk reads is returned. */
  lemma {:induction false} WalkIsComplete(stored: nat -> set<Id>, k: nat, after: Option<Id>, limit: nat, id: Id)
    requires limit >= 1 && Above(id, after)
    requires forall j | k <= j < k + PagesRead(stored, k, after, limit) :: id in stored(j)
    ensures id in Walk(stored, k, after, limit)
    decreases Remaining(after)
  {
    var page := Page(stored(k), after, limit);
    PageIsPage(stored(k), after, limit);
    assert id in stored(k);
    if id !in page {
      assert |page| == limit && page[limit - 1] < id;
      LastIsAbove(stored(k), after, limit);
      WalkIsComplete(stored, k + 1, Some(page[|page| - 1]), limit, id);
    }
  }

  /** Without concurrent writes the walk lists the stored ids, whatever the page size. */
  lemma WalkOfFixedIds(ids: set<Id>, limit: nat)
    requires limit >= 1
    ensures Walk(_ => ids, 0, None, limit) == AllAscending(ids)
  {
    var stored: nat -> set<Id> := _ => ids;
    var walk := Walk(stored, 0, None, limit);
    WalkAscends(stored, 0, None, limit);
    AllAscendingListsAll(ids);
    forall id: Id ensures id in walk <==> id in AllAscending(ids) {
      if id in ids {
        WalkIsComplete(stored, 0, None, limit, id);
      }
      if id in walk {
        var i := WalkIsSound(stored, 0, None, limit, id);
      }
    }
    AscendingIsUnique(walk, AllAscending(ids));
  }
}
