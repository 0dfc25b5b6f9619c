/** The MIC registry: the build-time checks, the emitted table, and the lookups over it. */
module MicTable {
  import opened Wrappers
  import opened Sorting

  /** Four ASCII bytes read as one big-endian number, so that numbers order as the byte arrays do. */
  type Mic = nat

  datatype Market = Market(mic: Mic, operating: Mic, country: nat, active: bool)

  datatype Error =
    | EmptyRegistry
    | TooManyMarkets
    | Duplicate(mic: Mic)
    | UnknownOperating(mic: Mic, operating: Mic)
    | ReferenceCycle(mic: Mic)

  const U16_MAX: nat := 0xFFFF

  function MicOf(m: Market): nat {
    m.mic
  }

  // ---------------------------------------------------------------- what the registry must satisfy

  predicate Distinct(markets: seq<Market>) {
    forall i, j | 0 <= i < j < |markets| :: markets[i].mic != markets[j].mic
  }

  predicate Repeated(markets: seq<Market>, mic: Mic) {
    exists i, j :: 0 <= i < j < |markets| && markets[i].mic == mic && markets[j].mic == mic
  }

  /** The operating reference of every listed MIC. */
  ghost function Links(markets: seq<Market>): map<Mic, Mic> {
    if markets == [] then map[]
    else
      var last := markets[|markets| - 1];
      Links(markets[..|markets| - 1])[last.mic := last.operating]
  }

  ghost predicate Resolves(links: map<Mic, Mic>) {
    forall x {:trigger links[x]} | x in links :: links[x] in links
  }

  /** Following the reference `k` times. */
  ghost function Iterate(links: map<Mic, Mic>, x: Mic, k: nat): Mic
    decreases k
  {
    if k == 0 || x !in links then x else Iterate(links, links[x], k - 1)
  }

  predicate SelfOperating(links: map<Mic, Mic>, x: Mic) {
    x in links && links[x] == x
  }

  /** No MIC comes back to itself, except one that operates itself. */
  ghost predicate NoCycle(links: map<Mic, Mic>) {
    forall x, k: nat | x in links && k > 0 && Iterate(links, x, k) == x :: links[x] == x
  }

  ghost predicate Acceptable(markets: seq<Market>) {
    && markets != []
    && |markets| <= U16_MAX
    && Distinct(markets)
    && Resolves(Links(markets))
    && NoCycle(Links(markets))
  }

  // ---------------------------------------------------------------- walks along references

  /** A walk that leaves the registry stays where it left, so walks compose without any condition. */
  lemma {:induction false} IterateSplit(links: map<Mic, Mic>, x: Mic, a: nat, b: nat)
    ensures Iterate(links, Iterate(links, x, a), b) == Iterate(links, x, a + b)
    decreases a
  {
    if a > 0 && x in links {
      IterateSplit(links, links[x], a - 1, b);
    }
  }

  lemma {:induction false} IterateAdd(links: map<Mic, Mic>, x: Mic, a: nat, b: nat)
    requires Resolves(links) && x in links
    ensures Iterate(links, x, a) in links
    ensures Iterate(links, Iterate(links, x, a), b) == Iterate(links, x, a + b)
    decreases a
  {
    if a > 0 {
      IterateAdd(links, links[x], a - 1, b);
    }
  }

  lemma {:induction false} SelfOperatingStays(links: map<Mic, Mic>, x: Mic, k: nat)
    requires SelfOperating(links, x)
    ensures Iterate(links, x, k) == x
  {
    if k > 0 {
      SelfOperatingStays(links, x, k - 1);
    }
  }

  lemma {:induction false} ReturnsLater(links: map<Mic, Mic>, x: Mic, p: nat, m: nat) returns (q: nat)
    requires p > 0 && Iterate(links, x, p) == x
    ensures q >= m && Iterate(links, x, q) == x
  {
    if m == 0 {
      q := 0;
    } else {
      var q' := ReturnsLater(links, x, p, m - 1);
      q := q' + p;
      IterateSplit(links, x, q', p);
    }
  }

  ghost predicate Settles(links: map<Mic, Mic>, x: Mic) {
    exists k: nat :: SelfOperating(links, Iterate(links, x, k))
  }

  /** If every walk settles, nothing but a self-operating MIC returns to itself. */
  lemma SettlingIsAcyclic(links: map<Mic, Mic>)
    requires Resolves(links) && forall x | x in links :: Settles(links, x)
    ensures NoCycle(links)
  {
    forall x, p: nat | x in links && p > 0 && Iterate(links, x, p) == x
      ensures links[x] == x
    {
      assert Settles(links, x);
      var k: nat :| SelfOperating(links, Iterate(links, x, k));
      var q := ReturnsLater(links, x, p, k);
      IterateAdd(links, x, k, q - k);
      SelfOperatingStays(links, Iterate(links, x, k), q - k);
    }
  }

  /** Without cycles, a walk that comes back to where it was has settled there. */
  lemma RepeatSettles(links: map<Mic, Mic>, x: Mic, i: nat, j: nat)
    requires Resolves(links) && NoCycle(links) && x in links
    requires i < j && Iterate(links, x, i) == Iterate(links, x, j)
    ensures SelfOperating(links, Iterate(links, x, i))
  {
    IterateAdd(links, x, i, j - i);
    var y := Iterate(links, x, i);
    assert y in links && Iterate(links, y, j - i) == y;
  }

  /** The first `n` places of a walk. */
  lemma WalkStays(links: map<Mic, Mic>, x: Mic, n: nat) returns (walk: seq<Mic>)
    requires Resolves(links) && x in links
    ensures |walk| == n && forall k | 0 <= k < n :: walk[k] in links.Keys && walk[k] == Iterate(links, x, k)
  {
    walk := seq(n, k requires 0 <= k => Iterate(links, x, k));
    forall k | 0 <= k < n ensures walk[k] in links.Keys {
      IterateAdd(links, x, k, 0);
    }
  }

  /** Without cycles every walk settles in fewer steps than there are MICs (pigeonhole). */
  lemma SettlesQuickly(links: map<Mic, Mic>, x: Mic)
    requires Resolves(links) && NoCycle(links) && x in links
    ensures exists k: nat :: k < |links| && SelfOperating(links, Iterate(links, x, k))
  {
    var walk := WalkStays(links, x, |links| + 1);
    var i, j := Pigeonhole(walk, links.Keys);
    RepeatSettles(links, x, i, j);
  }

  // ---------------------------------------------------------------- order does not matter

  lemma {:induction false} CountOfDistinct(markets: seq<Market>, m: Market)
    requires Distinct(markets)
    ensures multiset(markets)[m] <= 1
  {
    if markets != [] {
      SplitLast(markets);
      var n := |markets| - 1;
      CountOfDistinct(markets[..n], m);
      if m == markets[n] {
        assert m !in markets[..n];
      }
    }
  }

  lemma CountOfRepeated(markets: seq<Market>, i: nat, j: nat)
    requires i < j < |markets| && markets[i] == markets[j]
    ensures multiset(markets)[markets[i]] >= 2
  {
    assert markets == markets[..j] + [markets[j]] + markets[j + 1..];
    assert markets[..j][i] == markets[i];
    assert markets[i] in multiset(markets[..j]);
  }

  lemma {:induction false} TwiceListed(markets: seq<Market>, m: Market)
    requires multiset(markets)[m] >= 2
    ensures Repeated(markets, m.mic)
  {
    var n := |markets| - 1;
    SplitLast(markets);
    if markets[n] == m {
      assert m in multiset(markets[..n]);
      var i :| 0 <= i < n && markets[..n][i] == m;
      assert markets[i].mic == m.mic && markets[n].mic == m.mic;
    } else {
      TwiceListed(markets[..n], m);
      var i, j :| 0 <= i < j < n && markets[..n][i].mic == m.mic && markets[..n][j].mic == m.mic;
      assert markets[i].mic == m.mic && markets[j].mic == m.mic;
    }
  }

  /** Sorting neither makes nor hides duplicates. */
  lemma RepeatedPermuted(a: seq<Market>, b: seq<Market>, mic: Mic)
    requires multiset(a) == multiset(b) && Repeated(a, mic)
    ensures Repeated(b, mic)
  {
    var i, j :| 0 <= i < j < |a| && a[i].mic == mic && a[j].mic == mic;
    if a[i] == a[j] {
      CountOfRepeated(a, i, j);
      TwiceListed(b, a[i]);
    } else {
      var k := IndexIn(a, b, i);
      var l := IndexIn(a, b, j);
      assert k != l;
      assert b[if k < l then k else l].mic == mic && b[if k < l then l else k].mic == mic;
    }
  }

  lemma DistinctPermuted(a: seq<Market>, b: seq<Market>)
    requires multiset(a) == multiset(b) && Distinct(a)
    ensures Distinct(b)
  {
    forall i, j | 0 <= i < j < |b|
      ensures b[i].mic != b[j].mic
    {
      if b[i] == b[j] {
        CountOfRepeated(b, i, j);
        CountOfDistinct(a, b[i]);
      } else {
        assert b[i] in multiset(a) && b[j] in multiset(a);
        assert b[i] in a && b[j] in a;
      }
    }
  }

  lemma {:induction false} LinkOf(markets: seq<Market>, i: nat)
    requires Distinct(markets) && i < |markets|
    ensures markets[i].mic in Links(markets)
    ensures Links(markets)[markets[i].mic] == markets[i].operating
  {
    var n := |markets| - 1;
    if i < n {
      LinkOf(markets[..n], i);
    }
  }

  lemma {:induction false} OriginOf(markets: seq<Market>, x: Mic) returns (i: nat)
    requires x in Links(markets)
    ensures i < |markets| && markets[i].mic == x
  {
    var n := |markets| - 1;
    if markets[n].mic == x {
      i := n;
    } else {
      i := OriginOf(markets[..n], x);
    }
  }

  lemma {:induction false} LinksSize(markets: seq<Market>)
    requires Distinct(markets)
    ensures |Links(markets)| == |markets|
  {
    if markets != [] {
      var n := |markets| - 1;
      LinksSize(markets[..n]);
      if markets[n].mic in Links(markets[..n]) {
        var i := OriginOf(markets[..n], markets[n].mic);
      }
    }
  }

  lemma IndexIn(markets: seq<Market>, other: seq<Market>, i: nat) returns (j: nat)
    requires multiset(markets) == multiset(other) && i < |markets|
    ensures j < |other| && other[j] == markets[i]
  {
    assert markets[i] in multiset(other);
    j :| 0 <= j < |other| && other[j] == markets[i];
  }

  lemma LinksIncluded(a: seq<Market>, b: seq<Market>, x: Mic)
    requires Distinct(a) && Distinct(b) && multiset(a) == multiset(b) && x in Links(a)
    ensures x in Links(b) && Links(b)[x] == Links(a)[x]
  {
    var i := OriginOf(a, x);
    var j := IndexIn(a, b, i);
    LinkOf(a, i);
    LinkOf(b, j);
  }

  /** Sorting changes neither distinctness nor the references. */
  lemma SortedRegistry(input: seq<Market>)
    ensures Distinct(SortBy(input, MicOf)) <==> Distinct(input)
    ensures Distinct(input) ==> Links(SortBy(input, MicOf)) == Links(input)
  {
    var markets := SortBy(input, MicOf);
    SortByPermutes(input, MicOf);
    if Distinct(markets) {
      DistinctPermuted(markets, input);
    }
    if Distinct(input) {
      DistinctPermuted(input, markets);
      forall x | x in Links(input) ensures x in Links(markets) && Links(markets)[x] == Links(input)[x] {
        LinksIncluded(input, markets, x);
      }
      forall x | x in Links(markets) ensures x in Links(input) {
        LinksIncluded(markets, input, x);
      }
    }
  }

  // ---------------------------------------------------------------- finalisation

  /** The neighbour check of a sorted list finds every duplicate. */
  method CheckDistinct(markets: seq<Market>) returns (duplicate: Option<Mic>)
    requires SortedBy(markets, MicOf)
    ensures duplicate.None? <==> Distinct(markets)
    ensures duplicate.Some? ==> Repeated(markets, duplicate.value)
  {
    var i := 1;
    while i < |markets|
      invariant 1 <= i
      invariant forall j, k | 0 <= j < k < i && k < |markets| :: markets[j].mic < markets[k].mic
    {
      if markets[i - 1].mic == markets[i].mic {
        return Some(markets[i].mic);
      }
      forall j | 0 <= j < i ensures markets[j].mic < markets[i].mic {
        assert MicOf(markets[i - 1]) <= MicOf(markets[i]);
        if j < i - 1 {
          assert markets[j].mic < markets[i - 1].mic;
        }
      }
      i := i + 1;
    }
    return None;
  }

  /** The reported reference dangles, or the reported MIC's own walk goes round for ever. */
  ghost predicate Faulty(links: map<Mic, Mic>, error: Error) {
    match error
    case UnknownOperating(m, operating) => m in links && links[m] == operating && operating !in links
    case ReferenceCycle(m) => m in links && !NoCycle(links) && !Settles(links, m)
    case _ => false
  }

  /** Follow one market's references with the `hops` bound. */
  method CheckReferences(markets: seq<Market>, i: nat) returns (error: Option<Error>)
    requires SortedBy(markets, MicOf) && Distinct(markets) && i < |markets|
    ensures error.None? ==> Settles(Links(markets), markets[i].mic)
    ensures error.Some? ==> Faulty(Links(markets), error.value)
  {
    ghost var links := Links(markets);
    var current := markets[i];
    var hops := 0;
    ghost var at: nat := i;
    LinkOf(markets, i);
    while current.mic != current.operating
      invariant hops <= |markets| && at < |markets| && current == markets[at]
      invariant current.mic in links && links[current.mic] == current.operating
      invariant current.mic == Iterate(links, markets[i].mic, hops)
      invariant forall h: nat | h <= hops :: Iterate(links, markets[i].mic, h) in links
      invariant forall h: nat | h < hops :: !SelfOperating(links, Iterate(links, markets[i].mic, h))
      decreases |markets| - hops
    {
      var index := SearchBy(markets, MicOf, current.operating, 0, |markets|);
      if index.None? {
        UnresolvedReference(markets, current.mic);
        return Some(UnknownOperating(current.mic, current.operating));
      }
      IterateSnoc(links, markets[i].mic, hops);
      at := index.value;
      current := markets[index.value];
      LinkOf(markets, at);
      hops := hops + 1;
      if hops > |markets| {
        TooManyHops(markets, markets[i].mic);
        return Some(ReferenceCycle(markets[i].mic));
      }
    }
    assert SelfOperating(links, Iterate(links, markets[i].mic, hops));
    return None;
  }

  lemma UnresolvedReference(markets: seq<Market>, x: Mic)
    requires x in Links(markets)
    requires forall i | 0 <= i < |markets| :: MicOf(markets[i]) != Links(markets)[x]
    ensures Links(markets)[x] !in Links(markets)
  {
    if Links(markets)[x] in Links(markets) {
      var i := OriginOf(markets, Links(markets)[x]);
    }
  }

  /** A place that a walk visits twice without settling there is on a cycle, and the walk never settles. */
  lemma RepeatCircles(links: map<Mic, Mic>, x: Mic, i: nat, j: nat)
    requires i < j && Iterate(links, x, i) == Iterate(links, x, j)
    requires Iterate(links, x, i) in links && !SelfOperating(links, Iterate(links, x, i))
    ensures !NoCycle(links) && !Settles(links, x)
  {
    var y := Iterate(links, x, i);
    IterateSplit(links, x, i, j - i);
    assert Iterate(links, y, j - i) == y;
    if k: nat :| SelfOperating(links, Iterate(links, x, k)) {
      var q := ReturnsLater(links, y, j - i, k);
      IterateSplit(links, x, i, q);
      IterateSplit(links, x, k, i + q - k);
      SelfOperatingStays(links, Iterate(links, x, k), i + q - k);
      assert false;
    }
  }

  /**
   More unsettled steps than there are markets, all inside the registry, mean a cycle: some place came twice. This
   is so whatever else dangles.
   */
  lemma TooManyHops(markets: seq<Market>, x: Mic)
    requires Distinct(markets)
    requires forall h: nat | h <= |markets| :: Iterate(Links(markets), x, h) in Links(markets)
    requires forall h: nat | h <= |markets| :: !SelfOperating(Links(markets), Iterate(Links(markets), x, h))
    ensures !NoCycle(Links(markets)) && !Settles(Links(markets), x)
  {
    var links := Links(markets);
    LinksSize(markets);
    var walk := seq(|markets| + 1, h requires 0 <= h => Iterate(links, x, h));
    assert forall h | 0 <= h < |walk| :: walk[h] in links.Keys;
    var i, j := Pigeonhole(walk, links.Keys);
    assert walk[i] == Iterate(links, x, i) && walk[j] == Iterate(links, x, j);
    RepeatCircles(links, x, i, j);
  }

  /** One more step, taken at the end of the walk. */
  lemma {:induction false} IterateSnoc(links: map<Mic, Mic>, x: Mic, k: nat)
    requires Iterate(links, x, k) in links
    ensures Iterate(links, x, k + 1) == links[Iterate(links, x, k)]
    decreases k
  {
    if k > 0 && x in links {
      IterateSnoc(links, links[x], k - 1);
    }
  }

  method CheckAllReferences(markets: seq<Market>) returns (error: Option<Error>)
    requires SortedBy(markets, MicOf) && Distinct(markets)
    ensures error.None? <==> Resolves(Links(markets)) && NoCycle(Links(markets))
    ensures error.Some? ==> Faulty(Links(markets), error.value)
  {
    for i := 0 to |markets|
      invariant forall j | 0 <= j < i ::
          Settles(Links(markets), markets[j].mic) && markets[j].operating in Links(markets)
    {
      error := CheckReferences(markets, i);
      if error.Some? {
        return;
      }
      LinkOf(markets, i);
      SettlingResolvesFirst(Links(markets), markets[i].mic);
    }
    AllSettled(markets);
    return None;
  }

  /** The first check that fails, in the order of the code, and what the message names. */
  ghost predicate Explains(error: Error, input: seq<Market>) {
    match error
    case EmptyRegistry => input == []
    case TooManyMarkets => input != [] && |input| > U16_MAX
    case Duplicate(mic) => input != [] && |input| <= U16_MAX && Repeated(input, mic)
    case _ => input != [] && |input| <= U16_MAX && Distinct(input) && Faulty(Links(input), error)
  }

  method FinalizeMic(input: seq<Market>) returns (r: Result<seq<Market>, Error>)
    ensures r.Ok? <==> Acceptable(input)
    ensures r.Ok? ==> r.value == SortBy(input, MicOf)
    ensures r.Ok? ==> SortedBy(r.value, MicOf) && multiset(r.value) == multiset(input)
    ensures r.Err? ==> Explains(r.error, input)
  {
    if input == [] {
      return Err(EmptyRegistry);
    }
    if |input| > U16_MAX {
      return Err(TooManyMarkets);
    }
    var markets := SortBy(input, MicOf);
    SortBySorts(input, MicOf);
    SortByPermutes(input, MicOf);
    SortedRegistry(input);
    var duplicate := CheckDistinct(markets);
    if duplicate.Some? {
      RepeatedPermuted(markets, input, duplicate.value);
      return Err(Duplicate(duplicate.value));
    }
    var error := CheckAllReferences(markets);
    if error.Some? {
      return Err(error.value);
    }
    return Ok(markets);
  }

  /** A walk that settles does not leave the registry on its first step. */
  lemma SettlingResolvesFirst(links: map<Mic, Mic>, x: Mic)
    requires x in links && Settles(links, x)
    ensures links[x] in links
  {
    var k: nat :| SelfOperating(links, Iterate(links, x, k));
    if k > 0 {
      assert Iterate(links, x, k) == Iterate(links, links[x], k - 1);
    }
  }

  lemma AllSettled(markets: seq<Market>)
    requires Distinct(markets)
    requires forall i | 0 <= i < |markets| ::
        Settles(Links(markets), markets[i].mic) && markets[i].operating in Links(markets)
    ensures Resolves(Links(markets)) && NoCycle(Links(markets))
  {
    var links := Links(markets);
    forall x | x in links ensures Settles(links, x) && links[x] in links {
      var i := OriginOf(markets, x);
      LinkOf(markets, i);
    }
    SettlingIsAcyclic(links);
  }

  // ---------------------------------------------------------------- acceptance on the list itself

  /** A way from market `i` along listed references to one that operates itself. */
  predicate Route(markets: seq<Market>, i: nat, path: seq<nat>) {
    && path != [] && path[0] == i
    && (forall t | 0 <= t < |path| :: path[t] < |markets|)
    && (forall t | 1 <= t < |path| :: markets[path[t - 1]].operating == markets[path[t]].mic)
    && markets[path[|path| - 1]].operating == markets[path[|path| - 1]].mic
  }

  ghost predicate HasRoute(markets: seq<Market>, i: nat) {
    exists path :: Route(markets, i, path)
  }

  lemma {:induction false} RouteSettles(markets: seq<Market>, i: nat, path: seq<nat>)
    requires Distinct(markets) && Route(markets, i, path)
    ensures i < |markets| && markets[i].mic in Links(markets) && markets[i].operating in Links(markets)
    ensures SelfOperating(Links(markets), Iterate(Links(markets), markets[i].mic, |path| - 1))
    decreases |path|
  {
    var links := Links(markets);
    LinkOf(markets, i);
    if |path| > 1 {
      var rest := path[1..];
      assert forall t | 0 <= t < |rest| :: rest[t] == path[t + 1];
      assert markets[path[0]].operating == markets[path[1]].mic;
      assert rest[|rest| - 1] == path[|path| - 1];
      RouteSettles(markets, path[1], rest);
      assert links[markets[i].mic] == markets[path[1]].mic;
    }
  }

  lemma {:induction false} SettlesRoute(markets: seq<Market>, i: nat, k: nat) returns (path: seq<nat>)
    requires Distinct(markets) && Resolves(Links(markets)) && i < |markets|
    requires SelfOperating(Links(markets), Iterate(Links(markets), markets[i].mic, k))
    ensures Route(markets, i, path)
    decreases k
  {
    var links := Links(markets);
    LinkOf(markets, i);
    if k == 0 {
      path := [i];
    } else {
      var j := OriginOf(markets, markets[i].operating);
      LinkOf(markets, j);
      var rest := SettlesRoute(markets, j, k - 1);
      path := [i] + rest;
    }
  }

  /** What `finalize_mic` demands, on the list: 1 to 65535 distinct MICs, each with a route to an operating one. */
  lemma AcceptableMeans(markets: seq<Market>)
    ensures Acceptable(markets) <==>
            && 1 <= |markets| <= 65535
            && (forall i, j | 0 <= i < j < |markets| :: markets[i].mic != markets[j].mic)
            && (forall i | 0 <= i < |markets| :: HasRoute(markets, i))
  {
    if Acceptable(markets) {
      forall i | 0 <= i < |markets| ensures HasRoute(markets, i) {
        LinkOf(markets, i);
        SettlesQuickly(Links(markets), markets[i].mic);
        var k: nat :| SelfOperating(Links(markets), Iterate(Links(markets), markets[i].mic, k));
        var path := SettlesRoute(markets, i, k);
      }
    }
    if Distinct(markets) && forall i | 0 <= i < |markets| :: HasRoute(markets, i) {
      forall i | 0 <= i < |markets|
        ensures Settles(Links(markets), markets[i].mic) && markets[i].operating in Links(markets)
      {
        assert HasRoute(markets, i);
        var path :| Route(markets, i, path);
        RouteSettles(markets, i, path);
      }
      AllSettled(markets);
    }
  }

  // ---------------------------------------------------------------- the emitted table

  datatype MicEntry = MicEntry(code: Mic, operating: nat, country: nat, active: bool)

  function CodeOf(e: MicEntry): nat {
    e.code
  }

  /** `n as u16`. */
  function AsU16(n: nat): nat {
    n % 0x1_0000
  }

  /** The table carries the markets in order, and each index names the entry of the reference. */
  ghost predicate Emitted(entries: seq<MicEntry>, markets: seq<Market>) {
    && |entries| == |markets|
    && (forall i | 0 <= i < |entries| ::
          && entries[i].code == markets[i].mic
          && entries[i].country == markets[i].country
          && entries[i].active == markets[i].active
          && entries[i].operating < |entries|
          && entries[entries[i].operating].code == markets[i].operating)
  }

  /** `e` is what the generator writes for market `i`. */
  predicate EntryFor(e: MicEntry, markets: seq<Market>, i: nat)
    requires i < |markets|
  {
    && e.code == markets[i].mic
    && e.country == markets[i].country
    && e.active == markets[i].active
    && e.operating < |markets|
    && markets[e.operating].mic == markets[i].operating
  }

  method EmitEntry(markets: seq<Market>, i: nat) returns (e: MicEntry)
    requires SortedBy(markets, MicOf) && Distinct(markets) && Resolves(Links(markets)) && |markets| <= U16_MAX
    requires i < |markets|
    ensures EntryFor(e, markets, i)
  {
    var index := SearchBy(markets, MicOf, markets[i].operating, 0, |markets|);
    LinkOf(markets, i);
    if index.None? {
      UnresolvedReference(markets, markets[i].mic);
      assert false;
    }
    e := MicEntry(markets[i].mic, AsU16(index.value), markets[i].country, markets[i].active);
  }

  method EmitEntries(markets: seq<Market>) returns (entries: seq<MicEntry>)
    requires SortedBy(markets, MicOf) && Distinct(markets) && Resolves(Links(markets)) && |markets| <= U16_MAX
    ensures Emitted(entries, markets)
  {
    entries := [];
    for i := 0 to |markets|
      invariant |entries| == i
      invariant forall j | 0 <= j < i :: EntryFor(entries[j], markets, j)
    {
      var e := EmitEntry(markets, i);
      entries := entries + [e];
    }
    forall i | 0 <= i < |entries|
      ensures entries[i].operating < |entries| && entries[entries[i].operating].code == markets[i].operating
    {
      assert EntryFor(entries[i], markets, i) && EntryFor(entries[entries[i].operating], markets, entries[i].operating);
    }
  }

  method GenerateTable(input: seq<Market>) returns (r: Result<seq<MicEntry>, Error>)
    ensures r.Ok? <==> Acceptable(input)
    ensures r.Ok? ==> Emitted(r.value, SortBy(input, MicOf))
    ensures r.Err? ==> Explains(r.error, input)
  {
    var finalized := FinalizeMic(input);
    if finalized.Err? {
      return Err(finalized.error);
    }
    SortedRegistry(input);
    assert |finalized.value| == |input| by {
      SortByMembers(input, MicOf);
    }
    var entries := EmitEntries(finalized.value);
    return Ok(entries);
  }

  // ---------------------------------------------------------------- lookups over the table

  predicate Table(entries: seq<MicEntry>) {
    && SortedBy(entries, CodeOf)
    && forall i | 0 <= i < |entries| :: entries[i].operating < |entries|
  }

  /** `find`: binary search by code; `None` is `MicError::Unregistered`. */
  function Find(entries: seq<MicEntry>, code: Mic): (r: Option<nat>)
    requires Table(entries)
    ensures r.Some? ==> r.value < |entries| && entries[r.value].code == code
    ensures r.None? ==> forall i | 0 <= i < |entries| :: entries[i].code != code
  {
    var r := SearchBy(entries, CodeOf, code, 0, |entries|);
    assert r.None? ==> forall i | 0 <= i < |entries| :: CodeOf(entries[i]) != code;
    r
  }

  function OperatingMic(entries: seq<MicEntry>, code: Mic): Mic
    requires Table(entries) && Find(entries, code).Some?
  {
    entries[entries[Find(entries, code).value].operating].code
  }

  predicate IsOperating(entries: seq<MicEntry>, code: Mic)
    requires Table(entries) && Find(entries, code).Some?
  {
    OperatingMic(entries, code) == code
  }

  /** `k` calls of `operating_mic` in a row. */
  function OperatingAfter(entries: seq<MicEntry>, code: Mic, k: nat): (r: Mic)
    requires Table(entries) && Find(entries, code).Some?
    ensures Find(entries, r).Some?
    decreases k
  {
    if k == 0 then code else OperatingAfter(entries, OperatingMic(entries, code), k - 1)
  }

  lemma EmittedIsTable(input: seq<Market>, entries: seq<MicEntry>)
    requires Emitted(entries, SortBy(input, MicOf))
    ensures Table(entries)
  {
    SortBySorts(input, MicOf);
    var markets := SortBy(input, MicOf);
    forall i, j | 0 <= i < j < |entries|
      ensures CodeOf(entries[i]) <= CodeOf(entries[j])
    {
      assert MicOf(markets[i]) <= MicOf(markets[j]);
    }
  }

  /** A code is found exactly when it is registered, and its operating MIC is the registered one. */
  lemma LookupIsReference(input: seq<Market>, entries: seq<MicEntry>, code: Mic)
    requires Distinct(input) && Emitted(entries, SortBy(input, MicOf))
    ensures Table(entries)
    ensures Find(entries, code).Some? <==> code in Links(input)
    ensures code in Links(input) ==> OperatingMic(entries, code) == Links(input)[code]
  {
    EmittedIsTable(input, entries);
    SortedRegistry(input);
    var markets := SortBy(input, MicOf);
    if code in Links(markets) {
      var i := OriginOf(markets, code);
      assert entries[i].code == code;
    }
    if Find(entries, code).Some? {
      LinkOf(markets, Find(entries, code).value);
    }
  }

  /** The table answers `operating_mic` as `links` does. */
  ghost predicate Agrees(entries: seq<MicEntry>, links: map<Mic, Mic>)
    requires Table(entries)
  {
    forall code {:trigger OperatingMic(entries, code)} {:trigger Find(entries, code)} | code in links ::
      Find(entries, code).Some? && OperatingMic(entries, code) == links[code]
  }

  /** What a lookup says of a listed market, and that nothing else is found. */
  lemma {:induction false} LookupMeans(input: seq<Market>, entries: seq<MicEntry>, i: nat, code: Mic)
    requires Distinct(input) && Emitted(entries, SortBy(input, MicOf)) && i < |input|
    ensures Table(entries)
    ensures Find(entries, input[i].mic).Some?
    ensures var e := entries[Find(entries, input[i].mic).value];
            e.code == input[i].mic && e.country == input[i].country && e.active == input[i].active
    ensures OperatingMic(entries, input[i].mic) == input[i].operating
    ensures IsOperating(entries, input[i].mic) <==> input[i].operating == input[i].mic
    ensures Find(entries, code).None? <==> forall j | 0 <= j < |input| :: input[j].mic != code
  {
    LookupIsReference(input, entries, input[i].mic);
    LookupIsReference(input, entries, code);
    LinkOf(input, i);
    if code in Links(input) {
      var j := OriginOf(input, code);
    }
    if j: nat :| j < |input| && input[j].mic == code {
      LinkOf(input, j);
    }
    EntryOf(input, entries, i);
  }

  /** The entry with a market's code is that market's. */
  lemma EntryOf(input: seq<Market>, entries: seq<MicEntry>, i: nat)
    requires Distinct(input) && Emitted(entries, SortBy(input, MicOf)) && i < |input|
    requires Table(entries) && Find(entries, input[i].mic).Some?
    ensures var e := entries[Find(entries, input[i].mic).value];
            e.country == input[i].country && e.active == input[i].active
  {
    var p := Find(entries, input[i].mic).value;
    var j := SortByOrigin(input, MicOf, p);
    assert input[j].mic == input[i].mic;
    assert i == j;
  }

  lemma {:induction false} RepeatedLookup(entries: seq<MicEntry>, links: map<Mic, Mic>, code: Mic, k: nat)
    requires Table(entries) && Agrees(entries, links) && Resolves(links) && code in links
    ensures Find(entries, code).Some?
    ensures OperatingAfter(entries, code, k) == Iterate(links, code, k)
    decreases k
  {
    if k > 0 {
      var next := links[code];
      RepeatedLookup(entries, links, next, k - 1);
      assert OperatingMic(entries, code) == next;
      assert OperatingAfter(entries, code, k) == OperatingAfter(entries, next, k - 1);
      assert Iterate(links, code, k) == Iterate(links, next, k - 1);
    }
  }

  lemma TableAgrees(input: seq<Market>, entries: seq<MicEntry>)
    requires Distinct(input) && Emitted(entries, SortBy(input, MicOf))
    ensures Table(entries) && Agrees(entries, Links(input))
  {
    EmittedIsTable(input, entries);
    forall x | x in Links(input) ensures Find(entries, x).Some? && OperatingMic(entries, x) == Links(input)[x] {
      LookupIsReference(input, entries, x);
    }
  }

  /** Repeated `operating_mic` reaches an operating MIC in fewer steps than there are entries. */
  lemma OperatingIsReached(input: seq<Market>, entries: seq<MicEntry>, code: Mic)
    requires Acceptable(input) && Emitted(entries, SortBy(input, MicOf)) && code in Links(input)
    ensures Table(entries) && Find(entries, code).Some?
    ensures exists k: nat, j: nat ::
              && k < |entries| && j < |input| && input[j].mic == input[j].operating
              && OperatingAfter(entries, code, k) == input[j].mic
  {
    var links := Links(input);
    TableAgrees(input, entries);
    SettlesQuickly(links, code);
    LinksSize(input);
    SortByMembers(input, MicOf);
    var k: nat :| k < |links| && SelfOperating(links, Iterate(links, code, k));
    RepeatedLookup(entries, links, code, k);
    var j := OriginOf(input, Iterate(links, code, k));
    LinkOf(input, j);
    assert OperatingAfter(entries, code, k) == input[j].mic;
  }
}
