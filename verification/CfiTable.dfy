/** CFI codes: the seed, the compiled attribute masks, and validation by binary search. */
module CfiTable {
  import opened Wrappers
  import opened Ascii
  import opened Bits
  import opened Sorting

  // ---------------------------------------------------------------- seed and compiled form

  /** One group of the seed: its letter and the four lists of allowed attribute letters. */
  datatype GroupSeed = GroupSeed(code: byte, attributes: seq<seq<byte>>)

  datatype CategorySeed = CategorySeed(code: byte, groups: seq<GroupSeed>)

  datatype Group = Group(code: byte, masks: seq<bv32>)

  datatype Category = Category(code: byte, groups: seq<Group>)

  type Candidate = c: seq<byte> | |c| == 6 witness [65, 65, 65, 65, 65, 65]

  datatype Error =
    | InvalidCharacter(character: byte, position: nat)
    | UnknownCategory(code: byte)
    | UnknownGroup(category: byte, code: byte)
    | InvalidAttribute(category: byte, group: byte, index: nat, code: byte)

  function GroupCode(g: Group): nat {
    g.code
  }

  function CategoryCode(c: Category): nat {
    c.code
  }

  predicate AllUpper(letters: seq<byte>) {
    forall i | 0 <= i < |letters| :: IsUpper(letters[i])
  }

  // ---------------------------------------------------------------- masks

  function AttrAllows(mask: bv32, code: byte): bool
    requires IsUpper(code)
  {
    Bit32(mask, code - 65)
  }

  /** The mask allows exactly the listed letters. */
  ghost predicate MaskFor(mask: bv32, letters: seq<byte>) {
    forall b: byte | IsUpper(b) :: AttrAllows(mask, b) <==> b in letters
  }

  lemma MaskPush(mask: bv32, letters: seq<byte>, letter: byte)
    requires MaskFor(mask, letters) && IsUpper(letter)
    ensures MaskFor(WithBit32(mask, letter - 65), letters + [letter])
  {
    forall b: byte | IsUpper(b)
      ensures AttrAllows(WithBit32(mask, letter - 65), b) <==> b in letters + [letter]
    {
      SetBit32(mask, letter - 65, b - 65);
    }
  }

  lemma EmptyMask()
    ensures MaskFor(0, [])
  {
    forall b: byte | IsUpper(b) ensures !AttrAllows(0, b) {
      NoBit32(b - 65);
    }
  }

  /** A mask with a listed letter is not zero. */
  lemma NonZeroMask(mask: bv32, letters: seq<byte>)
    requires MaskFor(mask, letters) && AllUpper(letters) && letters != []
    ensures mask != 0
  {
    assert AttrAllows(mask, letters[0]);
    NoBit32(letters[0] - 65);
  }

  /** `mask |= 1 << (letter - b'A')` over one attribute list; `None` where the build stops. */
  method BuildMask(letters: seq<byte>) returns (r: Option<bv32>)
    ensures r.Some? <==> letters != [] && AllUpper(letters)
    ensures r.Some? ==> MaskFor(r.value, letters)
  {
    var mask: bv32 := 0;
    EmptyMask();
    for i := 0 to |letters|
      invariant AllUpper(letters[..i]) && MaskFor(mask, letters[..i])
      invariant mask == 0 <==> i == 0
    {
      if !IsUpper(letters[i]) {
        return None;
      }
      assert letters[..i + 1] == letters[..i] + [letters[i]];
      MaskPush(mask, letters[..i], letters[i]);
      mask := WithBit32(mask, letters[i] - 65);
      NonZeroMask(mask, letters[..i + 1]);
    }
    assert letters[..|letters|] == letters;
    if mask == 0 {
      return None;
    }
    return Some(mask);
  }

  // ---------------------------------------------------------------- compiling the seed

  predicate GroupSeedOk(g: GroupSeed) {
    && IsUpper(g.code)
    && |g.attributes| == 4
    && forall i | 0 <= i < 4 :: g.attributes[i] != [] && AllUpper(g.attributes[i])
  }

  predicate CategorySeedOk(c: CategorySeed) {
    IsUpper(c.code) && forall i | 0 <= i < |c.groups| :: GroupSeedOk(c.groups[i])
  }

  predicate SeedOk(seed: seq<CategorySeed>) {
    forall i | 0 <= i < |seed| :: CategorySeedOk(seed[i])
  }

  /** What the build demands of a seed: capitals throughout, and four attribute lists with at least one letter each. */
  lemma SeedOkMeans(seed: seq<CategorySeed>)
    ensures SeedOk(seed) <==>
            forall i | 0 <= i < |seed| ::
              && 65 <= seed[i].code <= 90
              && forall j | 0 <= j < |seed[i].groups| ::
                   var g := seed[i].groups[j];
                   && 65 <= g.code <= 90 && |g.attributes| == 4
                   && forall k | 0 <= k < 4 ::
                        && |g.attributes[k]| > 0
                        && forall l | 0 <= l < |g.attributes[k]| :: 65 <= g.attributes[k][l] <= 90
  {
    if SeedOk(seed) {
      forall i | 0 <= i < |seed| ensures CategorySeedOk(seed[i]) {}
    }
  }

  ghost predicate CompiledGroup(g: Group, s: GroupSeed) {
    && g.code == s.code
    && |g.masks| == |s.attributes| == 4
    && forall i | 0 <= i < 4 :: MaskFor(g.masks[i], s.attributes[i])
  }

  method ParseCfiGroup(s: GroupSeed) returns (r: Option<Group>)
    requires |s.attributes| == 4
    ensures r.Some? <==> GroupSeedOk(s)
    ensures r.Some? ==> CompiledGroup(r.value, s)
  {
    if !IsUpper(s.code) {
      return None;
    }
    var masks := new bv32[4](_ => 0);
    for i := 0 to 4
      invariant forall j | 0 <= j < i :: s.attributes[j] != [] && AllUpper(s.attributes[j])
      invariant forall j | 0 <= j < i :: MaskFor(masks[j], s.attributes[j])
    {
      var mask := BuildMask(s.attributes[i]);
      if mask.None? {
        return None;
      }
      masks[i] := mask.value;
    }
    return Some(Group(s.code, masks[..]));
  }

  /** The groups before sorting: one compiled group per seed group, in seed order. */
  ghost predicate CompiledGroups(groups: seq<Group>, seeds: seq<GroupSeed>) {
    |groups| == |seeds| && forall i | 0 <= i < |groups| :: CompiledGroup(groups[i], seeds[i])
  }

  ghost predicate CompiledCategory(c: Category, s: CategorySeed) {
    && c.code == s.code
    && exists groups :: CompiledGroups(groups, s.groups) && c.groups == SortBy(groups, GroupCode)
  }

  ghost predicate CompiledCategories(categories: seq<Category>, seeds: seq<CategorySeed>) {
    |categories| == |seeds| && forall i | 0 <= i < |categories| :: CompiledCategory(categories[i], seeds[i])
  }

  method ParseCfiCategory(s: CategorySeed) returns (r: Option<Category>)
    requires forall i | 0 <= i < |s.groups| :: |s.groups[i].attributes| == 4
    ensures r.Some? <==> CategorySeedOk(s)
    ensures r.Some? ==> CompiledCategory(r.value, s)
  {
    if !IsUpper(s.code) {
      return None;
    }
    var groups := [];
    for i := 0 to |s.groups|
      invariant |groups| == i
      invariant forall j | 0 <= j < i :: GroupSeedOk(s.groups[j])
      invariant forall j | 0 <= j < i :: CompiledGroup(groups[j], s.groups[j])
    {
      var group := ParseCfiGroup(s.groups[i]);
      if group.None? {
        return None;
      }
      groups := groups + [group.value];
    }
    assert CompiledGroups(groups, s.groups);
    return Some(Category(s.code, SortBy(groups, GroupCode)));
  }

  /** The compiled table: the categories of the seed, sorted, each with its groups sorted. */
  ghost predicate Compiled(table: seq<Category>, seed: seq<CategorySeed>) {
    exists categories :: CompiledCategories(categories, seed) && table == SortBy(categories, CategoryCode)
  }

  method ParseCfiCategories(seed: seq<CategorySeed>) returns (r: Option<seq<Category>>)
    requires forall i, j | 0 <= i < |seed| && 0 <= j < |seed[i].groups| :: |seed[i].groups[j].attributes| == 4
    ensures r.Some? <==> SeedOk(seed)
    ensures r.Some? ==> Compiled(r.value, seed)
  {
    var categories := [];
    for i := 0 to |seed|
      invariant |categories| == i
      invariant forall j | 0 <= j < i :: CategorySeedOk(seed[j])
      invariant forall j | 0 <= j < i :: CompiledCategory(categories[j], seed[j])
    {
      var category := ParseCfiCategory(seed[i]);
      if category.None? {
        return None;
      }
      categories := categories + [category.value];
    }
    assert CompiledCategories(categories, seed);
    return Some(SortBy(categories, CategoryCode));
  }

  // ---------------------------------------------------------------- validation

  predicate Table(table: seq<Category>) {
    && SortedBy(table, CategoryCode)
    && forall i | 0 <= i < |table| :: SortedBy(table[i].groups, GroupCode) && GroupsOk(table[i].groups)
  }

  predicate GroupsOk(groups: seq<Group>) {
    forall i | 0 <= i < |groups| :: |groups[i].masks| == 4
  }

  function FindCategory(table: seq<Category>, code: byte): Option<nat>
    requires Table(table)
  {
    SearchBy(table, CategoryCode, code, 0, |table|)
  }

  function FindGroup(groups: seq<Group>, code: byte): Option<nat>
    requires SortedBy(groups, GroupCode)
  {
    SearchBy(groups, GroupCode, code, 0, |groups|)
  }

  /** What validation says of a candidate whose six characters are letters. */
  ghost predicate Allows(groups: seq<Group>, candidate: Candidate, g: nat)
    requires g < |groups| && GroupsOk(groups) && AllUpper(candidate)
  {
    groups[g].code == candidate[1] && forall i | 0 <= i < 4 :: AttrAllows(groups[g].masks[i], candidate[i + 2])
  }

  /** What each refusal says: the first level at which the table has nothing for the candidate. */
  ghost predicate Reason(table: seq<Category>, candidate: Candidate, error: Error) {
    match error
    case InvalidCharacter(character, position) =>
      && 1 <= position <= 6 && character == candidate[position - 1] && !(65 <= character <= 90)
      && forall j | 0 <= j < position - 1 :: 65 <= candidate[j] <= 90
    case UnknownCategory(code) => code == candidate[0] && forall i | 0 <= i < |table| :: table[i].code != code
    case UnknownGroup(category, code) =>
      && category == candidate[0] && code == candidate[1]
      && exists i :: 0 <= i < |table| && table[i].code == category
                     && forall j | 0 <= j < |table[i].groups| :: table[i].groups[j].code != code
    case InvalidAttribute(category, group, index, code) =>
      && category == candidate[0] && group == candidate[1] && 1 <= index <= 4 && code == candidate[index + 1]
      && exists i, j :: 0 <= i < |table| && 0 <= j < |table[i].groups|
                        && table[i].code == category && table[i].groups[j].code == group
                        && Refuses(table[i].groups[j], candidate, index)
  }

  /** The attribute at `index`, counted from 1, is the first that the group's mask does not allow. */
  ghost predicate Refuses(g: Group, candidate: Candidate, index: nat)
    requires 1 <= index <= 4
  {
    && |g.masks| == 4 && AllUpper(candidate)
    && !AttrAllows(g.masks[index - 1], candidate[index + 1])
    && forall k | 0 <= k < index - 1 :: AttrAllows(g.masks[k], candidate[k + 2])
  }

  lemma NoCategory(table: seq<Category>, candidate: Candidate)
    requires Table(table) && FindCategory(table, candidate[0]).None?
    ensures Reason(table, candidate, UnknownCategory(candidate[0]))
  {
    assert forall i | 0 <= i < |table| :: CategoryCode(table[i]) != candidate[0];
  }

  lemma NoGroup(table: seq<Category>, candidate: Candidate, c: nat)
    requires Table(table) && FindCategory(table, candidate[0]) == Some(c) && c < |table|
    requires FindGroup(table[c].groups, candidate[1]).None?
    ensures Reason(table, candidate, UnknownGroup(candidate[0], candidate[1]))
  {
    assert CategoryCode(table[c]) == candidate[0];
    assert forall j | 0 <= j < |table[c].groups| :: GroupCode(table[c].groups[j]) != candidate[1];
  }

  lemma NoAttribute(table: seq<Category>, candidate: Candidate, c: nat, g: nat, i: nat)
    requires Table(table) && AllUpper(candidate) && i < 4
    requires FindCategory(table, candidate[0]) == Some(c) && c < |table|
    requires FindGroup(table[c].groups, candidate[1]) == Some(g) && g < |table[c].groups|
    requires !AttrAllows(table[c].groups[g].masks[i], candidate[i + 2])
    requires forall j | 0 <= j < i :: AttrAllows(table[c].groups[g].masks[j], candidate[j + 2])
    ensures Reason(table, candidate, InvalidAttribute(candidate[0], candidate[1], i + 1, candidate[i + 2]))
  {
    assert CategoryCode(table[c]) == candidate[0] && GroupCode(table[c].groups[g]) == candidate[1];
    assert Refuses(table[c].groups[g], candidate, i + 1);
  }

  /** Letters first, then the table. */
  method Validate(table: seq<Category>, candidate: Candidate) returns (error: Option<Error>)
    requires Table(table)
    ensures error.None? <==> AllUpper(candidate) && Accepts(table, candidate)
    ensures error.Some? ==> Reason(table, candidate, error.value)
  {
    for i := 0 to 6
      invariant forall j | 0 <= j < i :: IsUpper(candidate[j])
    {
      if !IsUpper(candidate[i]) {
        return Some(InvalidCharacter(candidate[i], i + 1));
      }
    }
    error := ValidateTaxonomy(table, candidate);
  }

  method ValidateTaxonomy(table: seq<Category>, candidate: Candidate) returns (error: Option<Error>)
    requires Table(table) && AllUpper(candidate)
    ensures error.None? <==> Accepts(table, candidate)
    ensures error.Some? ==> Reason(table, candidate, error.value)
  {
    var c := FindCategory(table, candidate[0]);
    if c.None? {
      NoCategory(table, candidate);
      return Some(UnknownCategory(candidate[0]));
    }
    var groups := table[c.value].groups;
    var g := FindGroup(groups, candidate[1]);
    if g.None? {
      NoGroup(table, candidate, c.value);
      return Some(UnknownGroup(candidate[0], candidate[1]));
    }
    for i := 0 to 4
      invariant forall j | 0 <= j < i :: AttrAllows(groups[g.value].masks[j], candidate[j + 2])
    {
      if !AttrAllows(groups[g.value].masks[i], candidate[i + 2]) {
        NoAttribute(table, candidate, c.value, g.value, i);
        return Some(InvalidAttribute(candidate[0], candidate[1], i + 1, candidate[i + 2]));
      }
    }
    return None;
  }

  // ---------------------------------------------------------------- agreement with the seed

  predicate DistinctGroups(groups: seq<GroupSeed>) {
    forall i, j | 0 <= i < j < |groups| :: groups[i].code != groups[j].code
  }

  predicate DistinctCodes(seed: seq<CategorySeed>) {
    && (forall i, j | 0 <= i < j < |seed| :: seed[i].code != seed[j].code)
    && (forall i | 0 <= i < |seed| :: DistinctGroups(seed[i].groups))
  }

  predicate GroupLists(s: GroupSeed, candidate: Candidate)
    requires |s.attributes| == 4
  {
    s.code == candidate[1] && forall i | 0 <= i < 4 :: candidate[i + 2] in s.attributes[i]
  }

  /** The plain reading of the seed: category, group and all four attributes are listed. */
  predicate Listed(seed: seq<CategorySeed>, candidate: Candidate)
    requires SeedOk(seed)
  {
    exists i, j | 0 <= i < |seed| && 0 <= j < |seed[i].groups| ::
      seed[i].code == candidate[0] && GroupLists(seed[i].groups[j], candidate)
  }

  lemma CompiledIsTable(table: seq<Category>, seed: seq<CategorySeed>)
    requires Compiled(table, seed)
    ensures Table(table)
  {
    var categories: seq<Category> :| CompiledCategories(categories, seed) && table == SortBy(categories, CategoryCode);
    SortBySorts(categories, CategoryCode);
    SortByMembers(categories, CategoryCode);
    forall i | 0 <= i < |table| ensures SortedBy(table[i].groups, GroupCode) && GroupsOk(table[i].groups) {
      assert table[i] in categories;
      var k :| 0 <= k < |categories| && categories[k] == table[i];
      CompiledGroupsOk(categories[k], seed[k]);
    }
  }

  lemma CompiledGroupsOk(c: Category, s: CategorySeed)
    requires CompiledCategory(c, s)
    ensures SortedBy(c.groups, GroupCode) && GroupsOk(c.groups)
  {
    var groups: seq<Group> :| CompiledGroups(groups, s.groups) && c.groups == SortBy(groups, GroupCode);
    SortBySorts(groups, GroupCode);
    SortByMembers(groups, GroupCode);
    forall i | 0 <= i < |c.groups| ensures |c.groups[i].masks| == 4 {
      assert c.groups[i] in groups;
    }
  }

  /** One compiled group accepts exactly what its seed lists. */
  lemma GroupAgrees(g: Group, s: GroupSeed, candidate: Candidate)
    requires CompiledGroup(g, s) && AllUpper(candidate)
    ensures GroupLists(s, candidate) <==>
            g.code == candidate[1] && forall i | 0 <= i < 4 :: AttrAllows(g.masks[i], candidate[i + 2])
  {
    forall i | 0 <= i < 4
      ensures AttrAllows(g.masks[i], candidate[i + 2]) <==> candidate[i + 2] in s.attributes[i]
    {
      assert MaskFor(g.masks[i], s.attributes[i]);
    }
  }

  /** Within one category: the searched group accepts iff some seed group lists the candidate. */
  lemma CategoryAgrees(c: Category, s: CategorySeed, candidate: Candidate)
    requires CompiledCategory(c, s) && DistinctGroups(s.groups) && AllUpper(candidate)
    requires forall j | 0 <= j < |s.groups| :: |s.groups[j].attributes| == 4
    ensures SortedBy(c.groups, GroupCode) && GroupsOk(c.groups)
    ensures FindGroup(c.groups, candidate[1]).Some?
            && Allows(c.groups, candidate, FindGroup(c.groups, candidate[1]).value)
            <==> exists j :: 0 <= j < |s.groups| && GroupLists(s.groups[j], candidate)
  {
    CompiledGroupsOk(c, s);
    var groups: seq<Group> :| CompiledGroups(groups, s.groups) && c.groups == SortBy(groups, GroupCode);
    if j: nat :| j < |groups| && groups[j].code == candidate[1] {
      SearchSorted(groups, GroupCode, candidate[1], j);
      GroupAgrees(groups[j], s.groups[j], candidate);
      forall k | 0 <= k < |s.groups| && GroupLists(s.groups[k], candidate) ensures k == j {
        assert CompiledGroup(groups[k], s.groups[k]) && CompiledGroup(groups[j], s.groups[j]);
      }
    } else {
      SearchSortedMiss(groups, GroupCode, candidate[1]);
      forall k | 0 <= k < |s.groups| ensures !GroupLists(s.groups[k], candidate) {
        assert CompiledGroup(groups[k], s.groups[k]);
      }
    }
  }

  /** The searches of `ValidateTaxonomy`, as one condition. */
  ghost predicate Accepts(table: seq<Category>, candidate: Candidate)
    requires Table(table) && AllUpper(candidate)
  {
    && FindCategory(table, candidate[0]).Some?
    && var groups := table[FindCategory(table, candidate[0]).value].groups;
    && FindGroup(groups, candidate[1]).Some?
    && Allows(groups, candidate, FindGroup(groups, candidate[1]).value)
  }

  /** With distinct category codes, only the category with the candidate's code can list it. */
  lemma ListedAt(seed: seq<CategorySeed>, candidate: Candidate, i: nat)
    requires SeedOk(seed) && DistinctCodes(seed) && i < |seed| && seed[i].code == candidate[0]
    ensures Listed(seed, candidate) <==>
            exists j :: 0 <= j < |seed[i].groups| && GroupLists(seed[i].groups[j], candidate)
  {
    forall k, j | 0 <= k < |seed| && 0 <= j < |seed[k].groups|
                  && seed[k].code == candidate[0] && GroupLists(seed[k].groups[j], candidate)
      ensures k == i
    {}
  }

  lemma CategoryCodes(categories: seq<Category>, seed: seq<CategorySeed>)
    requires CompiledCategories(categories, seed) && DistinctCodes(seed)
    ensures KeysDistinct(categories, CategoryCode)
    ensures forall i | 0 <= i < |seed| :: categories[i].code == seed[i].code
  {
    forall i | 0 <= i < |seed| ensures categories[i].code == seed[i].code {
      assert CompiledCategory(categories[i], seed[i]);
    }
  }

  /** The compiled table accepts exactly the candidates the seed lists. */
  lemma TableAgrees(table: seq<Category>, seed: seq<CategorySeed>, candidate: Candidate)
    requires SeedOk(seed) && Compiled(table, seed) && AllUpper(candidate)
    requires forall i, j | 0 <= i < j < |seed| :: seed[i].code != seed[j].code
    requires forall i, j, k | 0 <= i < |seed| && 0 <= j < k < |seed[i].groups| ::
               seed[i].groups[j].code != seed[i].groups[k].code
    ensures Table(table)
    ensures Accepts(table, candidate) <==> Listed(seed, candidate)
  {
    assert forall i | 0 <= i < |seed| :: DistinctGroups(seed[i].groups);
    CompiledIsTable(table, seed);
    var categories: seq<Category> :| CompiledCategories(categories, seed) && table == SortBy(categories, CategoryCode);
    CategoryCodes(categories, seed);
    if i: nat :| i < |categories| && categories[i].code == candidate[0] {
      SearchSorted(categories, CategoryCode, candidate[0], i);
      CategoryAgrees(categories[i], seed[i], candidate);
      ListedAt(seed, candidate, i);
    } else {
      SearchSortedMiss(categories, CategoryCode, candidate[0]);
    }
  }
}
