/**
 * The dashboard's hero table: each joined store row is reshaped into a `Hero` whose
 * role is the nested role name (or "Unknown"), and the table shows the heroes whose
 * name, role or tier contains the search term, ignoring letter case.
 */
module Heroes {
  import opened Wrappers
  import opened Seqs
  import opened JsString
  import opened Types

  const UnknownRole: string := "Unknown"

  /** `hero.roles?.role || "Unknown"`: a missing object, a missing name and the empty name all fall back. */
  function NestedRole(row: HeroQueryResult): (role: string)
    ensures role != ""
    ensures row.roles == None || row.roles.value.role == None || row.roles.value.role.value == "" ==>
      role == UnknownRole
    ensures role != UnknownRole ==> row.roles == Some(RoleRef(Some(role)))
    ensures row.roles.Some? && row.roles.value.role.Some? && row.roles.value.role.value != "" ==>
      role == row.roles.value.role.value
  {
    match row.roles
    case None => UnknownRole
    case Some(ref) => if ref.role == None || ref.role.value == "" then UnknownRole else ref.role.value
  }

  /** One row of the `map`: every other field is carried over by the spread. */
  function ToHero(row: HeroQueryResult): (h: Hero)
    ensures h.id == row.id && h.name == row.name && h.tier == row.tier
    ensures h.imageUrl == row.imageUrl && h.description == row.description
    ensures h.roleId == row.roleId && h.skills == row.skills
    ensures h.role == NestedRole(row)
  {
    Hero(row.id, row.name, row.tier, row.imageUrl, row.description, row.roleId, NestedRole(row), row.skills)
  }

  /** The row a hero would come from if its role name were stored as the nested role. */
  function FromHero(h: Hero): HeroQueryResult {
    HeroQueryResult(h.id, h.name, h.tier, h.imageUrl, h.description, h.roleId, Some(RoleRef(Some(h.role))), h.skills)
  }

  /** Over the declared types, reshaping loses nothing but the nesting: a hero with a non-empty role survives the round trip. */
  lemma ToHeroFromHero(h: Hero)
    requires h.role != ""
    ensures ToHero(FromHero(h)) == h
  {
  }

  /** A row with a non-empty nested role name is rebuilt exactly from its hero. */
  lemma FromHeroToHero(row: HeroQueryResult)
    ensures FromHero(ToHero(row)) == row <==>
      row.roles.Some? && row.roles.value.role.Some? && row.roles.value.role.value != ""
  {
  }

  /** `(data as HeroQueryResult[]).map(...)`: one hero per row, in row order. */
  function ReshapeRows(rows: seq<HeroQueryResult>): (heroes: seq<Hero>)
    ensures |heroes| == |rows|
    ensures forall i :: 0 <= i < |rows| ==> heroes[i] == ToHero(rows[i])
  {
    if rows == [] then [] else [ToHero(rows[0])] + ReshapeRows(rows[1..])
  }

  /** The search test: the lower-cased term occurs in the lower-cased name, role or tier. */
  predicate Matches(term: string, h: Hero)
    ensures term == "" ==> Matches(term, h)
    ensures Matches(term, h) ==> |term| <= |h.name| || |term| <= |h.role| || |term| <= |h.tier|
  {
    var q := ToLower(term);
    Includes(ToLower(h.name), q) || Includes(ToLower(h.role), q) || Includes(ToLower(h.tier), q)
  }

  function MatchesFn(term: string): Hero -> bool {
    h => Matches(term, h)
  }

  /** `filteredHeroes`: the heroes that match the search term. */
  function SearchHeroes(heroes: seq<Hero>, term: string): (r: seq<Hero>)
    ensures |r| <= |heroes|
    ensures forall h :: h in r <==> h in heroes && Matches(term, h)
  {
    var r := Filter(heroes, MatchesFn(term));
    assert forall h :: MatchesFn(term)(h) == Matches(term, h);
    r
  }

  /** A hero matches exactly when the lower-cased term occurs somewhere in one of the three fields. */
  lemma MatchesIffOccurs(term: string, h: Hero)
    ensures Matches(term, h) <==>
      OccursIn(ToLower(h.name), ToLower(term)) ||
      OccursIn(ToLower(h.role), ToLower(term)) ||
      OccursIn(ToLower(h.tier), ToLower(term))
  {
    IncludesIffOccurs(ToLower(h.name), ToLower(term));
    IncludesIffOccurs(ToLower(h.role), ToLower(term));
    IncludesIffOccurs(ToLower(h.tier), ToLower(term));
  }

  /** An empty search box shows every hero. */
  lemma SearchEmptyTerm(heroes: seq<Hero>)
    ensures SearchHeroes(heroes, "") == heroes
  {
    forall h | h in heroes ensures MatchesFn("")(h) {
      assert StartsWith(ToLower(h.name), ToLower(""));
    }
    FilterAllPass(heroes, MatchesFn(""));
  }

  /** The shown heroes keep the order of the table. */
  lemma SearchKeepsOrder(heroes: seq<Hero>, term: string)
    ensures Subsequence(SearchHeroes(heroes, term), heroes)
  {
    FilterIsSubsequence(heroes, MatchesFn(term));
  }

  /** Changing the letter case of the term does not change the result. */
  lemma SearchIgnoresTermCase(heroes: seq<Hero>, term: string)
    ensures SearchHeroes(heroes, ToUpper(term)) == SearchHeroes(heroes, term)
    ensures SearchHeroes(heroes, ToLower(term)) == SearchHeroes(heroes, term)
  {
    ToLowerOfToUpper(term);
    ToLowerIdempotent(term);
    FilterCongruent(heroes, MatchesFn(ToUpper(term)), MatchesFn(term));
    FilterCongruent(heroes, MatchesFn(ToLower(term)), MatchesFn(term));
  }

  /** The letter case of a hero's fields does not matter either. */
  lemma MatchesIgnoresFieldCase(term: string, h: Hero)
    ensures Matches(term, h.(name := ToUpper(h.name), role := ToUpper(h.role), tier := ToUpper(h.tier))) ==
      Matches(term, h)
  {
    ToLowerOfToUpper(h.name);
    ToLowerOfToUpper(h.role);
    ToLowerOfToUpper(h.tier);
  }
}
