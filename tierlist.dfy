/**
 * The public tier-list screen: heroes are folded into one bucket per tier, keeping
 * only those whose role matches the selected role badge, and the tiers are shown in
 * the fixed order S, A, B, C, D, skipping tiers whose bucket is empty.
 */
module TierList {
  import opened Wrappers
  import opened Seqs

  datatype Tier = S | A | B | C | D

  /** The screen's own hero record (it is not the dashboard's `Hero`). */
  datatype TierHero = TierHero(id: int, name: string, role: string, tier: Tier, image: string)

  /** The display order of the tiers. */
  const TierOrder: seq<Tier> := [S, A, B, C, D]

  /** The role badges the screen offers, in display order. */
  const RoleBadges: seq<string> := ["Fighter", "Assassin", "Mage", "Tank", "Support", "Marksman"]

  /** The built-in hero list the screen renders. */
  const HeroData: seq<TierHero> := [
    TierHero(1, "Gusion", "Assassin", S, "/assets/dummy.jpg"),
    TierHero(2, "Khufra", "Tank", S, "/assets/dummy.jpg"),
    TierHero(3, "Kagura", "Mage", A, "/assets/dummy.jpg")
  ]

  /** The bucket test "the hero's tier is `t`", unfolded. */
  lemma TierKey(h: TierHero, t: Tier)
    ensures KeyIs(TierOf, t)(h) <==> h.tier == t
  {
    assert TierOf(h) == h.tier;
  }

  /** Every tier is listed in the display order. */
  lemma TierOrderComplete(t: Tier)
    ensures t in TierOrder
  {
    match t
    case S => assert TierOrder[0] == t;
    case A => assert TierOrder[1] == t;
    case B => assert TierOrder[2] == t;
    case C => assert TierOrder[3] == t;
    case D => assert TierOrder[4] == t;
  }

  /** Position of a tier in `TierOrder`. */
  function Rank(t: Tier): int {
    match t
    case S => 0
    case A => 1
    case B => 2
    case C => 3
    case D => 4
  }

  function TierOf(h: TierHero): Tier {
    h.tier
  }

  /**
   * The role filter: a hero is kept when no role is selected or its role is the
   * selected one. The test is JavaScript truthiness, so a selected empty string
   * also keeps every hero.
   */
  predicate Keeps(selectedRole: Option<string>, h: TierHero)
    ensures selectedRole == None || selectedRole == Some("") ==> Keeps(selectedRole, h)
    ensures selectedRole.Some? && selectedRole.value != "" ==> (Keeps(selectedRole, h) <==> h.role == selectedRole.value)
  {
    selectedRole == None || selectedRole.value == "" || h.role == selectedRole.value
  }

  function KeepsFn(selectedRole: Option<string>): TierHero -> bool {
    h => Keeps(selectedRole, h)
  }

  /** The heroes that pass the role filter, in input order. */
  function Kept(heroes: seq<TierHero>, selectedRole: Option<string>): seq<TierHero> {
    Filter(heroes, KeepsFn(selectedRole))
  }

  /** The bucket of tier `t`: the kept heroes of that tier, in input order. */
  function Bucket(heroes: seq<TierHero>, selectedRole: Option<string>, t: Tier): seq<TierHero> {
    Filter(Kept(heroes, selectedRole), KeyIs(TierOf, t))
  }

  /** The tiers that occur in `heroes`, kept or not. */
  function TiersOf(heroes: seq<TierHero>): set<Tier> {
    set h | h in heroes :: h.tier
  }

  /** The grouping the screen builds: a bucket for every tier that occurs. */
  function Grouped(heroes: seq<TierHero>, selectedRole: Option<string>): map<Tier, seq<TierHero>> {
    map t | t in TiersOf(heroes) :: Bucket(heroes, selectedRole, t)
  }

  /**
   * The `reduce` that builds the grouping: for each hero, create its tier's bucket
   * if missing, then append the hero when it passes the role filter.
   */
  method GroupHeroes(heroes: seq<TierHero>, selectedRole: Option<string>)
    returns (grouped: map<Tier, seq<TierHero>>)
    ensures grouped == Grouped(heroes, selectedRole)
    ensures grouped.Keys == TiersOf(heroes)
  {
    grouped := map[];
    var i := 0;
    while i < |heroes|
      invariant 0 <= i <= |heroes|
      invariant grouped == Grouped(heroes[..i], selectedRole)
    {
      var hero := heroes[i];
      assert heroes[..i + 1] == heroes[..i] + [hero];
      GroupedSnoc(heroes[..i], hero, selectedRole);
      if hero.tier !in grouped {
        grouped := grouped[hero.tier := []];
      }
      if Keeps(selectedRole, hero) {
        grouped := grouped[hero.tier := grouped[hero.tier] + [hero]];
      }
      i := i + 1;
    }
    assert heroes[..i] == heroes;
  }

  /** One step of the reduce: create the hero's bucket if missing, then append the hero if kept. */
  lemma GroupedSnoc(heroes: seq<TierHero>, hero: TierHero, selectedRole: Option<string>)
    ensures var before := Grouped(heroes, selectedRole);
      var created := if hero.tier in before then before else before[hero.tier := []];
      Grouped(heroes + [hero], selectedRole) ==
        if Keeps(selectedRole, hero) then created[hero.tier := created[hero.tier] + [hero]] else created
  {
    var before := Grouped(heroes, selectedRole);
    var grown := Grouped(heroes + [hero], selectedRole);
    assert grown.Keys == before.Keys + {hero.tier} by {
      TiersOfSnoc(heroes, hero);
    }
    forall t | t in before && t != hero.tier ensures grown[t] == before[t] {
      BucketSnoc(heroes, hero, selectedRole, t);
    }
    assert grown[hero.tier] ==
      (if hero.tier in before then before[hero.tier] else []) + (if Keeps(selectedRole, hero) then [hero] else [])
    by {
      BucketSnoc(heroes, hero, selectedRole, hero.tier);
      if hero.tier !in before {
        AbsentTierBucket(heroes, selectedRole, hero.tier);
      }
    }
    BucketStep(before, grown, hero.tier, hero, Keeps(selectedRole, hero));
  }

  /** The map shape of one reduce step, for any maps whose buckets change as described. */
  lemma BucketStep<K, V>(before: map<K, seq<V>>, grown: map<K, seq<V>>, k: K, x: V, keep: bool)
    requires grown.Keys == before.Keys + {k}
    requires forall t | t in before && t != k :: grown[t] == before[t]
    requires grown[k] == (if k in before then before[k] else []) + (if keep then [x] else [])
    ensures var created := if k in before then before else before[k := []];
      grown == if keep then created[k := created[k] + [x]] else created
  {
    var created := if k in before then before else before[k := []];
    var after := if keep then created[k := created[k] + [x]] else created;
    assert grown.Keys == after.Keys;
    forall t | t in after ensures grown[t] == after[t] {
      if t == k && !keep && k in before {
        assert before[k] + [] == before[k];
      }
    }
  }

  /** A tier that no hero has gets an empty bucket. */
  lemma AbsentTierBucket(heroes: seq<TierHero>, selectedRole: Option<string>, t: Tier)
    requires t !in TiersOf(heroes)
    ensures Bucket(heroes, selectedRole, t) == []
  {
    var kept := Kept(heroes, selectedRole);
    forall h | h in kept ensures !KeyIs(TierOf, t)(h) {
      TierKey(h, t);
    }
    FilterNonePass(kept, KeyIs(TierOf, t));
  }

  /** Appending a hero adds its tier to the tiers present. */
  lemma TiersOfSnoc(heroes: seq<TierHero>, hero: TierHero)
    ensures TiersOf(heroes + [hero]) == TiersOf(heroes) + {hero.tier}
  {
    assert hero in heroes + [hero];
    assert forall h :: h in heroes + [hero] <==> h in heroes || h == hero;
  }

  /** Appending a hero changes only its own tier's bucket, and that only if it is kept. */
  lemma BucketSnoc(heroes: seq<TierHero>, hero: TierHero, selectedRole: Option<string>, t: Tier)
    ensures Bucket(heroes + [hero], selectedRole, t) ==
      Bucket(heroes, selectedRole, t) + (if t == hero.tier && Keeps(selectedRole, hero) then [hero] else [])
  {
    FilterSnoc(heroes, hero, KeepsFn(selectedRole));
    assert KeepsFn(selectedRole)(hero) == Keeps(selectedRole, hero);
    var kept := Kept(heroes, selectedRole);
    if Keeps(selectedRole, hero) {
      assert Kept(heroes + [hero], selectedRole) == kept + [hero];
      FilterSnoc(kept, hero, KeyIs(TierOf, t));
      TierKey(hero, t);
    } else {
      assert Kept(heroes + [hero], selectedRole) == kept;
    }
  }

  /**
   * A hero is in a bucket exactly when the bucket is its own tier's and it passes
   * the role filter; a bucket may be present and empty.
   */
  lemma GroupedMembership(heroes: seq<TierHero>, selectedRole: Option<string>, t: Tier, h: TierHero)
    ensures t in Grouped(heroes, selectedRole) <==> exists g :: g in heroes && g.tier == t
    ensures t in Grouped(heroes, selectedRole) ==>
      (h in Grouped(heroes, selectedRole)[t] <==> h in heroes && h.tier == t && Keeps(selectedRole, h))
  {
    assert KeepsFn(selectedRole)(h) == Keeps(selectedRole, h);
    TierKey(h, t);
  }

  /**
   * No hero is duplicated or moved: in the bucket of its own tier a kept hero has
   * the multiplicity it has in the input; in every other bucket it has none.
   */
  lemma GroupedMultiplicity(heroes: seq<TierHero>, selectedRole: Option<string>, t: Tier, h: TierHero)
    requires t in Grouped(heroes, selectedRole)
    ensures multiset(Grouped(heroes, selectedRole)[t])[h] ==
      if h.tier == t && Keeps(selectedRole, h) then multiset(heroes)[h] else 0
  {
    FilterMultiplicity(heroes, KeepsFn(selectedRole));
    FilterMultiplicity(Kept(heroes, selectedRole), KeyIs(TierOf, t));
    assert KeepsFn(selectedRole)(h) == Keeps(selectedRole, h);
    TierKey(h, t);
  }

  /** Within a bucket the heroes keep their input order. */
  lemma GroupedKeepsOrder(heroes: seq<TierHero>, selectedRole: Option<string>, t: Tier)
    requires t in Grouped(heroes, selectedRole)
    ensures Subsequence(Grouped(heroes, selectedRole)[t], heroes)
  {
    var kept := Kept(heroes, selectedRole);
    FilterIsSubsequence(heroes, KeepsFn(selectedRole));
    FilterIsSubsequence(kept, KeyIs(TierOf, t));
    SubsequenceTransitive(Bucket(heroes, selectedRole, t), kept, heroes);
  }

  /**
   * The bucket sizes add up to the number of heroes that pass the role filter, and
   * to the number of all heroes when no role is selected.
   */
  lemma GroupedSizes(heroes: seq<TierHero>, selectedRole: Option<string>)
    ensures MapBucketSizes(Grouped(heroes, selectedRole), TierOrder) == |Kept(heroes, selectedRole)|
    ensures selectedRole == None ==> MapBucketSizes(Grouped(heroes, selectedRole), TierOrder) == |heroes|
  {
    var grouped := Grouped(heroes, selectedRole);
    var kept := Kept(heroes, selectedRole);
    forall t | t in TierOrder
      ensures (if t in grouped then grouped[t] else []) == Filter(kept, KeyIs(TierOf, t))
    {
      if t !in grouped {
        AbsentTierBucket(heroes, selectedRole, t);
      }
    }
    MapBucketSizesMatchParts(grouped, kept, TierOf, TierOrder);
    forall h | h in kept ensures TierOf(h) in TierOrder {
      TierOrderComplete(h.tier);
    }
    assert Distinct(TierOrder);
    PartitionSizes(kept, TierOf, TierOrder);
    if selectedRole == None {
      FilterAllPass(heroes, KeepsFn(selectedRole));
    }
  }

  /** The predicate "tier `t` has a non-empty bucket". */
  function HasHeroes(grouped: map<Tier, seq<TierHero>>): Tier -> bool {
    t => t in grouped && |grouped[t]| > 0
  }

  /** The tiers the screen renders, in display order. */
  function RenderedTiers(grouped: map<Tier, seq<TierHero>>): (r: seq<Tier>)
    ensures forall t :: t in r <==> t in grouped && grouped[t] != []
    ensures StrictlyIncreasing(r, Rank)
  {
    var r := Filter(TierOrder, HasHeroes(grouped));
    TierOrderRanked();
    RenderedTiersFacts(TierOrder, grouped, r);
    r
  }

  /** The display order lists every tier, by increasing rank. */
  lemma TierOrderRanked()
    ensures forall t :: t in TierOrder
    ensures StrictlyIncreasing(TierOrder, Rank)
  {
    forall t ensures t in TierOrder {
      TierOrderComplete(t);
    }
  }

  lemma RenderedTiersFacts(order: seq<Tier>, grouped: map<Tier, seq<TierHero>>, r: seq<Tier>)
    requires forall t :: t in order
    requires StrictlyIncreasing(order, Rank)
    requires r == Filter(order, HasHeroes(grouped))
    ensures forall t :: t in r <==> t in grouped && grouped[t] != []
    ensures StrictlyIncreasing(r, Rank)
  {
    forall t ensures t in r <==> t in grouped && grouped[t] != [] {
      assert HasHeroes(grouped)(t) <==> t in grouped && grouped[t] != [];
    }
    FilterIsSubsequence(order, HasHeroes(grouped));
    SubsequenceKeepsOrder(r, order, Rank);
  }

  /**
   * The screen's own data with the "Tank" badge selected: the S bucket holds only
   * Khufra, and the A bucket exists but is empty because Kagura is filtered out.
   */
  lemma HeroDataTankGrouping()
    ensures Grouped(HeroData, Some("Tank")) == map[S := [HeroData[1]], A := []]
  {
    var role := Some("Tank");
    var p := KeepsFn(role);
    assert !p(HeroData[0]) && p(HeroData[1]) && !p(HeroData[2]);
    assert HeroData[1..] == [HeroData[1], HeroData[2]];
    assert HeroData[1..][1..] == [HeroData[2]];
    assert Filter([HeroData[2]], p) == [];
    assert Filter(HeroData[1..], p) == [HeroData[1]];
    assert Kept(HeroData, role) == [HeroData[1]];
    TierKey(HeroData[1], S);
    TierKey(HeroData[1], A);
    assert TiersOf(HeroData) == {S, A} by {
      assert HeroData[0] in HeroData && HeroData[2] in HeroData;
    }
    assert Bucket(HeroData, role, S) == [HeroData[1]];
    assert Bucket(HeroData, role, A) == [];
  }

  /** With the "Tank" badge selected tier S is rendered and the empty A bucket is skipped. */
  lemma HeroDataTankRendering()
    ensures S in RenderedTiers(Grouped(HeroData, Some("Tank")))
    ensures A in Grouped(HeroData, Some("Tank")) && A !in RenderedTiers(Grouped(HeroData, Some("Tank")))
  {
    HeroDataTankGrouping();
  }

  /** The badge toggle: clicking the selected role clears it, any other role selects it. */
  function Toggle(selectedRole: Option<string>, clicked: string): (r: Option<string>)
    ensures r == None <==> selectedRole == Some(clicked)
    ensures r != None ==> r == Some(clicked)
  {
    if selectedRole == Some(clicked) then None else Some(clicked)
  }

  /** Clicking the same badge twice restores a cleared or same-role selection. */
  lemma ToggleTwice(selectedRole: Option<string>, clicked: string)
    requires selectedRole == None || selectedRole == Some(clicked)
    ensures Toggle(Toggle(selectedRole, clicked), clicked) == selectedRole
  {
  }

  /** The screen's state: the currently selected role badge, if any. */
  class TierListState {
    var selectedRole: Option<string>

    /** The selection is empty or one of the offered badges. */
    predicate Valid()
      reads this
    {
      selectedRole == None || selectedRole.value in RoleBadges
    }

    constructor ()
      ensures Valid() && selectedRole == None
    {
      selectedRole := None;
    }

    /** A click on one of the role badges. */
    method ClickRole(role: string)
      requires Valid() && role in RoleBadges
      modifies this
      ensures Valid()
      ensures selectedRole == Toggle(old(selectedRole), role)
    {
      selectedRole := if selectedRole == Some(role) then None else Some(role);
    }

    /** The grouping the screen shows for the current selection. */
    method Grouping(heroes: seq<TierHero>) returns (grouped: map<Tier, seq<TierHero>>)
      ensures grouped == Grouped(heroes, selectedRole)
    {
      grouped := GroupHeroes(heroes, selectedRole);
    }
  }

  /**
   * The selections a valid state can hold never trigger the empty-string case of
   * the filter: a hero is kept iff nothing is selected or its role equals the selection.
   */
  lemma ValidSelectionFilter(selectedRole: Option<string>, h: TierHero)
    requires selectedRole == None || selectedRole.value in RoleBadges
    ensures Keeps(selectedRole, h) <==> selectedRole == None || h.role == selectedRole.value
  {
  }
}
