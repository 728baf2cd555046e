/**
 * The hero detail dialog: a hero's skills are folded into one bucket per skill type,
 * the tabs are the bucket keys in the order the types first occur, the default tab
 * is the first of them, and a few total lookups pick badge styles and icons.
 */
module HeroDetailDialog {
  import opened Wrappers
  import opened Seqs
  import opened JsString
  import opened Types

  /** The hero's skills; a hero without a skill list has none. */
  function SkillsOf(hero: Hero): (skills: seq<Skill>)
    ensures hero.skills == None ==> skills == []
    ensures hero.skills != None ==> skills == hero.skills.value
  {
    hero.skills.GetOr([])
  }

  function TypeOf(s: Skill): SkillType {
    s.skillType
  }

  /** The bucket test "the skill's type is `t`", unfolded. */
  lemma TypeKey(s: Skill, t: SkillType)
    ensures KeyIs(TypeOf, t)(s) <==> s.skillType == t
  {
    assert TypeOf(s) == s.skillType;
  }

  /** The skills of type `t`, in input order. */
  function OfType(skills: seq<Skill>, t: SkillType): seq<Skill> {
    Filter(skills, KeyIs(TypeOf, t))
  }

  /** The skill types that occur. */
  function TypesOf(skills: seq<Skill>): set<SkillType> {
    set s | s in skills :: s.skillType
  }

  /** The grouping the dialog builds: a bucket for every type that occurs. */
  function SkillsByType(skills: seq<Skill>): map<SkillType, seq<Skill>> {
    map t | t in TypesOf(skills) :: OfType(skills, t)
  }

  /** The position of the first skill of type `t`, or `|skills|` when there is none. */
  function FirstIndex(skills: seq<Skill>, t: SkillType): (k: nat)
    ensures k <= |skills|
    ensures k < |skills| ==> skills[k].skillType == t
    ensures forall m :: 0 <= m < k ==> skills[m].skillType != t
  {
    if skills == [] then 0
    else if skills[0].skillType == t then 0
    else 1 + FirstIndex(skills[1..], t)
  }

  /** `FirstIndex` as a ranking of skill types. */
  function FirstIndexIn(skills: seq<Skill>): SkillType -> int {
    t => FirstIndex(skills, t)
  }

  /**
   * `keys` is a tab order for `skills`: it lists exactly the types that occur, each
   * once, ordered by where each type first occurs.
   */
  ghost predicate IsTabOrder(keys: seq<SkillType>, skills: seq<Skill>) {
    (forall t :: t in keys <==> t in TypesOf(skills)) &&
    StrictlyIncreasing(keys, FirstIndexIn(skills))
  }

  /** A type occurs exactly when its first index lies inside the list. */
  lemma FirstIndexPresent(skills: seq<Skill>, t: SkillType)
    ensures FirstIndex(skills, t) < |skills| <==> t in TypesOf(skills)
  {
    var k := FirstIndex(skills, t);
    if k < |skills| {
      assert skills[k] in skills;
    }
    if t in TypesOf(skills) {
      var s :| s in skills && s.skillType == t;
      var m :| 0 <= m < |skills| && skills[m] == s;
      assert k <= m;
    }
  }

  /** Appending a skill moves no first index of a type that already occurs. */
  lemma {:induction false} FirstIndexSnoc(skills: seq<Skill>, x: Skill, t: SkillType)
    ensures FirstIndex(skills + [x], t) ==
      if FirstIndex(skills, t) < |skills| then FirstIndex(skills, t)
      else if x.skillType == t then |skills|
      else |skills| + 1
  {
    if skills != [] {
      assert (skills + [x])[0] == skills[0];
      assert (skills + [x])[1..] == skills[1..] + [x];
      FirstIndexSnoc(skills[1..], x, t);
    }
  }

  /** A type that no skill has gets an empty bucket. */
  lemma AbsentTypeBucket(skills: seq<Skill>, t: SkillType)
    requires t !in TypesOf(skills)
    ensures OfType(skills, t) == []
  {
    forall s | s in skills ensures !KeyIs(TypeOf, t)(s) {
      TypeKey(s, t);
    }
    FilterNonePass(skills, KeyIs(TypeOf, t));
  }

  /** Appending a skill adds its type to the types present. */
  lemma TypesOfSnoc(skills: seq<Skill>, x: Skill)
    ensures TypesOf(skills + [x]) == TypesOf(skills) + {x.skillType}
  {
    assert x in skills + [x];
    assert forall s :: s in skills + [x] <==> s in skills || s == x;
  }

  /** Appending a skill extends only its own type's bucket. */
  lemma OfTypeSnoc(skills: seq<Skill>, x: Skill, t: SkillType)
    ensures OfType(skills + [x], t) == OfType(skills, t) + (if x.skillType == t then [x] else [])
  {
    FilterSnoc(skills, x, KeyIs(TypeOf, t));
    TypeKey(x, t);
  }

  /** Appending a skill keeps a tab order, adding its type at the end when it is new. */
  lemma TabOrderSnoc(keys: seq<SkillType>, skills: seq<Skill>, x: Skill, keys': seq<SkillType>)
    requires IsTabOrder(keys, skills)
    requires keys' == if x.skillType in TypesOf(skills) then keys else keys + [x.skillType]
    ensures IsTabOrder(keys', skills + [x])
  {
    var skills' := skills + [x];
    TypesOfSnoc(skills, x);
    forall t | t in keys
      ensures FirstIndex(skills', t) == FirstIndex(skills, t) < |skills|
    {
      FirstIndexPresent(skills, t);
      FirstIndexSnoc(skills, x, t);
    }
    FirstIndexSnoc(skills, x, x.skillType);
    FirstIndexPresent(skills, x.skillType);
    forall i, j | 0 <= i < j < |keys'|
      ensures FirstIndexIn(skills')(keys'[i]) < FirstIndexIn(skills')(keys'[j])
    {
      assert keys'[i] in keys;
      if j < |keys| {
        assert keys'[j] in keys;
        assert FirstIndexIn(skills)(keys[i]) < FirstIndexIn(skills)(keys[j]);
      }
    }
  }

  /** Appending a skill appends it to its type's bucket, creating the bucket if needed. */
  lemma SkillsByTypeSnoc(skills: seq<Skill>, x: Skill)
    ensures var before := SkillsByType(skills);
      var created := if x.skillType in before then before else before[x.skillType := []];
      SkillsByType(skills + [x]) == created[x.skillType := created[x.skillType] + [x]]
  {
    var before := SkillsByType(skills);
    var created := if x.skillType in before then before else before[x.skillType := []];
    var after := created[x.skillType := created[x.skillType] + [x]];
    var grown := SkillsByType(skills + [x]);
    TypesOfSnoc(skills, x);
    assert grown.Keys == after.Keys;
    if x.skillType !in before {
      AbsentTypeBucket(skills, x.skillType);
    }
    forall t | t in after ensures grown[t] == after[t] {
      OfTypeSnoc(skills, x, t);
    }
    assert grown == after;
  }

  /** The keys of the grouping in insertion order: a type is added when its first skill is met. */
  function TabKeys(skills: seq<Skill>): seq<SkillType> {
    if skills == [] then []
    else
      var prefix := skills[..|skills| - 1];
      var t := skills[|skills| - 1].skillType;
      if t in TypesOf(prefix) then TabKeys(prefix) else TabKeys(prefix) + [t]
  }

  /** Insertion order is the tab order: each type once, ordered by first occurrence. */
  lemma {:induction false} TabKeysIsTabOrder(skills: seq<Skill>)
    ensures IsTabOrder(TabKeys(skills), skills)
  {
    if skills != [] {
      var prefix := skills[..|skills| - 1];
      var x := skills[|skills| - 1];
      assert skills == prefix + [x];
      TabKeysIsTabOrder(prefix);
      TabOrderSnoc(TabKeys(prefix), prefix, x, TabKeys(skills));
    }
  }

  /**
   * The `reduce` that builds `skillsByType`, and `Object.keys` of its result: for each
   * skill, create its type's bucket if missing (recording the new key), then append
   * the skill.
   */
  method GroupSkillsByType(skills: seq<Skill>) returns (keys: seq<SkillType>, buckets: map<SkillType, seq<Skill>>)
    ensures buckets == SkillsByType(skills)
    ensures keys == TabKeys(skills)
  {
    keys := [];
    buckets := map[];
    var i := 0;
    while i < |skills|
      invariant 0 <= i <= |skills|
      invariant buckets == SkillsByType(skills[..i])
      invariant keys == TabKeys(skills[..i])
    {
      var skill := skills[i];
      ghost var prefix := skills[..i];
      assert skills[..i + 1] == prefix + [skill];
      assert (prefix + [skill])[..i] == prefix;
      SkillsByTypeSnoc(prefix, skill);
      if skill.skillType !in buckets {
        buckets := buckets[skill.skillType := []];
        keys := keys + [skill.skillType];
      }
      buckets := buckets[skill.skillType := buckets[skill.skillType] + [skill]];
      i := i + 1;
    }
    assert skills[..i] == skills;
  }

  /** The tab order of a skill list is unique. */
  lemma TabOrderUnique(keys1: seq<SkillType>, keys2: seq<SkillType>, skills: seq<Skill>)
    requires IsTabOrder(keys1, skills) && IsTabOrder(keys2, skills)
    ensures keys1 == keys2
  {
    StrictlyIncreasingUnique(keys1, keys2, FirstIndexIn(skills));
  }

  /** A tab order lists no type twice. */
  lemma TabOrderDistinct(keys: seq<SkillType>, skills: seq<Skill>)
    requires IsTabOrder(keys, skills)
    ensures Distinct(keys)
  {
    forall i, j | 0 <= i < j < |keys| ensures keys[i] != keys[j] {
      assert FirstIndexIn(skills)(keys[i]) < FirstIndexIn(skills)(keys[j]);
    }
  }

  /** Every skill is in the bucket of its own type, with its multiplicity, and in no other. */
  lemma SkillsByTypeMultiplicity(skills: seq<Skill>, t: SkillType, s: Skill)
    ensures t in SkillsByType(skills) <==> exists x :: x in skills && x.skillType == t
    ensures t in SkillsByType(skills) ==>
      multiset(SkillsByType(skills)[t])[s] == if s.skillType == t then multiset(skills)[s] else 0
  {
    FilterMultiplicity(skills, KeyIs(TypeOf, t));
    TypeKey(s, t);
  }

  /** Within a bucket the skills keep their input order. */
  lemma SkillsByTypeKeepsOrder(skills: seq<Skill>, t: SkillType)
    requires t in SkillsByType(skills)
    ensures Subsequence(SkillsByType(skills)[t], skills)
  {
    FilterIsSubsequence(skills, KeyIs(TypeOf, t));
  }

  /** The bucket sizes, summed over the tabs, add up to the number of skills. */
  lemma SkillBucketSizes(skills: seq<Skill>, keys: seq<SkillType>)
    requires IsTabOrder(keys, skills)
    ensures MapBucketSizes(SkillsByType(skills), keys) == |skills|
  {
    TabOrderDistinct(keys, skills);
    forall s | s in skills ensures TypeOf(s) in keys {
      assert s.skillType in TypesOf(skills);
    }
    PartitionSizes(skills, TypeOf, keys);
    MapBucketSizesMatchParts(SkillsByType(skills), skills, TypeOf, keys);
  }

  /** There are tabs exactly when there are skills. */
  lemma TabOrderEmpty(keys: seq<SkillType>, skills: seq<Skill>)
    requires IsTabOrder(keys, skills)
    ensures keys == [] <==> skills == []
  {
    if keys != [] {
      assert keys[0] in keys;
    }
    if skills != [] {
      assert skills[0] in skills;
      assert skills[0].skillType in TypesOf(skills);
    }
  }

  /** `defaultTab`: the first tab's tag, or the empty string when there are no tabs. */
  function DefaultTab(keys: seq<SkillType>): (tab: string)
    ensures tab == "" <==> keys == []
    ensures keys != [] ==> SkillTypeOfTag(tab) == Some(keys[0])
  {
    if |keys| > 0 then keys[0].Tag() else ""
  }

  /** The default tab is the type of the first skill, and empty exactly when there are no skills. */
  lemma DefaultTabIsFirstType(keys: seq<SkillType>, skills: seq<Skill>)
    requires IsTabOrder(keys, skills)
    ensures skills == [] ==> DefaultTab(keys) == ""
    ensures skills != [] ==> DefaultTab(keys) == skills[0].skillType.Tag()
  {
    TabOrderEmpty(keys, skills);
    if skills != [] {
      var t0 := skills[0].skillType;
      assert skills[0] in skills;
      assert t0 in keys;
      var i :| 0 <= i < |keys| && keys[i] == t0;
      assert FirstIndexIn(skills)(keys[i]) == 0;
      assert keys[0] in keys;
      FirstIndexPresent(skills, keys[0]);
    }
  }

  /** The style classes of the six known roles. */
  const RoleColors: map<string, string> := map[
    "Fighter" := "bg-red-100 text-red-600 border-red-200",
    "Assassin" := "bg-purple-100 text-purple-600 border-purple-200",
    "Mage" := "bg-blue-100 text-blue-600 border-blue-200",
    "Tank" := "bg-green-100 text-green-600 border-green-200",
    "Support" := "bg-yellow-100 text-yellow-600 border-yellow-200",
    "Marksman" := "bg-orange-100 text-orange-600 border-orange-200"
  ]

  const GrayRoleStyle: string := "bg-gray-100 text-gray-600 border-gray-200"

  /** The extra classes a primary role's badge carries. */
  const PrimaryRoleClasses: string := " font-semibold border-2"

  /** A role as the badge list shows it: its name and whether it is the hero's primary role. */
  datatype RoleBadge = RoleBadge(name: string, isPrimary: bool)

  /** The base style of a role's badge: its known colour, or gray for an unknown role. */
  function BaseRoleStyle(name: string): (style: string)
    ensures style == GrayRoleStyle <==> name !in RoleColors
    ensures name in RoleColors ==> style == RoleColors[name]
  {
    if name in RoleColors then RoleColors[name] else GrayRoleStyle
  }

  /** `getRoleBadgeStyle`: the base style, extended by the primary classes for a primary role. */
  function RoleBadgeStyle(badge: RoleBadge): (style: string)
    ensures StartsWith(style, BaseRoleStyle(badge.name))
    ensures badge.isPrimary <==> |style| > |BaseRoleStyle(badge.name)|
    ensures badge.isPrimary ==> style[|BaseRoleStyle(badge.name)|..] == PrimaryRoleClasses
  {
    var base := BaseRoleStyle(badge.name);
    if badge.isPrimary then base + PrimaryRoleClasses else base
  }

  /** Two badges of the same role differ in style exactly when one is primary and the other not. */
  lemma RoleBadgeStylePrimary(name: string)
    ensures RoleBadgeStyle(RoleBadge(name, true)) != RoleBadgeStyle(RoleBadge(name, false))
    ensures name !in RoleColors ==> RoleBadgeStyle(RoleBadge(name, false)) == GrayRoleStyle
  {
    assert |RoleBadgeStyle(RoleBadge(name, true))| > |RoleBadgeStyle(RoleBadge(name, false))|;
  }

  datatype Icon = Star | Zap

  /** `getSkillIcon`: the star for a passive, the bolt for anything else. */
  function SkillIcon(tag: string): (icon: Icon)
    ensures icon == Star <==> tag == "passive"
  {
    if tag == "passive" then Star else Zap
  }

  /** Among the six skill types only the passive gets the star. */
  lemma SkillIconOfType(t: SkillType)
    ensures SkillIcon(t.Tag()) == Star <==> t == Passive
  {
  }

  /** The badge styles of the five known tiers. */
  const TierColors: map<string, string> := map[
    "S" := "border-yellow-400 text-yellow-600 bg-yellow-50",
    "A" := "border-green-400 text-green-600 bg-green-50",
    "B" := "border-blue-400 text-blue-600 bg-blue-50",
    "C" := "border-gray-400 text-gray-600 bg-gray-50",
    "D" := "border-red-400 text-red-600 bg-red-50"
  ]

  const UnknownTierStyle: string := "border-gray-200 bg-gray-100 text-gray-500"

  /** The tier badge style: the tier's colour, or the fallback for a tier outside S..D. */
  function TierBadgeStyle(tier: string): (style: string)
    ensures style == UnknownTierStyle <==> tier !in TierColors
    ensures tier in TierColors ==> style == TierColors[tier]
  {
    if tier in TierColors then TierColors[tier] else UnknownTierStyle
  }

  /** Exactly the five tier letters have a colour of their own, and no two share one. */
  lemma TierColorsKnown(tier: string, other: string)
    ensures tier in TierColors <==> tier in ["S", "A", "B", "C", "D"]
    ensures tier in TierColors && other in TierColors && tier != other ==>
      TierBadgeStyle(tier) != TierBadgeStyle(other)
  {
  }
}
