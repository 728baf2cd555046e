/**
 * The record shapes shared by the dashboard: the row the store returns for a hero
 * joined with its role (`HeroQueryResult`), the flattened view model (`Hero`), and
 * a hero's skill (`Skill`). `null` fields and optional (`?`) fields are both `Option`.
 */
module Types {
  import opened Wrappers

  /** The six tags a skill's `type` may hold. */
  datatype SkillType = Passive | Skill1 | Skill2 | Skill3 | Ultimate | SpecialSkill {

    /** The string literal TypeScript uses for this tag. */
    function Tag(): string {
      match this
      case Passive => "passive"
      case Skill1 => "skill 1"
      case Skill2 => "skill 2"
      case Skill3 => "skill 3"
      case Ultimate => "ultimate"
      case SpecialSkill => "special skill"
    }
  }

  const AllSkillTypes: seq<SkillType> := [Passive, Skill1, Skill2, Skill3, Ultimate, SpecialSkill]

  /** The skill-type tag spelled `tag`, if `tag` is one of the six. */
  function SkillTypeOfTag(tag: string): (t: Option<SkillType>)
    ensures t.Some? ==> t.value.Tag() == tag
    ensures forall k: SkillType :: k.Tag() == tag ==> t == Some(k)
  {
    if tag == "passive" then Some(Passive)
    else if tag == "skill 1" then Some(Skill1)
    else if tag == "skill 2" then Some(Skill2)
    else if tag == "skill 3" then Some(Skill3)
    else if tag == "ultimate" then Some(Ultimate)
    else if tag == "special skill" then Some(SpecialSkill)
    else None
  }

  /** Distinct skill types have distinct tags: a tag reads back as its own type. */
  lemma TagInjective(a: SkillType, b: SkillType)
    ensures SkillTypeOfTag(a.Tag()) == Some(a)
    ensures a.Tag() == b.Tag() ==> a == b
  {
    assert SkillTypeOfTag(b.Tag()) == Some(b);
  }

  /** The tag set is closed: exactly six distinct tags, one per variant. */
  lemma SkillTagsAreSix()
    ensures forall t: SkillType :: t in AllSkillTypes
    ensures |AllSkillTypes| == 6
    ensures forall i, j :: 0 <= i < j < 6 ==> AllSkillTypes[i].Tag() != AllSkillTypes[j].Tag()
  {
    forall t: SkillType ensures t in AllSkillTypes {
      match t
      case Passive => assert AllSkillTypes[0] == t;
      case Skill1 => assert AllSkillTypes[1] == t;
      case Skill2 => assert AllSkillTypes[2] == t;
      case Skill3 => assert AllSkillTypes[3] == t;
      case Ultimate => assert AllSkillTypes[4] == t;
      case SpecialSkill => assert AllSkillTypes[5] == t;
    }
  }

  /** A skill of a hero; `type` is spelled `skillType` because `type` is a Dafny keyword. */
  datatype Skill = Skill(id: string, name: string, description: string, skillType: SkillType)

  /** The nested `roles (role)` object of a joined row; its `role` may be missing. */
  datatype RoleRef = RoleRef(role: Option<string>)

  /** A hero row joined with its role, as the store returns it. */
  datatype HeroQueryResult = HeroQueryResult(
    id: int,
    name: string,
    tier: string,
    imageUrl: Option<string>,
    description: Option<string>,
    roleId: Option<int>,
    roles: Option<RoleRef>,
    skills: Option<seq<Skill>>)

  /** A hero as the screens use it: the nested role object replaced by its name. */
  datatype Hero = Hero(
    id: int,
    name: string,
    tier: string,
    imageUrl: Option<string>,
    description: Option<string>,
    roleId: Option<int>,
    role: string,
    skills: Option<seq<Skill>>)
}
