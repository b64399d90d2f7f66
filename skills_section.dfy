/**
 The skills grid: each skill shows five level indicators, the first `level`
 of them filled in the category's colour, and each category an icon looked
 up by name.
 */
module Skills {
  import opened Wrappers
  import opened JsString

  datatype Skill = Skill(name: string, level: int)

  datatype SkillCategory = SkillCategory(category: string, icon: string, color: string, skills: seq<Skill>)

  datatype Icon = ServerIcon | CodeIcon | CloudIcon

  /** Every skill shows this many indicators. */
  const DotCount: nat := 5

  const DotBaseClass := "w-2 h-2 rounded-full "
  const UnfilledColour := "bg-gray-400"

  /** `iconMap`: the three icons, keyed by name. */
  const IconMap: map<string, Icon> := map["Server" := ServerIcon, "Code" := CodeIcon, "Cloud" := CloudIcon]

  /** `iconMap[category.icon]`: `None` for any other name. */
  function IconFor(icon: string): (r: Option<Icon>)
    ensures r.Some? <==> icon == "Server" || icon == "Code" || icon == "Cloud"
    ensures icon == "Server" ==> r == Some(ServerIcon)
    ensures icon == "Code" ==> r == Some(CodeIcon)
    ensures icon == "Cloud" ==> r == Some(CloudIcon)
  {
    if icon in IconMap then Some(IconMap[icon]) else None
  }

  /** The first `n` indicators for `level`: indicator `i` is filled when `i < level`. */
  function Filled(level: int, n: nat): (r: seq<bool>)
    ensures |r| == n
  {
    seq(n, i => i < level)
  }

  /** The five indicators of a skill: exactly five, indicator `i` filled iff `i < level`. */
  function Dots(level: int): (r: seq<bool>)
    ensures |r| == DotCount
    ensures forall i :: 0 <= i < DotCount ==> (r[i] <==> i < level)
  {
    Filled(level, DotCount)
  }

  /** How many indicators are filled. */
  function CountFilled(dots: seq<bool>): (k: nat)
    ensures k <= |dots|
    decreases |dots|
  {
    if dots == [] then 0
    else CountFilled(dots[..|dots| - 1]) + (if dots[|dots| - 1] then 1 else 0)
  }

  /** Among the first `n` indicators, `level` clamped into `[0, n]` are filled. */
  lemma {:induction false} FilledCount(level: int, n: nat)
    ensures CountFilled(Filled(level, n)) == Max(0, Min(level, n))
    decreases n
  {
    if n > 0 {
      assert Filled(level, n)[..n - 1] == Filled(level, n - 1);
      FilledCount(level, n - 1);
    }
  }

  /** A skill shows `max(0, min(level, 5))` filled indicators. */
  lemma DotsFilledCount(level: int)
    ensures CountFilled(Dots(level)) == Max(0, Min(level, DotCount))
  {
    FilledCount(level, DotCount);
  }

  /** `color.replace('text-', 'bg-')`: the filled indicators' colour. */
  function FilledColour(color: string): (r: string)
    ensures IndexOf(color, "text-").None? ==> r == color
    ensures IndexOf(color, "text-").Some? ==> |r| == |color| - 2
  {
    assert '$' !in "bg-";
    ReplaceVerbatim(color, "text-", "bg-");
    Replace(color, "text-", "bg-")
  }

  /** Only the first `text-` becomes `bg-`; everything around it is kept. */
  lemma FilledColourRewritesFirstText(color: string, p: nat)
    requires OccursAt(color, "text-", p)
    requires forall q :: 0 <= q < p ==> !OccursAt(color, "text-", q)
    ensures FilledColour(color) == color[..p] + "bg-" + color[p + 5..]
  {
    ReplaceFirstOccurrence(color, "text-", "bg-", p);
  }

  /** A colour without `text-` is used unchanged. */
  lemma FilledColourWithoutText(color: string)
    requires forall q :: 0 <= q ==> !OccursAt(color, "text-", q)
    ensures FilledColour(color) == color
  {
    ReplaceAbsent(color, "text-", "bg-");
  }

  /** The class of each of a skill's five indicators. */
  function DotClasses(color: string, level: int): (r: seq<string>)
    ensures |r| == DotCount
    ensures forall i :: 0 <= i < DotCount && i < level ==> r[i] == DotBaseClass + FilledColour(color)
    ensures forall i :: 0 <= i < DotCount && level <= i ==> r[i] == DotBaseClass + UnfilledColour
  {
    seq(DotCount, i requires 0 <= i < DotCount => DotBaseClass + (if Dots(level)[i] then FilledColour(color) else UnfilledColour))
  }
}
