/**
  The rule-based dish list of the `/recommend/outside` handler: each rule
  that the profile triggers appends its fixed dishes, in rule order, and a
  two-dish fallback is used when no rule fires.
 */
module Dishes {
  import opened Records

  const TaiwaneseDishes: seq<string> := ["滷肉飯", "雞腿便當", "燙青菜"]
  const JapaneseDishes: seq<string> := ["日式便當", "烤魚定食"]
  const LightDishes: seq<string> := ["舒肥雞胸沙拉", "清燉湯品"]
  const ProteinDishes: seq<string> := ["烤雞腿便當", "牛肉便當"]
  const FallbackDishes: seq<string> := ["均衡便當", "自助餐"]

  /** Which profile facet a rule inspects. */
  datatype Facet = CuisineFacet | HealthGoalFacet

  /** A rule fires when `key` is an element of the facet's list. */
  datatype DishRule = DishRule(facet: Facet, key: string, dishes: seq<string>)

  /** The rules as a table, in the order the handler checks them. */
  const Rules: seq<DishRule> := [
    DishRule(CuisineFacet, "taiwanese", TaiwaneseDishes),
    DishRule(CuisineFacet, "japanese", JapaneseDishes),
    DishRule(HealthGoalFacet, "light", LightDishes),
    DishRule(HealthGoalFacet, "more_protein", ProteinDishes)
  ]

  predicate Fires(p: Profile, rule: DishRule) {
    match rule.facet
    case CuisineFacet => HasCuisine(p, rule.key)
    case HealthGoalFacet => HasGoal(p, rule.key)
  }

  /** The dishes of the rules that fire, concatenated in table order. */
  function FiredDishes(p: Profile, rules: seq<DishRule>): (dishes: seq<string>) {
    if rules == [] then []
    else (if Fires(p, rules[0]) then rules[0].dishes else []) + FiredDishes(p, rules[1..])
  }

  predicate AnyRuleFires(p: Profile) {
    exists k :: 0 <= k < |Rules| && Fires(p, Rules[k])
  }

  /** Some rule fires exactly when one of the handler's four tests succeeds. */
  lemma AnyRuleFiresIff(p: Profile)
    ensures AnyRuleFires(p) <==>
      HasCuisine(p, "taiwanese") || HasCuisine(p, "japanese") || HasGoal(p, "light") || HasGoal(p, "more_protein")
  {
    if HasCuisine(p, "taiwanese") { assert Fires(p, Rules[0]); }
    if HasCuisine(p, "japanese") { assert Fires(p, Rules[1]); }
    if HasGoal(p, "light") { assert Fires(p, Rules[2]); }
    if HasGoal(p, "more_protein") { assert Fires(p, Rules[3]); }
  }

  /** The handler's dish list, built with the same four tests and the fallback. */
  function OutsideRecommendations(p: Profile): (r: seq<string>)
    ensures |r| >= 2
    ensures r == FallbackDishes <==> !AnyRuleFires(p)
  {
    var afterTaiwanese := if HasCuisine(p, "taiwanese") then TaiwaneseDishes else [];
    var afterJapanese := afterTaiwanese + if HasCuisine(p, "japanese") then JapaneseDishes else [];
    var afterLight := afterJapanese + if HasGoal(p, "light") then LightDishes else [];
    var afterProtein := afterLight + if HasGoal(p, "more_protein") then ProteinDishes else [];
    AnyRuleFiresIff(p);
    if |afterProtein| == 0 then
      FallbackDishes
    else
      assert afterProtein[0] in {TaiwaneseDishes[0], JapaneseDishes[0], LightDishes[0], ProteinDishes[0]};
      afterProtein
  }

  /** The dish list is the rule table's fired dishes in order, or the fallback when none fired. */
  lemma OutsideRecommendationsFollowRules(p: Profile)
    ensures FiredDishes(p, Rules) == [] <==> !AnyRuleFires(p)
    ensures OutsideRecommendations(p)
         == if FiredDishes(p, Rules) == [] then FallbackDishes else FiredDishes(p, Rules)
  {
    AnyRuleFiresIff(p);
    var r3 := Rules[1..][1..][1..];
    var r2 := Rules[1..][1..];
    var r1 := Rules[1..];
    assert r3 == [Rules[3]] && r3[1..] == [];
    assert r2[0] == Rules[2] && r2[1..] == r3;
    assert r1[0] == Rules[1] && r1[1..] == r2;
    var f3 := if HasGoal(p, "more_protein") then ProteinDishes else [];
    var f2 := (if HasGoal(p, "light") then LightDishes else []) + f3;
    var f1 := (if HasCuisine(p, "japanese") then JapaneseDishes else []) + f2;
    var f0 := (if HasCuisine(p, "taiwanese") then TaiwaneseDishes else []) + f1;
    assert FiredDishes(p, r3) == f3;
    assert FiredDishes(p, r2) == f2;
    assert FiredDishes(p, r1) == f1;
    assert FiredDishes(p, Rules) == f0;
  }

  /** A dish of a rule is on the list exactly when that rule fires. */
  lemma DishSignalsItsRule(p: Profile, k: int, d: string)
    requires 0 <= k < |Rules|
    requires d in Rules[k].dishes
    ensures d in OutsideRecommendations(p) <==> Fires(p, Rules[k])
  {
  }
}
