/**
  The two component scores of a venue: how close it is, and how well it
  matches the profile's declared facets.
 */
module Scoring {
  import opened Wrappers
  import opened Records
  import opened JsString

  /** Distances at or beyond this many kilometres score zero. */
  const MaxDistanceKm: real := 3.0

  /** Score used when the profile declares no facet at all. */
  const NeutralScore: real := 0.5

  function MinReal(a: real, b: real): (m: real) {
    if a <= b then a else b
  }

  /** `distanceScore`: the distance clamped at 3 km and mapped linearly from [0, 3] onto [1, 0]. */
  function DistanceScore(d: real): (r: real)
    ensures 0.0 <= d ==> 0.0 <= r <= 1.0
    ensures d == 0.0 ==> r == 1.0
    ensures MaxDistanceKm <= d ==> r == 0.0
    ensures 0.0 <= d ==> (r == 0.0 <==> MaxDistanceKm <= d)
    ensures 0.0 <= d ==> (r == 1.0 <==> d == 0.0)
  {
    var clamped := MinReal(d, MaxDistanceKm);
    1.0 - clamped / MaxDistanceKm
  }

  /** Nearer is never worse. */
  lemma DistanceScoreNonIncreasing(d1: real, d2: real)
    requires d1 <= d2
    ensures DistanceScore(d2) <= DistanceScore(d1)
  {
  }

  /** Inside the radius each kilometre costs a third of a point. */
  lemma DistanceScoreLinearInRadius(d1: real, d2: real)
    requires 0.0 <= d1 <= d2 <= MaxDistanceKm
    ensures DistanceScore(d1) - DistanceScore(d2) == (d2 - d1) / MaxDistanceKm
  {
  }

  /** `preferenceScore`: the share of the profile's declared facets the venue meets.
      The cuisine facet counts when the profile has cuisine terms, the light facet
      when it has the "light" goal; with neither the score is the neutral 0.5. */
  function PreferenceScore(p: Profile, v: Venue): (r: real)
    ensures !HasCuisineFacet(p) && !HasLightGoal(p) ==> r == NeutralScore
    ensures r == 0.0 || r == 0.5 || r == 1.0
    ensures HasCuisineFacet(p) || HasLightGoal(p) ==>
      (r == 1.0 <==> (HasCuisineFacet(p) ==> CuisineMatches(CuisineTerms(p), v))
                     && (HasLightGoal(p) ==> LightMatches(v)))
    ensures HasCuisineFacet(p) || HasLightGoal(p) ==>
      (r == 0.0 <==> !(HasCuisineFacet(p) && CuisineMatches(CuisineTerms(p), v))
                     && !(HasLightGoal(p) && LightMatches(v)))
  {
    var (cuisineMax, cuisinePoints) :=
      if HasCuisineFacet(p) then (1, if CuisineMatches(CuisineTerms(p), v) then 1 else 0) else (0, 0);
    var (lightMax, lightPoints) :=
      if HasLightGoal(p) then (1, if LightMatches(v) then 1 else 0) else (0, 0);
    var maxScore := cuisineMax + lightMax;
    var score := cuisinePoints + lightPoints;
    if maxScore == 0 then NeutralScore else score as real / maxScore as real
  }

  /** With both facets declared, meeting exactly one of them gives half marks. */
  lemma PreferenceScoreHalfWhenOneOfTwo(p: Profile, v: Venue)
    requires HasCuisineFacet(p) && HasLightGoal(p)
    ensures PreferenceScore(p, v) == 0.5 <==> CuisineMatches(CuisineTerms(p), v) != LightMatches(v)
  {
  }

  /** The score reads the venue only through the two facet tests. */
  lemma PreferenceScoreFacetsOnly(p: Profile, v: Venue, w: Venue)
    requires CuisineMatches(CuisineTerms(p), v) == CuisineMatches(CuisineTerms(p), w)
    requires LightMatches(v) == LightMatches(w)
    ensures PreferenceScore(p, v) == PreferenceScore(p, w)
  {
  }

  /** Declaring the light goal raises the score when the venue meets it and lowers it
      when it does not: a goal left out is skipped, never counted against the venue. */
  lemma LightGoalEffect(p: Profile, v: Venue)
    requires HasLightGoal(p)
    ensures var without := PreferenceScore(p.(healthGoals := None), v);
      (LightMatches(v) ==> without <= PreferenceScore(p, v))
      && (!LightMatches(v) ==> PreferenceScore(p, v) <= without)
  {
  }

  /** The same for the cuisine facet. */
  lemma CuisineFacetEffect(p: Profile, v: Venue)
    requires HasCuisineFacet(p)
    ensures var without := PreferenceScore(p.(cuisines := None), v);
      (CuisineMatches(CuisineTerms(p), v) ==> without <= PreferenceScore(p, v))
      && (!CuisineMatches(CuisineTerms(p), v) ==> PreferenceScore(p, v) <= without)
  {
  }

  /** A single cuisine term contained in the venue's cuisine, and no health goal,
      gives full marks; the venue's cuisine is compared in lower case. */
  lemma SingleCuisineFullMatch(term: string, v: Venue)
    requires Includes(ToLower(v.cuisine), term)
    ensures PreferenceScore(Profile(Some([term]), None), v) == 1.0
  {
    assert [term][0] == term;
  }
}
