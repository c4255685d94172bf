/**
  The `/recommend/outside/osm` pipeline after the profile and the venue list
  have been read: cuisine filter, the empty-result branch, enrichment with
  distance and scores, a stable sort on distance and the cut to ten results.
 */
module Ranking {
  import opened Wrappers
  import opened Records
  import opened Scoring
  import opened Seqs
  import opened StableSort
  import JsString

  /** A distance in kilometres; the haversine formula never yields a negative one. */
  type Km = d: real | 0.0 <= d witness 0.0

  /** Great-circle distance between two coordinates, supplied by the caller. */
  type Haversine = (Coord, Coord) -> Km

  /** The requester's position, fixed in the handler. */
  const UserLocation: Coord := Coord(25.0173, 121.5397)

  const ResultLimit: nat := 10
  const DistanceWeight: real := 0.6
  const PreferenceWeight: real := 0.4

  /** The two component scores attached to a result for explanation. */
  datatype ScoreDetail = ScoreDetail(distanceScore: real, preferenceScore: real)

  /** A venue with everything the handler adds to it; the venue itself is kept whole. */
  datatype ScoredVenue = ScoredVenue(venue: Venue, distanceKm: real, score: real, scoreDetail: ScoreDetail)

  /** The handler's catch-all failure (HTTP 500, "recommend failed"). */
  datatype RecommendError = RecommendFailed

  function MinInt(a: int, b: int): (m: int) {
    if a <= b then a else b
  }

  /** The filter's test: some profile cuisine term occurs in the venue's lower-cased cuisine. */
  function CuisineKeep(p: Profile): (keep: Venue -> bool) {
    v => CuisineMatches(CuisineTerms(p), v)
  }

  /** The cuisine filter, applied only when the profile has cuisine terms. */
  function FilterByCuisine(p: Profile, restaurants: seq<Venue>): (r: seq<Venue>)
    ensures !HasCuisineFacet(p) ==> r == restaurants
    ensures HasCuisineFacet(p) ==>
      forall v :: v in r ==> v in restaurants && CuisineMatches(CuisineTerms(p), v)
    ensures HasCuisineFacet(p) ==>
      forall i :: 0 <= i < |restaurants| && CuisineMatches(CuisineTerms(p), restaurants[i]) ==> restaurants[i] in r
  {
    if HasCuisineFacet(p) then Filter(restaurants, CuisineKeep(p)) else restaurants
  }

  /** With cuisine terms, the filter keeps exactly the matching venues, in their fetched order. */
  lemma FilterByCuisineSelectsMatching(p: Profile, restaurants: seq<Venue>)
    requires HasCuisineFacet(p)
    ensures exists idx :: SelectsExactly(FilterByCuisine(p, restaurants), restaurants, CuisineKeep(p), idx)
  {
    FilterSelectsExactly(restaurants, CuisineKeep(p));
    assert FilterByCuisine(p, restaurants) == Filter(restaurants, CuisineKeep(p));
  }

  /** A profile with cuisine terms and no light goal gives every venue that survives the filter full marks. */
  lemma FilteredVenuesFullyPreferred(p: Profile, restaurants: seq<Venue>, v: Venue)
    requires HasCuisineFacet(p) && !HasLightGoal(p)
    requires v in FilterByCuisine(p, restaurants)
    ensures PreferenceScore(p, v) == 1.0
  {
  }

  /** One venue with its distance, blended score and score breakdown. */
  function Enrich(p: Profile, v: Venue, dKm: Km): (e: ScoredVenue)
    ensures e.venue == v && e.distanceKm == dKm
    ensures e.scoreDetail == ScoreDetail(DistanceScore(dKm), PreferenceScore(p, v))
    ensures 0.0 <= e.score <= 1.0
    ensures e.score == 1.0 <==> dKm == 0.0 && PreferenceScore(p, v) == 1.0
    ensures e.score == 0.0 <==> MaxDistanceKm <= dKm && PreferenceScore(p, v) == 0.0
  {
    var dScore := DistanceScore(dKm);
    var pScore := PreferenceScore(p, v);
    ScoredVenue(v, dKm, dScore * DistanceWeight + pScore * PreferenceWeight, ScoreDetail(dScore, pScore))
  }

  /** The blended score weighs its components by the distance and preference weights. */
  lemma EnrichBlendsScores(p: Profile, v: Venue, dKm: Km)
    ensures var e := Enrich(p, v, dKm);
      e.score == DistanceWeight * e.scoreDetail.distanceScore + PreferenceWeight * e.scoreDetail.preferenceScore
  {
  }

  /** `restaurants.map(...)`: every venue enriched with its distance from `here`. */
  function EnrichAll(p: Profile, vs: seq<Venue>, here: Coord, haversine: Haversine): (r: seq<ScoredVenue>)
    ensures |r| == |vs|
    ensures forall i :: 0 <= i < |vs| ==> r[i] == Enrich(p, vs[i], haversine(here, vs[i].location))
  {
    seq(|vs|, i requires 0 <= i < |vs| => Enrich(p, vs[i], haversine(here, vs[i].location)))
  }

  function DistanceOf(e: ScoredVenue): (d: real) {
    e.distanceKm
  }

  /** `slice(0, n)`. */
  function Take<T>(s: seq<T>, n: nat): (r: seq<T>)
    ensures |r| == MinInt(|s|, n)
    ensures r <= s
  {
    if |s| <= n then s else s[..n]
  }

  /** Enrich, sort nearest first, keep the first ten. */
  function RankByDistance(p: Profile, candidates: seq<Venue>, here: Coord, haversine: Haversine): (r: seq<ScoredVenue>)
    ensures |r| == MinInt(|candidates|, ResultLimit)
    ensures SortedBy(r, DistanceOf)
    ensures forall e :: e in r ==>
      exists i :: 0 <= i < |candidates| && e == Enrich(p, candidates[i], haversine(here, candidates[i].location))
  {
    var enriched := EnrichAll(p, candidates, here, haversine);
    var sorted := SortBy(enriched, DistanceOf);
    var r := Take(sorted, ResultLimit);
    EnrichedEntriesComeFromCandidates(p, candidates, here, haversine, r, sorted);
    r
  }

  lemma EnrichedEntriesComeFromCandidates(
    p: Profile, candidates: seq<Venue>, here: Coord, haversine: Haversine, r: seq<ScoredVenue>, sorted: seq<ScoredVenue>)
    requires r <= sorted
    requires multiset(sorted) == multiset(EnrichAll(p, candidates, here, haversine))
    ensures forall e :: e in r ==>
      exists i :: 0 <= i < |candidates| && e == Enrich(p, candidates[i], haversine(here, candidates[i].location))
  {
    var enriched := EnrichAll(p, candidates, here, haversine);
    forall e | e in r
      ensures exists i :: 0 <= i < |candidates| && e == Enrich(p, candidates[i], haversine(here, candidates[i].location))
    {
      var a :| 0 <= a < |r| && r[a] == e;
      assert sorted[a] == e;
      assert e in multiset(sorted);
      var i :| 0 <= i < |enriched| && enriched[i] == e;
    }
  }

  /** The ranked list is part of the enriched candidates, and every candidate left
      out is at least as far away as every one kept. */
  lemma {:induction false} RankedAreNearest(p: Profile, candidates: seq<Venue>, here: Coord, haversine: Haversine)
    ensures var enriched := EnrichAll(p, candidates, here, haversine);
      var ranked := RankByDistance(p, candidates, here, haversine);
      && multiset(ranked) <= multiset(enriched)
      && forall o, e :: o in ranked && e in multiset(enriched) - multiset(ranked) ==> o.distanceKm <= e.distanceKm
  {
    var enriched := EnrichAll(p, candidates, here, haversine);
    var sorted := SortBy(enriched, DistanceOf);
    var m := MinInt(|sorted|, ResultLimit);
    assert RankByDistance(p, candidates, here, haversine) == sorted[..m];
    assert sorted == sorted[..m] + sorted[m..];
    assert multiset(sorted) == multiset(sorted[..m]) + multiset(sorted[m..]);
    SortedPrefixIsLeast(sorted, DistanceOf, m);
  }

  /** Ties on distance stay in the order the venues were fetched. */
  lemma RankedTiesKeepFetchOrder(p: Profile, candidates: seq<Venue>, here: Coord, haversine: Haversine, k: real)
    ensures var enriched := EnrichAll(p, candidates, here, haversine);
      var ranked := RankByDistance(p, candidates, here, haversine);
      Filter(ranked, SameKey(DistanceOf, k)) <= Filter(enriched, SameKey(DistanceOf, k))
  {
    var enriched := EnrichAll(p, candidates, here, haversine);
    var sorted := SortBy(enriched, DistanceOf);
    SortByStable(enriched, DistanceOf, k);
    FilterOfPrefix(sorted, MinInt(|sorted|, ResultLimit), SameKey(DistanceOf, k));
    assert RankByDistance(p, candidates, here, haversine) == sorted[..MinInt(|sorted|, ResultLimit)];
  }

  /** The handler as written: filter, then fail when nothing is left (the fallback
      reads an identifier that is never defined), else rank by distance. */
  function RecommendOutsideOsm(p: Profile, fetched: seq<Venue>, haversine: Haversine): (r: Result<seq<ScoredVenue>, RecommendError>)
    ensures r.Failure? <==> FilterByCuisine(p, fetched) == []
    ensures r.Success? ==> 1 <= |r.value| <= ResultLimit
    ensures r.Success? ==> |r.value| == MinInt(|FilterByCuisine(p, fetched)|, ResultLimit)
    ensures r.Success? ==> SortedBy(r.value, DistanceOf)
    ensures r.Success? ==> forall e :: e in r.value ==>
      && e.venue in FilterByCuisine(p, fetched)
      && e.distanceKm == haversine(UserLocation, e.venue.location)
      && e.scoreDetail == ScoreDetail(DistanceScore(e.distanceKm), PreferenceScore(p, e.venue))
      && e.score == DistanceWeight * e.scoreDetail.distanceScore + PreferenceWeight * e.scoreDetail.preferenceScore
      && 0.0 <= e.score <= 1.0
  {
    var candidates := FilterByCuisine(p, fetched);
    if |candidates| == 0 then Failure(RecommendFailed)
    else Success(RankByDistance(p, candidates, UserLocation, haversine))
  }

  /** A profile without cuisine terms or light goal scores every result neutrally. */
  lemma NoFacetProfileIsNeutral(p: Profile, fetched: seq<Venue>, haversine: Haversine)
    requires !HasCuisineFacet(p) && !HasLightGoal(p)
    ensures var r := RecommendOutsideOsm(p, fetched, haversine);
      r.Success? ==> forall e :: e in r.value ==> e.scoreDetail.preferenceScore == NeutralScore
  {
  }

  /** A profile with cuisine terms and no light goal: every result has full preference,
      so its score is 0.4 plus 0.6 times its distance score. */
  lemma CuisineOnlyProfileScores(p: Profile, fetched: seq<Venue>, haversine: Haversine)
    requires HasCuisineFacet(p) && !HasLightGoal(p)
    ensures var r := RecommendOutsideOsm(p, fetched, haversine);
      r.Success? ==> forall e :: e in r.value ==>
        e.scoreDetail.preferenceScore == 1.0 && e.score == DistanceWeight * DistanceScore(e.distanceKm) + PreferenceWeight
  {
    var r := RecommendOutsideOsm(p, fetched, haversine);
    if r.Success? {
      forall e | e in r.value
        ensures e.scoreDetail.preferenceScore == 1.0 && e.score == DistanceWeight * DistanceScore(e.distanceKm) + PreferenceWeight
      {
        FilteredVenuesFullyPreferred(p, fetched, e.venue);
        var candidates := FilterByCuisine(p, fetched);
        var i :| 0 <= i < |candidates| && e == Enrich(p, candidates[i], haversine(UserLocation, candidates[i].location));
        EnrichBlendsScores(p, candidates[i], haversine(UserLocation, candidates[i].location));
      }
    }
  }

  /** The fallback the handler evidently meant: when the filter leaves nothing,
      rank the first ten venues as fetched. It never fails. */
  function RecommendWithFallback(p: Profile, fetched: seq<Venue>, haversine: Haversine): (r: seq<ScoredVenue>)
    ensures |r| <= ResultLimit
    ensures |r| == 0 <==> |fetched| == 0
    ensures SortedBy(r, DistanceOf)
    ensures forall e :: e in r ==> e.venue in fetched && e.distanceKm == haversine(UserLocation, e.venue.location)
    ensures FilterByCuisine(p, fetched) != [] ==> RecommendOutsideOsm(p, fetched, haversine) == Success(r)
  {
    var candidates := FilterByCuisine(p, fetched);
    var chosen := if |candidates| == 0 then Take(fetched, ResultLimit) else candidates;
    assert forall v :: v in chosen ==> v in fetched;
    RankByDistance(p, chosen, UserLocation, haversine)
  }

  const TaiwaneseProfile: Profile := Profile(Some(["taiwanese"]), None)
  const TaiwaneseVenue: Venue := Venue(1, "Taiwanese diner", Some("restaurant"), "taiwanese", UserLocation, map[])
  const ItalianVenue: Venue := Venue(2, "Italian trattoria", Some("restaurant"), "italian", Coord(25.05, 121.60), map[])

  lemma ItalianIsFilteredOut()
    ensures !CuisineMatches(CuisineTerms(TaiwaneseProfile), ItalianVenue)
  {
    assert |JsString.ToLower(ItalianVenue.cuisine)| < |"taiwanese"|;
  }

  lemma TaiwaneseIsKept()
    ensures CuisineMatches(CuisineTerms(TaiwaneseProfile), TaiwaneseVenue)
  {
    JsString.ToLowerOfLower(TaiwaneseVenue.cuisine);
    assert JsString.Includes(JsString.ToLower(TaiwaneseVenue.cuisine), CuisineTerms(TaiwaneseProfile)[0]);
  }

  /** A fetched, non-empty list whose venues all miss the profile's cuisine makes the
      handler as written fail, where the fallback would have ranked it. */
  lemma UndefinedFallbackFails(p: Profile, fetched: seq<Venue>, haversine: Haversine)
    requires fetched != [] && HasCuisineFacet(p)
    requires forall v :: v in fetched ==> !CuisineMatches(CuisineTerms(p), v)
    ensures RecommendOutsideOsm(p, fetched, haversine).Failure?
    ensures |RecommendWithFallback(p, fetched, haversine)| == MinInt(|fetched|, ResultLimit)
  {
    assert |Take(fetched, ResultLimit)| == MinInt(|fetched|, ResultLimit);
  }

  /** The smallest such input: one Italian venue under a Taiwanese-only profile. */
  lemma UndefinedFallbackExample(haversine: Haversine)
    ensures RecommendOutsideOsm(TaiwaneseProfile, [ItalianVenue], haversine).Failure?
    ensures |RecommendWithFallback(TaiwaneseProfile, [ItalianVenue], haversine)| == 1
  {
    ItalianIsFilteredOut();
    UndefinedFallbackFails(TaiwaneseProfile, [ItalianVenue], haversine);
  }

  /** Of two venues, keeps the one that matches and drops the one that does not. */
  lemma FilterKeepsFirstOfTwo(p: Profile, a: Venue, b: Venue)
    requires HasCuisineFacet(p)
    requires CuisineMatches(CuisineTerms(p), a) && !CuisineMatches(CuisineTerms(p), b)
    ensures FilterByCuisine(p, [a, b]) == [a]
  {
    var keep := CuisineKeep(p);
    FilterSingleton(a, keep);
    FilterSingleton(b, keep);
    FilterConcat([a], [b], keep);
    assert [a] + [b] == [a, b];
  }

  /** A single candidate is ranked as itself. */
  lemma RankSingle(p: Profile, v: Venue, here: Coord, haversine: Haversine)
    ensures RankByDistance(p, [v], here, haversine) == [Enrich(p, v, haversine(here, v.location))]
  {
    var e := Enrich(p, v, haversine(here, v.location));
    assert EnrichAll(p, [v], here, haversine) == [e];
    assert [e][1..] == [];
  }

  /** A Taiwanese venue at the user's position and an Italian one: only the first is
      returned, at distance 0 with full distance and preference scores, so its blended
      score is 1. */
  lemma TaiwaneseScenario(haversine: Haversine)
    requires haversine(UserLocation, UserLocation) == 0.0
    ensures var r := RecommendOutsideOsm(TaiwaneseProfile, [TaiwaneseVenue, ItalianVenue], haversine);
      && r.Success?
      && |r.value| == 1
      && r.value[0].venue == TaiwaneseVenue
      && r.value[0].distanceKm == 0.0
      && r.value[0].scoreDetail == ScoreDetail(1.0, 1.0)
      && r.value[0].score == 1.0
  {
    ItalianIsFilteredOut();
    TaiwaneseIsKept();
    FilterKeepsFirstOfTwo(TaiwaneseProfile, TaiwaneseVenue, ItalianVenue);
    RankSingle(TaiwaneseProfile, TaiwaneseVenue, UserLocation, haversine);
  }
}
