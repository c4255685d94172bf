/**
  The two records the recommender reads: the stored survey profile and an
  eatery fetched from OpenStreetMap, with the facet tests both the filter and
  the preference score are built from.
 */
module Records {
  import opened Wrappers
  import opened JsString

  /** A geographic coordinate in degrees. */
  datatype Coord = Coord(lat: real, lon: real)

  /** The survey answers: each facet may be missing from the stored JSON. */
  datatype Profile = Profile(cuisines: Option<seq<string>>, healthGoals: Option<seq<string>>)

  /** One eatery as mapped from an OpenStreetMap node; `cuisine` is "" when the node has no cuisine tag. */
  datatype Venue = Venue(
    osmId: int,
    name: string,
    amenity: Option<string>,
    cuisine: string,
    location: Coord,
    tags: map<string, string>)

  const LightGoal: string := "light"
  const CafeAmenity: string := "cafe"
  const DietTag: string := "diet"
  const HealthyDiet: string := "healthy"

  /** The profile's cuisine terms; a missing facet reads as no terms. */
  function CuisineTerms(p: Profile): (terms: seq<string>)
    ensures p.cuisines.None? ==> terms == []
    ensures p.cuisines.Some? ==> terms == p.cuisines.value
  {
    match p.cuisines
    case None => []
    case Some(cs) => cs
  }

  /** `profile.cuisines?.length` is truthy. */
  predicate HasCuisineFacet(p: Profile) {
    |CuisineTerms(p)| > 0
  }

  /** `profile.cuisines?.includes(c)`. */
  predicate HasCuisine(p: Profile, c: string) {
    p.cuisines.Some? && c in p.cuisines.value
  }

  /** `profile.healthGoals?.includes(g)`. */
  predicate HasGoal(p: Profile, g: string) {
    p.healthGoals.Some? && g in p.healthGoals.value
  }

  predicate HasLightGoal(p: Profile) {
    HasGoal(p, LightGoal)
  }

  /** Some profile term is a substring of the lower-cased venue cuisine;
      the terms themselves are not lower-cased. */
  predicate CuisineMatches(terms: seq<string>, v: Venue) {
    exists i :: 0 <= i < |terms| && Includes(ToLower(v.cuisine), terms[i])
  }

  /** The venue is a cafe or carries the tag diet=healthy. */
  predicate LightMatches(v: Venue) {
    v.amenity == Some(CafeAmenity) || (DietTag in v.tags && v.tags[DietTag] == HealthyDiet)
  }
}
