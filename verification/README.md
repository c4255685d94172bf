# Eatery recommendation ranking, modelled in Dafny

This project models the recommendation logic of the food-recommend Express
server (`server_11.js`). The HTTP, database and OpenStreetMap plumbing is left
out. What remains is a set of pure functions over an immutable survey profile
and a list of fetched venues:

- the rule-based dish list of `/recommend/outside`;
- `distanceScore`, which clamps a distance at 3 km and maps it linearly onto [1, 0];
- `preferenceScore`, which gives the share of the profile's declared facets a venue meets.
  The facets are a cuisine substring match and the `light` goal. With no facet declared the score is the neutral 0.5;
- the `/recommend/outside/osm` pipeline: cuisine filter, the empty-result branch,
  enrichment with `distanceKm`, `score` and `scoreDetail`, a stable ascending sort on
  distance (not on the blended score), and the cut to ten results.

Modules, leaf first:

| module | file | models |
|---|---|---|
| `Wrappers` | `wrappers.dfy` | optional JSON fields and handler outcomes |
| `JsString` | `js_string.dfy` | `toLowerCase` (ASCII letters) and `String.prototype.includes` |
| `Records` | `records.dfy` | the profile, the venue record, the two facet tests |
| `Dishes` | `dishes.dfy` | the dish rules and their fallback |
| `Scoring` | `scoring.dfy` | `distanceScore`, `preferenceScore` |
| `Seqs` | `seqs.dfy` | `Array.prototype.filter` and what it selects |
| `StableSort` | `stable_sort.dfy` | `Array.prototype.sort` with a numeric-difference comparator |
| `Ranking` | `ranking.dfy` | filter, fallback branch, enrichment, sort, `slice(0, 10)` |

Some inputs are parameters rather than computed:

- The haversine distance is a parameter of type `(Coord, Coord) -> Km`, where `Km` is a non-negative real.
- The user location is the handler's fixed coordinate 25.0173, 121.5397.
- The fetched venue list and the stored profile are plain arguments.

Behaviour of the code that the model keeps as it is:

- The handler has no working fallback. On an empty filtered list it reads the undeclared `osmData`, throws, and answers with its catch-all 500 error.
  `RecommendOutsideOsm` returns `Failure(RecommendFailed)` in that case (see Findings).
- Venues without coordinates are not dropped, so the model has no such step.
  Every venue carries a coordinate.
- At distance 0 with full preference the blended score is 0.6 · 1 + 0.4 · 1 = 1 (`Ranking.TaiwaneseScenario`).
- The ranking is ordered by distance, not by the blended score.

## Model

| member | source | states |
|---|---|---|
| JsString.ToLower | server_11.js:149 | lower-casing keeps the length and lowers each ASCII letter, leaving every other character as it is |
| JsString.ToLowerIdempotent | server_11.js:149 | lower-casing an already lower-cased cuisine changes nothing |
| JsString.Includes | server_11.js:149 | `includes` is true exactly when the needle occurs at some position of the haystack, so it is true for the empty needle |
| Dishes.OutsideRecommendations | server_11.js:85-103 | the dish list has at least two items, and it is the fallback pair exactly when no rule fires |
| Dishes.AnyRuleFiresIff | server_11.js:87-98 | some rule of the table fires exactly when one of the four `includes` tests succeeds |
| Dishes.OutsideRecommendationsFollowRules | server_11.js:85-103 | the list is the dishes of the firing rules concatenated in rule order (taiwanese, japanese, light, more_protein), or the fallback pair when none fires |
| Dishes.DishSignalsItsRule | server_11.js:87-98 | a rule's dish is on the list if and only if that rule fires |
| Scoring.DistanceScore | server_11.js:135-139 | for a non-negative distance the score is in [0, 1]; it is 1 exactly at distance 0 and 0 exactly from 3 km on |
| Scoring.DistanceScoreNonIncreasing | server_11.js:135-139 | a larger distance never scores higher |
| Scoring.DistanceScoreLinearInRadius | server_11.js:135-139 | inside 3 km the score drops by one third per kilometre |
| Scoring.PreferenceScore | server_11.js:141-168 | with no facet declared the score is 0.5; it is always 0, 0.5 or 1; with a facet declared it is 1 exactly when every declared facet matches and 0 exactly when none does |
| Scoring.PreferenceScoreHalfWhenOneOfTwo | server_11.js:145-167 | with both facets declared the score is 0.5 exactly when one facet matches and the other does not |
| Scoring.PreferenceScoreFacetsOnly | server_11.js:145-164 | two venues that agree on the cuisine test and the cafe/diet test get the same score |
| Scoring.LightGoalEffect | server_11.js:156-167 | declaring `light` never lowers the score of a venue that meets it and never raises the score of one that does not |
| Scoring.CuisineFacetEffect | server_11.js:145-154 | declaring cuisines never lowers the score of a venue that matches them and never raises the score of one that does not |
| Scoring.SingleCuisineFullMatch | server_11.js:145-154 | one cuisine term contained in the venue's lower-cased cuisine, with no health goal, gives exactly 1 |
| Seqs.Filter | server_11.js:251-255 | the result is no longer than the input; it holds only accepted input elements and every accepted one |
| Seqs.FilterSelectsExactly | server_11.js:251-255 | the filtered list is the input at a strictly increasing list of positions, and those positions are exactly the accepted ones |
| StableSort.SortBy | server_11.js:302 | the sort result is ascending by key and a permutation of the input |
| StableSort.SortByStable | server_11.js:302 | for every key value, the elements with that key appear in the sorted list in their input order |
| StableSort.SortedPrefixIsLeast | server_11.js:302-306 | no element left out of a prefix of a sorted list has a smaller key than one kept |
| Ranking.FilterByCuisine | server_11.js:250-256 | without cuisine terms the venues pass unchanged; with them the result holds only matching fetched venues and every matching one |
| Ranking.FilterByCuisineSelectsMatching | server_11.js:250-256 | with cuisine terms the filter keeps exactly the matching venues, in fetched order |
| Ranking.FilteredVenuesFullyPreferred | server_11.js:145-154 | with cuisine terms and no `light` goal, every venue that survives the filter has preference score 1 |
| Ranking.Enrich | server_11.js:275-298 | the enriched entry keeps the venue whole and carries its distance and both component scores; the blended score is in [0, 1], is 1 exactly at distance 0 with full preference, and is 0 exactly from 3 km on with no preference match |
| Ranking.Take | server_11.js:306 | `slice(0, n)` is a prefix of length min(length, n) |
| Ranking.RankByDistance | server_11.js:275-306 | the ranking has min(n, 10) entries, ascending by distance, each an enriched candidate |
| Ranking.RankedAreNearest | server_11.js:302-306 | the ranking is a sub-multiset of the enriched candidates, and every candidate left out is at least as far as every one kept |
| Ranking.RankedTiesKeepFetchOrder | server_11.js:302-306 | among ranked entries at the same distance, the order is a prefix of their order in the enriched list |
| Ranking.RecommendOutsideOsm | server_11.js:250-311 | the handler fails exactly when the filtered list is empty; otherwise it returns 1 to 10 entries, as many as min(filtered, 10), ascending by distance, each a filtered venue with its distance from the user location, its two component scores, and a score in [0, 1] that weighs the distance score 0.6 and the preference score 0.4 |
| Ranking.NoFacetProfileIsNeutral | server_11.js:166 | a profile with neither cuisine terms nor `light` gives every result preference score 0.5 |
| Ranking.CuisineOnlyProfileScores | server_11.js:283-288 | with cuisine terms and no `light` goal, every result has preference 1 and score 0.4 plus 0.6 times its distance score |
| Ranking.ItalianIsFilteredOut | server_11.js:252-254 | the term "taiwanese" does not match the cuisine "italian" |
| Ranking.TaiwaneseIsKept | server_11.js:252-254 | the term "taiwanese" matches the cuisine "taiwanese" |
| Ranking.FilterKeepsFirstOfTwo | server_11.js:250-256 | of a matching and a non-matching venue the filter keeps only the matching one |
| Ranking.RankSingle | server_11.js:275-306 | a single candidate is ranked as its own enriched entry |
| Ranking.TaiwaneseScenario | server_11.js:250-306 | a Taiwanese venue at the user's position and an Italian one yield one result at distance 0 with scores (1, 1) and blended score 1 |
| Ranking.UndefinedFallbackFails | server_11.js:270-272 | for a profile with cuisine terms, every non-empty fetch in which no venue matches them makes the handler fail, while the corrected fallback returns min(fetched, 10) entries |
| Ranking.UndefinedFallbackExample | server_11.js:270-272 | one "italian" venue under a profile with cuisines ["taiwanese"] makes the handler fail, while the corrected fallback returns one entry |
| Ranking.RecommendWithFallback | server_11.js:270-272 | the corrected handler never fails: it returns at most 10 entries, ascending by distance, each entry a fetched venue, empty exactly when nothing was fetched, and the same as the handler whenever the filter keeps something |

## Left out

- `calcDistanceKm` (server_11.js:118-133): floating-point trigonometry; it is the `Haversine` parameter, assumed non-negative.
- `Number(score.toFixed(3))` (server_11.js:293): decimal rounding of a float; the model keeps the exact real score.
- All arithmetic is over exact reals, not IEEE doubles.
- Comparisons such as `score == 1` and the 0.6/0.4 blend hold exactly only in the model.
- The Overpass fetch and its record mapping (server_11.js:171-202): network I/O. The fetched list is an argument.
- The mapped record's `cuisine` defaults to "" (server_11.js:197), so `cuisine` is a plain string in `Venue`.
- Express routing, JSON responses, `/submit-survey`, `/debug/users`, static files (server_11.js:16-55, 207-215, 317-343): HTTP plumbing.
- Reading the latest profile from MySQL, the 404 when there is none, and the JSON-parse branch (server_11.js:63-80, 231-244): database I/O. `db.js` is not part of this model.
- Console logging (server_11.js:258-267).
- JsString.ToLower: lowers ASCII letters only; JavaScript's `toLowerCase` also maps non-ASCII letters.
- Profile facets are modelled as lists of strings, so a facet stored as a single string is not modelled.
  In the dish-list tests (server_11.js:87-96) and the `light` test of `preferenceScore` (server_11.js:156), `includes` on such a string is a substring test, so "delight" counts as `light`.
  A non-empty string `cuisines` passes the length test at server_11.js:250, but `some` at server_11.js:252 throws, so the handler always answers 500.
  Non-string terms, which `includes` coerces, are not modelled either.
- Missing or non-numeric coordinates are not modelled: JavaScript would compute a NaN distance, and the sort's order with NaN keys is implementation-defined.

## Findings

| source | as written | input that shows it | evidently intended | confidence | as-written member | corrected member |
|---|---|---|---|---|---|---|
| server_11.js:270-272 | when the filter leaves nothing, the handler reads `osmData.restaurants`, but `osmData` is never declared, so it throws and answers 500 | a profile with cuisines ["taiwanese"] and one fetched venue whose cuisine is "italian" | rank the first ten venues as fetched | not executed; medium, since the code does not say what `osmData` was meant to be | Ranking.UndefinedFallbackFails, Ranking.UndefinedFallbackExample | Ranking.RecommendWithFallback |

`Ranking.RecommendOutsideOsm` stays the model of the handler as it behaves.
`Ranking.RecommendWithFallback` is the corrected definition, and it is proved to agree with `RecommendOutsideOsm` whenever the filter keeps a venue.
