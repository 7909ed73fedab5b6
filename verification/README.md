# Wikimap accumulator, modelled in Dafny

The map page (`map.js`) asks the Dutch Wikipedia geosearch API for articles
near the map centre each time the map loads or stops moving. It keeps two
pieces of session state: `known`, a set of page ids already seen, and
`features`, the GeoJSON point features collected so far in discovery order.
Each response is reconciled against that state:

1. records whose `pageid` is already in `known` are dropped;
2. each survivor becomes a GeoJSON `Feature` with coordinates `[lon, lat]`;
3. if nothing survived, the call returns without touching anything;
4. otherwise the new ids are added to `known`, the new features are appended
   to `features`, and the whole collection is handed to the map's data source.

The project models this as a pure function over an immutable session value:

- `features.dfy` (module `Features`): the response record `Article`, the
  GeoJSON `Feature`, the record-to-feature conversion and its inverse, and id
  helpers (`ArticleIds`, `FeatureIds`, `Ids`, `Distinct`).
- `accumulator.dfy` (module `Accumulator`): the `Session`, the filter
  `FilterUnknown`, `Reconcile` (returning the next session, the new features,
  and whether the collection is published), the invariant `Valid` (ids in
  `known` are exactly the ids of `features`), its preservation, idempotence,
  order and uniqueness lemmas, and `FetchData`, an imperative version with the
  source's loop structure proved equal to `Reconcile`.
- `driver.dfy` (module `Driver`): one `fetchData` call as a `Cycle` that can
  fail before any state change, and `Run`, a sequence of cycles, with the
  invariant, monotonicity and uniqueness lifted to whole runs.

Page ids are unbounded integers. Latitude and longitude are `real`s. The code
only copies them and never computes with them, so no floating-point
behaviour is involved.

**Duplicate ids within one response are not collapsed.** `map.js:29`
filters each response only against `known` as it stood before the response,
and `map.js:45` adds the new ids afterwards. Two records with the same
`pageid` in one response therefore both survive and are both appended.
`DuplicateInResponseIsAppendedTwice` exhibits this with one page reported at
two different coordinates. Uniqueness of ids in the collection is proved only
under the condition that every response lists each page id at most once
(`ReconcileKeepsIdsDistinct`, `RunKeepsIdsDistinct`). The program's own query
does not guarantee that condition. It asks for `gsprimary=all` (`map.js:22`),
which, as the geosearch API documents it, also returns an article's secondary
coordinates. A page with several coordinates near the centre can then appear
more than once in one response.

## Model

| member | source | states |
|---|---|---|
| Features.ToFeature | map.js:30-40 | the feature carries the record's `pageid` and `title` unchanged and has exactly two coordinates, longitude first and latitude second |
| Features.ToArticleToFeature | map.js:30-40 | the conversion loses nothing: reading a record back out of its feature gives the original record, so the lat/lon swap is undone exactly |
| Features.ToFeatures | map.js:30-40 | the mapped sequence has the response's length and its i-th feature is the conversion of the i-th record |
| Accumulator.FilterUnknown | map.js:28-29 | a record survives if and only if it is in the response and its page id is not in the prior `known` set; never more survivors than records |
| Accumulator.FilterAppend | map.js:28-29 | filtering a concatenation gives the survivors of the first part followed by those of the second, all judged against the same prior `known` |
| Accumulator.FilterIsSubsequence | map.js:28-29 | the survivors are a subsequence of the response, so their relative order is the response's |
| Accumulator.Init | map.js:14-15 | the session starts with an empty `known` set and an empty `features` array, and the id invariant holds |
| Accumulator.Reconcile | map.js:28-56 | no new feature has an already-known id; every record with an unknown id appears converted among the new features; every new feature reads back as a record of the response; nothing is published and the session is unchanged exactly when no feature is new; otherwise `known` gains the new ids, the new features are appended and the full collection is published; `known` and `features` only grow, the old `features` a prefix of the new |
| Accumulator.UnknownInResponseOrder | map.js:28-40 | the new features are a subsequence of the converted response, in response order |
| Accumulator.UnknownOfAppend | map.js:28-40 | the new features of a two-part response are those of the first part followed by those of the second |
| Accumulator.ReconcilePreservesValid | map.js:45-46 | if the ids in `known` equal the ids of `features` before a reconcile, they do after it |
| Accumulator.ReconcileIdempotent | map.js:28-46 | reconciling the same response a second time finds no new features, publishes nothing and leaves the session unchanged, even when the response repeats an id |
| Accumulator.ReconcileKeepsIdsDistinct | map.js:28-46 | if the collection has pairwise distinct ids, matches `known`, and the response lists each id once, the collection still has pairwise distinct ids afterwards |
| Accumulator.DuplicateInResponseIsAppendedTwice | map.js:28-46 | a response holding two records with the same id, on the initial session, appends both, so the collection then holds a repeated id |
| Accumulator.FilterAndConvert | map.js:28-40 | a loop over the response that keeps unknown records and converts them yields exactly the filtered, converted sequence |
| Accumulator.AddIds | map.js:45 | adding each new feature's id in turn yields the prior `known` united with the new ids |
| Accumulator.FetchData | map.js:28-46 | the step-by-step filter, early return, id loop and append compute the same session, new features and publish decision as `Reconcile` |
| Driver.Cycle | map.js:24-28 | a failed request, unparseable body or missing `query.geosearch` leaves the session unchanged and publishes nothing; a response is reconciled; either way the state only grows |
| Driver.Run | map.js:175-176 | the session after any sequence of `fetchData` cycles, in completion order: `known` only grows and the earlier collection stays a prefix of the later one; a run in which every cycle fails leaves the session unchanged |
| Driver.RunAppend | map.js:175-176 | running two sequences of cycles one after the other is the same as running their concatenation |
| Driver.RunPreservesValid | map.js:45-46 | over any sequence of cycles, ids in `known` keep matching the ids of `features` |
| Driver.RunKeepsIdsDistinct | map.js:28-46 | if no response repeats an id, the collection never holds the same id twice, over any sequence of cycles |
| Driver.DiscoveryScenario | map.js:28-46 | two disjoint responses each add their record in turn, a fully overlapping response adds and publishes nothing, and a partly overlapping one adds only its unknown record at the end |

## Left out

- Building the request URL, the fixed radius of 5000 m and the limit of 500
  (`map.js:18-22`): they only shape the outbound query. Their result enters
  the model as the response's record sequence.
- The network request and JSON parsing (`map.js:24-26`): I/O. Their
  failures are the `FetchError` cases of `Driver.Response`.
- Fields of the geosearch records other than `pageid`, `lat`, `lon` and
  `title` (`dist`, `ns`, `primary`): the code never reads them.
- The constant `'type'` tags `'Feature'`, `'Point'` and `'FeatureCollection'`:
  they are implied by the datatypes `Feature` and `Point` and by the
  published collection.
- `console.log` and `setData` (`map.js:48-56`): side effects. Publishing is
  the `publish` flag of `Accumulator.Outcome`, and the published collection is
  the session's whole `features`.
- Map creation, controls, sources, layers, paint styles and cursor handlers
  (`map.js:2-12`, `map.js:59-143`): presentation on a third-party library.
- The click handler that opens the article (`map.js:169-172`) and the
  commented-out popup code with its longitude-wrapping loop
  (`map.js:145-167`): UI only, and the popup code is not live.
- Overlapping `fetchData` calls started by `load` and `moveend`
  (`map.js:175-176`): the mutation block after the last `await` runs without
  interruption. Each cycle is therefore atomic. `Driver.Run` covers every
  order in which the responses can complete.
- Deduplication within one response: the code does not do it (see above).
