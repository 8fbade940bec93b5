# neo-tracker: the near-Earth-object feed pipeline

neo-tracker is a small Next.js front end. It shows today's and tomorrow's
near-Earth objects from NASA's NeoWs feed as a card list (`pages/index.tsx`)
and as a 3D scene (`pages/three.tsx`). Both pages run the same data logic,
and this project models that logic in Dafny:

- **Feed merge** (`getStaticProps`). Two daily feeds become one. The links
  come from the first feed. `element_count` is the sum of the two counts.
  The date buckets are `{...first, ...second}`. Once both responses have
  been parsed, the page gets `notFound` if either HTTP status is not 200.
- **Normalizer** (`internallySortedData`). The date buckets are flattened
  with a `reduce` concatenation. Each object's `close_approach_data` is
  sorted latest first and reduced to its first record. The objects are
  then sorted by that record's time, soonest first.
- **Expired flags** (card page). An object is marked as passed when its
  approach time is strictly before the current time.
- **Asteroid spheres** (3D page). One sphere is emitted per normalized object.

Modules:

| module | file | models |
|---|---|---|
| `Wrappers` | wrappers.dfy | `Option` and `Result`, used for `?.`/`??` and for run-time failures |
| `NasaFeed` | nasa_feed.dfy | the feed records the pages read |
| `ObjectSpread` | object_spread.dfy | JavaScript objects with non-index string keys: insertion-ordered keys, `Object.values`, property set, `{...a, ...b}` |
| `Sorting` | sorting.dfy | `Array.prototype.sort` with the pages' comparators, as an in-place sort of an `array` |
| `Normalizer` | normalizer.dfy | flatten, per-object selection, and the whole chain |
| `FeedMerge` | feed_merge.dfy | `getStaticProps` without its fetches |
| `CardView` | card_view.dfy | the `expired` flags |
| `SceneView` | scene_view.dfy | the per-object asteroid spheres |

Some modelling decisions:

- **Key order.** A JavaScript object keeps its keys in insertion order, and
  `Object.values` follows that order. So `near_earth_objects` is modelled as
  an ordered list of entries (`ObjectSpread.Obj`). Its map view
  (`ObjectSpread.ToMap`) is proved to be the right-biased union `m1 + m2`
  after a spread.
- **One sort for both calls.** The two `.sort` calls share one in-place
  method, `Sorting.SortBy`, which takes an integer key. The sort by
  descending time uses the negated time as its key.
- **Unpinned ties.** Neither comparator ever returns 0, not even for equal
  epochs. Such a comparator is not consistent, and the language then leaves
  the whole sort order implementation-defined. The model follows what
  engines do: elements with different keys end up in key order, and equal
  epochs may come out either way. The contracts therefore require only
  "ordered by key, same multiset". Which record is "first" among approaches
  with equal times is also left open (`Normalizer.IsPrimary`). Its time is
  always the maximum (`Normalizer.PrimaryHasMaxEpoch`).
- **Missing approach data.** An object whose approach list is absent or
  empty makes the page dereference `undefined`, which throws. The model
  returns `Failure(MissingApproachData)` in that case.
- **Current time.** `now` is a parameter, read once for the whole list.
- **Strict expiry.** `isBefore` is strict, so an approach at exactly `now`
  is not marked as passed.

## Model

| member | source | states |
|---|---|---|
| `ObjectSpread.Values` | pages/index.tsx:9 | `Object.values` lists one value per key, in key order |
| `ObjectSpread.PutKeys` | pages/index.tsx:104-107 | setting a property keeps existing keys in place and appends a new key at the end |
| `ObjectSpread.PutDistinct` | pages/index.tsx:104-107 | setting a property never creates a duplicate key |
| `ObjectSpread.PutMap` | pages/index.tsx:104-107 | on an object, setting key k to v is the map update `m[k := v]` |
| `ObjectSpread.PutAppends` | pages/index.tsx:104-107 | setting a key the object lacks appends that entry |
| `ObjectSpread.SpreadIntoDistinct` | pages/three.tsx:128-131 | spreading into an object keeps its keys distinct |
| `ObjectSpread.SpreadIntoMap` | pages/three.tsx:128-131 | spreading source into target gives the right-biased union: the source wins on a shared key |
| `ObjectSpread.SpreadIntoKeys` | pages/three.tsx:128-131 | after a spread, the target's keys stay in order, followed by the source's new keys in source order |
| `ObjectSpread.SpreadIntoFresh` | pages/three.tsx:128-131 | spreading a source whose keys are all new is concatenation |
| `ObjectSpread.SpreadCopy` | pages/index.tsx:105 | `{...a}` reproduces `a` entry for entry |
| `Normalizer.NearEarthObjects` | pages/index.tsx:9 | `data?.near_earth_objects ?? {}`: no feed gives an empty object; specified through `Normalizer.Normalize` |
| `Normalizer.ReduceConcat` | pages/index.tsx:10 | the `reduce` keeps the accumulator as a prefix and grows it by all bucket lengths; equal to plain concatenation by `Normalizer.ReduceConcatIsConcat` |
| `Normalizer.Flatten` | pages/index.tsx:9-10 | flattening is the concatenation of `Object.values` in key order and has the summed length; every copy is kept by `Normalizer.FlattenSpec` |
| `Normalizer.LatestFirst` | pages/index.tsx:13-14 | the sort key for which the comparator `a < b ? 1 : -1` sorts ascending, so the latest approach comes first; specified through `Normalizer.SelectPrimary` |
| `Normalizer.WithApproach` | pages/index.tsx:11-12 | the spread `{...d, close_approach_data: c}` copies id, name, hazard flag and diameter and replaces only the approach |
| `ObjectSpread.Put` | pages/index.tsx:104-107 | setting one property; specified by `ObjectSpread.PutKeys`, `ObjectSpread.PutMap` and `ObjectSpread.PutAppends` |
| `ObjectSpread.SpreadInto` | pages/index.tsx:104-107 | setting a source's properties in order; specified by `ObjectSpread.SpreadIntoMap`, `ObjectSpread.SpreadIntoKeys` and `ObjectSpread.SpreadIntoFresh` |
| `ObjectSpread.Spread` | pages/index.tsx:104-107 | `{...a, ...b}` has distinct keys, is the right-biased union of `a` and `b`, and lists `a`'s keys then `b`'s new keys in order |
| `CardView.IsBefore` | pages/index.tsx:36 | date-fns `isBefore`: strictly earlier; specified through `CardView.ExpiredFlags` |
| `NasaFeed.ApproachEpoch` | pages/index.tsx:17-22 | the key of the outer comparator, `a.close_approach_data.epoch_date_close_approach`; specified through `Normalizer.Normalize`, whose result is non-decreasing in it |
| `Sorting.SortBy` | pages/index.tsx:17-22 | the in-place sort leaves the array non-decreasing by key and a permutation (same multiset) of its old contents |
| `Normalizer.ReduceConcatIsConcat` | pages/index.tsx:9-10 | the left `reduce` with spread equals the accumulator followed by the plain concatenation of the buckets |
| `Normalizer.ConcatLength` | pages/three.tsx:42-43 | the concatenation has as many elements as all buckets together |
| `Normalizer.ConcatAppend` | pages/three.tsx:42-43 | concatenating two runs of buckets concatenates their flattenings |
| `Normalizer.ConcatMultiset` | pages/index.tsx:9-10 | each object occurs in the concatenation as often as in all buckets together, so nothing is de-duplicated |
| `Normalizer.FlattenSpec` | pages/three.tsx:42-43 | every object occurs in the flattening as often as in all date buckets together, so nothing is de-duplicated by id |
| `Normalizer.MaxEpochIsMaximum` | pages/three.tsx:46-48 | the reference maximum is the time of some approach and no approach is later |
| `Normalizer.PrimaryHasMaxEpoch` | pages/three.tsx:46-48 | any record the latest-first sort can leave in front has the list's maximum time |
| `Normalizer.SelectPrimary` | pages/index.tsx:13-15 | `undefined` exactly when the list is absent or empty; otherwise a member of the list that no record's time exceeds |
| `Normalizer.MapPrimaries` | pages/index.tsx:11-16 | the `map` step yields nothing exactly when some object lacks an approach record; otherwise one entry per object in order, with that object's id, name, hazard flag and diameter and a latest approach record |
| `Normalizer.Normalize` | pages/index.tsx:9-22 | fails exactly when some flattened object lacks an approach record; otherwise, with `mapped` holding one entry per flattened object in order (same id, name, hazard flag and diameter, and a latest approach record), the result is non-decreasing in approach time and a permutation of `mapped` |
| `FeedMerge.MergeFeeds` | pages/index.tsx:101-108 | the merged feed has the first feed's links and the summed count; its buckets have distinct dates, form the right-biased union of both feeds' buckets, and have the first feed's dates in order then the second feed's new dates |
| `FeedMerge.GetStaticProps` | pages/three.tsx:125-134 | `notFound` exactly when either status is not 200; otherwise props with the merged feed and a 3600-second revalidation |
| `FeedMerge.MergeDisjointFeeds` | pages/index.tsx:101-108 | for feeds with no shared date, the merged feed flattens to the first feed's objects followed by the second's, and the summed count matches the merged contents when each count matched its own feed |
| `CardView.ExpiredFlags` | pages/index.tsx:35-37 | one flag per object; flag i holds exactly when object i's approach time is strictly before `now` |
| `CardView.ExpiredFormPrefix` | pages/index.tsx:35-37 | on a list ordered by approach time, the passed (shaded) cards are exactly the first `ExpiredCount` ones |
| `CardView.ZeroExpiredAfterLaterStart` | pages/index.tsx:35-37 | if no object comes before a time that is not before `now`, no object has passed |
| `SceneView.SpheresFrom` | pages/three.tsx:99-111 | one sphere per object, keyed by its index and carrying the asteroid scale and texture |
| `SceneView.AsteroidSpheres` | pages/three.tsx:99-111 | exactly one asteroid sphere per normalized object, the i-th keyed by i |

## Left out

- The HTTP layer is not modelled. This covers both `fetch` calls, `res.json()`, the API key in `process.env`, and following `links.next`. `FeedMerge.GetStaticProps` takes both feeds and both statuses as parameters.
- Next.js plumbing, such as what `notFound` and `revalidate` do, is not modelled. Only the returned value is.
- React state and timing (`useState`, `useEffect`, the one-second `setTimeout`) are not modelled. Before the timer fires, the page's `expired` list is empty. The model gives only the list the timer sets.
- The relative-time strings from `formatDistanceToNow` are not modelled. They come from a date library and read the wall clock.
- Display formatting is not modelled. `toLocaleString` of the diameter and lunar distance uses floating point and locale rules.
- Rendering is not modelled. This covers the `Sphere` component, textures, lights, `Canvas`, and the per-frame `useFrame` rotation, which is float arithmetic.
- Random values are not modelled. This covers the random sphere positions and spin, and the 500 random stars. The fixed Sun, Earth and Moon spheres are also left out.
- Only the feed fields the pages read are modelled. Other fields of a feed object are left out, for example `neo_reference_id`, `absolute_magnitude_h` and the other miss-distance units.
- Times and counts are JavaScript doubles in the source. The model treats them as unbounded integers, which is exact for millisecond times below 2^53.
- Sorting.SortBy: its contract leaves the order of equal keys open, because the source's comparators never return 0. The insertion procedure in the model is one admissible order, not necessarily the engine's.
- Normalizer.SelectPrimary: the source sorts each object's own `close_approach_data` array in place, so the fetched feed itself is reordered. The model sorts a copy and does not model that side effect.
- Normalizer.Normalize: the model fails whenever an object lacks approach data. On the 3D page, a list with exactly one such object does not throw, because the sort never calls its comparator for a single element and the page never dereferences the record otherwise. The model still reports the failure.
- FeedMerge.GetStaticProps: the source parses the first response and fetches `links.next` before it tests either status. So a failed first response whose body is not JSON, or has no `links`, throws instead of returning `notFound`. The model takes two parsed feeds whatever the status, so it returns `notFound` for every failing status. In the source, `notFound` is reached only when the first body parses to a feed with `links` and the second body, failing or not, parses as JSON.
- CardView.ExpiredFlags: the source reads the clock once per object (`new Date()` inside the `map`). The model uses one reading `now` for the whole list. `CardView.ExpiredFormPrefix` relies on that single reading. With later readings for later objects, an earlier card can be unshaded while a later card with the same time is shaded.
