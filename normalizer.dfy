/** The chain that turns the page's feed into the list it renders
    (`internallySortedData`): flatten the date buckets, reduce each
    object's approach list to one record, and order the objects by that
    record's time. Both pages run the same chain. */
module Normalizer {
  import opened Wrappers
  import opened NasaFeed
  import ObjectSpread
  import Sorting

  /** Dereferencing the approach record of an object that has none (an
      empty or absent `close_approach_data`) throws. */
  datatype NormalizeError = MissingApproachData

  /** `data?.near_earth_objects ?? {}`. */
  function NearEarthObjects(data: Option<Feed>): DateMap {
    if data.Some? then data.value.nearEarthObjects else []
  }

  // ---------------------------------------------------------------------
  // Flattening

  /** `reduce((a, c) => [...a, ...c], acc)` over the bucket lists, left to
      right. */
  function ReduceConcat(acc: seq<RawObject>, buckets: seq<seq<RawObject>>): (r: seq<RawObject>)
    ensures |r| == |acc| + TotalCount(buckets)
    ensures r[..|acc|] == acc
    decreases |buckets|
  {
    if buckets == [] then acc else ReduceConcat(acc + buckets[0], buckets[1..])
  }

  /** `Object.values(m).reduce((a, c) => [...a, ...c], [])`. */
  function Flatten(m: DateMap): (r: seq<RawObject>)
    ensures r == Concat(ObjectSpread.Values(m))
    ensures |r| == TotalCount(ObjectSpread.Values(m))
  {
    ReduceConcatIsConcat([], ObjectSpread.Values(m));
    ReduceConcat([], ObjectSpread.Values(m))
  }

  /** The concatenation of the buckets, defined on its own. */
  function Concat(buckets: seq<seq<RawObject>>): seq<RawObject> {
    if buckets == [] then [] else buckets[0] + Concat(buckets[1..])
  }

  function TotalCount(buckets: seq<seq<RawObject>>): nat {
    if buckets == [] then 0 else |buckets[0]| + TotalCount(buckets[1..])
  }

  lemma {:induction false} ReduceConcatIsConcat(acc: seq<RawObject>, buckets: seq<seq<RawObject>>)
    ensures ReduceConcat(acc, buckets) == acc + Concat(buckets)
    decreases |buckets|
  {
    if buckets != [] {
      ReduceConcatIsConcat(acc + buckets[0], buckets[1..]);
      assert acc + buckets[0] + Concat(buckets[1..]) == acc + (buckets[0] + Concat(buckets[1..]));
    }
  }

  lemma {:induction false} ConcatLength(buckets: seq<seq<RawObject>>)
    ensures |Concat(buckets)| == TotalCount(buckets)
  {
    if buckets != [] {
      ConcatLength(buckets[1..]);
    }
  }

  lemma {:induction false} ConcatAppend(b1: seq<seq<RawObject>>, b2: seq<seq<RawObject>>)
    ensures Concat(b1 + b2) == Concat(b1) + Concat(b2)
  {
    if b1 == [] {
      assert b1 + b2 == b2;
    } else {
      assert (b1 + b2)[1..] == b1[1..] + b2;
      ConcatAppend(b1[1..], b2);
      assert b1[0] + (Concat(b1[1..]) + Concat(b2)) == b1[0] + Concat(b1[1..]) + Concat(b2);
    }
  }

  /** Every copy in every bucket is kept: the multiset of the result is the
      sum of the buckets' multisets, so an object listed under two dates
      comes out twice. */
  lemma {:induction false} ConcatMultiset(buckets: seq<seq<RawObject>>, o: RawObject)
    ensures multiset(Concat(buckets))[o] == BucketCount(buckets, o)
  {
    if buckets != [] {
      ConcatMultiset(buckets[1..], o);
    }
  }

  /** How many times `o` is listed across all buckets. */
  function BucketCount(buckets: seq<seq<RawObject>>, o: RawObject): nat {
    if buckets == [] then 0 else multiset(buckets[0])[o] + BucketCount(buckets[1..], o)
  }

  /** Flattening keeps every copy: an object listed under several dates,
      or several times under one, occurs in the result as often as in all
      buckets together, so nothing is de-duplicated by id. */
  lemma FlattenSpec(m: DateMap, o: RawObject)
    ensures multiset(Flatten(m))[o] == BucketCount(ObjectSpread.Values(m), o)
  {
    ConcatMultiset(ObjectSpread.Values(m), o);
  }

  // ---------------------------------------------------------------------
  // Selecting the approach record

  /** `c` is a record of `approaches` whose time is not before any other. */
  predicate IsPrimary(c: CloseApproach, approaches: seq<CloseApproach>) {
    c in approaches && forall d :: d in approaches ==> d.epochDateCloseApproach <= c.epochDateCloseApproach
  }

  /** The latest approach time of a non-empty list, defined on its own. */
  function MaxEpoch(approaches: seq<CloseApproach>): int
    requires approaches != []
  {
    if |approaches| == 1 then approaches[0].epochDateCloseApproach
    else
      var rest := MaxEpoch(approaches[1..]);
      if approaches[0].epochDateCloseApproach < rest then rest else approaches[0].epochDateCloseApproach
  }

  lemma {:induction false} MaxEpochIsMaximum(approaches: seq<CloseApproach>)
    requires approaches != []
    ensures exists c :: c in approaches && c.epochDateCloseApproach == MaxEpoch(approaches)
    ensures forall d :: d in approaches ==> d.epochDateCloseApproach <= MaxEpoch(approaches)
  {
    if |approaches| == 1 {
      assert approaches[0] in approaches;
    } else {
      MaxEpochIsMaximum(approaches[1..]);
      assert approaches == [approaches[0]] + approaches[1..];
      if approaches[0].epochDateCloseApproach < MaxEpoch(approaches[1..]) {
        var c :| c in approaches[1..] && c.epochDateCloseApproach == MaxEpoch(approaches[1..]);
        assert c in approaches;
      } else {
        assert approaches[0] in approaches;
      }
    }
  }

  /** Whichever record the sort leaves first, its time is the list's
      latest; only records with equal times can compete. */
  lemma PrimaryHasMaxEpoch(c: CloseApproach, approaches: seq<CloseApproach>)
    requires IsPrimary(c, approaches)
    ensures c.epochDateCloseApproach == MaxEpoch(approaches)
  {
    MaxEpochIsMaximum(approaches);
  }

  /** Key under which the descending comparator `a < b ? 1 : -1` sorts
      in ascending order. */
  function LatestFirst(c: CloseApproach): int {
    -c.epochDateCloseApproach
  }

  /** `d.close_approach_data?.sort(latest first)[0]`: `None` where the
      page gets `undefined`, for an absent or an empty list. */
  method SelectPrimary(closeApproachData: Option<seq<CloseApproach>>) returns (r: Option<CloseApproach>)
    ensures r.None? <==> closeApproachData.None? || closeApproachData.value == []
    ensures r.Some? ==> IsPrimary(r.value, closeApproachData.value)
  {
    if closeApproachData.None? {
      return None;
    }
    var s := closeApproachData.value;
    var a := new CloseApproach[|s|](i requires 0 <= i < |s| => s[i]);
    assert a[..] == s;
    Sorting.SortBy(a, LatestFirst);
    if a.Length == 0 {
      return None;
    }
    assert a[0] in multiset(a[..]);
    forall d | d in s
      ensures d.epochDateCloseApproach <= a[0].epochDateCloseApproach
    {
      assert d in multiset(a[..]);
      var k :| 0 <= k < a.Length && a[k] == d;
      if k > 0 {
        assert LatestFirst(a[0]) <= LatestFirst(a[k]);
      }
    }
    r := Some(a[0]);
  }

  // ---------------------------------------------------------------------
  // The whole chain

  /** The `map` step: `{...d, close_approach_data: c}` keeps every other
      field of `d`. */
  function WithApproach(d: RawObject, c: CloseApproach): (n: NormalizedObject)
    ensures n.id == d.id && n.name == d.name
    ensures n.isPotentiallyHazardousAsteroid == d.isPotentiallyHazardousAsteroid
    ensures n.estimatedDiameter == d.estimatedDiameter
    ensures n.closeApproachData == c
  {
    NormalizedObject(d.id, d.name, d.isPotentiallyHazardousAsteroid, d.estimatedDiameter, c)
  }

  predicate HasApproach(d: RawObject) {
    d.closeApproachData.Some? && d.closeApproachData.value != []
  }

  /** `n` is what the `map` step can make of `d`: the fields other than the
      approach are `d`'s, and the approach is a primary record of `d`. */
  predicate NormalizedFrom(n: NormalizedObject, d: RawObject) {
    && n.id == d.id
    && n.name == d.name
    && n.isPotentiallyHazardousAsteroid == d.isPotentiallyHazardousAsteroid
    && n.estimatedDiameter == d.estimatedDiameter
    && d.closeApproachData.Some?
    && IsPrimary(n.closeApproachData, d.closeApproachData.value)
  }

  predicate SortedByEpoch(s: seq<NormalizedObject>) {
    Sorting.SortedBy(s, ApproachEpoch)
  }

  /** The `map` step over the flattened list: `None` exactly when some
      object has no approach record (the page then dereferences
      `undefined`); otherwise one entry per object, in order. */
  method MapPrimaries(flat: seq<RawObject>) returns (r: Option<seq<NormalizedObject>>)
    ensures r.None? <==> exists i :: 0 <= i < |flat| && !HasApproach(flat[i])
    ensures r.Some? ==>
      && |r.value| == |flat|
      && forall i :: 0 <= i < |flat| ==> NormalizedFrom(r.value[i], flat[i])
  {
    var built: seq<NormalizedObject> := [];
    var i := 0;
    while i < |flat|
      invariant 0 <= i <= |flat|
      invariant |built| == i
      invariant forall k :: 0 <= k < i ==> NormalizedFrom(built[k], flat[k])
    {
      var primary := SelectPrimary(flat[i].closeApproachData);
      if primary.None? {
        return None;
      }
      built := built + [WithApproach(flat[i], primary.value)];
      i := i + 1;
    }
    r := Some(built);
  }

  /** The list the page renders. It fails exactly when some flattened
      object has no approach record; otherwise it is the mapped list
      `mapped` (one entry per flattened object, in order) reordered to be
      non-decreasing in approach time. */
  method Normalize(data: Option<Feed>) returns (r: Result<seq<NormalizedObject>, NormalizeError>, ghost mapped: seq<NormalizedObject>)
    ensures var flat := Flatten(NearEarthObjects(data));
      r.Failure? <==> exists i :: 0 <= i < |flat| && !HasApproach(flat[i])
    ensures var flat := Flatten(NearEarthObjects(data));
      r.Success? ==>
        && |mapped| == |flat|
        && (forall i :: 0 <= i < |flat| ==> NormalizedFrom(mapped[i], flat[i]))
        && SortedByEpoch(r.value)
        && multiset(r.value) == multiset(mapped)
  {
    var flat := Flatten(NearEarthObjects(data));
    var built := MapPrimaries(flat);
    if built.None? {
      return Failure(MissingApproachData), [];
    }
    var objs := built.value;
    mapped := objs;
    var a := new NormalizedObject[|objs|](k requires 0 <= k < |objs| => objs[k]);
    assert a[..] == objs;
    Sorting.SortBy(a, ApproachEpoch);
    r := Success(a[..]);
  }
}
