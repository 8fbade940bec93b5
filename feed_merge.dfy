/** `getStaticProps` of both pages, without its two fetches: today's feed
    and the feed its `links.next` points to are combined into one, and the
    page is dropped unless both responses had status 200. */
module FeedMerge {
  import opened NasaFeed
  import ObjectSpread
  import Normalizer

  const HTTP_OK := 200
  const REVALIDATE_SECONDS := 3600

  /** What `getStaticProps` returns: `{ notFound: true }` or
      `{ props: { data }, revalidate: 3600 }`. */
  datatype StaticProps = NotFound | Props(data: Feed, revalidate: nat)

  /** The object literal that combines the two feeds: the first feed's
      links, the sum of the counts, and `{...first, ...second}` of the date
      buckets. The buckets form the right-biased union of the two maps: a
      date present in both keeps its first-feed position but the second
      feed's objects. */
  function MergeFeeds(data1: Feed, data2: Feed): (d: Feed)
    requires ValidFeed(data1) && ValidFeed(data2)
    ensures d.links == data1.links
    ensures d.elementCount == data1.elementCount + data2.elementCount
    ensures ValidFeed(d)
    ensures ObjectSpread.ToMap(d.nearEarthObjects)
         == ObjectSpread.ToMap(data1.nearEarthObjects) + ObjectSpread.ToMap(data2.nearEarthObjects)
    ensures ObjectSpread.Keys(d.nearEarthObjects)
         == ObjectSpread.Keys(data1.nearEarthObjects)
          + ObjectSpread.Missing(ObjectSpread.Keys(data2.nearEarthObjects), ObjectSpread.Keys(data1.nearEarthObjects))
  {
    Feed(data1.links, data1.elementCount + data2.elementCount,
         ObjectSpread.Spread(data1.nearEarthObjects, data2.nearEarthObjects))
  }

  /** The status test after both fetches: `notFound` exactly when either
      response status is not 200, otherwise the merged feed, regenerated
      after an hour. Both feeds are taken as already parsed. */
  function GetStaticProps(data1: Feed, status1: int, data2: Feed, status2: int): (r: StaticProps)
    requires ValidFeed(data1) && ValidFeed(data2)
    ensures r.NotFound? <==> status1 != HTTP_OK || status2 != HTTP_OK
    ensures r.Props? ==> r.data == MergeFeeds(data1, data2) && r.revalidate == REVALIDATE_SECONDS
  {
    var data := MergeFeeds(data1, data2);
    if status1 != HTTP_OK || status2 != HTTP_OK then NotFound
    else Props(data, REVALIDATE_SECONDS)
  }

  lemma ValuesAppend(a: DateMap, b: DateMap)
    ensures ObjectSpread.Values(a + b) == ObjectSpread.Values(a) + ObjectSpread.Values(b)
  {
  }

  /** An element count agrees with a feed when it is the number of objects
      listed under all of its dates. */
  predicate CountMatches(f: Feed) {
    f.elementCount == |Normalizer.Flatten(f.nearEarthObjects)|
  }

  /** When the two feeds cover different dates (as today's feed and the
      next one do), the merged feed lists the first feed's objects followed
      by the second's, and the summed count is the merged feed's own count.
      A shared date would be counted twice but listed once. */
  lemma MergeDisjointFeeds(data1: Feed, data2: Feed)
    requires ValidFeed(data1) && ValidFeed(data2)
    requires forall k :: k in ObjectSpread.Keys(data2.nearEarthObjects) ==> k !in ObjectSpread.Keys(data1.nearEarthObjects)
    ensures Normalizer.Flatten(MergeFeeds(data1, data2).nearEarthObjects)
         == Normalizer.Flatten(data1.nearEarthObjects) + Normalizer.Flatten(data2.nearEarthObjects)
    ensures CountMatches(data1) && CountMatches(data2) ==> CountMatches(MergeFeeds(data1, data2))
  {
    var a, b := data1.nearEarthObjects, data2.nearEarthObjects;
    ObjectSpread.SpreadCopy(a);
    ObjectSpread.SpreadIntoFresh(a, b);
    ValuesAppend(a, b);
    Normalizer.ReduceConcatIsConcat([], ObjectSpread.Values(a + b));
    Normalizer.ReduceConcatIsConcat([], ObjectSpread.Values(a));
    Normalizer.ReduceConcatIsConcat([], ObjectSpread.Values(b));
    Normalizer.ConcatAppend(ObjectSpread.Values(a), ObjectSpread.Values(b));
  }
}
