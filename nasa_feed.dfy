/** The shapes of the near-Earth-object feed that the two pages read.
    Only the fields the pages use are kept. */
module NasaFeed {
  import opened Wrappers
  import ObjectSpread

  /** One recorded pass of an object near Earth. `epochDateCloseApproach`
      is a Unix time in milliseconds; the lunar miss distance is kept as the
      feed's string and is only formatted for display. */
  datatype CloseApproach = CloseApproach(epochDateCloseApproach: int, missDistanceLunar: string)

  /** `estimated_diameter.kilometers`; copied through unchanged. */
  datatype Diameter = Diameter(estimatedDiameterMin: real, estimatedDiameterMax: real)

  /** An object as the feed delivers it. `closeApproachData` is optional
      because the pages read it through `?.`. */
  datatype RawObject = RawObject(
    id: string,
    name: string,
    isPotentiallyHazardousAsteroid: bool,
    estimatedDiameter: Diameter,
    closeApproachData: Option<seq<CloseApproach>>)

  /** An object after the pages' `map`: the same fields, with the approach
      list replaced by the one record it was reduced to. */
  datatype NormalizedObject = NormalizedObject(
    id: string,
    name: string,
    isPotentiallyHazardousAsteroid: bool,
    estimatedDiameter: Diameter,
    closeApproachData: CloseApproach)

  datatype Links = Links(next: string, prev: Option<string>, self: string)

  /** `near_earth_objects`: a JavaScript object keyed by calendar date, in
      key insertion order. */
  type DateMap = ObjectSpread.Obj<seq<RawObject>>

  /** One daily feed document. */
  datatype Feed = Feed(links: Links, elementCount: int, nearEarthObjects: DateMap)

  /** A feed as a JavaScript object can be: no date key appears twice. */
  predicate ValidFeed(f: Feed) {
    ObjectSpread.DistinctKeys(f.nearEarthObjects)
  }

  function ApproachEpoch(n: NormalizedObject): int {
    n.closeApproachData.epochDateCloseApproach
  }
}
