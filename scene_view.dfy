/** The 3D page: one asteroid sphere per rendered object. Position and
    spin are random in the page and are not part of this model. */
module SceneView {
  import opened NasaFeed

  const ASTEROID_SCALE: real := 0.1
  const ASTEROID_MAP := "assets/asteroidMap.jpg"

  /** The `Sphere` element an object contributes: its list index as React
      key, the fixed scale and the asteroid texture. */
  datatype AsteroidSphere = AsteroidSphere(key: nat, scale: real, texture: string)

  /** `internallySortedData.map((d, i) => <Sphere key={i} ... />)`, for the
      objects from index `first` on. */
  function SpheresFrom(objs: seq<NormalizedObject>, first: nat): (spheres: seq<AsteroidSphere>)
    ensures |spheres| == |objs|
    ensures forall i :: 0 <= i < |objs| ==> spheres[i] == AsteroidSphere(first + i, ASTEROID_SCALE, ASTEROID_MAP)
  {
    if objs == [] then []
    else [AsteroidSphere(first, ASTEROID_SCALE, ASTEROID_MAP)] + SpheresFrom(objs[1..], first + 1)
  }

  /** Exactly one sphere per object, each keyed by its own index. */
  function AsteroidSpheres(objs: seq<NormalizedObject>): (spheres: seq<AsteroidSphere>)
    ensures |spheres| == |objs|
    ensures forall i :: 0 <= i < |objs| ==> spheres[i].key == i
  {
    SpheresFrom(objs, 0)
  }
}
