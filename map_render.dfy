/** The one drawing rule of the map view that is more than a library call
    (India/project/src/components/MapComponent.tsx): which circle goes with a placed
    marker, and which icon the marker gets. */
module MapRender {
  import opened Types
  import MissileUtils

  /** A range circle: its centre, its radius in metres and its colour. */
  datatype RangeCircle = RangeCircle(center: Position, radiusMeters: real, color: string)

  /** A circle is drawn only for a positive range; it is centred on the marker, and its
      radius is the range (kilometres) in metres. */
  function CircleFor(element: MapElement): (c: Option<RangeCircle>)
    ensures c.Some? <==> element.missileData.range > 0.0
    ensures c.Some? ==> c.value.center == element.position && c.value.radiusMeters > 0.0
  {
    if element.missileData.range > 0.0 then
      Some(RangeCircle(element.position, element.missileData.range * 1000.0,
                       MissileUtils.MissileTypeColor(element.missileData.missileType)))
    else None
  }

  /** The marker's icon comes from the copied record's launch-platform text: never the
      unused VLS icon, and the default pin exactly when that text is absent or names no
      platform keyword. */
  function MarkerIcon(element: MapElement): (icon: MissileUtils.LaunchIcon)
    ensures icon != MissileUtils.Vls
    ensures icon == MissileUtils.Default <==>
              element.missileData.launchPlatforms == None ||
              forall j :: 0 <= j < |MissileUtils.PlatformRules| ==>
                !MissileUtils.ContainsAny(MissileUtils.ToLower(element.missileData.launchPlatforms.value),
                                          MissileUtils.PlatformRules[j].keywords)
  {
    MissileUtils.DefaultIffNoKeyword(element.missileData.launchPlatforms);
    MissileUtils.IconForLaunchPlatform(element.missileData.launchPlatforms)
  }

  /** A record's range of `k` kilometres gives a circle of `k * 1000` metres in its type's colour. */
  lemma CircleRadiusInMeters(element: MapElement)
    requires element.missileData.range > 0.0
    ensures CircleFor(element).Some?
    ensures CircleFor(element).value.radiusMeters == element.missileData.range * 1000.0
    ensures CircleFor(element).value.color == MissileUtils.MissileTypeColor(element.missileData.missileType)
  {
  }
}
