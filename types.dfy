/** The records the viewer works with (India/project/src/types/types.ts). */
module Types {

  /** An optional value: the optional fields of a record, and "no selection". */
  datatype Option<T> = None | Some(value: T)

  /** One catalog entry (MissileData). `type` is a keyword in Dafny, hence `missileType`;
      the numeric range (kilometres) is a JavaScript number, modelled as a real. */
  datatype MissileData = MissileData(
    name: string,
    missileType: string,
    range: real,
    warhead: Option<string>,
    propulsion: Option<string>,
    guidance: Option<string>,
    launchPlatforms: Option<string>,
    users: Option<string>,
    developedBy: Option<string>,
    notes: Option<string>)

  /** A clicked map position: latitude and longitude. */
  datatype Position = Position(lat: real, lng: real)

  /** A placed marker (MapElement): an identifier, where it was placed, and a copy of the
      record that was selected at the time. The identifier is a number drawn from a counter. */
  datatype MapElement = MapElement(id: nat, position: Position, missileData: MissileData)

  /** The two records are the same catalog entry: equal name and equal type. A record is
      always the same entry as itself, and records differing in name are never the same entry. */
  predicate SameEntry(a: MissileData, b: MissileData)
    ensures a == b ==> SameEntry(a, b)
    ensures a.name != b.name ==> !SameEntry(a, b)
  {
    a.name == b.name && a.missileType == b.missileType
  }
}
