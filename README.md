# Missile visualiser: verified model of the interaction core

This project models, in Dafny, the sequential logic of an interactive map viewer for a
static catalog of Indian missile systems. A user filters the catalog by type, selects a
record from the list, clicks the map to place a marker for it (drawn with a range circle),
removes markers one at a time or all at once. The model covers four pieces of that logic:

- **Colour and icon lookup** (`MissileUtils`, `missile_utils.dfy`): the ten-entry type-to-colour
  table with its grey default, and the launch-platform classifier. The classifier lower-cases the
  description and runs an ordered chain of keyword groups; the first group with a hit picks the
  icon. Icons are the enumeration `LaunchIcon`. The chain is proved equal to an ordered rule
  table (`PlatformRules` with `FirstMatch`), priority and fallback are proved about that
  table, and case-insensitivity about the classifier.
- **Session placement state** (`Placement`, `placement.dfy`): class `Session` holds the selection
  and the ordered marker list, with select, map-click placement, remove-by-id and clear-all.
  Marker identifiers come from a counter that every placement moves up by one, so no identifier is handed out twice in a session, and the class invariant keeps those present unique.
- **Filter and selection controller** (`Sidebar`, `sidebar.dfy`): the filtered list (`"All"` is the
  sentinel for "no filter") and the revalidation rule. The rule keeps the selection absent or
  matching, by name and type, a listed record. Class `Sidebar` holds the filter and the two view
  flags. It keeps that invariant across every handler. It changes the selection only through
  the session it was given.
- **Filter options** (`FilterComponent`, `filter_component.dfy`): the option list. It is built by a
  loop (`MissileTypes`) that adds each record's type to a set; the loop's invariant proves it
  equal to `DistinctTypes`, the types in the set's insertion order. The
  `"All"` sentinel is put in front, and the whole list is sorted.

`types.dfy` holds the records (`MissileData`, `MapElement`, `Position`). `map_render.dfy` states the
circle rule of the map view: a circle only for a positive range, with the radius in metres.
`scenario.dfy` is a client method that drives a session through the contracts. It selects
"Astra" from a two-record catalog and places it at (20, 78), which gives a 110000-metre blue
circle. It then filters to "SLBM", which clears the selection and empties the list.

Inputs from the environment become parameters. The small-viewport test (`window.innerWidth < 768`)
is the `smallViewport` argument. The catalog is a `seq<MissileData>` argument.

## Model

| member | source | states |
|---|---|---|
| MissileUtils.MissileTypeColor | India/project/src/utils/missileUtils.ts:16-18 | getMissileTypeColor: the result is always a hex colour: `#` followed by six hexadecimal digits; KnownTypeColors and DefaultColorIffUnknownType state which one |
| MissileUtils.KnownTypeColors | India/project/src/utils/missileUtils.ts:3-14 | each of the ten known types maps to its fixed colour string |
| MissileUtils.DefaultColorIffUnknownType | India/project/src/utils/missileUtils.ts:16-18 | the colour is `#cccccc` exactly when the type is not in the table |
| MissileUtils.KnownColorsDistinct | India/project/src/utils/missileUtils.ts:3-14 | two different known types never share a colour |
| MissileUtils.ToLower | India/project/src/utils/missileUtils.ts:43 | lower-casing keeps the length and lower-cases every character in place |
| MissileUtils.ToLowerIdempotent | India/project/src/utils/missileUtils.ts:43 | lower-casing an already lower-cased string changes nothing |
| MissileUtils.ChainIsRuleTable | India/project/src/utils/missileUtils.ts:45-73 | the keyword chain equals the ordered rule table evaluated first-match-wins |
| MissileUtils.AbsentOrEmptyIsDefault | India/project/src/utils/missileUtils.ts:42 | an absent or empty platform text gives the Default icon |
| MissileUtils.CaseInsensitive | India/project/src/utils/missileUtils.ts:43 | the icon of a text equals the icon of its lower-cased form |
| MissileUtils.IconIsFirstMatchingRule | India/project/src/utils/missileUtils.ts:45-71 | rule i decides the icon if and only if one of its keywords occurs and no keyword of a higher rule does |
| MissileUtils.DefaultIffNoKeyword | India/project/src/utils/missileUtils.ts:42-73 | the Default icon comes out if and only if the text is absent or contains no keyword of any rule |
| MissileUtils.IconForLaunchPlatform | India/project/src/utils/missileUtils.ts:41-73 | getIconForLaunchPlatform: the Vls icon is never returned, although it is defined; what is returned is stated by AbsentOrEmptyIsDefault, CaseInsensitive, ChainIsRuleTable, IconIsFirstMatchingRule and DefaultIffNoKeyword |
| MissileUtils.ClassifyLowered | India/project/src/utils/missileUtils.ts:45-73 | the keyword chain on lower-cased text never gives the Vls icon; ChainIsRuleTable proves it equal to first match over the rule table |
| MissileUtils.Contains | India/project/src/utils/missileUtils.ts:45-69 | `includes`: a text contains only keywords no longer than itself |
| MissileUtils.ContainsIffOccurs | India/project/src/utils/missileUtils.ts:45-69 | `includes` holds exactly when the keyword occurs at some offset of the text |
| MissileUtils.AircraftWinsInContext | India/project/src/utils/missileUtils.ts:45-50 | a text with an aircraft keyword is Aircraft whatever text surrounds it |
| MissileUtils.SubmarineBeforeLowerRules | India/project/src/utils/missileUtils.ts:52-54 | without an aircraft keyword, submarine or arihant gives Submarine even if ship, vls or launcher occur |
| MissileUtils.ShipBeforeLowerRules | India/project/src/utils/missileUtils.ts:56-58 | with no aircraft or submarine keyword, a ship keyword gives Ship even with launcher, shoulder or ground keywords (so "vls" with "launcher" is Ship) |
| MissileUtils.MobileLauncherBeforeLowerRules | India/project/src/utils/missileUtils.ts:60-63 | with no higher keyword, a mobile-launcher keyword gives MobileLauncher even beside "fixed" |
| MissileUtils.ShoulderBeforeGround | India/project/src/utils/missileUtils.ts:65-71 | with no higher keyword, shoulder or manpad gives Shoulder even beside ground keywords |
| MissileUtils.FirstMatchFromAt | India/project/src/utils/missileUtils.ts:45-73 | in any table with distinct icons, rule i wins exactly when it hits and no earlier rule hits |
| MissileUtils.FirstMatchFromDefault | India/project/src/utils/missileUtils.ts:45-73 | in any table without a default rule, the default comes out exactly when no rule hits |
| MissileUtils.AircraftKeywordGivesAircraft | India/project/src/utils/missileUtils.ts:45-50 | a text whose lower-cased form contains an aircraft keyword is Aircraft |
| Placement.Session.constructor | India/project/src/App.tsx:8-13 | initially no selection, no markers and the counter at zero |
| Placement.Session.SelectMissile | India/project/src/App.tsx:15-17 | the selection becomes the argument (possibly none); the markers are unchanged |
| Placement.Session.MapClick | India/project/src/App.tsx:19-30 | without a selection nothing changes; with selection R, the list grows by one, the old list is a prefix, the new last marker has the clicked position, data R and an id no old marker has; that id is the counter, which moves up by one, and without a selection the counter stays, so a removed id is never handed out again |
| Placement.Session.MarkerRemove | India/project/src/App.tsx:32-34 | the new list is the old one filtered by id, no marker has the id afterwards, an absent id changes nothing, the selection is unchanged |
| Placement.Session.ClearAllMarkers | India/project/src/App.tsx:36-38 | the marker list is empty and the selection is unchanged |
| Placement.RemoveById | India/project/src/App.tsx:33 | a marker survives removal exactly when it was there and carries another id |
| Placement.RemoveByIdConcat | India/project/src/App.tsx:33 | removal distributes over concatenation, so survivors keep their relative order |
| Placement.RemoveAbsentId | India/project/src/App.tsx:33 | removing an id that no marker carries returns the list unchanged |
| Placement.RemoveUniqueId | India/project/src/App.tsx:33 | with unique ids, removing marker k's id cuts out exactly marker k |
| Placement.RemoveHeadId | India/project/src/App.tsx:33 | with unique ids, removing the first marker's id drops exactly that marker |
| Placement.RemoveKeepsIds | India/project/src/App.tsx:24-33 | removal keeps the ids unique |
| FilterComponent.StrLeTotal | India/project/src/components/FilterComponent.tsx:21 | the string order used by the sort is total |
| FilterComponent.StrLeAntisymmetric | India/project/src/components/FilterComponent.tsx:21 | the string order is antisymmetric |
| FilterComponent.StrLeTransitive | India/project/src/components/FilterComponent.tsx:21 | the string order is transitive |
| FilterComponent.Sort | India/project/src/components/FilterComponent.tsx:21 | sorting returns a permutation of its input |
| FilterComponent.SortSorted | India/project/src/components/FilterComponent.tsx:21 | sorting returns an ascending list |
| FilterComponent.SortedUnique | India/project/src/components/FilterComponent.tsx:21 | two ascending lists with the same elements are equal |
| FilterComponent.DistinctTypes | India/project/src/components/FilterComponent.tsx:17-20 | the set built by the loop holds every catalog type exactly once |
| FilterComponent.MissileTypes | India/project/src/components/FilterComponent.tsx:16-22 | the loop over the catalog followed by the sort yields the option list `Options` |
| FilterComponent.Options | India/project/src/components/FilterComponent.tsx:16-21 | the option list contains "All" and has one entry more than there are distinct types |
| FilterComponent.OptionsSortedPermutation | India/project/src/components/FilterComponent.tsx:16-22 | the options are sorted and are exactly "All" plus each catalog type once |
| FilterComponent.OptionsContents | India/project/src/components/FilterComponent.tsx:17-21 | "All" is an option, every record's type is an option, every option is "All" or a catalog type, and there are as many options as distinct types plus one |
| FilterComponent.OptionsNoDuplicates | India/project/src/components/FilterComponent.tsx:17-21 | no type is offered twice; "All" appears twice only if a record has type "All"; with no such record all options differ |
| FilterComponent.OptionsDependOnTypeSet | India/project/src/components/FilterComponent.tsx:16-22 | catalogs with the same set of types give the same option list (reordering or repeating records does not matter) |
| FilterComponent.AllNotForcedFirst | India/project/src/components/FilterComponent.tsx:21 | with an "Air-to-Air" record the first option is not "All" |
| Sidebar.OfType | India/project/src/components/Sidebar.tsx:27 | a record is kept exactly when it is in the catalog and has the filter's type |
| Sidebar.FilteredMissiles | India/project/src/components/Sidebar.tsx:25-27 | the shown list is never longer than the catalog and holds only catalog records; FilteredContents states which |
| Sidebar.FilteredContents | India/project/src/components/Sidebar.tsx:25-27 | under "All" the list is the catalog; otherwise it holds exactly the records of that type |
| Sidebar.FilteredKeepsOrder | India/project/src/components/Sidebar.tsx:25-27 | filtering distributes over concatenation, so catalog order is kept |
| Sidebar.Revalidated | India/project/src/components/Sidebar.tsx:30-50 | after revalidation the selection is none or matches a listed record by name and type |
| Sidebar.InList | India/project/src/components/Sidebar.tsx:33-35 | the `.some(name and type)` test: a record that is itself in the list passes it, and no record passes it against an empty list |
| Types.SameEntry | India/project/src/components/Sidebar.tsx:34 | equal name and type: every record matches itself, and records with different names never match |
| Sidebar.RevalidateNone | India/project/src/components/Sidebar.tsx:32 | revalidation with no selection leaves none |
| Sidebar.RevalidateKeepsMatch | India/project/src/components/Sidebar.tsx:33-38 | a selection matching a listed record by name and type is kept unchanged |
| Sidebar.RevalidateReplacesMismatch | India/project/src/components/Sidebar.tsx:43-47 | an unmatched selection becomes the first listed record, or none for an empty list |
| Sidebar.RevalidateIdempotent | India/project/src/components/Sidebar.tsx:30-50 | a second run of the effect changes nothing, so the effect settles |
| Sidebar.RevalidateListedRecord | India/project/src/components/Sidebar.tsx:57-58 | a record picked from the shown list survives revalidation |
| Sidebar.Sidebar.constructor | India/project/src/components/Sidebar.tsx:21-23 | filter "All", instructions open, panel visible; the selection is revalidated against the catalog |
| Sidebar.Sidebar.Revalidate | India/project/src/components/Sidebar.tsx:30-50 | the session's selection becomes `Revalidated` of the old one against the shown list; markers unchanged |
| Sidebar.Sidebar.HandleFilterChange | India/project/src/components/Sidebar.tsx:52-54 | the filter becomes the argument, the flags stay, and the selection is revalidated against the new list, so it is none or matches a listed record |
| Sidebar.Sidebar.FilterSelectChanged | India/project/src/components/FilterComponent.tsx:35 | the chosen option's value reaches the filter unchanged |
| Sidebar.Sidebar.HandleMissileSelect | India/project/src/components/Sidebar.tsx:57-63 | the selection is set (and kept when picked from the list); the panel is hidden only on a small viewport, otherwise its visibility is unchanged |
| Sidebar.Sidebar.ToggleSidebar | India/project/src/components/Sidebar.tsx:69 | visibility flips; nothing else changes |
| Sidebar.Sidebar.CloseSidebar | India/project/src/components/Sidebar.tsx:93 | visibility becomes false; nothing else changes |
| Sidebar.Sidebar.ToggleInstructions | India/project/src/components/Sidebar.tsx:103 | the instructions flag flips; nothing else changes |
| Sidebar.Sidebar.ClearAllMarkersClicked | India/project/src/components/Sidebar.tsx:143-148 | the button empties the marker list and keeps the selection valid |
| MapRender.CircleFor | India/project/src/components/MapComponent.tsx:204-207 | a circle exists exactly for a positive range, centred on the marker with a positive radius |
| MapRender.CircleRadiusInMeters | India/project/src/components/MapComponent.tsx:204-210 | the radius is the range times 1000 and the colour is the type's table colour |
| MapRender.MarkerIcon | India/project/src/components/MapComponent.tsx:179-181 | a marker's icon is never the VLS icon, and it is the default pin exactly when the record's platform text is absent or holds no keyword of any rule |

## Left out

- Rendering, Leaflet and the DOM: `MapComponent.tsx` apart from the circle and icon rule, `MapLegend.tsx`, `MissileInfo.tsx` and `MissileList.tsx` are presentational or library-bound. The border GeoJSON fetch with catch-and-log and the touch handlers are I/O.
- `createImageIcon`, `L.divIcon`: foreign library objects; the icons are the values of `LaunchIcon`.
- Marker identifiers: the source builds a string from `Date.now()` and `Math.random()`, which is only probably unique. The model uses a counter that only moves up, so an identifier is never handed out twice in a session, even after its marker is removed.
- React scheduling: `useEffect` timing, re-renders and `useMemo` caching are not modelled. Revalidation runs as a step right after each filter change, each selection made through the panel, and on mount. Handlers read current state, not a stale closure.
- MissileUtils.ToLower: only ASCII `A`-`Z` are lower-cased. JavaScript's `toLowerCase` also maps non-ASCII letters, some onto ASCII (the Kelvin sign becomes `k`), so a few non-ASCII texts classify differently.
- MissileUtils.MissileTypeColor: the table is a plain map. A JavaScript object lookup also finds inherited keys such as `"constructor"`, which the model does not.
- FilterComponent.Sort: the order compares characters by code point. `Array.prototype.sort` compares UTF-16 code units, which differ only outside the Basic Multilingual Plane.
- The catalog data file `src/data/missilesData` is not part of this model; the catalog is an input sequence.
- The range is a JavaScript number, modelled as a `real`, so floating-point rounding of `range * 1000` is not modelled.
- The list highlights the selected row by name alone (`MissileList.tsx`, line 29), while revalidation matches on name and type. Only revalidation is modelled.
