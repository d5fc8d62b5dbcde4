/** The list panel (India/project/src/components/Sidebar.tsx): the type filter, the list
    it derives from the catalog, the rule that keeps the selection inside that list,
    and the panel's two view flags. The selection itself lives in the session
    (Placement.Session); the panel changes it through the session's SelectMissile,
    which is the onMissileSelect it is handed. */
module Sidebar {
  import opened Types
  import Placement
  import FilterComponent

  // ---------------------------------------------------------------------------
  // The filtered list
  // ---------------------------------------------------------------------------

  /** `missiles.filter(missile => missile.type === t)`. */
  function OfType(missiles: seq<MissileData>, t: string): (r: seq<MissileData>)
    ensures |r| <= |missiles|
    ensures forall m :: m in r <==> m in missiles && m.missileType == t
  {
    if missiles == [] then []
    else if missiles[0].missileType == t then [missiles[0]] + OfType(missiles[1..], t)
    else OfType(missiles[1..], t)
  }

  /** Filtering works piecewise, so the kept records stay in catalog order. */
  lemma {:induction false} OfTypeConcat(a: seq<MissileData>, b: seq<MissileData>, t: string)
    ensures OfType(a + b, t) == OfType(a, t) + OfType(b, t)
  {
    if a == [] {
      assert a + b == b;
    } else {
      assert (a + b)[0] == a[0];
      assert (a + b)[1..] == a[1..] + b;
      OfTypeConcat(a[1..], b, t);
    }
  }

  /** The list the panel shows for filter `filterType`: never more than the catalog, and
      only catalog records. */
  function FilteredMissiles(missiles: seq<MissileData>, filterType: string): (r: seq<MissileData>)
    ensures |r| <= |missiles|
    ensures forall m :: m in r ==> m in missiles
  {
    if filterType == FilterComponent.AllTypes then missiles else OfType(missiles, filterType)
  }

  /** Under "All" the panel shows the whole catalog; under any other value exactly the
      records of that type. */
  lemma FilteredContents(missiles: seq<MissileData>, filterType: string)
    ensures filterType == FilterComponent.AllTypes ==> FilteredMissiles(missiles, filterType) == missiles
    ensures filterType != FilterComponent.AllTypes ==>
              forall m :: m in FilteredMissiles(missiles, filterType) <==> m in missiles && m.missileType == filterType
  {
  }

  /** Filtering keeps catalog order: filtering a catalog split in two is filtering each part. */
  lemma FilteredKeepsOrder(a: seq<MissileData>, b: seq<MissileData>, filterType: string)
    ensures FilteredMissiles(a + b, filterType) == FilteredMissiles(a, filterType) + FilteredMissiles(b, filterType)
  {
    if filterType != FilterComponent.AllTypes {
      OfTypeConcat(a, b, filterType);
    }
  }

  // ---------------------------------------------------------------------------
  // Revalidation of the selection
  // ---------------------------------------------------------------------------

  /** Some record of `list` has the same name and type as `selected`: every listed
      record is in the list, and only a non-empty list has any. */
  predicate InList(selected: MissileData, list: seq<MissileData>)
    ensures selected in list ==> InList(selected, list)
    ensures InList(selected, list) ==> |list| > 0
  {
    exists m :: m in list && SameEntry(m, selected)
  }

  /** The selection the effect leaves: none stays none, a selection matching a listed
      record stays as it is, any other becomes the first listed record, or none for an
      empty list. */
  function Revalidated(selected: Option<MissileData>, filtered: seq<MissileData>): (r: Option<MissileData>)
    ensures r.None? || InList(r.value, filtered)
  {
    match selected
    case None => None
    case Some(s) =>
      if InList(s, filtered) then selected
      else if |filtered| > 0 then
        assert filtered[0] in filtered && SameEntry(filtered[0], filtered[0]);
        Some(filtered[0])
      else None
  }

  /** Revalidation does nothing without a selection. */
  lemma RevalidateNone(filtered: seq<MissileData>)
    ensures Revalidated(None, filtered) == None
  {
  }

  /** A selection matching a listed record by name and type is kept as it is. */
  lemma RevalidateKeepsMatch(selected: MissileData, filtered: seq<MissileData>)
    requires InList(selected, filtered)
    ensures Revalidated(Some(selected), filtered) == Some(selected)
  {
  }

  /** A selection matching no listed record moves to the first record, or to none. */
  lemma RevalidateReplacesMismatch(selected: MissileData, filtered: seq<MissileData>)
    requires !InList(selected, filtered)
    ensures Revalidated(Some(selected), filtered) == if filtered == [] then None else Some(filtered[0])
  {
  }

  /** A second run of the effect changes nothing more: the state it leaves is stable. */
  lemma RevalidateIdempotent(selected: Option<MissileData>, filtered: seq<MissileData>)
    ensures Revalidated(Revalidated(selected, filtered), filtered) == Revalidated(selected, filtered)
  {
  }

  /** Picking a record from the shown list survives revalidation. */
  lemma RevalidateListedRecord(m: MissileData, filtered: seq<MissileData>)
    requires m in filtered
    ensures Revalidated(Some(m), filtered) == Some(m)
  {
  }

  // ---------------------------------------------------------------------------
  // The panel
  // ---------------------------------------------------------------------------

  class Sidebar {
    /** The catalog, and the session whose selection the panel reads and sets. */
    const missiles: seq<MissileData>
    const session: Placement.Session
    var filterType: string
    var isInstructionsOpen: bool
    var isSidebarVisible: bool

    /** The list currently shown. */
    function Filtered(): (r: seq<MissileData>)
      reads this
    {
      FilteredMissiles(missiles, filterType)
    }

    /** The session is consistent and the selection, if any, matches a shown record. */
    ghost predicate Valid()
      reads this, session
    {
      session.Valid() &&
      (session.selectedMissile.None? || InList(session.selectedMissile.value, Filtered()))
    }

    /** Mounting: filter "All", instructions open, panel visible; the effect's first run
        revalidates the selection against the whole catalog. */
    constructor (missiles: seq<MissileData>, session: Placement.Session)
      requires session.Valid()
      modifies session
      ensures this.missiles == missiles && this.session == session
      ensures filterType == FilterComponent.AllTypes && isInstructionsOpen && isSidebarVisible
      ensures Valid()
      ensures session.selectedMissile == Revalidated(old(session.selectedMissile), missiles)
      ensures session.activeMapElements == old(session.activeMapElements)
      ensures session.nextId == old(session.nextId)
    {
      this.missiles := missiles;
      this.session := session;
      filterType := FilterComponent.AllTypes;
      isInstructionsOpen := true;
      isSidebarVisible := true;
      new;
      Revalidate();
    }

    /** The effect: replace a selection that the shown list does not contain. */
    method Revalidate()
      requires session.Valid()
      modifies session
      ensures Valid()
      ensures session.selectedMissile == Revalidated(old(session.selectedMissile), Filtered())
      ensures session.activeMapElements == old(session.activeMapElements)
      ensures session.nextId == old(session.nextId)
    {
      var filtered := Filtered();
      match session.selectedMissile
      case None =>
      case Some(selected) =>
        if !InList(selected, filtered) {
          if |filtered| > 0 {
            session.SelectMissile(Some(filtered[0]));
            assert SameEntry(filtered[0], filtered[0]);
          } else {
            session.SelectMissile(None);
          }
        }
    }

    /** handleFilterChange: set the filter; the effect then revalidates the selection. */
    method HandleFilterChange(t: string)
      requires Valid()
      modifies this, session
      ensures Valid()
      ensures filterType == t
      ensures isInstructionsOpen == old(isInstructionsOpen) && isSidebarVisible == old(isSidebarVisible)
      ensures session.selectedMissile == Revalidated(old(session.selectedMissile), FilteredMissiles(missiles, t))
      ensures session.activeMapElements == old(session.activeMapElements)
      ensures session.nextId == old(session.nextId)
    {
      filterType := t;
      Revalidate();
    }

    /** The filter select's onChange: its chosen value goes to handleFilterChange unchanged. */
    method FilterSelectChanged(value: string)
      requires Valid()
      modifies this, session
      ensures Valid()
      ensures filterType == value
      ensures isInstructionsOpen == old(isInstructionsOpen) && isSidebarVisible == old(isSidebarVisible)
      ensures session.selectedMissile == Revalidated(old(session.selectedMissile), FilteredMissiles(missiles, value))
      ensures session.activeMapElements == old(session.activeMapElements)
      ensures session.nextId == old(session.nextId)
    {
      HandleFilterChange(value);
    }

    /** handleMissileSelect: pass the record to the session; on a small viewport also hide
        the panel. The effect then revalidates, which keeps a record picked from the list. */
    method HandleMissileSelect(missile: Option<MissileData>, smallViewport: bool)
      requires Valid()
      modifies this`isSidebarVisible, session
      ensures Valid()
      ensures isSidebarVisible == (if smallViewport then false else old(isSidebarVisible))
      ensures session.selectedMissile == Revalidated(missile, Filtered())
      ensures missile.Some? && missile.value in Filtered() ==> session.selectedMissile == missile
      ensures session.activeMapElements == old(session.activeMapElements)
      ensures session.nextId == old(session.nextId)
    {
      session.SelectMissile(missile);
      if smallViewport {
        isSidebarVisible := false;
      }
      Revalidate();
      if missile.Some? && missile.value in Filtered() {
        RevalidateListedRecord(missile.value, Filtered());
      }
    }

    /** The mobile toggle button flips visibility. */
    method ToggleSidebar()
      requires Valid()
      modifies this`isSidebarVisible
      ensures Valid()
      ensures isSidebarVisible == !old(isSidebarVisible)
    {
      isSidebarVisible := !isSidebarVisible;
    }

    /** The close button hides the panel. */
    method CloseSidebar()
      requires Valid()
      modifies this`isSidebarVisible
      ensures Valid()
      ensures !isSidebarVisible
    {
      isSidebarVisible := false;
    }

    /** The "How to use" header opens or closes the instructions. */
    method ToggleInstructions()
      requires Valid()
      modifies this`isInstructionsOpen
      ensures Valid()
      ensures isInstructionsOpen == !old(isInstructionsOpen)
    {
      isInstructionsOpen := !isInstructionsOpen;
    }

    /** The "Clear All Markers" button calls the session's handler; the selection stays valid. */
    method ClearAllMarkersClicked()
      requires Valid()
      modifies session
      ensures Valid()
      ensures session.activeMapElements == []
      ensures session.nextId == old(session.nextId)
      ensures session.selectedMissile == old(session.selectedMissile)
    {
      session.ClearAllMarkers();
    }
  }
}
