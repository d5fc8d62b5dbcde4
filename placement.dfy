/** The session state owned by the top-level view (India/project/src/App.tsx): the
    record armed for placement and the ordered list of placed markers. */
module Placement {
  import opened Types

  /** Every marker identifier is below `bound`. */
  predicate IdsBelow(elements: seq<MapElement>, bound: nat) {
    forall i :: 0 <= i < |elements| ==> elements[i].id < bound
  }

  /** No two markers share an identifier. */
  predicate IdsUnique(elements: seq<MapElement>) {
    forall i, j :: 0 <= i < j < |elements| ==> elements[i].id != elements[j].id
  }

  /** `elements.filter(element => element.id !== id)`. */
  function RemoveById(elements: seq<MapElement>, id: nat): (r: seq<MapElement>)
    ensures |r| <= |elements|
    ensures forall e :: e in r <==> e in elements && e.id != id
  {
    if elements == [] then []
    else if elements[0].id == id then RemoveById(elements[1..], id)
    else [elements[0]] + RemoveById(elements[1..], id)
  }

  /** Removal works piecewise, so the markers that stay keep their relative order. */
  lemma {:induction false} RemoveByIdConcat(a: seq<MapElement>, b: seq<MapElement>, id: nat)
    ensures RemoveById(a + b, id) == RemoveById(a, id) + RemoveById(b, id)
  {
    if a != [] {
      assert (a + b)[0] == a[0];
      assert (a + b)[1..] == a[1..] + b;
      RemoveByIdConcat(a[1..], b, id);
    } else {
      assert a + b == b;
    }
  }

  /** Removing an identifier no marker carries changes nothing. */
  lemma {:induction false} RemoveAbsentId(elements: seq<MapElement>, id: nat)
    requires forall e :: e in elements ==> e.id != id
    ensures RemoveById(elements, id) == elements
  {
    if elements != [] {
      assert elements[0] in elements;
      assert forall e :: e in elements[1..] ==> e in elements;
      RemoveAbsentId(elements[1..], id);
    }
  }

  /** With unique identifiers, removing the identifier of marker `k` cuts out exactly that marker. */
  lemma {:induction false} RemoveUniqueId(elements: seq<MapElement>, k: nat)
    requires IdsUnique(elements) && k < |elements|
    ensures RemoveById(elements, elements[k].id) == elements[..k] + elements[k + 1..]
  {
    if k == 0 {
      RemoveHeadId(elements);
    } else {
      var rest := elements[1..];
      assert IdsUnique(rest) by {
        UniqueTail(elements);
      }
      assert rest[k - 1] == elements[k];
      RemoveUniqueId(rest, k - 1);
      assert elements[0].id != elements[k].id;
      assert elements[..k] + elements[k + 1..] == [elements[0]] + (rest[..k - 1] + rest[k..]);
    }
  }

  /** With unique identifiers, removing the head's identifier drops exactly the head. */
  lemma RemoveHeadId(elements: seq<MapElement>)
    requires IdsUnique(elements) && elements != []
    ensures RemoveById(elements, elements[0].id) == elements[1..]
  {
    UniqueTail(elements);
    RemoveAbsentId(elements[1..], elements[0].id);
  }

  /** The tail of a list with unique identifiers has unique identifiers, none equal to the head's. */
  lemma UniqueTail(elements: seq<MapElement>)
    requires IdsUnique(elements) && elements != []
    ensures IdsUnique(elements[1..])
    ensures forall e :: e in elements[1..] ==> e.id != elements[0].id
  {
  }

  /** Removal keeps identifiers unique. */
  lemma {:induction false} RemoveKeepsUnique(elements: seq<MapElement>, id: nat)
    requires IdsUnique(elements)
    ensures IdsUnique(RemoveById(elements, id))
  {
    if elements != [] {
      UniqueTail(elements);
      RemoveKeepsUnique(elements[1..], id);
      var r := RemoveById(elements[1..], id);
      if elements[0].id != id {
        var whole := [elements[0]] + r;
        forall i, j | 0 <= i < j < |whole| ensures whole[i].id != whole[j].id {
          if i == 0 {
            assert whole[j] == r[j - 1] && r[j - 1] in r;
          } else {
            assert whole[i] == r[i - 1] && whole[j] == r[j - 1];
          }
        }
      }
    }
  }

  /** Removal keeps identifiers unique and below the counter. */
  lemma {:induction false} RemoveKeepsIds(elements: seq<MapElement>, id: nat, bound: nat)
    requires IdsUnique(elements) && IdsBelow(elements, bound)
    ensures IdsUnique(RemoveById(elements, id)) && IdsBelow(RemoveById(elements, id), bound)
  {
    RemoveKeepsUnique(elements, id);
  }

  /** The session: selection, placed markers, and the counter that supplies fresh
      marker identifiers. */
  class Session {
    var selectedMissile: Option<MissileData>
    var activeMapElements: seq<MapElement>
    var nextId: nat

    /** Every placed marker has its own identifier, and the counter is past all of them. */
    ghost predicate Valid()
      reads this
    {
      IdsUnique(activeMapElements) && IdsBelow(activeMapElements, nextId)
    }

    /** Nothing is selected and no marker is placed. */
    constructor ()
      ensures Valid()
      ensures selectedMissile == None && activeMapElements == [] && nextId == 0
    {
      selectedMissile := None;
      activeMapElements := [];
      nextId := 0;
    }

    /** handleMissileSelect: arm a record, or disarm with None. */
    method SelectMissile(missile: Option<MissileData>)
      requires Valid()
      modifies this
      ensures Valid()
      ensures selectedMissile == missile
      ensures activeMapElements == old(activeMapElements) && nextId == old(nextId)
    {
      selectedMissile := missile;
    }

    /** handleMapClick: with a record armed, append a marker for it at `position`;
        without one, do nothing. */
    method MapClick(position: Position)
      requires Valid()
      modifies this
      ensures Valid()
      ensures selectedMissile == old(selectedMissile)
      ensures old(selectedMissile).None? ==> activeMapElements == old(activeMapElements) && nextId == old(nextId)
      ensures old(selectedMissile).Some? ==>
                |activeMapElements| == |old(activeMapElements)| + 1 &&
                activeMapElements[..|old(activeMapElements)|] == old(activeMapElements)
      ensures old(selectedMissile).Some? ==>
                var placed := activeMapElements[|activeMapElements| - 1];
                placed.position == position && placed.missileData == old(selectedMissile).value &&
                forall e :: e in old(activeMapElements) ==> e.id != placed.id
      ensures old(selectedMissile).Some? ==>
                activeMapElements[|activeMapElements| - 1].id == old(nextId) && nextId == old(nextId) + 1
    {
      if selectedMissile.Some? {
        var placed := MapElement(nextId, position, selectedMissile.value);
        activeMapElements := activeMapElements + [placed];
        nextId := nextId + 1;
      }
    }

    /** handleMarkerRemove: drop the marker with identifier `id`, if any. */
    method MarkerRemove(id: nat)
      requires Valid()
      modifies this
      ensures Valid()
      ensures activeMapElements == RemoveById(old(activeMapElements), id)
      ensures forall e :: e in activeMapElements ==> e.id != id
      ensures (forall e :: e in old(activeMapElements) ==> e.id != id) ==>
                activeMapElements == old(activeMapElements)
      ensures selectedMissile == old(selectedMissile) && nextId == old(nextId)
    {
      RemoveKeepsIds(activeMapElements, id, nextId);
      if forall e :: e in activeMapElements ==> e.id != id {
        RemoveAbsentId(activeMapElements, id);
      }
      activeMapElements := RemoveById(activeMapElements, id);
    }

    /** handleClearAllMarkers: no marker remains; the selection stays. */
    method ClearAllMarkers()
      requires Valid()
      modifies this
      ensures Valid()
      ensures activeMapElements == []
      ensures selectedMissile == old(selectedMissile) && nextId == old(nextId)
    {
      activeMapElements := [];
    }
  }
}
