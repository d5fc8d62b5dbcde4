/** A session driven end to end through the components' contracts: pick a record in the
    panel, place it, then switch to a filter that matches nothing. */
module Scenario {
  import opened Types
  import Placement
  import Sidebar
  import MapRender
  import MissileUtils

  method PlaceAstraThenFilterSlbm() {
    var agni := MissileData("Agni-V", "Surface-to-Surface", 5000.0, None, None, None, None, None, None, None);
    var astra := MissileData("Astra", "Air-to-Air", 110.0, None, None, None, None, None, None, None);
    var catalog := [agni, astra];
    var session := new Placement.Session();
    var panel := new Sidebar.Sidebar(catalog, session);
    assert panel.Filtered() == catalog;

    panel.HandleMissileSelect(Some(astra), false);
    assert session.selectedMissile == Some(astra);
    assert panel.isSidebarVisible;

    session.MapClick(Position(20.0, 78.0));
    assert |session.activeMapElements| == 1;
    var placed := session.activeMapElements[0];
    assert placed.position == Position(20.0, 78.0) && placed.missileData == astra;
    assert MapRender.MarkerIcon(placed) == MissileUtils.Default;
    var circle := MapRender.CircleFor(placed);
    assert circle == Some(MapRender.RangeCircle(Position(20.0, 78.0), 110000.0, "#0000ff"));

    assert panel.Valid();
    panel.HandleFilterChange("SLBM");
    assert agni.missileType != "SLBM" && astra.missileType != "SLBM";
    assert panel.Filtered() == [];
    assert session.selectedMissile == None;
    assert |session.activeMapElements| == 1;
  }

  /** Removing a marker does not free its identifier: the next marker placed gets a new one. */
  method RemoveThenPlaceAgain() {
    var prithvi := MissileData("Prithvi-II", "Surface-to-Surface", 350.0, None, None, None, None, None, None, None);
    var session := new Placement.Session();
    session.SelectMissile(Some(prithvi));
    session.MapClick(Position(28.6, 77.2));
    var first := session.activeMapElements[0].id;
    session.MarkerRemove(first);
    assert session.activeMapElements == [];
    session.MapClick(Position(19.1, 72.9));
    assert |session.activeMapElements| == 1;
    assert session.activeMapElements[0].id != first;
  }
}
