/** Bringing stored rooms in line with the areas Home Assistant knows. Strings are taken as trimmed;
    an absent value and an empty one read alike but are stored differently. */
module RoomReconciliation {
  import opened Wrappers
  import opened FreshNames

  function Text(s: Option<string>): string {
    if s.Some? then s.value else ""
  }

  // ----- what Home Assistant offers

  datatype HaObject = HaObject(id: string, name: string)

  /** A dictionary of names by id, with its keys in the order of first insertion. */
  datatype Inventory = Inventory(order: seq<string>, names: map<string, string>)
  {
    ghost predicate Valid() {
      && (forall id :: id in order <==> id in names)
      && (forall i, j :: 0 <= i < j < |order| ==> order[i] != order[j])
      && "" !in names
    }
  }

  function InventoryOf(objects: seq<HaObject>): (inventory: Inventory)
    ensures inventory.Valid()
  {
    if objects == [] then Inventory([], map[])
    else
      var earlier, last := InventoryOf(objects[..|objects| - 1]), objects[|objects| - 1];
      if last.id == "" then earlier
      else Inventory(if last.id in earlier.names then earlier.order else earlier.order + [last.id],
                     earlier.names[last.id := last.name])
  }

  // ----- the names of a record, and how they follow Home Assistant

  datatype HaLink = HaLink(displayName: Option<string>, haSourceName: Option<string>, syncStatus: Option<string>)

  /** The display name follows the name in Home Assistant until it is reviewed or edited by hand. */
  function Synced(link: HaLink, reviewed: bool, haName: string): HaLink {
    var display := Text(link.displayName);
    var follows := display == "" || (!reviewed && display == Text(link.haSourceName));
    HaLink(if follows then Some(haName) else link.displayName, Some(haName), Some(if reviewed then "configured" else "new"))
  }

  function Orphaned(link: HaLink): HaLink {
    link.(syncStatus := Some("orphaned"))
  }

  /** The link of a record added for an object: without a name it is called by its own id. */
  function NewLink(haName: string, ownId: string): HaLink {
    var name := if haName != "" then haName else ownId;
    HaLink(Some(name), Some(name), Some("new"))
  }

  lemma SyncedTwice(link: HaLink, reviewed: bool, haName: string)
    ensures Synced(Synced(link, reviewed, haName), reviewed, haName) == Synced(link, reviewed, haName)
  {}

  /** A new record is in step with its object exactly when the object has a name. */
  lemma NewLinkIsInStep(haName: string, ownId: string)
    requires ownId != ""
    ensures Synced(NewLink(haName, ownId), false, haName) == NewLink(haName, ownId) <==> haName != ""
  {
    if haName == "" {
      assert Synced(NewLink(haName, ownId), false, haName).displayName == Some("");
    }
  }

  // ----- rooms

  datatype Room = Room(roomId: string, areaId: string, link: HaLink, source: Option<string>, reviewed: bool,
                       other: map<string, string>)

  /** The area a room is bound to by its id or name, if it has none yet. `slugify` is Home
      Assistant's; the candidates are tried in this order. */
  function MatchedArea(room: Room, inventory: Inventory, slugify: string -> string): string {
    var display := Text(room.link.displayName);
    if room.roomId != "" && room.roomId in inventory.names then room.roomId
    else if room.roomId != "" && slugify(room.roomId) in inventory.names then slugify(room.roomId)
    else if display != "" && slugify(display) in inventory.names then slugify(display)
    else ""
  }

  function ReconciledRoom(room: Room, inventory: Inventory, slugify: string -> string): Room {
    var area := if room.areaId != "" then room.areaId else MatchedArea(room, inventory, slugify);
    room.(areaId := area, source := Some("ha_area_registry"),
          link := if area != "" && area in inventory.names then Synced(room.link, room.reviewed, inventory.names[area])
                  else Orphaned(room.link))
  }

  const NEW_ROOM_DEFAULTS: map<string, string> := map["occupancy_mode" := "none", "logic" := "any_of",
    "on_dwell_s" := "0", "off_dwell_s" := "120"]

  function NewRoom(area: string, roomId: string, haName: string): Room {
    Room(roomId, area, NewLink(haName, roomId), Some("ha_area_registry"), false, NEW_ROOM_DEFAULTS)
  }

  function ReconciledRooms(rooms: seq<Room>, inventory: Inventory, slugify: string -> string): (r: seq<Room>)
    ensures |r| == |rooms|
    ensures forall i :: 0 <= i < |rooms| ==> r[i] == ReconciledRoom(rooms[i], inventory, slugify)
  {
    if rooms == [] then []
    else ReconciledRooms(rooms[..|rooms| - 1], inventory, slugify)
         + [ReconciledRoom(rooms[|rooms| - 1], inventory, slugify)]
  }

  function AreasOf(rooms: seq<Room>): set<string> {
    set r <- rooms | r.areaId != "" :: r.areaId
  }

  function RoomIdsOf(rooms: seq<Room>): set<string> {
    set r <- rooms | r.roomId != "" :: r.roomId
  }

  /** The rooms added for the areas in `order` that no stored room was bound to. */
  function AddedRooms(order: seq<string>, names: map<string, string>, bound: set<string>, taken: set<string>): seq<Room>
    requires forall id <- order :: id in names
  {
    if order == [] then []
    else
      var init, area := order[..|order| - 1], order[|order| - 1];
      var earlier := AddedRooms(init, names, bound, taken);
      if area in bound then earlier
      else earlier + [NewRoom(area, FreshName(area, taken + RoomIdsOf(earlier)), names[area])]
  }

  /** Which areas are bound is looked at before unbound rooms are matched. */
  function ReconcileRooms(rooms: seq<Room>, inventory: Inventory, slugify: string -> string): seq<Room>
    requires inventory.Valid()
  {
    ReconciledRooms(rooms, inventory, slugify)
    + AddedRooms(inventory.order, inventory.names, AreasOf(rooms), RoomIdsOf(rooms))
  }

  // ----- the second pass

  lemma ReconciledTwice(room: Room, inventory: Inventory, slugify: string -> string)
    ensures var once := ReconciledRoom(room, inventory, slugify);
            ReconciledRoom(once, inventory, slugify) == once
  {
    var area := if room.areaId != "" then room.areaId else MatchedArea(room, inventory, slugify);
    if area != "" && area in inventory.names {
      SyncedTwice(room.link, room.reviewed, inventory.names[area]);
    }
  }

  /** Room `r` was added for an unbound area, under a new id. */
  predicate IsAddedRoom(r: Room, names: map<string, string>, bound: set<string>, taken: set<string>) {
    && r.areaId != "" && r.areaId in names && r.areaId !in bound
    && r.roomId != "" && r.roomId !in taken
    && r == NewRoom(r.areaId, r.roomId, names[r.areaId])
  }

  lemma NewRoomsAreAdded(area: string, earlier: seq<Room>, names: map<string, string>, bound: set<string>, taken: set<string>)
    requires area in names && area != "" && area !in bound
    ensures IsAddedRoom(NewRoom(area, FreshName(area, taken + RoomIdsOf(earlier)), names[area]), names, bound, taken)
    ensures NewRoom(area, FreshName(area, taken + RoomIdsOf(earlier)), names[area]).areaId == area
    ensures forall i :: 0 <= i < |earlier| && earlier[i].roomId != "" ==>
      earlier[i].roomId != NewRoom(area, FreshName(area, taken + RoomIdsOf(earlier)), names[area]).roomId
  {
    hide FirstFree, Numbered;
    var name := FreshName(area, taken + RoomIdsOf(earlier));
    FreshNameIsNonEmpty(area, taken + RoomIdsOf(earlier));
    forall i | 0 <= i < |earlier| && earlier[i].roomId != "" ensures earlier[i].roomId != name {
      assert earlier[i] in earlier;
      assert earlier[i].roomId in RoomIdsOf(earlier);
    }
  }

  lemma FreshNameIsNonEmpty(base: string, taken: set<string>)
    requires base != ""
    ensures FreshName(base, taken) != ""
  {}

  lemma {:induction false} AddedRoomsAreNew(order: seq<string>, names: map<string, string>, bound: set<string>,
                                            taken: set<string>, i: nat)
    requires forall k :: 0 <= k < |order| ==> order[k] in names && order[k] != ""
    requires i < |AddedRooms(order, names, bound, taken)|
    ensures IsAddedRoom(AddedRooms(order, names, bound, taken)[i], names, bound, taken)
  {
    hide NewRoom, FreshName, RoomIdsOf, IsAddedRoom;
    var init, area := order[..|order| - 1], order[|order| - 1];
    var earlier := AddedRooms(init, names, bound, taken);
    if i < |earlier| {
      AddedRoomsAreNew(init, names, bound, taken, i);
    } else {
      NewRoomsAreAdded(area, earlier, names, bound, taken);
    }
  }

  lemma {:induction false} AddedIdsDiffer(order: seq<string>, names: map<string, string>, bound: set<string>,
                                          taken: set<string>, i: nat, j: nat)
    requires forall k :: 0 <= k < |order| ==> order[k] in names && order[k] != ""
    requires i < j < |AddedRooms(order, names, bound, taken)|
    ensures AddedRooms(order, names, bound, taken)[i].roomId != AddedRooms(order, names, bound, taken)[j].roomId
  {
    hide NewRoom, FreshName, RoomIdsOf;
    var init, area := order[..|order| - 1], order[|order| - 1];
    var earlier := AddedRooms(init, names, bound, taken);
    if j < |earlier| {
      AddedIdsDiffer(init, names, bound, taken, i, j);
    } else {
      AddedRoomsAreNew(init, names, bound, taken, i);
      NewRoomsAreAdded(area, earlier, names, bound, taken);
    }
  }

  lemma {:induction false} UnboundAreasAreAdded(order: seq<string>, names: map<string, string>, bound: set<string>,
                                                taken: set<string>, area: string)
    returns (i: nat)
    requires forall k :: 0 <= k < |order| ==> order[k] in names && order[k] != ""
    requires area in order && area !in bound
    ensures i < |AddedRooms(order, names, bound, taken)| && AddedRooms(order, names, bound, taken)[i].areaId == area
  {
    hide NewRoom, FreshName, RoomIdsOf;
    var init, last := order[..|order| - 1], order[|order| - 1];
    if area in init {
      i := UnboundAreasAreAdded(init, names, bound, taken, area);
    } else {
      var earlier := AddedRooms(init, names, bound, taken);
      NewRoomsAreAdded(last, earlier, names, bound, taken);
      i := |earlier|;
    }
  }

  function Added(rooms: seq<Room>, inventory: Inventory): seq<Room>
    requires inventory.Valid()
  {
    AddedRooms(inventory.order, inventory.names, AreasOf(rooms), RoomIdsOf(rooms))
  }

  lemma AreaIsBound(rooms: seq<Room>, inventory: Inventory, slugify: string -> string, area: string)
    requires inventory.Valid() && area in inventory.order
    ensures area in AreasOf(ReconcileRooms(rooms, inventory, slugify))
  {
    hide AddedRooms;
    var result := ReconcileRooms(rooms, inventory, slugify);
    if area in AreasOf(rooms) {
      var i :| 0 <= i < |rooms| && rooms[i].areaId == area;
      assert result[i].areaId == area && result[i] in result;
    } else {
      var i := UnboundAreasAreAdded(inventory.order, inventory.names, AreasOf(rooms), RoomIdsOf(rooms), area);
      assert result[|rooms| + i] == Added(rooms, inventory)[i] && result[|rooms| + i] in result;
    }
  }

  lemma {:induction false} NothingToAdd(order: seq<string>, names: map<string, string>, bound: set<string>, taken: set<string>)
    requires forall id <- order :: id in names && id in bound
    ensures AddedRooms(order, names, bound, taken) == []
  {
    if order != [] {
      NothingToAdd(order[..|order| - 1], names, bound, taken);
    }
  }

  /** A second pass only looks at each room again. */
  lemma SecondPass(rooms: seq<Room>, inventory: Inventory, slugify: string -> string)
    requires inventory.Valid()
    ensures var once := ReconcileRooms(rooms, inventory, slugify);
            ReconcileRooms(once, inventory, slugify) == ReconciledRooms(once, inventory, slugify)
  {
    var once := ReconcileRooms(rooms, inventory, slugify);
    forall area | area in inventory.order ensures area in AreasOf(once) {
      AreaIsBound(rooms, inventory, slugify, area);
    }
    NothingToAdd(inventory.order, inventory.names, AreasOf(once), RoomIdsOf(once));
  }

  /** The areas that the next pass will add rooms for all have names. */
  predicate AddedAreasHaveNames(rooms: seq<Room>, inventory: Inventory)
    requires inventory.Valid()
  {
    forall area <- inventory.order :: area !in AreasOf(rooms) ==> inventory.names[area] != ""
  }

  lemma NewRoomIsInStep(area: string, roomId: string, inventory: Inventory, slugify: string -> string)
    requires area != "" && roomId != "" && area in inventory.names
    ensures var room := NewRoom(area, roomId, inventory.names[area]);
            ReconciledRoom(room, inventory, slugify) == room <==> inventory.names[area] != ""
  {
    NewLinkIsInStep(inventory.names[area], roomId);
  }

  lemma AddedRoomIsInStep(rooms: seq<Room>, inventory: Inventory, slugify: string -> string, j: nat)
    requires inventory.Valid() && j < |Added(rooms, inventory)|
    ensures var room := Added(rooms, inventory)[j];
            && room.areaId in inventory.order && room.areaId !in AreasOf(rooms)
            && (ReconciledRoom(room, inventory, slugify) == room <==> inventory.names[room.areaId] != "")
  {
    hide ReconciledRoom, NewRoom;
    AddedRoomsAreNew(inventory.order, inventory.names, AreasOf(rooms), RoomIdsOf(rooms), j);
    var room := Added(rooms, inventory)[j];
    NewRoomIsInStep(room.areaId, room.roomId, inventory, slugify);
  }

  /** One pass reaches a fixpoint if and only if every area it adds a room for has a name. */
  lemma OnePassReachesAFixpoint(rooms: seq<Room>, inventory: Inventory, slugify: string -> string)
    requires inventory.Valid()
    ensures var once := ReconcileRooms(rooms, inventory, slugify);
            ReconcileRooms(once, inventory, slugify) == once <==> AddedAreasHaveNames(rooms, inventory)
  {
    hide ReconciledRoom, Added, AddedRooms, AreasOf, RoomIdsOf;
    var once := ReconcileRooms(rooms, inventory, slugify);
    var added := Added(rooms, inventory);
    assert once == ReconciledRooms(rooms, inventory, slugify) + added by { ReconcileRoomsAre(rooms, inventory, slugify); }
    SecondPass(rooms, inventory, slugify);
    var again := ReconciledRooms(once, inventory, slugify);
    if AddedAreasHaveNames(rooms, inventory) {
      forall i | 0 <= i < |once| ensures again[i] == once[i] {
        if i < |rooms| {
          ReconciledTwice(rooms[i], inventory, slugify);
        } else {
          AddedRoomIsInStep(rooms, inventory, slugify, i - |rooms|);
        }
      }
    } else {
      var area :| area in inventory.order && area !in AreasOf(rooms) && inventory.names[area] == "";
      var j := UnboundAreasAreAdded(inventory.order, inventory.names, AreasOf(rooms), RoomIdsOf(rooms), area);
      assert added[j].areaId == area by { AddedAre(rooms, inventory); }
      AddedRoomIsInStep(rooms, inventory, slugify, j);
      assert again[|rooms| + j] != once[|rooms| + j];
    }
  }

  lemma ReconcileRoomsAre(rooms: seq<Room>, inventory: Inventory, slugify: string -> string)
    requires inventory.Valid()
    ensures ReconcileRooms(rooms, inventory, slugify) == ReconciledRooms(rooms, inventory, slugify) + Added(rooms, inventory)
  {}

  lemma AddedAre(rooms: seq<Room>, inventory: Inventory)
    requires inventory.Valid()
    ensures Added(rooms, inventory) == AddedRooms(inventory.order, inventory.names, AreasOf(rooms), RoomIdsOf(rooms))
  {}

  /** A second pass always reaches one. */
  lemma TwoPassesReachAFixpoint(rooms: seq<Room>, inventory: Inventory, slugify: string -> string)
    requires inventory.Valid()
    ensures var twice := ReconcileRooms(ReconcileRooms(rooms, inventory, slugify), inventory, slugify);
            ReconcileRooms(twice, inventory, slugify) == twice
  {
    var once := ReconcileRooms(rooms, inventory, slugify);
    forall area | area in inventory.order ensures area in AreasOf(once) {
      AreaIsBound(rooms, inventory, slugify, area);
    }
    OnePassReachesAFixpoint(once, inventory, slugify);
  }

  /** Stored rooms keep their ids and order, ids stay different, and every area has a room. */
  lemma IdsStayDistinct(rooms: seq<Room>, inventory: Inventory, slugify: string -> string)
    requires inventory.Valid()
    requires forall i, j :: 0 <= i < j < |rooms| ==> rooms[i].roomId != rooms[j].roomId || rooms[i].roomId == ""
    ensures var result := ReconcileRooms(rooms, inventory, slugify);
            && |rooms| <= |result|
            && (forall i :: 0 <= i < |rooms| ==> result[i].roomId == rooms[i].roomId)
            && (forall i, j :: 0 <= i < j < |result| ==> result[i].roomId != result[j].roomId || result[i].roomId == "")
            && (forall area <- inventory.order :: area in AreasOf(result))
  {
    hide AddedRooms, NewRoom;
    var result, added := ReconcileRooms(rooms, inventory, slugify), Added(rooms, inventory);
    var bound, taken := AreasOf(rooms), RoomIdsOf(rooms);
    forall area | area in inventory.order ensures area in AreasOf(result) {
      AreaIsBound(rooms, inventory, slugify, area);
    }
    forall i, j | 0 <= i < j < |result| ensures result[i].roomId != result[j].roomId || result[i].roomId == "" {
      if i >= |rooms| {
        AddedIdsDiffer(inventory.order, inventory.names, bound, taken, i - |rooms|, j - |rooms|);
      } else if j >= |rooms| {
        AddedRoomsAreNew(inventory.order, inventory.names, bound, taken, j - |rooms|);
        assert rooms[i] in rooms;
        assert rooms[i].roomId != "" ==> rooms[i].roomId in taken;
      }
    }
  }
}
