/** The reconciler as it runs: loops that fill dictionaries and lists, and the verdict whether
    anything changed, on which the coordinator skips an evaluation. */
module Reconciliation {
  import opened Wrappers
  import opened FreshNames
  import opened RoomReconciliation
  import opened PeopleReconciliation
  import opened PeopleFixpoint
  import opened PeopleSettling

  method BuildInventory(objects: seq<HaObject>) returns (inventory: Inventory)
    ensures inventory == InventoryOf(objects)
  {
    inventory := Inventory([], map[]);
    for i := 0 to |objects|
      invariant inventory == InventoryOf(objects[..i])
    {
      assert objects[..i + 1][..i] == objects[..i];
      var item := objects[i];
      if item.id == "" {
        continue;
      }
      var order := if item.id in inventory.names then inventory.order else inventory.order + [item.id];
      inventory := Inventory(order, inventory.names[item.id := item.name]);
    }
    assert objects[..|objects|] == objects;
  }

  method SyncRooms(rooms: seq<Room>, inventory: Inventory, slugify: string -> string) returns (kept: seq<Room>)
    ensures kept == ReconciledRooms(rooms, inventory, slugify)
  {
    kept := [];
    for i := 0 to |rooms|
      invariant kept == ReconciledRooms(rooms[..i], inventory, slugify)
    {
      assert rooms[..i + 1][..i] == rooms[..i];
      var item := rooms[i];
      var area := item.areaId;
      if area == "" {
        area := MatchedArea(item, inventory, slugify);
        if area != "" {
          item := item.(areaId := area);
        }
      }
      item := item.(source := Some("ha_area_registry"));
      if area != "" && area in inventory.names {
        item := item.(link := Synced(item.link, item.reviewed, inventory.names[area]));
      } else {
        item := item.(link := Orphaned(item.link));
      }
      kept := kept + [item];
    }
    assert rooms[..|rooms|] == rooms;
  }

  method AddRooms(inventory: Inventory, bound: set<string>, taken: set<string>) returns (added: seq<Room>)
    requires inventory.Valid()
    ensures added == AddedRooms(inventory.order, inventory.names, bound, taken)
  {
    added := [];
    var existingRoomIds := taken;
    for i := 0 to |inventory.order|
      invariant added == AddedRooms(inventory.order[..i], inventory.names, bound, taken)
      invariant existingRoomIds == taken + RoomIdsOf(added)
    {
      assert inventory.order[..i + 1][..i] == inventory.order[..i];
      var area := inventory.order[i];
      if area in bound {
        continue;
      }
      var roomId := SearchFreshName(area, existingRoomIds);
      FreshNameIsNonEmpty(area, existingRoomIds);
      existingRoomIds := existingRoomIds + {roomId};
      RoomIdsOneMore(added, NewRoom(area, roomId, inventory.names[area]));
      added := added + [NewRoom(area, roomId, inventory.names[area])];
    }
    assert inventory.order[..|inventory.order|] == inventory.order;
  }

  method ReconcileRoomList(rooms: seq<Room>, areas: seq<HaObject>, slugify: string -> string) returns (reconciled: seq<Room>)
    ensures reconciled == ReconcileRooms(rooms, InventoryOf(areas), slugify)
  {
    var inventory := BuildInventory(areas);
    var kept := SyncRooms(rooms, inventory, slugify);
    var added := AddRooms(inventory, AreasOf(rooms), RoomIdsOf(rooms));
    reconciled := kept + added;
  }

  lemma RoomIdsOneMore(rooms: seq<Room>, last: Room)
    requires last.roomId != ""
    ensures RoomIdsOf(rooms + [last]) == RoomIdsOf(rooms) + {last.roomId}
  {
    assert forall r :: r in rooms + [last] <==> r in rooms || r == last;
  }

  lemma SlugsOneMore(people: seq<Person>, last: Person)
    ensures SlugsOf(people + [last]) == SlugsOf(people) + {last.slug}
  {
    assert forall p :: p in people + [last] <==> p in people || p == last;
  }

  method CollectPeople(people: seq<Person>, inventory: Inventory, text: StringTools) returns (c: Collected)
    requires inventory.Valid()
    ensures c == CollectAll(people, inventory, text)
  {
    hide ReconciledPerson, Merged, FirstOverlap;
    var reconciled: seq<Person> := [];
    var claimedEntities: set<string>, claimedSlugs: set<string> := {}, {};
    for i := 0 to |people|
      invariant Collected(reconciled, claimedSlugs, claimedEntities) == CollectAll(people[..i], inventory, text)
    {
      assert people[..i + 1][..i] == people[..i];
      var item := ReconciledPerson(people[i], inventory, text);
      var index := FirstOverlap(reconciled, item);
      if index < |reconciled| {
        reconciled := reconciled[index := Merged(reconciled[index], item)];
        continue;
      }
      reconciled := reconciled + [item];
      if item.slug != "" {
        claimedSlugs := claimedSlugs + {item.slug};
      }
      if item.entity != "" {
        claimedEntities := claimedEntities + {item.entity};
      }
    }
    assert people[..|people|] == people;
    c := Collected(reconciled, claimedSlugs, claimedEntities);
  }

  method AddPeople(inventory: Inventory, claimed: set<string>, slugs: set<string>) returns (added: seq<Person>)
    requires inventory.Valid()
    ensures added == AddedPeople(inventory.order, inventory.names, claimed, slugs)
  {
    hide FreshName, ObjectId, InventoryOf;
    added := [];
    var claimedEntities, claimedSlugs := claimed, slugs;
    for i := 0 to |inventory.order|
      invariant added == AddedPeople(inventory.order[..i], inventory.names, claimed, slugs)
      invariant claimedSlugs == slugs + SlugsOf(added)
      invariant forall k :: i <= k < |inventory.order| ==>
        (inventory.order[k] in claimedEntities <==> inventory.order[k] in claimed)
    {
      assert inventory.order[..i + 1][..i] == inventory.order[..i];
      var entity := inventory.order[i];
      if entity in claimedEntities {
        continue;
      }
      var slug := SearchFreshName(ObjectId(entity), claimedSlugs);
      SlugsOneMore(added, NewPerson(entity, slug, inventory.names[entity]));
      claimedSlugs := claimedSlugs + {slug};
      claimedEntities := claimedEntities + {entity};
      added := added + [NewPerson(entity, slug, inventory.names[entity])];
    }
    assert inventory.order[..|inventory.order|] == inventory.order;
  }

  method ReconcilePersonList(people: seq<Person>, persons: seq<HaObject>, text: StringTools) returns (reconciled: seq<Person>)
    ensures reconciled == ReconcilePeople(people, InventoryOf(persons), text)
  {
    var inventory := BuildInventory(persons);
    var collected := CollectPeople(people, inventory, text);
    var added := AddPeople(inventory, collected.entities, collected.slugs);
    reconciled := collected.people + added;
  }

  /** People and rooms, as far as the reconciler writes them. */
  datatype HaBacked = HaBacked(people: seq<Person>, rooms: seq<Room>)

  function Reconciled(options: HaBacked, persons: seq<HaObject>, areas: seq<HaObject>, text: StringTools): HaBacked {
    HaBacked(ReconcilePeople(options.people, InventoryOf(persons), text),
             ReconcileRooms(options.rooms, InventoryOf(areas), text.slugify))
  }

  method ReconcileOptions(options: HaBacked, persons: seq<HaObject>, areas: seq<HaObject>, text: StringTools)
    returns (updated: HaBacked, changed: bool)
    ensures updated == Reconciled(options, persons, areas, text)
    ensures changed <==> updated != options
  {
    var people := ReconcilePersonList(options.people, persons, text);
    var rooms := ReconcileRoomList(options.rooms, areas, text.slugify);
    updated := HaBacked(people, rooms);
    changed := updated != options;
  }

  /** Reconciling the result against the same inventory reports no change, so that the evaluation
      skipped once is not skipped again, exactly when the merged people are final and every object
      added had a name. */
  lemma SecondReconciliationReportsNoChange(options: HaBacked, persons: seq<HaObject>, areas: seq<HaObject>, text: StringTools)
    requires AreEntityIds(InventoryOf(persons).order)
    ensures var once := Reconciled(options, persons, areas, text);
            Reconciled(once, persons, areas, text) == once <==>
            OnePassIsEnough(options.people, InventoryOf(persons), text) && AddedAreasHaveNames(options.rooms, InventoryOf(areas))
  {
    hide ReconcilePeople, ReconcileRooms, OnePassIsEnough, AddedAreasHaveNames, AreEntityIds, InventoryOf;
    OnePassReachesAPeopleFixpoint(options.people, InventoryOf(persons), text);
    OnePassReachesAFixpoint(options.rooms, InventoryOf(areas), text.slugify);
  }

  // ----- reconciling before every evaluation

  function Repeated(options: HaBacked, times: nat, persons: seq<HaObject>, areas: seq<HaObject>, text: StringTools): HaBacked
    decreases times
  {
    if times == 0 then options else Repeated(Reconciled(options, persons, areas, text), times - 1, persons, areas, text)
  }

  lemma {:induction false} RepeatedPeople(options: HaBacked, times: nat, persons: seq<HaObject>, areas: seq<HaObject>, text: StringTools)
    ensures Repeated(options, times, persons, areas, text).people == Passes(options.people, times, InventoryOf(persons), text)
    decreases times
  {
    hide ReconcilePeople, ReconcileRooms, InventoryOf;
    if times > 0 {
      RepeatedPeople(Reconciled(options, persons, areas, text), times - 1, persons, areas, text);
    }
  }

  lemma {:induction false} RepeatedTwiceMore(options: HaBacked, times: nat, persons: seq<HaObject>, areas: seq<HaObject>, text: StringTools)
    ensures var before := Repeated(options, times, persons, areas, text);
            Repeated(options, times + 2, persons, areas, text)
            == Reconciled(Reconciled(before, persons, areas, text), persons, areas, text)
    decreases times
  {
    hide Reconciled;
    if times > 0 {
      RepeatedTwiceMore(Reconciled(options, persons, areas, text), times - 1, persons, areas, text);
    } else {
      var once := Reconciled(options, persons, areas, text);
      assert Repeated(once, 1, persons, areas, text) == Repeated(Reconciled(once, persons, areas, text), 0, persons, areas, text);
    }
  }

  /** As long as Home Assistant's objects stay the same, only finitely many evaluations are skipped:
      after some passes reconciling reports no change any more. */
  lemma ReconciliationComesToRest(options: HaBacked, persons: seq<HaObject>, areas: seq<HaObject>, text: StringTools)
    returns (times: nat)
    requires AreEntityIds(InventoryOf(persons).order)
    ensures var settled := Repeated(options, times, persons, areas, text);
            Reconciled(settled, persons, areas, text) == settled
  {
    hide ReconcilePeople, ReconcileRooms, AreEntityIds, InventoryOf, Repeated, Passes;
    var passes := PeopleComeToRest(options.people, InventoryOf(persons), text);
    RepeatedPeople(options, passes, persons, areas, text);
    RepeatedTwiceMore(options, passes, persons, areas, text);
    TwoPassesReachAFixpoint(Repeated(options, passes, persons, areas, text).rooms, InventoryOf(areas), text.slugify);
    times := passes + 2;
  }
}
