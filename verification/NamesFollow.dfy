/** How names follow Home Assistant, and when they do not: said on the records before and after a
    reconciliation. */
module NamesFollow {
  import opened Wrappers
  import opened FreshNames
  import opened RoomReconciliation
  import opened PeopleReconciliation

  // ----- one record

  /** The name was given by hand: it is not empty, and reviewed or not the one Home Assistant had. */
  predicate IsOwnName(link: HaLink, reviewed: bool) {
    Text(link.displayName) != "" && (reviewed || Text(link.displayName) != Text(link.haSourceName))
  }

  /** What becomes of the names of a record whose object is called `name`. */
  predicate Follows(before: HaLink, reviewed: bool, name: string, after: HaLink) {
    && (after.displayName == before.displayName <==> before.displayName == Some(name) || IsOwnName(before, reviewed))
    && (after.displayName == before.displayName || after.displayName == Some(name))
    && after.haSourceName == Some(name)
    && (after.syncStatus == Some("configured") <==> reviewed) && (after.syncStatus == Some("new") <==> !reviewed)
  }

  predicate IsLeftAlone(before: HaLink, after: HaLink) {
    && after.displayName == before.displayName && after.haSourceName == before.haSourceName
    && after.syncStatus == Some("orphaned")
  }

  lemma StatusesDiffer()
    ensures "configured" != "new"
  {
    assert |"configured"| == 10 && |"new"| == 3;
  }

  lemma RoomFollows(room: Room, inventory: Inventory, slugify: string -> string)
    requires inventory.Valid()
    ensures var r := ReconciledRoom(room, inventory, slugify);
            && r.roomId == room.roomId && r.reviewed == room.reviewed && r.other == room.other
            && r.source == Some("ha_area_registry")
            && (r.areaId in inventory.names ==> Follows(room.link, room.reviewed, inventory.names[r.areaId], r.link))
            && (r.areaId !in inventory.names ==> IsLeftAlone(room.link, r.link))
  {
    hide MatchedArea;
    StatusesDiffer();
  }

  /** In the reconciled list, a stored room keeps everything but its area, its names and its source;
      its display name stays if it is the area's already or was given by hand, and is the area's
      otherwise; without an area of the inventory both names stay and the room is orphaned. */
  lemma RoomNamesFollow(rooms: seq<Room>, i: nat, inventory: Inventory, slugify: string -> string)
    requires inventory.Valid() && i < |rooms|
    ensures |ReconcileRooms(rooms, inventory, slugify)| >= |rooms|
    ensures var room, r := rooms[i], ReconcileRooms(rooms, inventory, slugify)[i];
            && r.roomId == room.roomId && r.reviewed == room.reviewed && r.other == room.other
            && r.source == Some("ha_area_registry")
            && (r.areaId in inventory.names ==> Follows(room.link, room.reviewed, inventory.names[r.areaId], r.link))
            && (r.areaId !in inventory.names ==> IsLeftAlone(room.link, r.link))
  {
    hide ReconciledRoom, AddedRooms;
    RoomFollows(rooms[i], inventory, slugify);
  }

  lemma PersonFollows(person: Person, inventory: Inventory, text: StringTools)
    requires inventory.Valid()
    ensures var p := ReconciledPerson(person, inventory, text);
            && p.slug == person.slug && p.reviewed == person.reviewed && p.other == person.other
            && p.source == Some("ha_person_registry")
            && p.presenceRule == (if Text(person.presenceRule) == "" then Some("resident") else person.presenceRule)
            && (p.entity in inventory.names ==> Follows(person.link, person.reviewed, inventory.names[p.entity], p.link))
            && (p.entity !in inventory.names ==> IsLeftAlone(person.link, p.link))
  {
    hide MatchedEntity;
    StatusesDiffer();
  }

  // ----- binding

  /** The first of the candidates that the inventory knows, or "" when it knows none. */
  predicate IsFirstKnown(id: string, candidates: seq<string>, inventory: Inventory) {
    || (exists k | 0 <= k < |candidates| :: && candidates[k] == id && id in inventory.names
                                            && forall l :: 0 <= l < k ==> candidates[l] !in inventory.names)
    || (id == "" && forall l :: 0 <= l < |candidates| ==> candidates[l] !in inventory.names)
  }

  /** A bound room stays bound; another one is bound to the first of its id, its id as a slug and its
      name as a slug that is an area. */
  lemma RoomIsBoundToFirstKnown(room: Room, inventory: Inventory, slugify: string -> string)
    requires inventory.Valid()
    ensures var area, display := ReconciledRoom(room, inventory, slugify).areaId, Text(room.link.displayName);
            var candidates := (if room.roomId != "" then [room.roomId, slugify(room.roomId)] else [])
                              + (if display != "" then [slugify(display)] else []);
            if room.areaId != "" then area == room.areaId else IsFirstKnown(area, candidates, inventory)
  {
    var display := Text(room.link.displayName);
    var candidates := (if room.roomId != "" then [room.roomId, slugify(room.roomId)] else [])
                      + (if display != "" then [slugify(display)] else []);
    var area := ReconciledRoom(room, inventory, slugify).areaId;
    if room.areaId == "" && area != "" {
      var k := if area == room.roomId then 0 else if room.roomId != "" && area == slugify(room.roomId) then 1 else |candidates| - 1;
      assert candidates[k] == area;
    }
  }

  predicate IsAlike(entity: string, name: string, inventory: Inventory, fold: string -> string) {
    entity in inventory.names && fold(inventory.names[entity]) == fold(name)
  }

  lemma {:induction false} NamedLikeAre(order: seq<string>, names: map<string, string>, name: string, fold: string -> string)
    requires forall id <- order :: id in names
    ensures forall e :: e in NamedLike(order, names, name, fold) <==> e in order && fold(names[e]) == fold(name)
    ensures |NamedLike(order, names, name, fold)| <= |order|
  {
    if order != [] {
      var init, last := order[..|order| - 1], order[|order| - 1];
      NamedLikeAre(init, names, name, fold);
      assert forall e :: e in order <==> e in init || e == last;
    }
  }

  lemma {:induction false} NamedLikeDiffer(order: seq<string>, names: map<string, string>, name: string, fold: string -> string)
    requires forall id <- order :: id in names
    requires forall i, j :: 0 <= i < j < |order| ==> order[i] != order[j]
    ensures var alike := NamedLike(order, names, name, fold); forall i, j :: 0 <= i < j < |alike| ==> alike[i] != alike[j]
  {
    if order != [] {
      var init, last := order[..|order| - 1], order[|order| - 1];
      NamedLikeDiffer(init, names, name, fold);
      NamedLikeAre(init, names, name, fold);
      assert last !in init;
    }
  }

  /** A bound person stays bound; another one is bound to the person entity of its slug, or else of
      its name as a slug, or else to the only entity of the same name in whatever case. */
  lemma PersonIsBound(person: Person, inventory: Inventory, text: StringTools)
    requires inventory.Valid()
    ensures var entity, display := ReconciledPerson(person, inventory, text).entity, Text(person.link.displayName);
            var candidates := (if person.slug != "" then ["person." + person.slug] else [])
                              + (if display != "" && text.slugify(display) != "" then ["person." + text.slugify(display)] else []);
            if person.entity != "" then entity == person.entity
            else if exists c <- candidates :: c in inventory.names then IsFirstKnown(entity, candidates, inventory)
            else if display == "" then entity == ""
            else if entity != "" then
              IsAlike(entity, display, inventory, text.fold) && forall e :: IsAlike(e, display, inventory, text.fold) ==> e == entity
            else
              (forall e :: !IsAlike(e, display, inventory, text.fold))
              || exists d, e :: d != e && IsAlike(d, display, inventory, text.fold) && IsAlike(e, display, inventory, text.fold)
  {
    var entity, display := ReconciledPerson(person, inventory, text).entity, Text(person.link.displayName);
    var bySlug := if person.slug != "" then ["person." + person.slug] else [];
    var byName := if display != "" && text.slugify(display) != "" then ["person." + text.slugify(display)] else [];
    var candidates := bySlug + byName;
    if person.entity == "" {
      if exists c <- candidates :: c in inventory.names {
        if bySlug != [] && bySlug[0] in inventory.names {
          assert candidates[0] == entity;
        } else {
          assert candidates[|candidates| - 1] == entity;
        }
      } else {
        assert bySlug != [] ==> bySlug[0] in candidates;
        assert byName != [] ==> byName[0] in candidates;
        if display != "" {
          OnlyNamesake(person, entity, inventory, text);
        }
      }
    }
  }

  lemma OnlyNamesake(person: Person, entity: string, inventory: Inventory, text: StringTools)
    requires inventory.Valid() && Text(person.link.displayName) != ""
    requires var alike := NamedLike(inventory.order, inventory.names, Text(person.link.displayName), text.fold);
             entity == if |alike| == 1 then alike[0] else ""
    ensures var display := Text(person.link.displayName);
            if entity != "" then
              IsAlike(entity, display, inventory, text.fold) && forall e :: IsAlike(e, display, inventory, text.fold) ==> e == entity
            else
              (forall e :: !IsAlike(e, display, inventory, text.fold))
              || exists d, e :: d != e && IsAlike(d, display, inventory, text.fold) && IsAlike(e, display, inventory, text.fold)
  {
    var display := Text(person.link.displayName);
    var alike := NamedLike(inventory.order, inventory.names, display, text.fold);
    NamedLikeAre(inventory.order, inventory.names, display, text.fold);
    NamedLikeDiffer(inventory.order, inventory.names, display, text.fold);
    assert forall e :: e in alike <==> IsAlike(e, display, inventory, text.fold);
    if |alike| >= 2 {
      assert alike[0] in alike && alike[1] in alike && alike[0] != alike[1];
    } else if |alike| == 1 {
      assert alike[0] in alike;
    }
  }

  // ----- pass after pass

  /** The rooms after passes against one inventory after the other. */
  function RoomsAfter(rooms: seq<Room>, inventories: seq<Inventory>, slugify: string -> string): seq<Room>
    requires forall inventory <- inventories :: inventory.Valid()
  {
    if inventories == [] then rooms
    else
      var init, last := inventories[..|inventories| - 1], inventories[|inventories| - 1];
      ReconcileRooms(RoomsAfter(rooms, init, slugify), last, slugify)
  }

  /** A reviewed name, once it is there, survives every number of passes, whatever Home Assistant calls
      the area meanwhile. */
  lemma {:induction false} ReviewedNamesSurvive(rooms: seq<Room>, i: nat, inventories: seq<Inventory>, slugify: string -> string)
    requires forall inventory <- inventories :: inventory.Valid()
    requires i < |rooms| && rooms[i].reviewed && Text(rooms[i].link.displayName) != ""
    ensures |RoomsAfter(rooms, inventories, slugify)| >= |rooms|
    ensures var r := RoomsAfter(rooms, inventories, slugify)[i];
            r.reviewed && r.link.displayName == rooms[i].link.displayName
  {
    hide ReconcileRooms;
    if inventories != [] {
      var init, last := inventories[..|inventories| - 1], inventories[|inventories| - 1];
      ReviewedNamesSurvive(rooms, i, init, slugify);
      assert last in inventories;
      RoomNamesFollow(RoomsAfter(rooms, init, slugify), i, last, slugify);
    }
  }

  /** A name given by hand survives without review too, as long as Home Assistant gives it to no area. */
  lemma {:induction false} HandGivenNamesSurvive(rooms: seq<Room>, i: nat, inventories: seq<Inventory>, slugify: string -> string)
    requires forall inventory <- inventories :: inventory.Valid()
    requires i < |rooms| && IsOwnName(rooms[i].link, rooms[i].reviewed)
    requires forall inventory <- inventories :: forall id <- inventory.names :: inventory.names[id] != Text(rooms[i].link.displayName)
    ensures |RoomsAfter(rooms, inventories, slugify)| >= |rooms|
    ensures var r := RoomsAfter(rooms, inventories, slugify)[i];
            r.link.displayName == rooms[i].link.displayName && IsOwnName(r.link, r.reviewed)
  {
    hide ReconcileRooms;
    if inventories != [] {
      var init, last := inventories[..|inventories| - 1], inventories[|inventories| - 1];
      HandGivenNamesSurvive(rooms, i, init, slugify);
      assert last in inventories;
      RoomNamesFollow(RoomsAfter(rooms, init, slugify), i, last, slugify);
    }
  }

  /** Against one and the same inventory a name given by hand survives in any case. */
  lemma {:induction false} NamesSurviveTheSameInventory(rooms: seq<Room>, i: nat, inventories: seq<Inventory>, inventory: Inventory,
                                                        slugify: string -> string)
    requires inventory.Valid() && forall other <- inventories :: other == inventory
    requires i < |rooms| && IsOwnName(rooms[i].link, rooms[i].reviewed)
    ensures |RoomsAfter(rooms, inventories, slugify)| >= |rooms|
    ensures var r := RoomsAfter(rooms, inventories, slugify)[i];
            && r.link.displayName == rooms[i].link.displayName && r.reviewed == rooms[i].reviewed
            && (inventories != [] ==> ReconciledRoom(r, inventory, slugify) == r)
  {
    hide ReconciledRoom, AddedRooms;
    if inventories != [] {
      var init, last := inventories[..|inventories| - 1], inventories[|inventories| - 1];
      assert last in inventories;
      assert forall other :: other in init ==> other in inventories;
      NamesSurviveTheSameInventory(rooms, i, init, inventory, slugify);
      var before := RoomsAfter(rooms, init, slugify);
      RoomFollows(before[i], inventory, slugify);
      ReconciledTwice(before[i], inventory, slugify);
      assert ReconcileRooms(before, inventory, slugify)[i] == ReconciledRoom(before[i], inventory, slugify);
    }
  }

  /** The person after passes against one inventory after the other. */
  function PersonAfter(person: Person, inventories: seq<Inventory>, text: StringTools): Person
    requires forall inventory <- inventories :: inventory.Valid()
  {
    if inventories == [] then person
    else
      var init, last := inventories[..|inventories| - 1], inventories[|inventories| - 1];
      ReconciledPerson(PersonAfter(person, init, text), last, text)
  }

  /** The same for people: a reviewed name survives whatever Home Assistant says, and another name given
      by hand as long as no person is called so. */
  lemma {:induction false} PeopleKeepTheirNames(person: Person, inventories: seq<Inventory>, text: StringTools)
    requires forall inventory <- inventories :: inventory.Valid()
    requires IsOwnName(person.link, person.reviewed)
    requires person.reviewed ||
      forall inventory <- inventories :: forall id <- inventory.names :: inventory.names[id] != Text(person.link.displayName)
    ensures var p := PersonAfter(person, inventories, text);
            p.link.displayName == person.link.displayName && p.reviewed == person.reviewed && IsOwnName(p.link, p.reviewed)
  {
    hide ReconciledPerson;
    if inventories != [] {
      var init, last := inventories[..|inventories| - 1], inventories[|inventories| - 1];
      PeopleKeepTheirNames(person, init, text);
      assert last in inventories;
      PersonFollows(PersonAfter(person, init, text), last, text);
    }
  }

  // ----- merging

  /** Of two overlapping people, the second one is kept if it alone is reviewed, or else has the better
      status, or else has no underscore in its slug where the first one has. */
  predicate SecondIsKept(first: Person, second: Person) {
    var status, other := Text(first.link.syncStatus), Text(second.link.syncStatus);
    if first.reviewed != second.reviewed then second.reviewed
    else if status != other then
      (status == "orphaned" && other == "configured") || (status !in {"configured", "orphaned"} && other in {"configured", "orphaned"})
    else '_' in first.slug && '_' !in second.slug
  }

  const HANDED_ON: set<string> := {"presence_method", "sources", "group_strategy", "required", "weight_threshold", "source_weights",
    "arrive_hold_s", "leave_hold_s", "enable_override"}

  /** The merged record is the one kept, completed from the other one where it says nothing. */
  lemma MergingCompletes(first: Person, second: Person)
    ensures var m := Merged(first, second);
            var (keep, other) := if SecondIsKept(first, second) then (second, first) else (first, second);
            && m.slug == keep.slug
            && m.entity == (if keep.entity == "" then other.entity else keep.entity)
            && (Text(keep.link.displayName) != "" || Text(other.link.displayName) == "" ==> m.link.displayName == keep.link.displayName)
            && (Text(keep.link.displayName) == "" && Text(other.link.displayName) != "" ==> m.link.displayName == other.link.displayName)
            && m.link.haSourceName == (if keep.link.haSourceName.None? then other.link.haSourceName else keep.link.haSourceName)
            && m.presenceRule == (if keep.presenceRule.None? then other.presenceRule else keep.presenceRule)
            && m.reviewed == (first.reviewed || second.reviewed) && m.source == Some("ha_person_registry")
            && m.link.syncStatus == Some(if m.reviewed then "configured" else if m.entity != "" then "new" else "orphaned")
            && (forall field :: field in m.other <==> field in keep.other || (field in HANDED_ON && field in other.other))
            && (forall field :: field in m.other ==>
                  m.other[field] == if field in keep.other then keep.other[field] else other.other[field])
  {
    assert |"configured"| == 10 && |"orphaned"| == 8;
    assert IsPreferred(first, second) <==> !SecondIsKept(first, second);
  }

  // ----- added records

  /** A room added for an area has its name, or its own id when the area has none, is new and not
      reviewed, and is called by the area's id unless that is taken. */
  lemma {:induction false} AddedRoomSays(order: seq<string>, names: map<string, string>, bound: set<string>, taken: set<string>, j: nat)
    requires forall k :: 0 <= k < |order| ==> order[k] in names && order[k] != ""
    requires j < |AddedRooms(order, names, bound, taken)|
    ensures var added := AddedRooms(order, names, bound, taken);
            var r := added[j];
            && r.areaId in order && r.areaId in names && r.areaId !in bound && !r.reviewed && r.source == Some("ha_area_registry")
            && r.other == map["occupancy_mode" := "none", "logic" := "any_of", "on_dwell_s" := "0", "off_dwell_s" := "120"]
            && r.roomId == FreshName(r.areaId, taken + RoomIdsOf(added[..j]))
            && r.link.displayName == r.link.haSourceName == Some(if names[r.areaId] != "" then names[r.areaId] else r.roomId)
            && r.link.syncStatus == Some("new")
  {
    hide FreshName, RoomIdsOf;
    var init, area := order[..|order| - 1], order[|order| - 1];
    var earlier, added := AddedRooms(init, names, bound, taken), AddedRooms(order, names, bound, taken);
    if j < |earlier| {
      AddedRoomSays(init, names, bound, taken, j);
      assert added[..j] == earlier[..j];
    } else {
      assert added[..j] == earlier;
    }
  }

  lemma {:induction false} AddedPersonSays(order: seq<string>, names: map<string, string>, claimed: set<string>, slugs: set<string>, j: nat)
    requires forall id <- order :: id in names
    requires j < |AddedPeople(order, names, claimed, slugs)|
    ensures var added := AddedPeople(order, names, claimed, slugs);
            var p := added[j];
            && p.entity in order && p.entity in names && p.entity !in claimed && !p.reviewed
            && p.source == Some("ha_person_registry") && p.presenceRule == Some("resident")
            && p.other == map["presence_method" := "ha_person", "arrive_hold_s" := "10", "leave_hold_s" := "120", "enable_override" := ""]
            && p.slug == FreshName(ObjectId(p.entity), slugs + SlugsOf(added[..j]))
            && p.link.displayName == p.link.haSourceName == Some(if names[p.entity] != "" then names[p.entity] else p.slug)
            && p.link.syncStatus == Some("new")
  {
    hide FreshName, SlugsOf, ObjectId;
    var init, entity := order[..|order| - 1], order[|order| - 1];
    var earlier, added := AddedPeople(init, names, claimed, slugs), AddedPeople(order, names, claimed, slugs);
    if j < |earlier| {
      AddedPersonSays(init, names, claimed, slugs, j);
      assert added[..j] == earlier[..j];
    } else {
      assert added[..j] == earlier;
    }
  }

  /** The slug of an added person is what stands behind the first dot of its entity id. */
  lemma {:induction false} ObjectIdStandsBehindTheDot(domain: string, rest: string)
    requires '.' !in domain
    ensures ObjectId(domain + "." + rest) == rest
  {
    var entity := domain + "." + rest;
    if domain != "" {
      assert entity[0] == domain[0] && domain[0] in domain;
      assert entity[1..] == domain[1..] + "." + rest;
      assert forall c :: c in domain[1..] ==> c in domain;
      ObjectIdStandsBehindTheDot(domain[1..], rest);
    } else {
      assert entity[1..] == rest;
    }
  }

  // ----- the inventory

  /** Object `i` is the last one with the id. */
  predicate IsLastOf(objects: seq<HaObject>, i: nat, id: string) {
    i < |objects| && objects[i].id == id && forall k :: i < k < |objects| ==> objects[k].id != id
  }

  /** The last object with an id gives it its name, and an empty id is none. */
  lemma {:induction false} InventoryNamesAre(objects: seq<HaObject>, id: string)
    ensures id in InventoryOf(objects).names <==> id != "" && exists i: nat :: IsLastOf(objects, i, id)
    ensures id != "" ==> forall i: nat :: IsLastOf(objects, i, id) ==> InventoryOf(objects).names[id] == objects[i].name
  {
    if objects != [] {
      var n := |objects| - 1;
      var init, last := objects[..n], objects[n];
      InventoryNamesAre(init, id);
      LastOneMore(objects, id);
      assert last.id == id ==> IsLastOf(objects, n, id);
    }
  }

  lemma LastOneMore(objects: seq<HaObject>, id: string)
    requires objects != []
    ensures var n := |objects| - 1;
            if objects[n].id == id then IsLastOf(objects, n, id) && forall i: nat :: IsLastOf(objects, i, id) ==> i == n
            else forall i: nat :: IsLastOf(objects, i, id) <==> IsLastOf(objects[..n], i, id)
  {
    var n := |objects| - 1;
    assert forall k :: 0 <= k < n ==> objects[..n][k] == objects[k];
  }

  /** Ids come in the order in which they first occur. */
  lemma {:induction false} InventoryOrderIs(objects: seq<HaObject>, k: nat)
    requires k <= |objects|
    ensures InventoryOf(objects[..k]).order <= InventoryOf(objects).order
  {
    if k < |objects| {
      var init := objects[..|objects| - 1];
      InventoryOrderIs(init, k);
      assert init[..k] == objects[..k];
    } else {
      assert objects[..k] == objects;
    }
  }
}
