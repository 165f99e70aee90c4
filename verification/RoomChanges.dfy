/** Which options changes need a full reload. Room type, floor and geometry never do. */
module RoomChanges {
  import opened Wrappers
  import opened RawRecords
  import opened RoomTopology
  import opened Actuators
  import opened TopologyEdits

  const OTHER_STRUCTURAL_KEYS: set<string> := {"people_named", "people_anonymous", "people_debug_aliases",
    "lighting_rooms", "lighting_zones", "heating", "security"}

  /** What a room entry says apart from its topology fields. */
  function Rest(room: Raw): map<Field, string> {
    if room.NotADict? then map[] else room.fields - {RoomKind, Floor, Geometry}
  }

  predicate IsTopologyOnly(prev: seq<Raw>, next: seq<Raw>) {
    var prevById, nextById := RoomsById(prev), RoomsById(next);
    && prevById.Keys == nextById.Keys
    && forall room <- prevById :: Rest(prevById[room]) == Rest(nextById[room])
  }

  predicate HasOtherStructuralChange(prev: Options, next: Options) {
    exists key <- OTHER_STRUCTURAL_KEYS ::
      (key in prev.other) != (key in next.other) || (key in prev.other && key in next.other && prev.other[key] != next.other[key])
  }

  /** The reload decision for options that no migration changes any more: a structural change, unless
      rooms are the only structural key that changed and only topology fields differ. */
  predicate NeedsFullReload(prev: Options, next: Options) {
    var roomsChanged, otherChanged := prev.rooms != next.rooms, HasOtherStructuralChange(prev, next);
    (roomsChanged || otherChanged) && !(!otherChanged && IsTopologyOnly(prev.rooms, next.rooms))
  }

  lemma TopologyOnlyIsAnEquivalence(a: seq<Raw>, b: seq<Raw>, c: seq<Raw>)
    ensures IsTopologyOnly(a, a)
    ensures IsTopologyOnly(a, b) ==> IsTopologyOnly(b, a)
    ensures IsTopologyOnly(a, b) && IsTopologyOnly(b, c) ==> IsTopologyOnly(a, c)
  {
    hide RoomsById, Rest;
  }

  lemma WithFieldsSetsThem(raw: Raw, roomKind: Option<string>, floor: Option<string>)
    requires raw.Dict?
    ensures var updated := WithFields(raw, roomKind, floor);
            && updated.Dict?
            && Rest(updated) == Rest(raw)
            && Get(updated, RoomId) == Get(raw, RoomId)
            && Get(updated, RoomKind) == (if roomKind.Some? then roomKind.value else Get(raw, RoomKind))
            && Get(updated, Floor) == (if floor.Some? then floor.value else Get(raw, Floor))
  {}

  lemma RoomsWithFieldsOneMore(raws: seq<Raw>, room: string, roomKind: Option<string>, floor: Option<string>)
    requires raws != []
    ensures var last, updated := raws[|raws| - 1], RoomsWithFields(raws, room, roomKind, floor);
            && updated[..|updated| - 1] == RoomsWithFields(raws[..|raws| - 1], room, roomKind, floor)
            && updated[|updated| - 1] == if last.Dict? && Get(last, RoomId) == room then WithFields(last, roomKind, floor) else last
  {}

  lemma {:induction false} FieldEditsAreTopologyOnly(raws: seq<Raw>, room: string, roomKind: Option<string>,
                                                     floor: Option<string>)
    requires room != ""
    ensures IsTopologyOnly(raws, RoomsWithFields(raws, room, roomKind, floor))
  {
    hide RoomsWithFields, WithFields, Get, Rest;
    if raws != [] {
      var init, last := raws[..|raws| - 1], raws[|raws| - 1];
      FieldEditsAreTopologyOnly(init, room, roomKind, floor);
      RoomsWithFieldsOneMore(raws, room, roomKind, floor);
      if last.Dict? {
        WithFieldsSetsThem(last, roomKind, floor);
      }
    }
  }

  /** A field edit reaches the entry that counts for its room, sets what was given, and leaves every
      other room alone. */
  lemma {:induction false} FieldEditsSetTheFields(raws: seq<Raw>, room: string, roomKind: Option<string>, floor: Option<string>)
    requires room != ""
    ensures var before, after := RoomsById(raws), RoomsById(RoomsWithFields(raws, room, roomKind, floor));
            && after.Keys == before.Keys
            && (forall id <- before :: id != room ==> after[id] == before[id])
            && (room in before ==>
                  && Get(after[room], RoomKind) == (if roomKind.Some? then roomKind.value else Get(before[room], RoomKind))
                  && Get(after[room], Floor) == (if floor.Some? then floor.value else Get(before[room], Floor)))
  {
    hide RoomsWithFields, WithFields, Get;
    if raws != [] {
      var init, last := raws[..|raws| - 1], raws[|raws| - 1];
      FieldEditsSetTheFields(init, room, roomKind, floor);
      RoomsWithFieldsOneMore(raws, room, roomKind, floor);
      if last.Dict? {
        WithFieldsSetsThem(last, roomKind, floor);
      }
    }
  }

  /** One edit changes rooms in topology fields only, and no other structural option. */
  lemma EditsAreLight(options: Options, e: Edit)
    ensures IsTopologyOnly(options.rooms, Next(options, e).rooms) && Next(options, e).other == options.other
  {
    hide IsTopologyOnly, ValidateTopology, ValidateActuators, WithoutEntries, IsOpeningReferenced, OpeningEntry, ConnectionEntry,
      ActuatorEntry, IsStored, RoomTypeNamed;
    TopologyOnlyIsAnEquivalence(options.rooms, options.rooms, options.rooms);
    if e.SetRoomFields? && e.room != "" {
      FieldEditsAreTopologyOnly(options.rooms, e.room, e.roomKind, e.floor);
    }
  }

  /** However many edits the admin makes before the options are looked at, the light reload is enough. */
  lemma {:induction false} EditsNeverForceAFullReload(options: Options, edits: seq<Edit>)
    ensures IsTopologyOnly(options.rooms, After(options, edits).rooms) && After(options, edits).other == options.other
    ensures !NeedsFullReload(options, After(options, edits))
    decreases |edits|
  {
    hide IsTopologyOnly, Next;
    if edits == [] {
      TopologyOnlyIsAnEquivalence(options.rooms, options.rooms, options.rooms);
    } else {
      var next := Next(options, edits[0]);
      EditsAreLight(options, edits[0]);
      EditsNeverForceAFullReload(next, edits[1..]);
      TopologyOnlyIsAnEquivalence(options.rooms, next.rooms, After(options, edits).rooms);
    }
  }

  // ----- when a full reload is needed

  /** Entry `i` is the one that counts for the room: the last dictionary with its id. */
  predicate Counts(raws: seq<Raw>, i: nat, room: string) {
    && i < |raws| && raws[i].Dict? && Get(raws[i], RoomId) == room
    && forall k :: i < k < |raws| ==> raws[k].NotADict? || Get(raws[k], RoomId) != room
  }

  lemma {:induction false} RoomsByIdAre(raws: seq<Raw>, room: string)
    requires room != ""
    ensures room in RoomsById(raws) <==> exists i: nat :: Counts(raws, i, room)
    ensures forall i: nat :: Counts(raws, i, room) ==> RoomsById(raws)[room] == raws[i]
    ensures "" !in RoomsById(raws)
  {
    if raws != [] {
      var n := |raws| - 1;
      RoomsByIdAre(raws[..n], room);
      if raws[n].Dict? && Get(raws[n], RoomId) == room {
        assert Counts(raws, n, room);
      } else {
        forall i: nat ensures Counts(raws, i, room) <==> Counts(raws[..n], i, room) {
          assert i < n ==> raws[..n][i] == raws[i];
          assert forall k :: 0 <= k < n ==> raws[..n][k] == raws[k];
        }
      }
    }
  }

  /** A field of a room, apart from room type, floor and geometry, is there or not, or says another
      thing, before and after. */
  predicate FieldChanges(before: Raw, after: Raw, field: Field) {
    && before.Dict? && after.Dict? && field !in {RoomKind, Floor, Geometry}
    && (|| (field in before.fields) != (field in after.fields)
        || (field in before.fields && field in after.fields && before.fields[field] != after.fields[field]))
  }

  /** A room is added or removed, or changes in some other field. */
  ghost predicate RoomChanges(prev: seq<Raw>, next: seq<Raw>, room: string) {
    var before, after := RoomsById(prev), RoomsById(next);
    || (room in before) != (room in after)
    || (room in before && room in after && exists field :: FieldChanges(before[room], after[room], field))
  }

  lemma RestsDiffer(before: Raw, after: Raw)
    requires before.Dict? && after.Dict?
    ensures Rest(before) != Rest(after) <==> exists field :: FieldChanges(before, after, field)
  {
    if forall field :: !FieldChanges(before, after, field) {
      forall field | field in Rest(before) || field in Rest(after)
        ensures field in Rest(before) && field in Rest(after) && Rest(before)[field] == Rest(after)[field]
      {
        assert !FieldChanges(before, after, field);
      }
      assert Rest(before).Keys == Rest(after).Keys;
      assert Rest(before) == Rest(after);
    }
    if field :| FieldChanges(before, after, field) {
      assert field in Rest(before) <==> field in before.fields;
      assert field in Rest(after) <==> field in after.fields;
    }
  }

  lemma {:induction false} RoomsAreDicts(raws: seq<Raw>)
    ensures forall room <- RoomsById(raws) :: RoomsById(raws)[room].Dict?
  {
    if raws != [] {
      RoomsAreDicts(raws[..|raws| - 1]);
    }
  }

  lemma TopologyOnlyExactly(prev: seq<Raw>, next: seq<Raw>)
    ensures IsTopologyOnly(prev, next) <==> forall room :: !RoomChanges(prev, next, room)
  {
    hide RoomsById, Rest, FieldChanges;
    RoomsAreDicts(prev);
    RoomsAreDicts(next);
    var before, after := RoomsById(prev), RoomsById(next);
    forall room | room in before && room in after
      ensures Rest(before[room]) != Rest(after[room]) <==> exists field :: FieldChanges(before[room], after[room], field)
    {
      RestsDiffer(before[room], after[room]);
    }
    if forall room :: !RoomChanges(prev, next, room) {
      forall room ensures room in before <==> room in after {
        assert !RoomChanges(prev, next, room);
      }
      assert before.Keys == after.Keys;
      forall room | room in before ensures Rest(before[room]) == Rest(after[room]) {
        assert !RoomChanges(prev, next, room);
      }
    }
    if IsTopologyOnly(prev, next) {
      forall room ensures !RoomChanges(prev, next, room) {
        assert room in before <==> room in after.Keys;
      }
    }
  }

  /** The value of another option has changed, or the option has come or gone. */
  predicate OptionChanges(prev: Options, next: Options, key: string) {
    || (key in prev.other) != (key in next.other)
    || (key in prev.other && key in next.other && prev.other[key] != next.other[key])
  }

  /** A full reload is asked for exactly when another structural option has changed, or a room was
      added or removed or has changed in a field other than room type, floor and geometry. */
  lemma FullReloadExactly(prev: Options, next: Options)
    ensures NeedsFullReload(prev, next) <==>
      || (exists key :: key in {"people_named", "people_anonymous", "people_debug_aliases", "lighting_rooms", "lighting_zones",
                                "heating", "security"} && OptionChanges(prev, next, key))
      || exists room :: RoomChanges(prev.rooms, next.rooms, room)
  {
    hide RoomsById, Rest, IsTopologyOnly, RoomChanges;
    TopologyOnlyExactly(prev.rooms, next.rooms);
    if prev.rooms == next.rooms {
      TopologyOnlyIsAnEquivalence(prev.rooms, prev.rooms, prev.rooms);
    }
    assert HasOtherStructuralChange(prev, next) <==> exists key :: key in OTHER_STRUCTURAL_KEYS && OptionChanges(prev, next, key);
  }
}
