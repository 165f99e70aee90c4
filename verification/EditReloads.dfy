/** Edits of the topology and the update listener: what the migrations read is not what the edits
    write, so edits of settled options lead to one light reload and to nothing written back. */
module EditReloads {
  import opened Wrappers
  import opened RawRecords
  import opened RoomTopology
  import opened Actuators
  import opened TopologyEdits
  import opened RoomChanges
  import M = OptionsMigration
  import P = ReactionPayloads

  /** How the migrations read the stored options: rooms one by one, the rest from the other keys. */
  datatype Reader = Reader(
    room: Raw -> M.Room,
    learning: map<string, string> -> M.Learning,
    context: map<string, string> -> map<M.Slot, string>,
    reactions: map<string, string> -> seq<P.Reaction>)
  {
    /** Room type, floor and geometry are not read. */
    ghost predicate IgnoresTopology() {
      forall a: Raw, b: Raw :: a.Dict? == b.Dict? && Rest(a) == Rest(b) ==> room(a) == room(b)
    }
  }

  function Rooms(raws: seq<Raw>, reader: Reader): (rooms: seq<M.Room>)
    ensures |rooms| == |raws| && forall i :: 0 <= i < |raws| ==> rooms[i] == reader.room(raws[i])
  {
    seq(|raws|, i requires 0 <= i < |raws| => reader.room(raws[i]))
  }

  function Read(o: Options, reader: Reader): M.Options {
    M.Options(reader.learning(o.other), reader.context(o.other), Rooms(o.rooms, reader), reader.reactions(o.other))
  }

  /** Two lists with the same entries, but for topology fields. */
  predicate SameEntries(a: seq<Raw>, b: seq<Raw>) {
    |a| == |b| && forall i :: 0 <= i < |a| ==> a[i].Dict? == b[i].Dict? && Rest(a[i]) == Rest(b[i])
  }

  lemma {:induction false} FieldEditsKeepEntries(raws: seq<Raw>, room: string, roomKind: Option<string>, floor: Option<string>)
    ensures SameEntries(raws, RoomsWithFields(raws, room, roomKind, floor))
  {
    hide RoomsWithFields, WithFields, Get, Rest;
    if raws != [] {
      var last := raws[|raws| - 1];
      FieldEditsKeepEntries(raws[..|raws| - 1], room, roomKind, floor);
      RoomsWithFieldsOneMore(raws, room, roomKind, floor);
      if last.Dict? {
        WithFieldsSetsThem(last, roomKind, floor);
      }
      var updated := RoomsWithFields(raws, room, roomKind, floor);
      assert forall i :: 0 <= i < |raws| - 1 ==> updated[..|updated| - 1][i] == updated[i] && raws[..|raws| - 1][i] == raws[i];
    }
  }

  lemma EditKeepsEntries(options: Options, e: Edit)
    ensures SameEntries(options.rooms, Next(options, e).rooms)
  {
    hide Rest, ValidateTopology, ValidateActuators, WithoutEntries, IsOpeningReferenced, OpeningEntry, ConnectionEntry,
      ActuatorEntry, IsStored, RoomTypeNamed;
    if e.SetRoomFields? {
      FieldEditsKeepEntries(options.rooms, e.room, e.roomKind, e.floor);
    }
  }

  lemma {:induction false} EditsKeepEntries(options: Options, edits: seq<Edit>)
    ensures SameEntries(options.rooms, After(options, edits).rooms)
    decreases |edits|
  {
    hide Next, Rest;
    if edits != [] {
      EditKeepsEntries(options, edits[0]);
      EditsKeepEntries(Next(options, edits[0]), edits[1..]);
    }
  }

  /** From options that no migration changes, any run of edits leads to such options again, and they
      need no full reload. */
  lemma EditsReloadLightly(options: Options, edits: seq<Edit>, reader: Reader, env: M.Env)
    requires reader.IgnoresTopology() && !M.Chain(Read(options, reader), env).changed
    ensures var edited := After(options, edits);
            && Read(edited, reader) == Read(options, reader)
            && !M.Chain(Read(edited, reader), env).changed
            && !NeedsFullReload(options, edited)
  {
    hide M.Chain, NeedsFullReload, Rest, IsTopologyOnly, After;
    var edited := After(options, edits);
    EditsKeepEntries(options, edits);
    EditsNeverForceAFullReload(options, edits);
    forall i | 0 <= i < |options.rooms| ensures reader.room(edited.rooms[i]) == reader.room(options.rooms[i]) {
      assert options.rooms[i].Dict? == edited.rooms[i].Dict? && Rest(options.rooms[i]) == Rest(edited.rooms[i]);
    }
    assert Rooms(edited.rooms, reader) == Rooms(options.rooms, reader);
  }
}
