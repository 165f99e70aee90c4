/** Stored option lists: raw entries, the best-effort parser, and the edits made on raw lists. */
module RawRecords {
  import opened Wrappers

  /** The keys of stored entries that the topology and actuator code looks at. */
  datatype Field =
    | OpeningId | ConnectionId | ActuatorId | RoomId | EntityId | OpeningKind | Orientation
    | RoomB | AccessType | ConnectionTypeOverride | DisplayName | RoomKind | Floor | Geometry
    | OtherField(name: string)

  /** A list entry that is not a dictionary, or a dictionary; a value that is absent or false in
      the program's sense reads as the empty string. */
  datatype Raw = NotADict | Dict(fields: map<Field, string>)

  function Get(raw: Raw, field: Field): string {
    if raw.Dict? && field in raw.fields then raw.fields[field] else ""
  }

  function NonEmpty(s: string): Option<string> {
    if s == "" then None else Some(s)
  }

  // ----- the parser

  function Ids<R(!new, ==)>(records: seq<R>, idOf: R -> string): set<string> {
    set r <- records :: idOf(r)
  }

  /** Entries are taken in order; one that does not decode is skipped, and so is one whose id has
      been taken already. */
  function Parse<R(!new, ==)>(raws: seq<Raw>, decode: Raw -> Option<R>, idOf: R -> string): seq<R> {
    if raws == [] then []
    else
      var earlier, last := Parse(raws[..|raws| - 1], decode, idOf), decode(raws[|raws| - 1]);
      if last.Some? && idOf(last.value) !in Ids(earlier, idOf) then earlier + [last.value] else earlier
  }

  /** The decoder takes the id from field `id`, and never accepts an entry without one. */
  ghost predicate DecodesId<R(!new)>(decode: Raw -> Option<R>, idOf: R -> string, id: Field) {
    forall raw :: decode(raw).Some? ==> raw.Dict? && idOf(decode(raw).value) == Get(raw, id) && Get(raw, id) != ""
  }

  method ParseRecords<R(!new, ==)>(raws: seq<Raw>, decode: Raw -> Option<R>, idOf: R -> string) returns (parsed: seq<R>)
    ensures parsed == Parse(raws, decode, idOf)
  {
    parsed := [];
    var seenIds: set<string> := {};
    for i := 0 to |raws|
      invariant parsed == Parse(raws[..i], decode, idOf)
      invariant seenIds == Ids(parsed, idOf)
    {
      assert raws[..i + 1][..i] == raws[..i];
      var record := decode(raws[i]);
      if record.None? || idOf(record.value) in seenIds {
        continue;
      }
      seenIds := seenIds + {idOf(record.value)};
      parsed := parsed + [record.value];
    }
    assert raws[..|raws|] == raws;
  }

  ghost predicate HaveDistinctIds<R(!new)>(records: seq<R>, idOf: R -> string) {
    forall i, j :: 0 <= i < j < |records| ==> idOf(records[i]) != idOf(records[j])
  }

  lemma {:induction false} ParsedIdsAreDistinct<R(!new)>(raws: seq<Raw>, decode: Raw -> Option<R>, idOf: R -> string)
    ensures HaveDistinctIds(Parse(raws, decode, idOf), idOf)
  {
    if raws != [] {
      var init := raws[..|raws| - 1];
      var earlier, parsed := Parse(init, decode, idOf), Parse(raws, decode, idOf);
      ParsedIdsAreDistinct(init, decode, idOf);
      forall i, j | 0 <= i < j < |parsed| ensures idOf(parsed[i]) != idOf(parsed[j]) {
        assert parsed[i] == earlier[i] && earlier[i] in earlier;
        assert idOf(earlier[i]) in Ids(earlier, idOf);
        assert j < |earlier| ==> parsed[j] == earlier[j];
      }
    }
  }

  /** Every parsed record was decoded from a stored entry. */
  lemma {:induction false} ParsedFromAnEntry<R(!new)>(raws: seq<Raw>, decode: Raw -> Option<R>, idOf: R -> string, r: R)
    requires r in Parse(raws, decode, idOf)
    ensures exists raw :: raw in raws && decode(raw) == Some(r)
  {
    var init, last := raws[..|raws| - 1], raws[|raws| - 1];
    if r in Parse(init, decode, idOf) {
      ParsedFromAnEntry(init, decode, idOf, r);
    } else {
      assert last in raws;
    }
  }

  /** Entry `i` is the first one that decodes to a record with its id. */
  predicate IsFirst<R(!new)>(raws: seq<Raw>, decode: Raw -> Option<R>, idOf: R -> string, i: nat) {
    && i < |raws| && decode(raws[i]).Some?
    && forall k :: 0 <= k < i && decode(raws[k]).Some? ==> idOf(decode(raws[k]).value) != idOf(decode(raws[i]).value)
  }

  lemma {:induction false} ParsedIdsAreThoseDecoded<R(!new)>(raws: seq<Raw>, decode: Raw -> Option<R>, idOf: R -> string, id: string)
    ensures id in Ids(Parse(raws, decode, idOf), idOf) <==> exists raw :: raw in raws && decode(raw).Some? && idOf(decode(raw).value) == id
  {
    if raws != [] {
      var init, last := raws[..|raws| - 1], raws[|raws| - 1];
      ParsedIdsAreThoseDecoded(init, decode, idOf, id);
      assert forall raw :: raw in raws <==> raw in init || raw == last;
      if decode(last).Some? {
        assert idOf(decode(last).value) == id ==> decode(last).value in Parse(raws, decode, idOf) || id in Ids(Parse(init, decode, idOf), idOf);
      }
      assert forall r :: r in Parse(raws, decode, idOf) ==> r in Parse(init, decode, idOf) || decode(last) == Some(r);
      assert forall r :: r in Parse(init, decode, idOf) ==> r in Parse(raws, decode, idOf);
    }
  }

  /** Record `r` was decoded from the first entry of its id. */
  ghost predicate ComesFirst<R(!new)>(raws: seq<Raw>, decode: Raw -> Option<R>, idOf: R -> string, r: R) {
    exists i: nat :: IsFirst(raws, decode, idOf, i) && decode(raws[i]) == Some(r)
  }

  lemma FirstOneMore<R(!new)>(raws: seq<Raw>, decode: Raw -> Option<R>, idOf: R -> string, r: R)
    requires raws != []
    ensures var n := |raws| - 1;
            ComesFirst(raws, decode, idOf, r) <==>
            ComesFirst(raws[..n], decode, idOf, r) || (IsFirst(raws, decode, idOf, n) && decode(raws[n]) == Some(r))
  {
    var n := |raws| - 1;
    forall i: nat | i < n ensures IsFirst(raws, decode, idOf, i) <==> IsFirst(raws[..n], decode, idOf, i) {
      assert forall k :: 0 <= k < n ==> raws[..n][k] == raws[k];
    }
    if i: nat :| IsFirst(raws[..n], decode, idOf, i) && decode(raws[..n][i]) == Some(r) {
      assert IsFirst(raws, decode, idOf, i) && raws[i] == raws[..n][i];
    }
    if i: nat :| IsFirst(raws, decode, idOf, i) && decode(raws[i]) == Some(r) && i < n {
      assert IsFirst(raws[..n], decode, idOf, i) && raws[i] == raws[..n][i];
    }
  }

  lemma LastIsFirst<R(!new)>(raws: seq<Raw>, decode: Raw -> Option<R>, idOf: R -> string)
    requires raws != [] && decode(raws[|raws| - 1]).Some?
    ensures var n := |raws| - 1;
            IsFirst(raws, decode, idOf, n) <==> idOf(decode(raws[n]).value) !in Ids(Parse(raws[..n], decode, idOf), idOf)
  {
    hide Parse, Ids;
    var n := |raws| - 1;
    var init, id := raws[..n], idOf(decode(raws[n]).value);
    ParsedIdsAreThoseDecoded(init, decode, idOf, id);
    if raw :| raw in init && decode(raw).Some? && idOf(decode(raw).value) == id {
      var k :| 0 <= k < n && raws[k] == raw;
    }
    assert forall k :: 0 <= k < n ==> raws[k] in init by { assert forall k :: 0 <= k < n ==> raws[k] == init[k]; }
  }

  /** The parsed records are those of the first entries of their ids: later duplicates do not count,
      and nothing that decodes is lost. */
  lemma {:induction false} ParsedAreTheFirst<R(!new)>(raws: seq<Raw>, decode: Raw -> Option<R>, idOf: R -> string)
    ensures forall r :: r in Parse(raws, decode, idOf) <==> ComesFirst(raws, decode, idOf, r)
  {
    hide ComesFirst, Ids, IsFirst;
    if raws == [] {
      assert forall r :: !ComesFirst(raws, decode, idOf, r) by { NothingComesFirst(decode, idOf); }
    } else {
      var n := |raws| - 1;
      ParsedAreTheFirst(raws[..n], decode, idOf);
      forall r ensures r in Parse(raws, decode, idOf) <==> ComesFirst(raws, decode, idOf, r) {
        FirstOneMore(raws, decode, idOf, r);
        if decode(raws[n]).Some? {
          LastIsFirst(raws, decode, idOf);
        }
      }
    }
  }

  lemma NothingComesFirst<R(!new)>(decode: Raw -> Option<R>, idOf: R -> string)
    ensures forall r :: !ComesFirst([], decode, idOf, r)
  {}

  /** They come in the order of their entries: parsing the front of a list gives the front of the parse. */
  lemma {:induction false} ParsedInOrder<R(!new)>(raws: seq<Raw>, decode: Raw -> Option<R>, idOf: R -> string, k: nat)
    requires k <= |raws|
    ensures Parse(raws[..k], decode, idOf) <= Parse(raws, decode, idOf)
  {
    if k < |raws| {
      var init := raws[..|raws| - 1];
      ParsedInOrder(init, decode, idOf, k);
      assert init[..k] == raws[..k];
    } else {
      assert raws[..k] == raws;
    }
  }

  // ----- edits on raw lists

  /** The dictionaries of the list whose id is another one. */
  function WithoutEntries(raws: seq<Raw>, field: Field, id: string): (kept: seq<Raw>)
    ensures |kept| <= |raws|
  {
    if raws == [] then []
    else
      var last := raws[|raws| - 1];
      WithoutEntries(raws[..|raws| - 1], field, id) + if last.Dict? && Get(last, field) != id then [last] else []
  }

  function Dictionaries(raws: seq<Raw>): seq<Raw> {
    if raws == [] then []
    else
      var last := raws[|raws| - 1];
      Dictionaries(raws[..|raws| - 1]) + if last.Dict? then [last] else []
  }

  predicate IsStored(raws: seq<Raw>, field: Field, id: string) {
    exists raw :: raw in raws && raw.Dict? && Get(raw, field) == id
  }

  /** The edit that a delete makes when it compares list lengths finds exactly the stored ids. */
  lemma {:induction false} ShorterMeansStored(raws: seq<Raw>, field: Field, id: string)
    ensures |WithoutEntries(raws, field, id)| <= |Dictionaries(raws)|
    ensures |WithoutEntries(raws, field, id)| == |Dictionaries(raws)| <==> !IsStored(raws, field, id)
  {
    if raws != [] {
      var init, last := raws[..|raws| - 1], raws[|raws| - 1];
      ShorterMeansStored(init, field, id);
      assert forall raw :: raw in raws <==> raw in init || raw == last;
    }
  }

  function Without<R(!new, ==)>(records: seq<R>, idOf: R -> string, id: string): seq<R> {
    if records == [] then []
    else
      var last := records[|records| - 1];
      Without(records[..|records| - 1], idOf, id) + if idOf(last) != id then [last] else []
  }

  lemma {:induction false} WithoutContains<R(!new)>(records: seq<R>, idOf: R -> string, id: string)
    ensures forall r :: r in Without(records, idOf, id) <==> r in records && idOf(r) != id
  {
    if records != [] {
      var init, last := records[..|records| - 1], records[|records| - 1];
      WithoutContains(init, idOf, id);
      assert forall r :: r in records <==> r in init || r == last;
    }
  }

  lemma WithoutOneMore<R(!new)>(records: seq<R>, last: R, idOf: R -> string, id: string)
    ensures Without(records + [last], idOf, id) == Without(records, idOf, id) + if idOf(last) != id then [last] else []
  {
    assert (records + [last])[..|records|] == records;
  }

  /** Deleting entries refines deleting the record: duplicates and malformed entries of other ids
      never come back to light, and nothing else is lost. */
  lemma {:induction false} DeleteRefines<R(!new)>(raws: seq<Raw>, decode: Raw -> Option<R>, idOf: R -> string,
                                           field: Field, id: string)
    requires DecodesId(decode, idOf, field)
    ensures Parse(WithoutEntries(raws, field, id), decode, idOf) == Without(Parse(raws, decode, idOf), idOf, id)
  {
    if raws != [] {
      var init, last := raws[..|raws| - 1], raws[|raws| - 1];
      DeleteRefines(init, decode, idOf, field, id);
      var kept, earlier := WithoutEntries(init, field, id), Parse(init, decode, idOf);
      WithoutContains(earlier, idOf, id);
      assert (kept + [last])[..|kept|] == kept;
      assert kept + [] == kept;
      var record := decode(last);
      if record.Some? {
        WithoutOneMore(earlier, record.value, idOf, id);
        assert Without(earlier, idOf, id) + [] == Without(earlier, idOf, id);
      }
    }
  }

  /** Replacing entries refines replacing the record: it comes last, in place of the old one. */
  lemma UpsertRefines<R(!new)>(raws: seq<Raw>, decode: Raw -> Option<R>, idOf: R -> string, field: Field, entry: Raw)
    requires DecodesId(decode, idOf, field) && decode(entry).Some?
    ensures Parse(WithoutEntries(raws, field, Get(entry, field)) + [entry], decode, idOf)
         == Without(Parse(raws, decode, idOf), idOf, Get(entry, field)) + [decode(entry).value]
  {
    var id := Get(entry, field);
    var kept := WithoutEntries(raws, field, id);
    DeleteRefines(raws, decode, idOf, field, id);
    WithoutContains(Parse(raws, decode, idOf), idOf, id);
    assert (kept + [entry])[..|kept|] == kept;
  }
}
