/** Bringing stored people in line with Home Assistant's persons, with merging of overlapping records. */
module PeopleReconciliation {
  import opened Wrappers
  import opened FreshNames
  import opened RoomReconciliation

  datatype Person = Person(slug: string, entity: string, link: HaLink, presenceRule: Option<string>, source: Option<string>,
                           reviewed: bool, other: map<string, string>)

  /** What stands behind the first dot of an entity id. */
  function ObjectId(entity: string): string {
    if entity == "" then "" else if entity[0] == '.' then entity[1..] else ObjectId(entity[1..])
  }

  /** Home Assistant's string functions: `slugify` of names, and case folding. */
  datatype StringTools = StringTools(slugify: string -> string, fold: string -> string)

  // ----- binding

  function NamedLike(order: seq<string>, names: map<string, string>, name: string, fold: string -> string): seq<string>
    requires forall id <- order :: id in names
  {
    if order == [] then []
    else
      var last := order[|order| - 1];
      NamedLike(order[..|order| - 1], names, name, fold) + if fold(names[last]) == fold(name) then [last] else []
  }

  /** The person entity a record is bound to by its slug or name, if it has none yet. */
  function MatchedEntity(person: Person, inventory: Inventory, text: StringTools): string
    requires inventory.Valid()
  {
    var display := Text(person.link.displayName);
    if person.slug != "" && "person." + person.slug in inventory.names then "person." + person.slug
    else if display != "" && text.slugify(display) != "" && "person." + text.slugify(display) in inventory.names then
      "person." + text.slugify(display)
    else if display == "" then ""
    else
      var alike := NamedLike(inventory.order, inventory.names, display, text.fold);
      if |alike| == 1 then alike[0] else ""
  }

  function ReconciledPerson(person: Person, inventory: Inventory, text: StringTools): Person
    requires inventory.Valid()
  {
    var entity := if person.entity != "" then person.entity else MatchedEntity(person, inventory, text);
    var rule := Text(person.presenceRule);
    person.(entity := entity,
            presenceRule := Some(if rule != "" then rule else "resident"),
            source := Some("ha_person_registry"),
            link := if entity != "" && entity in inventory.names then Synced(person.link, person.reviewed, inventory.names[entity])
                    else Orphaned(person.link))
  }

  // ----- merging

  predicate Overlap(left: Person, right: Person) {
    || (left.entity != "" && left.entity == right.entity)
    || (left.slug != "" && left.slug == right.slug)
  }

  function StatusRank(status: string): nat {
    if status == "configured" then 0 else if status == "orphaned" then 1 else 2
  }

  predicate IsPreferred(left: Person, right: Person) {
    var leftStatus, rightStatus := Text(left.link.syncStatus), Text(right.link.syncStatus);
    if left.reviewed != right.reviewed then left.reviewed
    else if leftStatus != rightStatus then StatusRank(leftStatus) <= StatusRank(rightStatus)
    else '_' !in left.slug || '_' in right.slug
  }

  const MERGED_FIELDS: set<string> := {"presence_method", "sources", "group_strategy", "required", "weight_threshold",
    "source_weights", "arrive_hold_s", "leave_hold_s", "enable_override"}

  function Merged(primary: Person, secondary: Person): Person {
    var (keep, merge) := if IsPreferred(primary, secondary) then (primary, secondary) else (secondary, primary);
    var entity := if keep.entity != "" then keep.entity else merge.entity;
    var display := if Text(keep.link.displayName) == "" && Text(merge.link.displayName) != "" then merge.link.displayName
                   else keep.link.displayName;
    var reviewed := primary.reviewed || secondary.reviewed;
    Person(keep.slug, entity,
      HaLink(display, if keep.link.haSourceName.Some? then keep.link.haSourceName else merge.link.haSourceName,
             Some(if reviewed then "configured" else if entity != "" then "new" else "orphaned")),
      if keep.presenceRule.Some? then keep.presenceRule else merge.presenceRule,
      Some("ha_person_registry"), reviewed,
      (map field <- merge.other | field in MERGED_FIELDS :: merge.other[field]) + keep.other)
  }

  /** The records so far, and the slugs and entities they have claimed. */
  datatype Collected = Collected(people: seq<Person>, slugs: set<string>, entities: set<string>)

  function FirstOverlap(people: seq<Person>, item: Person): (index: nat)
    ensures index <= |people|
    ensures index < |people| ==> Overlap(people[index], item)
    ensures forall i :: 0 <= i < index ==> !Overlap(people[i], item)
  {
    if people == [] then 0
    else
      var index := FirstOverlap(people[..|people| - 1], item);
      if index < |people| - 1 || Overlap(people[|people| - 1], item) then index else |people|
  }

  /** Merging does not touch the claims, even when the record kept has another slug or entity. */
  function Collect(c: Collected, item: Person): Collected {
    var index := FirstOverlap(c.people, item);
    if index < |c.people| then
      c.(people := c.people[index := Merged(c.people[index], item)])
    else
      Collected(c.people + [item],
        c.slugs + (if item.slug != "" then {item.slug} else {}),
        c.entities + (if item.entity != "" then {item.entity} else {}))
  }

  function CollectAll(people: seq<Person>, inventory: Inventory, text: StringTools): Collected
    requires inventory.Valid()
  {
    if people == [] then Collected([], {}, {})
    else Collect(CollectAll(people[..|people| - 1], inventory, text), ReconciledPerson(people[|people| - 1], inventory, text))
  }

  // ----- adding

  const NEW_PERSON_DEFAULTS: map<string, string> := map["presence_method" := "ha_person", "arrive_hold_s" := "10",
    "leave_hold_s" := "120", "enable_override" := ""]

  function NewPerson(entity: string, slug: string, haName: string): Person {
    Person(slug, entity, NewLink(haName, slug), Some("resident"), Some("ha_person_registry"), false, NEW_PERSON_DEFAULTS)
  }

  function SlugsOf(people: seq<Person>): set<string> {
    set p <- people :: p.slug
  }

  function AddedPeople(order: seq<string>, names: map<string, string>, claimed: set<string>, slugs: set<string>): seq<Person>
    requires forall id <- order :: id in names
  {
    if order == [] then []
    else
      var init, entity := order[..|order| - 1], order[|order| - 1];
      var earlier := AddedPeople(init, names, claimed, slugs);
      if entity in claimed then earlier
      else earlier + [NewPerson(entity, FreshName(ObjectId(entity), slugs + SlugsOf(earlier)), names[entity])]
  }

  function ReconcilePeople(people: seq<Person>, inventory: Inventory, text: StringTools): seq<Person>
    requires inventory.Valid()
  {
    var collected := CollectAll(people, inventory, text);
    collected.people + AddedPeople(inventory.order, inventory.names, collected.entities, collected.slugs)
  }

  // ----- one pass over people that do not overlap

  function ReconciledAll(people: seq<Person>, inventory: Inventory, text: StringTools): (r: seq<Person>)
    requires inventory.Valid()
    ensures |r| == |people|
    ensures forall i :: 0 <= i < |people| ==> r[i] == ReconciledPerson(people[i], inventory, text)
  {
    seq(|people|, i requires 0 <= i < |people| => ReconciledPerson(people[i], inventory, text))
  }

  predicate NoneOverlap(people: seq<Person>) {
    forall i, j :: 0 <= i < j < |people| ==> !Overlap(people[i], people[j])
  }

  function EntitiesOf(people: seq<Person>): set<string> {
    set p <- people | p.entity != "" :: p.entity
  }

  function NonEmptySlugs(people: seq<Person>): set<string> {
    set p <- people | p.slug != "" :: p.slug
  }

  lemma ClaimsOneMore(people: seq<Person>, last: Person)
    ensures EntitiesOf(people + [last]) == EntitiesOf(people) + if last.entity != "" then {last.entity} else {}
    ensures NonEmptySlugs(people + [last]) == NonEmptySlugs(people) + if last.slug != "" then {last.slug} else {}
  {
    assert forall p :: p in people + [last] <==> p in people || p == last;
  }

  /** Without overlaps nothing is merged and every slug and entity is claimed. */
  lemma {:induction false} CollectedWithoutOverlap(people: seq<Person>, inventory: Inventory, text: StringTools)
    requires inventory.Valid() && NoneOverlap(ReconciledAll(people, inventory, text))
    ensures var all := ReconciledAll(people, inventory, text);
            CollectAll(people, inventory, text) == Collected(all, NonEmptySlugs(all), EntitiesOf(all))
  {
    hide ReconciledPerson, EntitiesOf, NonEmptySlugs;
    var all := ReconciledAll(people, inventory, text);
    if people == [] {
      assert all == [] && EntitiesOf(all) == {} && NonEmptySlugs(all) == {} by { NoClaims(); }
    } else {
      var init, last := people[..|people| - 1], ReconciledPerson(people[|people| - 1], inventory, text);
      var earlier := ReconciledAll(init, inventory, text);
      assert all == earlier + [last];
      CollectedWithoutOverlap(init, inventory, text);
      assert FirstOverlap(earlier, last) == |earlier| by {
        forall i | 0 <= i < |earlier| ensures !Overlap(earlier[i], last) {
          assert all[i] == earlier[i] && all[|earlier|] == last;
        }
      }
      ClaimsOneMore(earlier, last);
    }
  }

  lemma NoClaims()
    ensures EntitiesOf([]) == {} && NonEmptySlugs([]) == {}
  {}

  lemma PersonReconciledTwice(person: Person, inventory: Inventory, text: StringTools)
    requires inventory.Valid()
    ensures var once := ReconciledPerson(person, inventory, text);
            ReconciledPerson(once, inventory, text) == once
  {
    var entity := if person.entity != "" then person.entity else MatchedEntity(person, inventory, text);
    if entity != "" && entity in inventory.names {
      SyncedTwice(person.link, person.reviewed, inventory.names[entity]);
    }
  }

  // ----- the people added

  /** Home Assistant's entity ids have an object id behind the dot. */
  predicate IsEntityId(id: string) {
    id != "" && ObjectId(id) != ""
  }

  predicate AreEntityIds(order: seq<string>) {
    forall k :: 0 <= k < |order| ==> IsEntityId(order[k])
  }

  predicate IsAddedPerson(p: Person, order: seq<string>, names: map<string, string>, claimed: set<string>, slugs: set<string>) {
    && p.entity in order && p.entity != "" && p.entity in names && p.entity !in claimed
    && p.slug != "" && p.slug !in slugs
    && p == NewPerson(p.entity, p.slug, names[p.entity])
  }

  lemma NewPersonIsAdded(entity: string, earlier: seq<Person>, order: seq<string>, names: map<string, string>,
                         claimed: set<string>, slugs: set<string>)
    requires entity in order && AreEntityIds(order) && entity in names && entity !in claimed
    ensures var p := NewPerson(entity, FreshName(ObjectId(entity), slugs + SlugsOf(earlier)), names[entity]);
            && IsAddedPerson(p, order, names, claimed, slugs) && p.entity == entity
            && (forall i :: 0 <= i < |earlier| ==> earlier[i].slug != p.slug)
  {
    hide ObjectId;
    var name := FreshName(ObjectId(entity), slugs + SlugsOf(earlier));
    FreshNameIsNonEmpty(ObjectId(entity), slugs + SlugsOf(earlier));
    forall i | 0 <= i < |earlier| ensures earlier[i].slug != name {
      assert earlier[i] in earlier;
      assert earlier[i].slug in SlugsOf(earlier);
    }
  }

  lemma {:induction false} AddedPeopleAreNew(order: seq<string>, names: map<string, string>, claimed: set<string>,
                                             slugs: set<string>, i: nat)
    requires AreEntityIds(order) && forall id <- order :: id in names
    requires i < |AddedPeople(order, names, claimed, slugs)|
    ensures IsAddedPerson(AddedPeople(order, names, claimed, slugs)[i], order, names, claimed, slugs)
  {
    hide NewPerson, FreshName, SlugsOf, IsEntityId;
    var init, entity := order[..|order| - 1], order[|order| - 1];
    var earlier := AddedPeople(init, names, claimed, slugs);
    if i < |earlier| {
      AddedPeopleAreNew(init, names, claimed, slugs, i);
    } else {
      NewPersonIsAdded(entity, earlier, order, names, claimed, slugs);
    }
  }

  lemma {:induction false} AddedPeopleDiffer(order: seq<string>, names: map<string, string>, claimed: set<string>,
                                             slugs: set<string>, i: nat, j: nat)
    requires AreEntityIds(order) && forall id <- order :: id in names
    requires forall m, n :: 0 <= m < n < |order| ==> order[m] != order[n]
    requires i < j < |AddedPeople(order, names, claimed, slugs)|
    ensures !Overlap(AddedPeople(order, names, claimed, slugs)[i], AddedPeople(order, names, claimed, slugs)[j])
  {
    hide NewPerson, FreshName, SlugsOf, IsEntityId;
    var init, entity := order[..|order| - 1], order[|order| - 1];
    var earlier := AddedPeople(init, names, claimed, slugs);
    if j < |earlier| {
      AddedPeopleDiffer(init, names, claimed, slugs, i, j);
    } else {
      AddedPeopleAreNew(init, names, claimed, slugs, i);
      NewPersonIsAdded(entity, earlier, order, names, claimed, slugs);
      assert entity !in init;
    }
  }

  lemma {:induction false} UnclaimedEntitiesAreAdded(order: seq<string>, names: map<string, string>,
                                                     claimed: set<string>, slugs: set<string>, entity: string)
    returns (i: nat)
    requires AreEntityIds(order) && forall id <- order :: id in names
    requires entity in order && entity !in claimed
    ensures i < |AddedPeople(order, names, claimed, slugs)| && AddedPeople(order, names, claimed, slugs)[i].entity == entity
  {
    hide NewPerson, FreshName, SlugsOf, IsEntityId;
    var init, last := order[..|order| - 1], order[|order| - 1];
    if entity in init {
      i := UnclaimedEntitiesAreAdded(init, names, claimed, slugs, entity);
    } else {
      var earlier := AddedPeople(init, names, claimed, slugs);
      NewPersonIsAdded(last, earlier, order, names, claimed, slugs);
      i := |earlier|;
    }
  }

  lemma {:induction false} NobodyToAdd(order: seq<string>, names: map<string, string>, claimed: set<string>, slugs: set<string>)
    requires forall id <- order :: id in names && id in claimed
    ensures AddedPeople(order, names, claimed, slugs) == []
  {
    if order != [] {
      NobodyToAdd(order[..|order| - 1], names, claimed, slugs);
    }
  }

  // ----- the second pass

  /** The people added to `people` when none of them overlap. */
  function AddedTo(people: seq<Person>, inventory: Inventory, text: StringTools): seq<Person>
    requires inventory.Valid()
  {
    var all := ReconciledAll(people, inventory, text);
    AddedPeople(inventory.order, inventory.names, EntitiesOf(all), NonEmptySlugs(all))
  }

  predicate AreSeparate(people: seq<Person>, inventory: Inventory, text: StringTools)
    requires inventory.Valid()
  {
    NoneOverlap(ReconciledAll(people, inventory, text)) && AreEntityIds(inventory.order)
  }

  lemma FirstPass(people: seq<Person>, inventory: Inventory, text: StringTools)
    requires inventory.Valid() && AreSeparate(people, inventory, text)
    ensures ReconcilePeople(people, inventory, text) == ReconciledAll(people, inventory, text) + AddedTo(people, inventory, text)
  {
    CollectedWithoutOverlap(people, inventory, text);
  }

  /** Reconciling an added person again keeps its slug and entity, and changes nothing else exactly
      when the entity has a name. */
  lemma AddedPersonIsInStep(people: seq<Person>, inventory: Inventory, text: StringTools, j: nat)
    requires inventory.Valid() && AreSeparate(people, inventory, text) && j < |AddedTo(people, inventory, text)|
    ensures var p, all := AddedTo(people, inventory, text)[j], ReconciledAll(people, inventory, text);
            && IsAddedPerson(p, inventory.order, inventory.names, EntitiesOf(all), NonEmptySlugs(all))
            && ReconciledPerson(p, inventory, text).slug == p.slug && ReconciledPerson(p, inventory, text).entity == p.entity
            && (ReconciledPerson(p, inventory, text) == p <==> inventory.names[p.entity] != "")
  {
    hide AddedPeople, ReconciledAll, EntitiesOf, NonEmptySlugs, AreEntityIds, NoneOverlap;
    var all := ReconciledAll(people, inventory, text);
    AddedPeopleAreNew(inventory.order, inventory.names, EntitiesOf(all), NonEmptySlugs(all), j);
    var p := AddedTo(people, inventory, text)[j];
    NewLinkIsInStep(inventory.names[p.entity], p.slug);
  }

  lemma OldAndNewDoNotOverlap(all: seq<Person>, i: nat, p: Person, order: seq<string>, names: map<string, string>)
    requires i < |all| && IsAddedPerson(p, order, names, EntitiesOf(all), NonEmptySlugs(all))
    ensures !Overlap(all[i], p)
  {
    assert all[i] in all;
    assert all[i].entity != "" ==> all[i].entity in EntitiesOf(all);
    assert all[i].slug != "" ==> all[i].slug in NonEmptySlugs(all);
  }

  /** The records of a second pass: in place, and still without overlaps. */
  lemma SecondPassRecords(people: seq<Person>, inventory: Inventory, text: StringTools, i: nat)
    requires inventory.Valid() && AreSeparate(people, inventory, text)
    requires i < |ReconcilePeople(people, inventory, text)|
    ensures var once := ReconcilePeople(people, inventory, text);
            var again := ReconciledPerson(once[i], inventory, text);
            && again.slug == once[i].slug && again.entity == once[i].entity
            && (i < |people| ==> again == once[i] == ReconciledAll(people, inventory, text)[i])
            && (i >= |people| ==> i - |people| < |AddedTo(people, inventory, text)| && once[i] == AddedTo(people, inventory, text)[i - |people|])
  {
    hide AddedTo, ReconcilePeople, ReconciledPerson;
    FirstPass(people, inventory, text);
    if i < |people| {
      PersonReconciledTwice(people[i], inventory, text);
    } else {
      AddedPersonIsInStep(people, inventory, text, i - |people|);
    }
  }

  lemma PeopleStaySeparate(people: seq<Person>, inventory: Inventory, text: StringTools)
    requires inventory.Valid() && AreSeparate(people, inventory, text)
    ensures AreSeparate(ReconcilePeople(people, inventory, text), inventory, text)
  {
    hide AddedPeople, AddedTo, ReconcilePeople, ReconciledPerson, EntitiesOf, NonEmptySlugs, AreEntityIds, IsAddedPerson;
    var once, all := ReconcilePeople(people, inventory, text), ReconciledAll(people, inventory, text);
    var again := ReconciledAll(once, inventory, text);
    FirstPass(people, inventory, text);
    forall i, j | 0 <= i < j < |again| ensures !Overlap(again[i], again[j]) {
      SecondPassRecords(people, inventory, text, i);
      SecondPassRecords(people, inventory, text, j);
      if i >= |people| {
        AddedToAre(people, inventory, text);
        AddedPeopleDiffer(inventory.order, inventory.names, EntitiesOf(all), NonEmptySlugs(all), i - |people|, j - |people|);
      } else if j >= |people| {
        AddedPersonIsInStep(people, inventory, text, j - |people|);
        OldAndNewDoNotOverlap(all, i, once[j], inventory.order, inventory.names);
      } else {
        assert !Overlap(all[i], all[j]);
      }
    }
  }

  lemma AddedToAre(people: seq<Person>, inventory: Inventory, text: StringTools)
    requires inventory.Valid()
    ensures AddedTo(people, inventory, text) == AddedPeople(inventory.order, inventory.names,
      EntitiesOf(ReconciledAll(people, inventory, text)), NonEmptySlugs(ReconciledAll(people, inventory, text)))
  {}

  lemma EntityIsClaimed(people: seq<Person>, inventory: Inventory, text: StringTools, entity: string)
    requires inventory.Valid() && AreSeparate(people, inventory, text) && entity in inventory.order
    ensures entity in EntitiesOf(ReconciledAll(ReconcilePeople(people, inventory, text), inventory, text))
  {
    hide AddedPeople, AddedTo, ReconcilePeople, ReconciledPerson, NonEmptySlugs;
    var once, all := ReconcilePeople(people, inventory, text), ReconciledAll(people, inventory, text);
    FirstPass(people, inventory, text);
    var i: nat;
    if entity in EntitiesOf(all) {
      i :| 0 <= i < |all| && all[i].entity == entity;
    } else {
      var j := UnclaimedEntitiesAreAdded(inventory.order, inventory.names, EntitiesOf(all), NonEmptySlugs(all), entity);
      AddedToAre(people, inventory, text);
      i := |people| + j;
    }
    SecondPassRecords(people, inventory, text, i);
    var again := ReconciledAll(once, inventory, text);
    assert again[i] in again && again[i].entity == entity && entity != "";
  }

  lemma SecondPeoplePass(people: seq<Person>, inventory: Inventory, text: StringTools)
    requires inventory.Valid() && AreSeparate(people, inventory, text)
    ensures var once := ReconcilePeople(people, inventory, text);
            ReconcilePeople(once, inventory, text) == ReconciledAll(once, inventory, text)
  {
    hide AddedPeople, ReconcilePeople, ReconciledAll, NonEmptySlugs, EntitiesOf;
    var once := ReconcilePeople(people, inventory, text);
    PeopleStaySeparate(people, inventory, text);
    FirstPass(once, inventory, text);
    var again := ReconciledAll(once, inventory, text);
    forall entity | entity in inventory.order ensures entity in EntitiesOf(again) {
      EntityIsClaimed(people, inventory, text, entity);
    }
    NobodyToAdd(inventory.order, inventory.names, EntitiesOf(again), NonEmptySlugs(again));
    assert again + [] == again;
  }
}
