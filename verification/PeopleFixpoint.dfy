/** Exactly when one reconciliation of people is enough, overlapping records included. */
module PeopleFixpoint {
  import opened Wrappers
  import opened FreshNames
  import opened RoomReconciliation
  import opened PeopleReconciliation

  // ----- collecting records that are reconciled already

  function CollectItems(items: seq<Person>): Collected {
    if items == [] then Collected([], {}, {})
    else Collect(CollectItems(items[..|items| - 1]), items[|items| - 1])
  }

  lemma ItemsOneMore(items: seq<Person>, last: Person)
    ensures CollectItems(items + [last]) == Collect(CollectItems(items), last)
  {
    assert (items + [last])[..|items|] == items;
  }

  lemma {:induction false} CollectingReconciles(people: seq<Person>, inventory: Inventory, text: StringTools)
    requires inventory.Valid()
    ensures CollectAll(people, inventory, text) == CollectItems(ReconciledAll(people, inventory, text))
  {
    hide Collect, ReconciledPerson;
    if people != [] {
      var init, items := people[..|people| - 1], ReconciledAll(people, inventory, text);
      CollectingReconciles(init, inventory, text);
      assert items[..|items| - 1] == ReconciledAll(init, inventory, text);
    }
  }

  /** One step of collecting: merged into the first record it overlaps, or appended with its claims. */
  lemma CollectStep(c: Collected, item: Person)
    ensures var c', index := Collect(c, item), FirstOverlap(c.people, item);
            if index < |c.people| then
              && Overlap(c.people[index], item)
              && c' == c.(people := c.people[index := Merged(c.people[index], item)])
            else
              c' == Collected(c.people + [item], c.slugs + (if item.slug != "" then {item.slug} else {}),
                c.entities + (if item.entity != "" then {item.entity} else {}))
    ensures c.entities <= Collect(c, item).entities && c.slugs <= Collect(c, item).slugs
  {
    hide Merged;
  }

  lemma {:induction false} CollectingNeverGrows(items: seq<Person>)
    ensures |CollectItems(items).people| <= |items|
  {
    hide Collect;
    if items != [] {
      var init, last := items[..|items| - 1], items[|items| - 1];
      CollectingNeverGrows(init);
      CollectStep(CollectItems(init), last);
    }
  }

  /** Nothing was merged exactly when nothing overlaps, and then all slugs and entities are claimed. */
  lemma {:induction false} NothingMerged(items: seq<Person>)
    requires |CollectItems(items).people| == |items|
    ensures NoneOverlap(items)
    ensures CollectItems(items) == Collected(items, NonEmptySlugs(items), EntitiesOf(items))
  {
    hide EntitiesOf, NonEmptySlugs, Overlap, Collect, Merged;
    if items == [] {
      NoClaims();
    } else {
      var init, last := items[..|items| - 1], items[|items| - 1];
      CollectingNeverGrows(init);
      CollectStep(CollectItems(init), last);
      NothingMerged(init);
      assert FirstOverlap(init, last) == |init|;
      ClaimsOneMore(init, last);
      assert items == init + [last];
      forall i, j | 0 <= i < j < |items| ensures !Overlap(items[i], items[j]) {
        assert items[i] == init[i];
        assert j < |init| ==> items[j] == init[j];
      }
    }
  }

  lemma {:induction false} ClaimsAreKept(items: seq<Person>, k: nat)
    requires k <= |items|
    ensures CollectItems(items[..k]).entities <= CollectItems(items).entities
    ensures CollectItems(items[..k]).slugs <= CollectItems(items).slugs
  {
    hide Collect;
    if k == |items| {
      assert items[..k] == items;
    } else {
      var init := items[..|items| - 1];
      ClaimsAreKept(init, k);
      assert init[..k] == items[..k];
      CollectStep(CollectItems(init), items[|items| - 1]);
    }
  }

  /** Records whose entities are left unclaimed have all been merged. */
  lemma {:induction false} UnclaimedWereMerged(items: seq<Person>, k: nat)
    requires k <= |items|
    requires forall m :: k <= m < |items| ==> items[m].entity != "" && items[m].entity !in CollectItems(items).entities
    ensures |CollectItems(items[..k]).people| == |CollectItems(items).people|
  {
    hide Collect;
    if k == |items| {
      assert items[..k] == items;
    } else {
      var init := items[..|items| - 1];
      CollectStep(CollectItems(init), items[|items| - 1]);
      UnclaimedWereMerged(init, k);
      assert init[..k] == items[..k];
    }
  }

  // ----- the people added by one pass

  function AddedBy(c: Collected, inventory: Inventory): seq<Person>
    requires inventory.Valid()
  {
    AddedPeople(inventory.order, inventory.names, c.entities, c.slugs)
  }

  lemma AddedByAre(c: Collected, inventory: Inventory, text: StringTools, j: nat)
    requires inventory.Valid() && AreEntityIds(inventory.order) && j < |AddedBy(c, inventory)|
    ensures var p := AddedBy(c, inventory)[j];
            && p.entity in inventory.order && p.entity != "" && p.entity !in c.entities
            && p.slug != "" && p.slug !in c.slugs
            && ReconciledPerson(p, inventory, text).slug == p.slug && ReconciledPerson(p, inventory, text).entity == p.entity
            && (ReconciledPerson(p, inventory, text) == p <==> inventory.names[p.entity] != "")
  {
    hide AddedPeople, AreEntityIds;
    AddedPeopleAreNew(inventory.order, inventory.names, c.entities, c.slugs, j);
    var p := AddedBy(c, inventory)[j];
    NewLinkIsInStep(inventory.names[p.entity], p.slug);
  }

  // ----- exactly when one pass is enough

  /** The merged records are final: they overlap no more, are in step with the inventory, hold every
      claimed entity and no other one of the inventory, and leave the slugs given to new people
      alone; and the new people come from entities with names. */
  predicate OnePassIsEnough(people: seq<Person>, inventory: Inventory, text: StringTools)
    requires inventory.Valid()
  {
    var c := CollectAll(people, inventory, text);
    && NoneOverlap(c.people)
    && (forall p <- c.people :: ReconciledPerson(p, inventory, text) == p)
    && (forall entity <- inventory.order :: entity in c.entities <==> entity in EntitiesOf(c.people))
    && (forall p <- c.people :: p.slug !in SlugsOf(AddedBy(c, inventory)))
    && (forall entity <- inventory.order :: entity !in c.entities ==> inventory.names[entity] != "")
  }

  lemma EntityOfOne(people: seq<Person>, i: nat)
    requires i < |people| && people[i].entity != ""
    ensures people[i].entity in EntitiesOf(people)
  {
    assert people[i] in people;
  }

  lemma SlugOfOne(people: seq<Person>, i: nat)
    requires i < |people|
    ensures people[i].slug in SlugsOf(people)
  {
    assert people[i] in people;
  }

  lemma OnePassNoneOverlap(people: seq<Person>, inventory: Inventory, text: StringTools)
    requires inventory.Valid() && AreEntityIds(inventory.order) && OnePassIsEnough(people, inventory, text)
    ensures NoneOverlap(ReconcilePeople(people, inventory, text))
  {
    hide AddedPeople, CollectAll, ReconciledPerson, EntitiesOf, SlugsOf, AreEntityIds;
    var c := CollectAll(people, inventory, text);
    var kept, added := c.people, AddedBy(c, inventory);
    var once := kept + added;
    forall i, j | 0 <= i < j < |once| ensures !Overlap(once[i], once[j]) {
      if i >= |kept| {
        AddedPeopleDiffer(inventory.order, inventory.names, c.entities, c.slugs, i - |kept|, j - |kept|);
      } else if j >= |kept| {
        AddedByAre(c, inventory, text, j - |kept|);
        SlugOfOne(added, j - |kept|);
        assert kept[i] in kept;
        if kept[i].entity == added[j - |kept|].entity {
          EntityOfOne(kept, i);
        }
      }
    }
  }

  lemma OnePassInStep(people: seq<Person>, inventory: Inventory, text: StringTools)
    requires inventory.Valid() && AreEntityIds(inventory.order) && OnePassIsEnough(people, inventory, text)
    ensures var once := ReconcilePeople(people, inventory, text); ReconciledAll(once, inventory, text) == once
  {
    hide AddedPeople, CollectAll, ReconciledPerson, EntitiesOf, SlugsOf, AreEntityIds, NoneOverlap;
    var c, once := CollectAll(people, inventory, text), ReconcilePeople(people, inventory, text);
    var again := ReconciledAll(once, inventory, text);
    forall i | 0 <= i < |once| ensures again[i] == once[i] {
      if i < |c.people| {
        assert once[i] == c.people[i] && c.people[i] in c.people;
      } else {
        AddedByAre(c, inventory, text, i - |c.people|);
        assert once[i] == AddedBy(c, inventory)[i - |c.people|];
      }
    }
  }

  lemma EveryEntityIsHeld(people: seq<Person>, inventory: Inventory, text: StringTools, entity: string)
    requires inventory.Valid() && AreEntityIds(inventory.order) && OnePassIsEnough(people, inventory, text)
    requires entity in inventory.order
    ensures entity in EntitiesOf(ReconcilePeople(people, inventory, text))
  {
    hide AddedPeople, CollectAll, ReconciledPerson, SlugsOf, NoneOverlap;
    var c, once := CollectAll(people, inventory, text), ReconcilePeople(people, inventory, text);
    if entity in c.entities {
      var p :| p in c.people && p.entity == entity && entity != "";
      assert p in once;
    } else {
      var j := UnclaimedEntitiesAreAdded(inventory.order, inventory.names, c.entities, c.slugs, entity);
      assert once[|c.people| + j] == AddedBy(c, inventory)[j] && once[|c.people| + j] in once;
      assert entity != "" by { var k :| 0 <= k < |inventory.order| && inventory.order[k] == entity; assert IsEntityId(inventory.order[k]); }
    }
  }

  lemma EnoughMeansFixpoint(people: seq<Person>, inventory: Inventory, text: StringTools)
    requires inventory.Valid() && AreEntityIds(inventory.order) && OnePassIsEnough(people, inventory, text)
    ensures var once := ReconcilePeople(people, inventory, text); ReconcilePeople(once, inventory, text) == once
  {
    hide OnePassIsEnough, AddedPeople, ReconcilePeople, CollectAll, ReconciledPerson, NonEmptySlugs, EntitiesOf, AreEntityIds, ReconciledAll;
    var once := ReconcilePeople(people, inventory, text);
    OnePassNoneOverlap(people, inventory, text);
    OnePassInStep(people, inventory, text);
    CollectedWithoutOverlap(once, inventory, text);
    forall entity | entity in inventory.order ensures entity in EntitiesOf(once) {
      EveryEntityIsHeld(people, inventory, text, entity);
    }
    NobodyToAdd(inventory.order, inventory.names, EntitiesOf(once), NonEmptySlugs(once));
    assert ReconcilePeople(once, inventory, text) == once + [] by { PassesAre(once, inventory, text); }
  }

  lemma PassesAre(people: seq<Person>, inventory: Inventory, text: StringTools)
    requires inventory.Valid()
    ensures var c := CollectAll(people, inventory, text);
            && ReconcilePeople(people, inventory, text) == c.people + AddedBy(c, inventory)
            && AddedBy(c, inventory) == AddedPeople(inventory.order, inventory.names, c.entities, c.slugs)
  {}

  /** A list that a pass leaves as it is had nothing to merge. */
  lemma FixpointsMergeNothing(once: seq<Person>, inventory: Inventory, text: StringTools)
    requires inventory.Valid() && AreEntityIds(inventory.order) && ReconcilePeople(once, inventory, text) == once
    ensures |CollectItems(ReconciledAll(once, inventory, text)).people| == |once|
  {
    hide AddedPeople, CollectAll, CollectItems, ReconciledPerson, EntitiesOf, NonEmptySlugs, AreEntityIds, AddedBy;
    var items := ReconciledAll(once, inventory, text);
    var c := CollectItems(items);
    CollectingReconciles(once, inventory, text);
    CollectingNeverGrows(items);
    PassesAre(once, inventory, text);
    var k, added := |c.people|, AddedBy(c, inventory);
    assert once == c.people + added;
    if k < |items| {
      forall m | k <= m < |items|
        ensures items[m].entity != "" && items[m].entity !in c.entities
        ensures items[m].slug !in c.slugs
      {
        AddedByAre(c, inventory, text, m - k);
        assert once[m] == added[m - k];
      }
      UnclaimedWereMerged(items, k);
      UnclaimedWereMerged(items, k + 1);
      MergedItemIsClaimed(items, k);
    }
  }

  /** A record that is the first one merged shares its slug or entity with a claimed record. */
  lemma MergedItemIsClaimed(items: seq<Person>, k: nat)
    requires k < |items| && |CollectItems(items[..k]).people| == k && |CollectItems(items[..k + 1]).people| == k
    ensures items[k].entity in CollectItems(items).entities || items[k].slug in CollectItems(items).slugs
  {
    hide Collect, EntitiesOf, NonEmptySlugs;
    var item, earlier := items[k], items[..k];
    ItemsOneMore(earlier, item);
    assert items[..k + 1] == earlier + [item];
    NothingMerged(earlier);
    CollectStep(CollectItems(earlier), item);
    var index := FirstOverlap(earlier, item);
    assert Overlap(earlier[index], item);
    ClaimsAreKept(items, k);
    ClaimsHold(earlier, index);
  }

  lemma ClaimsHold(people: seq<Person>, i: nat)
    requires i < |people|
    ensures people[i].entity != "" ==> people[i].entity in EntitiesOf(people)
    ensures people[i].slug != "" ==> people[i].slug in NonEmptySlugs(people)
  {
    assert people[i] in people;
  }

  lemma FixpointMeansEnough(people: seq<Person>, inventory: Inventory, text: StringTools)
    requires inventory.Valid() && AreEntityIds(inventory.order)
    requires var once := ReconcilePeople(people, inventory, text); ReconcilePeople(once, inventory, text) == once
    ensures OnePassIsEnough(people, inventory, text)
  {
    hide AddedPeople, CollectAll, CollectItems, ReconciledPerson, AreEntityIds, AddedBy, ReconcilePeople, Overlap, EntitiesOf, SlugsOf;
    var c, once := CollectAll(people, inventory, text), ReconcilePeople(people, inventory, text);
    var kept, added, items := c.people, AddedBy(c, inventory), ReconciledAll(once, inventory, text);
    PassesAre(people, inventory, text);
    SettledItems(once, inventory, text);
    forall p | p in added ensures p.slug != "" {
      var j :| 0 <= j < |added| && added[j] == p;
      AddedByAre(c, inventory, text, j);
    }
    forall p | p in kept ensures ReconciledPerson(p, inventory, text) == p && p.slug !in SlugsOf(added) {
      var i :| 0 <= i < |kept| && kept[i] == p;
      assert once[i] == p && items[i] == once[i];
      NewSlugsAreFree(once, kept, added, i);
    }
    forall i, j | 0 <= i < j < |kept| ensures !Overlap(kept[i], kept[j]) {
      assert once[i] == kept[i] && once[j] == kept[j];
    }
    forall entity | entity in inventory.order
      ensures entity in c.entities <==> entity in EntitiesOf(kept)
      ensures entity !in c.entities ==> inventory.names[entity] != ""
    {
      SettledEntity(people, inventory, text, entity);
    }
  }

  lemma NewSlugsAreFree(once: seq<Person>, kept: seq<Person>, added: seq<Person>, i: nat)
    requires once == kept + added && NoneOverlap(once) && i < |kept|
    requires forall p :: p in added ==> p.slug != ""
    ensures kept[i].slug !in SlugsOf(added)
  {
    if kept[i].slug in SlugsOf(added) {
      var j :| 0 <= j < |added| && added[j].slug == kept[i].slug;
      assert once[i] == kept[i] && once[|kept| + j] == added[j];
      assert Overlap(once[i], once[|kept| + j]);
    }
  }

  lemma SettledItems(once: seq<Person>, inventory: Inventory, text: StringTools)
    requires inventory.Valid() && AreEntityIds(inventory.order) && ReconcilePeople(once, inventory, text) == once
    ensures ReconciledAll(once, inventory, text) == once && NoneOverlap(once)
    ensures forall entity <- inventory.order :: entity in EntitiesOf(once)
  {
    hide AddedPeople, CollectAll, CollectItems, ReconciledPerson, AreEntityIds, AddedBy, ReconcilePeople, Overlap, EntitiesOf, NonEmptySlugs;
    var items := ReconciledAll(once, inventory, text);
    FixpointsMergeNothing(once, inventory, text);
    NothingMerged(items);
    CollectingReconciles(once, inventory, text);
    PassesAre(once, inventory, text);
    assert items == once;
    forall entity | entity in inventory.order ensures entity in EntitiesOf(once) {
      if entity !in EntitiesOf(once) {
        var j := UnclaimedEntitiesAreAdded(inventory.order, inventory.names, EntitiesOf(once), NonEmptySlugs(once), entity);
      }
    }
  }

  lemma SettledEntity(people: seq<Person>, inventory: Inventory, text: StringTools, entity: string)
    requires inventory.Valid() && AreEntityIds(inventory.order) && entity in inventory.order
    requires var once := ReconcilePeople(people, inventory, text); ReconcilePeople(once, inventory, text) == once
    ensures var c := CollectAll(people, inventory, text);
            && (entity in c.entities <==> entity in EntitiesOf(c.people))
            && (entity !in c.entities ==> inventory.names[entity] != "")
  {
    hide AddedPeople, CollectAll, ReconciledPerson, AreEntityIds, AddedBy, ReconcilePeople;
    var c, once := CollectAll(people, inventory, text), ReconcilePeople(people, inventory, text);
    var kept, added := c.people, AddedBy(c, inventory);
    PassesAre(people, inventory, text);
    SettledItems(once, inventory, text);
    if entity in c.entities {
      var i :| 0 <= i < |once| && once[i].entity == entity;
      if i >= |kept| {
        AddedByAre(c, inventory, text, i - |kept|);
      }
      assert kept[i] in kept;
    } else {
      var j := UnclaimedEntitiesAreAdded(inventory.order, inventory.names, c.entities, c.slugs, entity);
      AddedByAre(c, inventory, text, j);
      assert once[|kept| + j] == added[j] && ReconciledAll(once, inventory, text)[|kept| + j] == added[j];
      forall i | 0 <= i < |kept| ensures kept[i].entity != entity {
        assert once[i] == kept[i];
        assert !Overlap(once[i], once[|kept| + j]);
      }
    }
  }

  /** One pass reaches a fixpoint if and only if the merged records are final; overlapping people,
      merged ones and nameless entities are all covered. */
  lemma OnePassReachesAPeopleFixpoint(people: seq<Person>, inventory: Inventory, text: StringTools)
    requires inventory.Valid() && AreEntityIds(inventory.order)
    ensures var once := ReconcilePeople(people, inventory, text);
            ReconcilePeople(once, inventory, text) == once <==> OnePassIsEnough(people, inventory, text)
  {
    hide ReconcilePeople, OnePassIsEnough;
    if OnePassIsEnough(people, inventory, text) {
      EnoughMeansFixpoint(people, inventory, text);
    }
    var once := ReconcilePeople(people, inventory, text);
    if ReconcilePeople(once, inventory, text) == once {
      FixpointMeansEnough(people, inventory, text);
    }
  }

  // ----- people that do not overlap

  /** The entities that the next pass will add people for all have names. */
  predicate AddedEntitiesHaveNames(people: seq<Person>, inventory: Inventory, text: StringTools)
    requires inventory.Valid()
  {
    forall entity <- inventory.order ::
      entity !in EntitiesOf(ReconciledAll(people, inventory, text)) ==> inventory.names[entity] != ""
  }

  /** When no two people share a slug or an entity after binding, only the names matter. */
  lemma SeparatePeopleNeedOnlyNames(people: seq<Person>, inventory: Inventory, text: StringTools)
    requires inventory.Valid() && AreSeparate(people, inventory, text)
    ensures OnePassIsEnough(people, inventory, text) <==> AddedEntitiesHaveNames(people, inventory, text)
    ensures var once := ReconcilePeople(people, inventory, text);
            ReconcilePeople(once, inventory, text) == once <==> AddedEntitiesHaveNames(people, inventory, text)
  {
    hide AddedPeople, CollectAll, ReconciledPerson, ReconcilePeople, EntitiesOf, NonEmptySlugs, SlugsOf, AreEntityIds;
    var all := ReconciledAll(people, inventory, text);
    var c := CollectAll(people, inventory, text);
    CollectedWithoutOverlap(people, inventory, text);
    forall p | p in all ensures ReconciledPerson(p, inventory, text) == p && p.slug !in SlugsOf(AddedBy(c, inventory)) {
      var i :| 0 <= i < |all| && all[i] == p;
      PersonReconciledTwice(people[i], inventory, text);
      SlugIsNotGiven(c, inventory, text, i);
    }
    OnePassReachesAPeopleFixpoint(people, inventory, text);
  }

  lemma SlugIsNotGiven(c: Collected, inventory: Inventory, text: StringTools, i: nat)
    requires inventory.Valid() && AreEntityIds(inventory.order)
    requires i < |c.people| && c.slugs == NonEmptySlugs(c.people)
    ensures c.people[i].slug !in SlugsOf(AddedBy(c, inventory))
  {
    hide AddedPeople, AreEntityIds, AddedBy;
    var added := AddedBy(c, inventory);
    ClaimsHold(c.people, i);
    if c.people[i].slug in SlugsOf(added) {
      var j :| 0 <= j < |added| && added[j].slug == c.people[i].slug;
      AddedByAre(c, inventory, text, j);
    }
  }

  // ----- two overlapping people

  lemma CollectAllOneMore(people: seq<Person>, last: Person, inventory: Inventory, text: StringTools)
    requires inventory.Valid()
    ensures CollectAll(people + [last], inventory, text)
         == Collect(CollectAll(people, inventory, text), ReconciledPerson(last, inventory, text))
  {
    assert (people + [last])[..|people|] == people;
  }

  lemma FirstItemIsClaimed(item: Person)
    requires item.entity != ""
    ensures Collect(Collected([], {}, {}), item) == Collected([item], SlugIn(item), {item.entity})
  {
    hide Merged;
    assert FirstOverlap([], item) == 0;
    assert [] + [item] == [item];
    assert {} + SlugIn(item) == SlugIn(item);
  }

  function SlugIn(item: Person): set<string> {
    if item.slug != "" then {item.slug} else {}
  }

  lemma SecondItemIsMerged(first: Person, second: Person, slugs: set<string>, entities: set<string>)
    requires Overlap(first, second)
    ensures Collect(Collected([first], slugs, entities), second) == Collected([Merged(first, second)], slugs, entities)
  {
    hide Merged, Overlap;
    assert FirstOverlap([first], second) == 0;
  }

  lemma TwoOverlappingPeople(p: Person, q: Person, inventory: Inventory, text: StringTools)
    requires inventory.Valid()
    requires Overlap(ReconciledPerson(p, inventory, text), ReconciledPerson(q, inventory, text))
    requires ReconciledPerson(p, inventory, text).entity != ""
    ensures var rp, rq := ReconciledPerson(p, inventory, text), ReconciledPerson(q, inventory, text);
            CollectAll([p, q], inventory, text) == Collected([Merged(rp, rq)], SlugIn(rp), {rp.entity})
  {
    hide Merged, Collect, FirstOverlap;
    var rp, rq := ReconciledPerson(p, inventory, text), ReconciledPerson(q, inventory, text);
    assert [p, q] == [] + [p] + [q];
    CollectAllOneMore([], p, inventory, text);
    CollectAllOneMore([] + [p], q, inventory, text);
    FirstItemIsClaimed(rp);
    SecondItemIsMerged(rp, rq, SlugIn(rp), {rp.entity});
  }

  lemma AddsTheOther(x: string, y: string, names: map<string, string>, claimed: string, slugs: set<string>)
    requires x in names && y in names && x != y && claimed in {x, y}
    ensures var added, other := AddedPeople([x, y], names, {claimed}, slugs), if claimed == x then y else x;
            |added| == 1 && added[0].entity == other
  {
    hide FreshName, ObjectId, SlugsOf;
    assert [x, y][..1] == [x] && [x][..0] == [];
    assert AddedPeople([], names, {claimed}, slugs) == [];
    var first := AddedPeople([x], names, {claimed}, slugs);
    assert claimed == x ==> first == [];
    assert claimed != x ==> |first| == 1 && first[0].entity == x;
  }

  lemma OnePassOverAnOverlap(p: Person, q: Person, x: string, y: string, names: map<string, string>, text: StringTools)
    requires x != y && x != "" && y != "" && names.Keys == {x, y}
    requires p.entity in {x, y} && q.entity in {x, y} && Overlap(p, q)
    ensures Inventory([x, y], names).Valid()
    ensures var inventory := Inventory([x, y], names);
            var once := ReconcilePeople([p, q], inventory, text);
            && |once| == 2
            && once[0] == Merged(ReconciledPerson(p, inventory, text), ReconciledPerson(q, inventory, text))
            && once[1].entity == (if p.entity == x then y else x)
  {
    hide Merged, AddedPeople, CollectAll;
    var inventory := Inventory([x, y], names);
    assert ReconciledPerson(p, inventory, text).entity == p.entity && ReconciledPerson(q, inventory, text).entity == q.entity;
    TwoOverlappingPeople(p, q, inventory, text);
    AddsTheOther(x, y, names, p.entity, CollectAll([p, q], inventory, text).slugs);
  }

  /** Two people under one slug, the second one reviewed: the merged record keeps the second entity
      while the first one stays claimed, so the first pass loses it and the second brings it back. */
  lemma OverlapsBreakTheFixpoint(p: Person, q: Person, x: string, y: string, names: map<string, string>, text: StringTools)
    requires x != y && x != "" && y != "" && names.Keys == {x, y}
    requires p.entity == x && q.entity == y && p.slug == q.slug != "" && !p.reviewed && q.reviewed
    ensures Inventory([x, y], names).Valid()
    ensures var inventory := Inventory([x, y], names);
            var once := ReconcilePeople([p, q], inventory, text);
            ReconcilePeople(once, inventory, text) != once
  {
    hide AddedPeople, CollectAll;
    var inventory := Inventory([x, y], names);
    OnePassOverAnOverlap(p, q, x, y, names, text);
    var once := ReconcilePeople([p, q], inventory, text);
    assert once[0].entity == y && once[1].entity == y;
    assert once == [once[0], once[1]];
    OnePassOverAnOverlap(once[0], once[1], x, y, names, text);
    assert ReconcilePeople(once, inventory, text)[1].entity == x;
  }
}
