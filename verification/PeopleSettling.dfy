/** Repeated reconciliation of people comes to rest, whatever overlaps the stored list has.

    Merging can lose an entity that the next pass adds again under another slug, so a single pass
    proves nothing. What never comes back is reviewed records, records bound to no known entity and
    records without an entity: their number is the weight of a list. While it stays the same, each
    pass either settles one more record from the front for good, or the first unsettled record takes
    over a better one. */
module PeopleSettling {
  import opened Wrappers
  import opened FreshNames
  import opened RoomReconciliation
  import opened PeopleReconciliation
  import opened PeopleFixpoint

  // ----- weight and rank of records

  predicate IsBoundOnly(p: Person, inventory: Inventory) {
    !p.reviewed && p.entity in inventory.names
  }

  function Weight(p: Person, inventory: Inventory): nat {
    (if IsBoundOnly(p, inventory) then 0 else 1) + (if p.entity == "" then 1 else 0)
  }

  function TotalWeight(people: seq<Person>, inventory: Inventory): nat {
    if people == [] then 0
    else TotalWeight(people[..|people| - 1], inventory) + Weight(people[|people| - 1], inventory)
  }

  /** A lower rank takes over a higher one when two records are merged without losing weight. */
  function Rank(p: Person, inventory: Inventory): nat {
    if p.reviewed then 0
    else if p.entity !in inventory.names then 1
    else if '_' !in p.slug then 2
    else 3
  }

  predicate SameKeys(p: Person, q: Person) {
    p.slug == q.slug && p.entity == q.entity
  }

  /** A record bound to a known entity and not reviewed is marked as new by every pass and every merge. */
  predicate IsMarked(p: Person, inventory: Inventory) {
    IsBoundOnly(p, inventory) ==> Text(p.link.syncStatus) == "new"
  }

  predicate AreMarked(people: seq<Person>, inventory: Inventory) {
    forall p <- people :: IsMarked(p, inventory)
  }

  lemma MergingLosesWeightOrRank(left: Person, right: Person, inventory: Inventory)
    requires inventory.Valid() && Overlap(left, right) && IsMarked(left, inventory) && IsMarked(right, inventory)
    ensures var m := Merged(left, right);
            && IsMarked(m, inventory)
            && Weight(m, inventory) <= Weight(left, inventory) + Weight(right, inventory)
            && (Weight(m, inventory) == Weight(left, inventory) + Weight(right, inventory) ==>
                  || (SameKeys(m, left) && Rank(m, inventory) == Rank(left, inventory))
                  || (SameKeys(m, right) && Rank(m, inventory) < Rank(left, inventory)))
  {}

  lemma ReconcilingKeepsWeight(p: Person, inventory: Inventory, text: StringTools)
    requires inventory.Valid()
    ensures var r := ReconciledPerson(p, inventory, text);
            && IsMarked(r, inventory)
            && Weight(r, inventory) <= Weight(p, inventory)
            && (Weight(r, inventory) == Weight(p, inventory) ==> SameKeys(r, p) && Rank(r, inventory) == Rank(p, inventory))
  {
    hide MatchedEntity;
  }

  lemma WeightOneMore(people: seq<Person>, last: Person, inventory: Inventory)
    ensures TotalWeight(people + [last], inventory) == TotalWeight(people, inventory) + Weight(last, inventory)
  {
    assert (people + [last])[..|people|] == people;
  }

  lemma {:induction false} WeightOfReplaced(people: seq<Person>, i: nat, p: Person, inventory: Inventory)
    requires i < |people|
    ensures TotalWeight(people[i := p], inventory) + Weight(people[i], inventory)
         == TotalWeight(people, inventory) + Weight(p, inventory)
  {
    hide Weight;
    var n := |people| - 1;
    if i < n {
      WeightOfReplaced(people[..n], i, p, inventory);
      assert people[i := p][..n] == people[..n][i := p];
    } else {
      assert people[i := p][..n] == people[..n];
    }
  }

  lemma {:induction false} WeightOfJoined(people: seq<Person>, more: seq<Person>, inventory: Inventory)
    requires forall p <- more :: Weight(p, inventory) == 0
    ensures TotalWeight(people + more, inventory) == TotalWeight(people, inventory)
  {
    hide Weight;
    if more == [] {
      assert people + more == people;
    } else {
      var init, last := more[..|more| - 1], more[|more| - 1];
      WeightOfJoined(people, init, inventory);
      assert people + more == people + init + [last];
      WeightOneMore(people + init, last, inventory);
    }
  }

  lemma {:induction false} SameWeights(people: seq<Person>, others: seq<Person>, inventory: Inventory)
    requires |people| == |others|
    requires forall i :: 0 <= i < |people| ==> Weight(people[i], inventory) == Weight(others[i], inventory)
    ensures TotalWeight(people, inventory) == TotalWeight(others, inventory)
  {
    hide Weight;
    if people != [] {
      SameWeights(people[..|people| - 1], others[..|others| - 1], inventory);
    }
  }

  lemma {:induction false} WeightOfPrefix(people: seq<Person>, j: nat, inventory: Inventory)
    requires j <= |people|
    ensures TotalWeight(people[..j], inventory) <= TotalWeight(people, inventory)
  {
    hide Weight;
    if j < |people| {
      WeightOfPrefix(people[..|people| - 1], j, inventory);
      assert people[..|people| - 1][..j] == people[..j];
    } else {
      assert people[..j] == people;
    }
  }

  /** Position `i` of two lists holds the same keys at the same rank. */
  predicate IsSameAt(people: seq<Person>, others: seq<Person>, i: nat, inventory: Inventory)
    requires i < |people| && i < |others|
  {
    SameKeys(people[i], others[i]) && Rank(people[i], inventory) == Rank(others[i], inventory)
  }

  lemma {:induction false} ReconcilingAll(people: seq<Person>, inventory: Inventory, text: StringTools)
    requires inventory.Valid()
    ensures var items := ReconciledAll(people, inventory, text);
            && AreMarked(items, inventory)
            && TotalWeight(items, inventory) <= TotalWeight(people, inventory)
            && (TotalWeight(items, inventory) == TotalWeight(people, inventory) ==>
                  forall i :: 0 <= i < |items| ==> IsSameAt(items, people, i, inventory))
  {
    hide ReconciledPerson, Weight, Rank, SameKeys, IsMarked;
    var items := ReconciledAll(people, inventory, text);
    if people != [] {
      var init, last := people[..|people| - 1], people[|people| - 1];
      ReconcilingAll(init, inventory, text);
      ReconcilingKeepsWeight(last, inventory, text);
      var earlier := ReconciledAll(init, inventory, text);
      assert items[..|items| - 1] == earlier && items == earlier + [items[|items| - 1]];
      forall i | 0 <= i < |items| && TotalWeight(items, inventory) == TotalWeight(people, inventory)
        ensures IsSameAt(items, people, i, inventory)
      {
        assert i < |earlier| ==> IsSameAt(earlier, init, i, inventory);
      }
    }
  }

  lemma {:induction false} CollectingLosesWeight(items: seq<Person>, inventory: Inventory)
    requires inventory.Valid() && AreMarked(items, inventory)
    ensures var c := CollectItems(items);
            TotalWeight(c.people, inventory) <= TotalWeight(items, inventory) && AreMarked(c.people, inventory)
  {
    hide Collect, Merged, Weight, IsMarked, Overlap;
    if items != [] {
      var init, last := items[..|items| - 1], items[|items| - 1];
      CollectingLosesWeight(init, inventory);
      var c := CollectItems(init);
      CollectStep(c, last);
      var index := FirstOverlap(c.people, last);
      if index < |c.people| {
        MergingLosesWeightOrRank(c.people[index], last, inventory);
        WeightOfReplaced(c.people, index, Merged(c.people[index], last), inventory);
      } else {
        WeightOneMore(c.people, last, inventory);
      }
    }
  }

  // ----- the settled front of a list

  /** The first `j` records overlap no other record at all. */
  predicate FrontIsSettled(items: seq<Person>, j: nat)
    requires j <= |items|
  {
    forall i, k :: 0 <= i < j && i < k < |items| ==> !Overlap(items[i], items[k])
  }

  lemma {:induction false} SeparateItemsAreCollected(items: seq<Person>)
    requires NoneOverlap(items)
    ensures CollectItems(items) == Collected(items, NonEmptySlugs(items), EntitiesOf(items))
  {
    hide EntitiesOf, NonEmptySlugs, Overlap, Merged;
    if items == [] {
      NoClaims();
    } else {
      var init, last := items[..|items| - 1], items[|items| - 1];
      SeparateItemsAreCollected(init);
      assert FirstOverlap(init, last) == |init| by {
        assert forall i :: 0 <= i < |init| ==> init[i] == items[i];
      }
      ClaimsOneMore(init, last);
      assert items == init + [last];
    }
  }

  /** The keys of every record from position `from` on come from a record of `items` from there on. */
  predicate KeysComeFrom(people: seq<Person>, items: seq<Person>, from: nat) {
    forall i :: from <= i < |people| ==> exists k :: from <= k < |items| && SameKeys(people[i], items[k])
  }

  /** Record `j` has kept its keys and overlaps nothing behind it, or has taken over a better record. */
  predicate HasProgressed(people: seq<Person>, items: seq<Person>, j: nat, inventory: Inventory)
    requires j < |people| && j < |items|
  {
    || (IsSameAt(people, items, j, inventory) && forall i :: j < i < |people| ==> !Overlap(people[j], people[i]))
    || Rank(people[j], inventory) < Rank(items[j], inventory)
  }

  predicate AreClaimed(c: Collected, items: seq<Person>, j: nat)
    requires j <= |items|
  {
    forall i :: 0 <= i < j ==>
      (items[i].entity != "" ==> items[i].entity in c.entities) && (items[i].slug != "" ==> items[i].slug in c.slugs)
  }

  /** What collecting has done behind a settled front, if it has lost no weight. */
  ghost predicate FrontHolds(c: Collected, items: seq<Person>, j: nat, inventory: Inventory)
    requires j < |items|
  {
    && j < |c.people| && c.people[..j] == items[..j]
    && KeysComeFrom(c.people, items, j)
    && HasProgressed(c.people, items, j, inventory)
    && AreClaimed(c, items, j + 1)
  }

  lemma SettledFrontIsCollected(items: seq<Person>, inventory: Inventory)
    requires items != [] && FrontIsSettled(items, |items| - 1)
    ensures FrontHolds(CollectItems(items), items, |items| - 1, inventory)
  {
    hide Overlap, Rank, CollectItems;
    SeparateItemsAreCollected(items);
    forall i | 0 <= i < |items|
      ensures items[i].entity != "" ==> items[i].entity in EntitiesOf(items)
      ensures items[i].slug != "" ==> items[i].slug in NonEmptySlugs(items)
    {
      ClaimsHold(items, i);
    }
    assert SameKeys(items[|items| - 1], items[|items| - 1]);
  }

  lemma OneMoreItem(c: Collected, items: seq<Person>, last: Person, j: nat, inventory: Inventory)
    requires inventory.Valid() && j < |items| && FrontHolds(c, items, j, inventory)
    requires AreMarked(c.people, inventory) && IsMarked(last, inventory)
    requires FrontIsSettled(items + [last], j)
    requires TotalWeight(Collect(c, last).people, inventory) == TotalWeight(c.people, inventory) + Weight(last, inventory)
    ensures FrontHolds(Collect(c, last), items + [last], j, inventory)
  {
    hide Collect, Merged, Weight, Rank, IsMarked, TotalWeight;
    var all, people := items + [last], c.people;
    CollectStep(c, last);
    var c' := Collect(c, last);
    assert all[..j] == items[..j];
    forall i | j <= i < |people| ensures exists k :: j <= k < |all| && SameKeys(people[i], all[k]) {
      var k :| j <= k < |items| && SameKeys(people[i], items[k]);
      assert all[k] == items[k];
    }
    assert all[|items|] == last && SameKeys(last, all[|items|]);
    var index := FirstOverlap(people, last);
    if index < |people| {
      forall i | 0 <= i < j ensures !Overlap(people[i], last) {
        assert people[i] == people[..j][i] == all[i];
      }
      var m := Merged(people[index], last);
      assert people[index] in people;
      MergingLosesWeightOrRank(people[index], last, inventory);
      WeightOfReplaced(people, index, m, inventory);
      assert c'.people[..j] == people[..j];
      assert SameKeys(m, people[index]) || SameKeys(m, last);
      ReplacedProgresses(people, items, last, index, j, m, inventory);
    } else {
      assert c'.people[..j] == people[..j];
    }
  }

  lemma ReplacedProgresses(people: seq<Person>, items: seq<Person>, last: Person, index: nat, j: nat, m: Person, inventory: Inventory)
    requires j < |people| && j < |items| && j <= index < |people| && HasProgressed(people, items, j, inventory)
    requires forall i :: 0 <= i < index ==> !Overlap(people[i], last)
    requires || (SameKeys(m, people[index]) && Rank(m, inventory) == Rank(people[index], inventory))
             || (SameKeys(m, last) && Rank(m, inventory) < Rank(people[index], inventory))
    ensures HasProgressed(people[index := m], items + [last], j, inventory)
  {
    hide Rank;
  }

  lemma {:induction false} FrontHoldsThroughout(items: seq<Person>, j: nat, inventory: Inventory)
    requires inventory.Valid() && AreMarked(items, inventory)
    requires j < |items| && FrontIsSettled(items, j)
    requires TotalWeight(CollectItems(items).people, inventory) == TotalWeight(items, inventory)
    ensures FrontHolds(CollectItems(items), items, j, inventory)
  {
    hide Collect, Merged, Weight, Rank, IsMarked, Overlap, FrontHolds;
    if j == |items| - 1 {
      SettledFrontIsCollected(items, inventory);
    } else {
      var init, last := items[..|items| - 1], items[|items| - 1];
      var c := CollectItems(init);
      assert items == init + [last] && last in items;
      assert AreMarked(init, inventory);
      assert FrontIsSettled(init, j) by {
        assert forall i :: 0 <= i < |init| ==> init[i] == items[i];
      }
      CollectingLosesWeight(init, inventory);
      OneCollectLosesWeight(c, last, inventory);
      FrontHoldsThroughout(init, j, inventory);
      OneMoreItem(c, init, last, j, inventory);
    }
  }

  lemma OneCollectLosesWeight(c: Collected, last: Person, inventory: Inventory)
    requires inventory.Valid() && AreMarked(c.people, inventory) && IsMarked(last, inventory)
    ensures TotalWeight(Collect(c, last).people, inventory) <= TotalWeight(c.people, inventory) + Weight(last, inventory)
  {
    hide Collect, Merged, Weight, IsMarked, Overlap, TotalWeight;
    CollectStep(c, last);
    var index := FirstOverlap(c.people, last);
    if index < |c.people| {
      assert c.people[index] in c.people;
      MergingLosesWeightOrRank(c.people[index], last, inventory);
      WeightOfReplaced(c.people, index, Merged(c.people[index], last), inventory);
    } else {
      WeightOneMore(c.people, last, inventory);
    }
  }

  // ----- from one pass to the next

  function Items(people: seq<Person>, inventory: Inventory, text: StringTools): (items: seq<Person>)
    requires inventory.Valid()
    ensures |items| == |people|
  {
    ReconciledAll(people, inventory, text)
  }

  lemma AddedPeopleWeighNothing(c: Collected, inventory: Inventory, text: StringTools)
    requires inventory.Valid() && AreEntityIds(inventory.order)
    ensures forall p <- AddedBy(c, inventory) :: Weight(p, inventory) == 0
  {
    hide AddedPeople, AreEntityIds, AddedBy;
    forall p | p in AddedBy(c, inventory) ensures Weight(p, inventory) == 0 {
      var j :| 0 <= j < |AddedBy(c, inventory)| && AddedBy(c, inventory)[j] == p;
      AddedByAre(c, inventory, text, j);
      AddedPeopleAreNew(inventory.order, inventory.names, c.entities, c.slugs, j) by { AddedMeans(c, inventory); }
      AddedAreUnreviewed(c, inventory, j);
    }
  }

  lemma AddedMeans(c: Collected, inventory: Inventory)
    requires inventory.Valid()
    ensures AddedBy(c, inventory) == AddedPeople(inventory.order, inventory.names, c.entities, c.slugs)
  {}

  lemma AddedAreUnreviewed(c: Collected, inventory: Inventory, j: nat)
    requires inventory.Valid() && AreEntityIds(inventory.order) && j < |AddedBy(c, inventory)|
    ensures !AddedBy(c, inventory)[j].reviewed
  {
    hide AddedPeople, AreEntityIds;
    AddedPeopleAreNew(inventory.order, inventory.names, c.entities, c.slugs, j);
  }

  /** One pass never adds weight; if it loses none, no key changes on the way back into a list. */
  lemma PassKeepsWeight(people: seq<Person>, inventory: Inventory, text: StringTools)
    requires inventory.Valid() && AreEntityIds(inventory.order)
    ensures var items, next := Items(people, inventory, text), ReconcilePeople(people, inventory, text);
            var c := CollectItems(items);
            && next == c.people + AddedBy(c, inventory)
            && TotalWeight(c.people, inventory) <= TotalWeight(items, inventory)
            && TotalWeight(Items(next, inventory, text), inventory) <= TotalWeight(c.people, inventory)
            && (TotalWeight(Items(next, inventory, text), inventory) == TotalWeight(items, inventory) ==>
                  forall i :: 0 <= i < |next| ==> IsSameAt(Items(next, inventory, text), next, i, inventory))
  {
    hide AddedPeople, CollectAll, CollectItems, ReconciledPerson, ReconciledAll, ReconcilePeople, TotalWeight, Weight, Rank, SameKeys,
      AreEntityIds, AddedBy;
    var items, next := Items(people, inventory, text), ReconcilePeople(people, inventory, text);
    var c := CollectItems(items);
    assert items == ReconciledAll(people, inventory, text) && Items(next, inventory, text) == ReconciledAll(next, inventory, text);
    CollectingReconciles(people, inventory, text);
    PassesAre(people, inventory, text);
    ReconcilingAll(people, inventory, text);
    CollectingLosesWeight(items, inventory);
    AddedPeopleWeighNothing(c, inventory, text);
    WeightOfJoined(c.people, AddedBy(c, inventory), inventory);
    ReconcilingAll(next, inventory, text);
  }

  lemma AddedOverlapNoClaim(c: Collected, items: seq<Person>, j: nat, i: nat, k: nat, inventory: Inventory, text: StringTools)
    requires inventory.Valid() && AreEntityIds(inventory.order)
    requires i < j <= |items| && AreClaimed(c, items, j) && k < |AddedBy(c, inventory)|
    ensures !Overlap(items[i], AddedBy(c, inventory)[k])
  {
    hide AddedPeople, AreEntityIds, AddedBy;
    AddedByAre(c, inventory, text, k);
  }

  /** The front stays settled, and grows by a record that has kept its keys. */
  lemma FrontGrows(items: seq<Person>, c: Collected, next: seq<Person>, j: nat, inventory: Inventory, text: StringTools)
    requires inventory.Valid() && AreEntityIds(inventory.order)
    requires j < |items| && FrontIsSettled(items, j) && FrontHolds(c, items, j, inventory)
    requires next == c.people + AddedBy(c, inventory)
    ensures FrontIsSettled(next, j)
    ensures Rank(next[j], inventory) >= Rank(items[j], inventory) ==>
      IsSameAt(next, items, j, inventory) && FrontIsSettled(next, j + 1)
  {
    hide AddedPeople, AreEntityIds, AddedBy, Rank;
    var people, added := c.people, AddedBy(c, inventory);
    forall i, k | 0 <= i < j && i < k < |next| ensures !Overlap(next[i], next[k]) {
      assert next[i] == people[..j][i] == items[i];
      if k < j {
        assert next[k] == people[..j][k] == items[k];
      } else if k < |people| {
        assert next[k] == people[k];
        var l :| j <= l < |items| && SameKeys(people[k], items[l]);
        assert !Overlap(items[i], items[l]);
      } else {
        AddedOverlapNoClaim(c, items, j + 1, i, k - |people|, inventory, text);
        assert next[k] == added[k - |people|];
      }
    }
    if Rank(next[j], inventory) >= Rank(items[j], inventory) {
      assert next[j] == people[j] && IsSameAt(people, items, j, inventory);
      forall k | j < k < |next| ensures !Overlap(next[j], next[k]) {
        if k < |people| {
          assert next[k] == people[k];
        } else {
          AddedOverlapNoClaim(c, items, j + 1, j, k - |people|, inventory, text);
          assert next[k] == added[k - |people|];
        }
      }
    }
  }

  lemma SameKeysSameFront(people: seq<Person>, items: seq<Person>, j: nat, inventory: Inventory)
    requires |people| == |items| && j <= |people| && FrontIsSettled(people, j)
    requires forall i :: 0 <= i < |people| ==> IsSameAt(items, people, i, inventory)
    ensures FrontIsSettled(items, j)
  {
    hide Rank;
    forall i, k | 0 <= i < j && i < k < |items| ensures !Overlap(items[i], items[k]) {
      assert IsSameAt(items, people, i, inventory) && IsSameAt(items, people, k, inventory);
      assert !Overlap(people[i], people[k]);
    }
  }

  // ----- the measure

  /** The inventory's entities that no record of the settled front holds. */
  function Missing(items: seq<Person>, j: nat, inventory: Inventory): set<string>
    requires j <= |items|
  {
    (set entity <- inventory.order) - EntitiesOf(items[..j])
  }

  /** How much can still be settled behind a settled front of `j` records. */
  function ToSettle(items: seq<Person>, j: nat, inventory: Inventory): int
    requires j <= |items|
  {
    TotalWeight(items, inventory) - TotalWeight(items[..j], inventory) + |Missing(items, j, inventory)|
  }

  function RankAt(items: seq<Person>, j: nat, inventory: Inventory): nat
    requires j <= |items|
  {
    if j < |items| then Rank(items[j], inventory) else 0
  }

  lemma ToSettleIsNat(items: seq<Person>, j: nat, inventory: Inventory)
    requires j <= |items|
    ensures ToSettle(items, j, inventory) >= 0
  {
    WeightOfPrefix(items, j, inventory);
  }

  lemma {:induction false} SameEntities(people: seq<Person>, others: seq<Person>)
    requires |people| == |others| && forall i :: 0 <= i < |people| ==> SameKeys(people[i], others[i])
    ensures EntitiesOf(people) == EntitiesOf(others)
  {
    hide EntitiesOf;
    if people == [] {
      NoClaims();
    } else {
      var n := |people| - 1;
      SameEntities(people[..n], others[..n]);
      ClaimsOneMore(people[..n], people[n]);
      ClaimsOneMore(others[..n], others[n]);
      assert people == people[..n] + [people[n]] && others == others[..n] + [others[n]];
    }
  }

  lemma SameFrontSameToSettle(items: seq<Person>, others: seq<Person>, j: nat, inventory: Inventory)
    requires inventory.Valid() && j <= |items| && j <= |others|
    requires TotalWeight(items, inventory) == TotalWeight(others, inventory)
    requires forall i :: 0 <= i < j ==> IsSameAt(items, others, i, inventory)
    ensures ToSettle(items, j, inventory) == ToSettle(others, j, inventory)
  {
    hide TotalWeight, EntitiesOf;
    forall i | 0 <= i < j ensures Weight(items[i], inventory) == Weight(others[i], inventory) && SameKeys(items[i], others[i]) {
      assert IsSameAt(items, others, i, inventory);
    }
    SameWeights(items[..j], others[..j], inventory);
    SameEntities(items[..j], others[..j]);
  }

  /** A settled record either weighs something or holds an entity that was missing before. */
  lemma GrowingSettles(items: seq<Person>, j: nat, inventory: Inventory)
    requires inventory.Valid() && j < |items| && FrontIsSettled(items, j)
    ensures ToSettle(items, j + 1, inventory) < ToSettle(items, j, inventory)
  {
    hide TotalWeight, EntitiesOf;
    assert items[..j + 1] == items[..j] + [items[j]];
    WeightOneMore(items[..j], items[j], inventory);
    ClaimsOneMore(items[..j], items[j]);
    var before, after := Missing(items, j, inventory), Missing(items, j + 1, inventory);
    assert after <= before;
    if IsBoundOnly(items[j], inventory) {
      var entity := items[j].entity;
      assert entity in inventory.order && entity != "" && entity !in EntitiesOf(items[..j]) by { FrontHoldsOthers(items, j); }
      assert after <= before - {entity};
      SubsetIsNoLarger(after, before - {entity});
    } else {
      SubsetIsNoLarger(after, before);
    }
  }

  lemma FrontHoldsOthers(items: seq<Person>, j: nat)
    requires j < |items| && FrontIsSettled(items, j) && items[j].entity != ""
    ensures items[j].entity !in EntitiesOf(items[..j])
  {
    forall p | p in items[..j] ensures p.entity != items[j].entity {
      var i :| 0 <= i < j && items[..j][i] == p;
      assert !Overlap(items[i], items[j]);
    }
  }

  // ----- coming to rest

  function Passes(people: seq<Person>, passes: nat, inventory: Inventory, text: StringTools): seq<Person>
    requires inventory.Valid()
    decreases passes
  {
    if passes == 0 then people else Passes(ReconcilePeople(people, inventory, text), passes - 1, inventory, text)
  }

  predicate IsAtRest(people: seq<Person>, inventory: Inventory, text: StringTools)
    requires inventory.Valid()
  {
    ReconcilePeople(people, inventory, text) == people
  }

  /** Once nothing overlaps, the second pass is the last that can change anything. */
  lemma SeparatePeopleComeToRest(people: seq<Person>, inventory: Inventory, text: StringTools)
    requires inventory.Valid() && AreSeparate(people, inventory, text)
    ensures IsAtRest(Passes(people, 2, inventory, text), inventory, text)
  {
    hide ReconcilePeople, ReconciledPerson, AreSeparate;
    var once := ReconcilePeople(people, inventory, text);
    PeopleStaySeparate(people, inventory, text);
    SecondPeoplePass(people, inventory, text);
    var twice := ReconcilePeople(once, inventory, text);
    SecondPeoplePass(once, inventory, text);
    forall i | 0 <= i < |twice| ensures ReconciledAll(twice, inventory, text)[i] == twice[i] {
      PersonReconciledTwice(once[i], inventory, text);
    }
    assert ReconcilePeople(twice, inventory, text) == twice;
    assert Passes(people, 2, inventory, text) == Passes(once, 1, inventory, text) == Passes(twice, 0, inventory, text);
  }

  lemma OnePassProgresses(people: seq<Person>, j: nat, inventory: Inventory, text: StringTools) returns (grows: bool)
    requires inventory.Valid() && AreEntityIds(inventory.order)
    requires j < |people| && FrontIsSettled(Items(people, inventory, text), j)
    requires var next := ReconcilePeople(people, inventory, text);
             TotalWeight(Items(next, inventory, text), inventory) == TotalWeight(Items(people, inventory, text), inventory)
    ensures var items, next := Items(people, inventory, text), Items(ReconcilePeople(people, inventory, text), inventory, text);
            var front := if grows then j + 1 else j;
            && front <= |next| && FrontIsSettled(next, front)
            && if grows then ToSettle(next, front, inventory) < ToSettle(items, j, inventory)
               else ToSettle(next, front, inventory) == ToSettle(items, j, inventory)
                    && RankAt(next, j, inventory) < RankAt(items, j, inventory)
  {
    hide AddedPeople, CollectAll, CollectItems, ReconciledAll, ReconcilePeople, TotalWeight, Weight, Rank, SameKeys, AreEntityIds,
      AddedBy, FrontHolds, FrontIsSettled, ToSettle, Overlap;
    var items, next := Items(people, inventory, text), ReconcilePeople(people, inventory, text);
    var items' := Items(next, inventory, text);
    var c := CollectItems(items);
    PassKeepsWeight(people, inventory, text);
    ItemsAreMarked(people, inventory, text);
    FrontHoldsThroughout(items, j, inventory);
    FrontIsKept(c, items, next, j, inventory);
    FrontGrows(items, c, next, j, inventory, text);
    SameKeysSameFront(next, items', j, inventory);
    forall i | 0 <= i < j ensures IsSameAt(items', items, i, inventory) {
      assert IsSameAt(items', next, i, inventory) && next[i] == items[i];
    }
    SameFrontSameToSettle(items', items, j, inventory);
    grows := Rank(next[j], inventory) >= Rank(items[j], inventory);
    if grows {
      SameKeysSameFront(next, items', j + 1, inventory);
      GrowingSettles(items', j, inventory);
    }
    assert IsSameAt(items', next, j, inventory);
  }

  lemma ItemsAreMarked(people: seq<Person>, inventory: Inventory, text: StringTools)
    requires inventory.Valid()
    ensures AreMarked(Items(people, inventory, text), inventory)
  {
    ReconcilingAll(people, inventory, text);
  }

  lemma FrontIsKept(c: Collected, items: seq<Person>, next: seq<Person>, j: nat, inventory: Inventory)
    requires inventory.Valid() && j < |items| && FrontHolds(c, items, j, inventory) && next == c.people + AddedBy(c, inventory)
    ensures j < |next| && forall i :: 0 <= i < j ==> next[i] == items[i]
  {
    forall i | 0 <= i < j ensures next[i] == items[i] {
      assert next[i] == c.people[..j][i] == items[..j][i];
    }
  }

  lemma {:induction false} ComesToRest(people: seq<Person>, j: nat, inventory: Inventory, text: StringTools) returns (passes: nat)
    requires inventory.Valid() && AreEntityIds(inventory.order)
    requires j <= |people| && FrontIsSettled(Items(people, inventory, text), j)
    ensures IsAtRest(Passes(people, passes, inventory, text), inventory, text)
    decreases TotalWeight(Items(people, inventory, text), inventory), ToSettle(Items(people, inventory, text), j, inventory),
      RankAt(Items(people, inventory, text), j, inventory)
  {
    hide ReconciledAll, ReconcilePeople, TotalWeight, Weight, Rank, SameKeys, AreEntityIds, FrontIsSettled, ToSettle, RankAt, IsAtRest;
    var items, next := Items(people, inventory, text), ReconcilePeople(people, inventory, text);
    ToSettleIsNat(items, j, inventory);
    if j == |people| {
      SettledMeansSeparate(people, inventory, text);
      SeparatePeopleComeToRest(people, inventory, text);
      passes := 2;
    } else {
      PassKeepsWeight(people, inventory, text);
      var front := 0;
      if TotalWeight(Items(next, inventory, text), inventory) == TotalWeight(items, inventory) {
        var grows := OnePassProgresses(people, j, inventory, text);
        front := if grows then j + 1 else j;
      } else {
        NothingIsSettledYet(Items(next, inventory, text));
      }
      var others := ComesToRest(next, front, inventory, text);
      passes := others + 1;
    }
  }

  lemma NothingIsSettledYet(items: seq<Person>)
    ensures FrontIsSettled(items, 0)
  {}

  lemma SettledMeansSeparate(people: seq<Person>, inventory: Inventory, text: StringTools)
    requires inventory.Valid() && AreEntityIds(inventory.order) && FrontIsSettled(Items(people, inventory, text), |people|)
    ensures AreSeparate(people, inventory, text)
  {
    hide Overlap, ReconciledPerson;
  }

  /** Every list of people comes to rest after finitely many passes, overlapping or not, so the
      coordinator cannot go on skipping evaluations because of it. */
  lemma PeopleComeToRest(people: seq<Person>, inventory: Inventory, text: StringTools) returns (passes: nat)
    requires inventory.Valid() && AreEntityIds(inventory.order)
    ensures IsAtRest(Passes(people, passes, inventory, text), inventory, text)
  {
    NothingIsSettledYet(Items(people, inventory, text));
    passes := ComesToRest(people, 0, inventory, text);
  }
}
