/** Slot addresses: following a composed slot's path leads to what the slot shows. */
module ComposeSlots {
  import opened Basics
  import opened Context
  import opened LayoutTypes
  import opened RegistryModel
  import opened Profiles
  import opened Compose
  import opened ComposeFacts

  lemma {:induction false} UnderAt(path: seq<nat>, slots: seq<ComposedSlot>, k: nat)
    requires k < |slots|
    ensures Under(path, slots)[k] == slots[k].(path := path + slots[k].path)
  {
    if k > 0 {
      UnderAt(path, slots[1..], k - 1);
    }
  }

  /** The group reached from a group by descending through child indices. */
  function Follow(group: GroupSpec, path: seq<nat>): Option<GroupSpec>
    decreases |path|
  {
    if path == [] then Some(group)
    else if path[0] < |group.elements| && group.elements[path[0]].ChildGroup? then Follow(group.elements[path[0]].group, path[1..])
    else None
  }

  /** The group that a nonempty path addresses in a bar. */
  function Reach(elements: seq<Element>, path: seq<nat>): Option<GroupSpec>
    requires path != []
  {
    if path[0] < |elements| && elements[path[0]].Group? then Follow(elements[path[0]].group, path[1..]) else None
  }

  /** The slot's range is the whole of the group its path leads to, and that group shows `shown`. */
  ghost predicate HoldsIn(group: GroupSpec, slot: ComposedSlot, shown: seq<Element>) {
    var container := Follow(group, slot.path);
    && container.Some?
    && container.value.elements == AsChildren(shown)
    && slot.start == 0 && slot.end == |AsChildren(shown)|
  }

  /** A slot and what it shows. */
  datatype Content = Content(id: SlotId, shown: seq<Element>)

  function Contents(source: Source, definitions: seq<SlotDefinition>): (r: seq<Content>)
    ensures |r| == |definitions|
  {
    if definitions == [] then []
    else [Content(definitions[0].id, ShownIn(source, definitions[0]))] + Contents(source, definitions[1..])
  }

  lemma {:induction false} ContentsConcat(source: Source, a: seq<SlotDefinition>, b: seq<SlotDefinition>)
    ensures Contents(source, a + b) == Contents(source, a) + Contents(source, b)
  {
    if a == [] {
      assert a + b == b;
    } else {
      assert (a + b)[0] == a[0] && (a + b)[1..] == a[1..] + b;
      ContentsConcat(source, a[1..], b);
    }
  }

  lemma {:induction false} ContentAt(source: Source, definitions: seq<SlotDefinition>, k: nat)
    requires k < |definitions|
    ensures Contents(source, definitions)[k] == Content(definitions[k].id, ShownIn(source, definitions[k]))
  {
    if k > 0 {
      ContentAt(source, definitions[1..], k - 1);
    }
  }

  /** Slots seen from a group, each holding its content. */
  ghost predicate LocatedIn(group: GroupSpec, slots: seq<ComposedSlot>, contents: seq<Content>) {
    && |slots| == |contents|
    && forall k :: 0 <= k < |slots| ==> slots[k].id == contents[k].id && HoldsIn(group, slots[k], contents[k].shown)
  }

  /** The child that a slot of a group lies in, and the slot as seen from that child. */
  ghost predicate HoldsAmong(children: seq<GroupElement>, index: nat, slot: ComposedSlot, shown: seq<Element>) {
    && slot.path != [] && index <= slot.path[0] < index + |children|
    && children[slot.path[0] - index].ChildGroup?
    && HoldsIn(children[slot.path[0] - index].group, slot.(path := slot.path[1..]), shown)
  }

  /** Slots seen from a group whose children from `index` on are `children`. */
  ghost predicate LocatedAmong(children: seq<GroupElement>, index: nat, slots: seq<ComposedSlot>, contents: seq<Content>) {
    && |slots| == |contents|
    && forall k :: 0 <= k < |slots| ==> slots[k].id == contents[k].id && HoldsAmong(children, index, slots[k], contents[k].shown)
  }

  lemma {:induction false} LocatedChild(group: GroupSpec, index: nat, slots: seq<ComposedSlot>, contents: seq<Content>)
    requires LocatedIn(group, slots, contents)
    ensures LocatedAmong([ChildGroup(group)], index, Under([index], slots), contents)
  {
    var under := Under([index], slots);
    forall k | 0 <= k < |under|
      ensures under[k].id == contents[k].id && HoldsAmong([ChildGroup(group)], index, under[k], contents[k].shown)
    {
      UnderAt([index], slots, k);
      assert under[k].(path := under[k].path[1..]) == slots[k];
    }
  }

  lemma {:induction false} HoldsAmongFirst(a: seq<GroupElement>, b: seq<GroupElement>, index: nat, slot: ComposedSlot, shown: seq<Element>)
    requires HoldsAmong(a, index, slot, shown)
    ensures HoldsAmong(a + b, index, slot, shown)
  {
  }

  lemma {:induction false} HoldsAmongRest(a: seq<GroupElement>, b: seq<GroupElement>, index: nat, slot: ComposedSlot, shown: seq<Element>)
    requires HoldsAmong(b, index + |a|, slot, shown)
    ensures HoldsAmong(a + b, index, slot, shown)
  {
    assert (a + b)[slot.path[0] - index] == b[slot.path[0] - index - |a|];
  }

  lemma {:induction false} LocatedChildren(a: seq<GroupElement>, b: seq<GroupElement>, index: nat,
                        sa: seq<ComposedSlot>, sb: seq<ComposedSlot>, ca: seq<Content>, cb: seq<Content>)
    requires LocatedAmong(a, index, sa, ca) && LocatedAmong(b, index + |a|, sb, cb)
    ensures LocatedAmong(a + b, index, sa + sb, ca + cb)
  {
    var slots, contents := sa + sb, ca + cb;
    forall k | 0 <= k < |slots|
      ensures slots[k].id == contents[k].id && HoldsAmong(a + b, index, slots[k], contents[k].shown)
    {
      if k < |sa| {
        HoldsAmongFirst(a, b, index, sa[k], ca[k].shown);
      } else {
        var j := k - |sa|;
        assert sb[j].id == cb[j].id;
        HoldsAmongRest(a, b, index, sb[j], cb[j].shown);
      }
    }
  }

  lemma {:induction false} LocatedWithin(group: GroupSpec, slots: seq<ComposedSlot>, contents: seq<Content>)
    requires LocatedAmong(group.elements, 0, slots, contents)
    ensures LocatedIn(group, slots, contents)
  {
    forall k | 0 <= k < |slots| ensures slots[k].id == contents[k].id && HoldsIn(group, slots[k], contents[k].shown) {
      assert HoldsAmong(group.elements, 0, slots[k], contents[k].shown);
    }
  }

  lemma {:induction false} GroupSlotsHold(source: Source, group: ProfileGroup)
    ensures LocatedIn(GroupContent(source, group), GroupSlots(source, group), Contents(source, GroupSlotDefinitions(group)))
    decreases group, 1
  {
    ChildSlotsHold(source, group.elements, 0);
    LocatedWithin(GroupContent(source, group), GroupSlots(source, group), Contents(source, GroupSlotDefinitions(group)));
  }

  lemma {:induction false} ChildSlotsHold(source: Source, elements: seq<ProfileGroupElement>, index: nat)
    ensures LocatedAmong(ChildrenContent(source, elements), index, ChildSlots(source, elements, index), Contents(source, ChildSlotDefinitions(elements)))
    decreases elements, 0
  {
    if elements != [] {
      var first, rest := elements[0], elements[1..];
      OneSlotHolds(source, first);
      ChildSlotsHold(source, rest, index + 1);
      LocatedChild(ChildContent(source, first).group, index, OneSlots(source, first), Contents(source, OneSlotDefinitions(first)));
      ContentsConcat(source, OneSlotDefinitions(first), ChildSlotDefinitions(rest));
      LocatedChildren([ChildContent(source, first)], ChildrenContent(source, rest), index,
                      Under([index], OneSlots(source, first)), ChildSlots(source, rest, index + 1),
                      Contents(source, OneSlotDefinitions(first)), Contents(source, ChildSlotDefinitions(rest)));
    }
  }

  lemma {:induction false} OneSlotHolds(source: Source, element: ProfileGroupElement)
    ensures LocatedIn(ChildContent(source, element).group, OneSlots(source, element), Contents(source, OneSlotDefinitions(element)))
    decreases element, 2
  {
    match element
    case GroupedSlot(slot) =>
      assert HoldsIn(SlotGroup(source, slot), OneSlots(source, element)[0], ShownIn(source, slot));
    case GroupedGroup(group) => GroupSlotsHold(source, group);
  }

  // ----- the whole bar -----

  /** The slot at the top level covers `shown`; a nested one is a whole group that shows it. */
  ghost predicate Addresses(elements: seq<Element>, slot: ComposedSlot, shown: seq<Element>) {
    if slot.path == [] then
      slot.start <= slot.end <= |elements| && elements[slot.start..slot.end] == shown
    else
      && var container := Reach(elements, slot.path);
      && container.Some? && container.value.elements == AsChildren(shown)
      && slot.start == 0 && slot.end == |container.value.elements|
  }

  /** The same in a bar whose elements from `before` on are `elements`. */
  ghost predicate AddressesAfter(before: nat, elements: seq<Element>, slot: ComposedSlot, shown: seq<Element>) {
    if slot.path == [] then
      && before <= slot.start <= slot.end <= before + |elements|
      && elements[slot.start - before..slot.end - before] == shown
    else
      && before <= slot.path[0] < before + |elements|
      && elements[slot.path[0] - before].Group?
      && HoldsIn(elements[slot.path[0] - before].group, slot.(path := slot.path[1..]), shown)
  }

  ghost predicate Located(before: nat, elements: seq<Element>, slots: seq<ComposedSlot>, contents: seq<Content>) {
    && |slots| == |contents|
    && forall k :: 0 <= k < |slots| ==>
         slots[k].id == contents[k].id && AddressesAfter(before, elements, slots[k], contents[k].shown)
  }

  lemma {:induction false} AddressesFirst(before: nat, first: seq<Element>, rest: seq<Element>, slot: ComposedSlot, shown: seq<Element>)
    requires AddressesAfter(before, first, slot, shown)
    ensures AddressesAfter(before, first + rest, slot, shown)
  {
    if slot.path == [] {
      assert (first + rest)[slot.start - before..slot.end - before] == first[slot.start - before..slot.end - before];
    }
  }

  lemma {:induction false} AddressesRest(before: nat, first: seq<Element>, rest: seq<Element>, slot: ComposedSlot, shown: seq<Element>)
    requires AddressesAfter(before + |first|, rest, slot, shown)
    ensures AddressesAfter(before, first + rest, slot, shown)
  {
    var all := first + rest;
    if slot.path == [] {
      var i, j := slot.start - before - |first|, slot.end - before - |first|;
      assert all[slot.start - before..slot.end - before] == rest[i..j];
    } else {
      assert all[slot.path[0] - before] == rest[slot.path[0] - before - |first|];
    }
  }

  lemma {:induction false} LocatedConcat(before: nat, a: seq<Element>, b: seq<Element>,
                      sa: seq<ComposedSlot>, sb: seq<ComposedSlot>, ca: seq<Content>, cb: seq<Content>)
    requires Located(before, a, sa, ca) && Located(before + |a|, b, sb, cb)
    ensures Located(before, a + b, sa + sb, ca + cb)
  {
    var slots, contents := sa + sb, ca + cb;
    forall k | 0 <= k < |slots|
      ensures slots[k].id == contents[k].id && AddressesAfter(before, a + b, slots[k], contents[k].shown)
    {
      if k < |sa| {
        AddressesFirst(before, a, b, sa[k], ca[k].shown);
      } else {
        var j := k - |sa|;
        assert sb[j].id == cb[j].id;
        AddressesRest(before, a, b, sb[j], cb[j].shown);
      }
    }
  }

  lemma {:induction false} LocatedGroup(before: nat, group: GroupSpec, slots: seq<ComposedSlot>, contents: seq<Content>)
    requires LocatedIn(group, slots, contents)
    ensures Located(before, [Group(group)], Under([before], slots), contents)
  {
    var under := Under([before], slots);
    forall k | 0 <= k < |under|
      ensures under[k].id == contents[k].id && AddressesAfter(before, [Group(group)], under[k], contents[k].shown)
    {
      UnderAt([before], slots, k);
      assert under[k].(path := under[k].path[1..]) == slots[k];
    }
  }

  lemma {:induction false} TopSlotsHold(source: Source, element: ProfileElement, before: nat)
    ensures Located(before, TopContent(source, element), TopSlots(source, element, before), Contents(source, TopSlotDefinitions(element)))
  {
    match element
    case TopSlot(slot) =>
      assert ShownIn(source, slot)[0..|ShownIn(source, slot)|] == ShownIn(source, slot);
    case TopGroup(group) =>
      GroupSlotsHold(source, group);
      LocatedGroup(before, GroupContent(source, group), GroupSlots(source, group), Contents(source, GroupSlotDefinitions(group)));
    case _ =>
  }

  lemma {:induction false} BarSlotsHold(source: Source, elements: seq<ProfileElement>, before: nat)
    ensures Located(before, BarContent(source, elements), BarSlots(source, elements, before), Contents(source, SlotDefinitions(elements)))
  {
    if elements != [] {
      var first, rest := elements[0], elements[1..];
      var content := TopContent(source, first);
      TopSlotsHold(source, first, before);
      BarSlotsHold(source, rest, before + |content|);
      ContentsConcat(source, TopSlotDefinitions(first), SlotDefinitions(rest));
      LocatedConcat(before, content, BarContent(source, rest),
                    TopSlots(source, first, before), BarSlots(source, rest, before + |content|),
                    Contents(source, TopSlotDefinitions(first)), Contents(source, SlotDefinitions(rest)));
    }
  }

  /** Every slot is ready for the place it is in: one inside a group has no spaces. */
  ghost predicate ReadyPlaces(catalog: Catalog, slots: seq<ComposedSlot>, definitions: seq<SlotDefinition>) {
    && |slots| == |definitions|
    && forall k :: 0 <= k < |slots| ==> SlotReady(catalog, definitions[k], slots[k].path != [])
  }

  lemma {:induction false} ReadyConcat(catalog: Catalog, sa: seq<ComposedSlot>, sb: seq<ComposedSlot>, da: seq<SlotDefinition>, db: seq<SlotDefinition>)
    requires ReadyPlaces(catalog, sa, da) && ReadyPlaces(catalog, sb, db)
    ensures ReadyPlaces(catalog, sa + sb, da + db)
  {
    var slots, definitions := sa + sb, da + db;
    forall k | 0 <= k < |slots| ensures SlotReady(catalog, definitions[k], slots[k].path != []) {
      if k >= |sa| {
        assert slots[k] == sb[k - |sa|] && definitions[k] == db[k - |sa|];
      }
    }
  }

  lemma {:induction false} ReadyTop(source: Source, element: ProfileElement, start: nat)
    requires ElementReady(source.catalog, element)
    ensures ReadyPlaces(source.catalog, TopSlots(source, element, start), TopSlotDefinitions(element))
  {
    match element
    case TopGroup(group) =>
      GroupSlotsHold(source, group);
      var slots := GroupSlots(source, group);
      forall k | 0 <= k < |slots| ensures SlotReady(source.catalog, GroupSlotDefinitions(group)[k], Under([start], slots)[k].path != []) {
        UnderAt([start], slots, k);
        ReadyChildDefinition(source.catalog, group.elements, k);
      }
    case _ =>
  }

  lemma {:induction false} ReadyBar(source: Source, elements: seq<ProfileElement>, start: nat)
    requires ElementsReady(source.catalog, elements)
    ensures ReadyPlaces(source.catalog, BarSlots(source, elements, start), SlotDefinitions(elements))
  {
    if elements != [] {
      var next := start + |TopContent(source, elements[0])|;
      ReadyTop(source, elements[0], start);
      ReadyBar(source, elements[1..], next);
      ReadyConcat(source.catalog, TopSlots(source, elements[0], start), BarSlots(source, elements[1..], next),
                  TopSlotDefinitions(elements[0]), SlotDefinitions(elements[1..]));
    }
  }

  lemma {:induction false} ReadyChildDefinition(catalog: Catalog, elements: seq<ProfileGroupElement>, k: nat)
    requires ChildrenReady(catalog, elements) && k < |ChildSlotDefinitions(elements)|
    ensures SlotReady(catalog, ChildSlotDefinitions(elements)[k], true)
    decreases elements, 0
  {
    var count := |OneSlotDefinitions(elements[0])|;
    if k >= count {
      ReadyChildDefinition(catalog, elements[1..], k - count);
    } else {
      ReadyOneDefinition(catalog, elements[0], k);
    }
  }

  lemma {:induction false} ReadyOneDefinition(catalog: Catalog, element: ProfileGroupElement, k: nat)
    requires ChildReady(catalog, element) && k < |OneSlotDefinitions(element)|
    ensures SlotReady(catalog, OneSlotDefinitions(element)[k], true)
    decreases element, 2
  {
    match element
    case GroupedSlot(_) =>
    case GroupedGroup(group) => ReadyChildDefinition(catalog, group.elements, k);
  }

  /** The layout elements of references, one for each and in order. */
  ghost predicate Resolves(view: View, body: seq<BarElement>, shown: seq<Element>) {
    && |shown| == |body|
    && forall i :: 0 <= i < |body| ==> !body[i].ContextProxy? && ResolveElement(view, body[i]) == Ok(shown[i])
  }

  ghost predicate Mirrors(children: seq<GroupElement>, shown: seq<Element>) {
    && |children| == |shown|
    && forall i :: 0 <= i < |shown| ==> AsTop(children[i]) == shown[i]
  }

  /** Every slot of the profile is addressed, in reading order: following the address leads to the
      layout elements of the slot's selected contributions, one after the other in selection order
      and none missing. */
  lemma {:induction false} SlotsAreAddressed(view: View, catalog: Catalog, id: ProfileId, context: ContextSnapshot, k: nat)
    requires Consistent(view) && CatalogConsistent(catalog) && Composed(view, catalog, id, context).Ok?
    requires k < |SlotDefinitions(catalog.profiles[id].elements)|
    ensures var slots := SlotDefinitions(catalog.profiles[id].elements);
            var composition := Composed(view, catalog, id, context).value;
            var shown := Shown(view, Gathered(SelectBindings(catalog, slots[k], context)));
            && Resolves(view, Gathered(SelectBindings(catalog, slots[k], context)), shown)
            && |composition.slots| == |slots|
            && composition.slots[k].id == slots[k].id
            && Addresses(composition.bar.elements, composition.slots[k], shown)
            && (composition.slots[k].path != [] ==> Mirrors(AsChildren(shown), shown))
  {
    var profile := catalog.profiles[id];
    var source := Source(view, catalog, id, context);
    ValidCatalogFacts(view, catalog);
    SlotIsLocated(source, profile.elements, k);
  }

  lemma {:induction false} SlotIsLocated(source: Source, elements: seq<ProfileElement>, k: nat)
    requires Prepared(source) && ElementsReady(source.catalog, elements)
    requires k < |SlotDefinitions(elements)|
    ensures var slot, shown := SlotDefinitions(elements)[k], ShownIn(source, SlotDefinitions(elements)[k]);
            && Resolves(source.view, BodyOf(source, slot), shown)
            && |BarSlots(source, elements, 0)| == |SlotDefinitions(elements)|
            && BarSlots(source, elements, 0)[k].id == slot.id
            && Addresses(BarContent(source, elements), BarSlots(source, elements, 0)[k], shown)
            && (BarSlots(source, elements, 0)[k].path != [] ==> Mirrors(AsChildren(shown), shown))
  {
    BarSlotsHold(source, elements, 0);
    ContentAt(source, SlotDefinitions(elements), k);
    ReadyBar(source, elements, 0);
    var slot := SlotDefinitions(elements)[k];
    var nested := BarSlots(source, elements, 0)[k].path != [];
    assert SlotReady(source.catalog, slot, nested);
    SlotBodyUsable(source, slot, nested);
    SlotNames(source, slot, nested);
    UsableResolves(source.view, BodyOf(source, slot));
  }

  // ----- order of the top-level slots -----

  /** The top-level slots lie between two positions, in order and without overlap. */
  ghost predicate InOrder(slots: seq<ComposedSlot>, from: nat, to: nat) {
    && (forall k :: 0 <= k < |slots| && slots[k].path == [] ==> from <= slots[k].start <= slots[k].end <= to)
    && (forall j, k :: 0 <= j < k < |slots| && slots[j].path == [] && slots[k].path == [] ==> slots[j].end <= slots[k].start)
  }

  lemma {:induction false} InOrderConcat(a: seq<ComposedSlot>, b: seq<ComposedSlot>, from: nat, middle: nat, to: nat)
    requires from <= middle <= to && InOrder(a, from, middle) && InOrder(b, middle, to)
    ensures InOrder(a + b, from, to)
  {
  }

  lemma {:induction false} TopSlotsInOrder(source: Source, element: ProfileElement, start: nat)
    ensures InOrder(TopSlots(source, element, start), start, start + |TopContent(source, element)|)
  {
    match element
    case TopGroup(group) =>
      var slots := GroupSlots(source, group);
      forall k | 0 <= k < |slots| ensures Under([start], slots)[k].path != [] {
        UnderAt([start], slots, k);
      }
    case _ =>
  }

  lemma {:induction false} BarSlotsInOrder(source: Source, elements: seq<ProfileElement>, start: nat)
    ensures InOrder(BarSlots(source, elements, start), start, start + |BarContent(source, elements)|)
  {
    if elements != [] {
      var next := start + |TopContent(source, elements[0])|;
      TopSlotsInOrder(source, elements[0], start);
      BarSlotsInOrder(source, elements[1..], next);
      InOrderConcat(TopSlots(source, elements[0], start), BarSlots(source, elements[1..], next),
                    start, next, start + |BarContent(source, elements)|);
    }
  }

  /** Ranges of top-level slots are ordered and disjoint. */
  lemma {:induction false} TopSlotsAreDisjoint(view: View, catalog: Catalog, id: ProfileId, context: ContextSnapshot, j: nat, k: nat)
    requires Composed(view, catalog, id, context).Ok?
    requires j < k < |Composed(view, catalog, id, context).value.slots|
    requires Composed(view, catalog, id, context).value.slots[j].path == []
    requires Composed(view, catalog, id, context).value.slots[k].path == []
    ensures var slots := Composed(view, catalog, id, context).value.slots;
            slots[j].start <= slots[j].end <= slots[k].start <= slots[k].end
  {
    var profile := catalog.profiles[id];
    var source := Source(view, catalog, profile.id, context);
    BarSlotsInOrder(source, profile.elements, 0);
  }
}
