/** `compose` as it runs: vectors and identifier sets that grow as the profile is traversed. */
module Composing {
  import opened Basics
  import opened Context
  import opened LayoutTypes
  import opened LayoutValidate
  import opened RegistryModel
  import opened Profiles
  import opened Compose
  import opened ComposeFacts

  /** A step that makes `claims` and produces `value`, or stops at the first repeated claim. */
  ghost predicate Outcome<T>(before: Seen, claims: seq<Claim>, value: T, r: Result<T, ProfileError>, after: Seen) {
    match ClaimAll(before, claims)
    case Ok(seen) => r == Ok(value) && after == seen
    case Err(claim) => r == Err(Clash(claim))
  }

  /** A repetition among the first claims is the repetition of the whole. */
  lemma {:induction false} OutcomeStops(before: Seen, all: seq<Claim>, done: Seen, claims: seq<Claim>, rest: seq<Claim>)
    requires ClaimAll(before, all) == ClaimAll(done, claims + rest)
    ensures ClaimAll(done, claims).Err? ==> ClaimAll(before, all) == ClaimAll(done, claims)
    ensures ClaimAll(done, claims).Ok? ==> ClaimAll(before, all) == ClaimAll(ClaimAll(done, claims).value, rest)
  {
    ClaimAllConcat(done, claims, rest);
  }

  lemma {:induction false} TailOf<T>(s: seq<T>, i: nat)
    requires i < |s|
    ensures s[i..][0] == s[i] && s[i..][1..] == s[i + 1..]
  {
  }

  /** `done` are the children resolved so far, of the first `i` elements. */
  ghost predicate Remaining(view: View, elements: seq<BarGroupElement>, done: seq<GroupElement>, i: nat)
    requires i <= |elements|
  {
    && ResolveChildren(view, elements).Ok? && ResolveChildren(view, elements[i..]).Ok?
    && ResolveChildren(view, elements).value == done + ResolveChildren(view, elements[i..]).value
  }

  lemma {:induction false} OneFewer(view: View, elements: seq<BarGroupElement>, done: seq<GroupElement>, i: nat)
    requires i < |elements| && Remaining(view, elements, done, i)
    ensures ResolveChild(view, elements[i]).Ok? && Remaining(view, elements, done + [ResolveChild(view, elements[i]).value], i + 1)
  {
    TailOf(elements, i);
    ConcatAssociates(done, [ResolveChild(view, elements[i]).value], ResolveChildren(view, elements[i + 1..]).value);
  }

  lemma {:induction false} BodyConcat(view: View, a: seq<BarElement>, b: seq<BarElement>)
    ensures BodyClaims(a + b) == BodyClaims(a) + BodyClaims(b)
    ensures Shown(view, a + b) == Shown(view, a) + Shown(view, b)
  {
    if a == [] {
      assert a + b == b;
    } else {
      assert (a + b)[0] == a[0] && (a + b)[1..] == a[1..] + b;
      BodyConcat(view, a[1..], b);
      ConcatAssociates(ElementClaims(a[0]), BodyClaims(a[1..]), BodyClaims(b));
      ConcatAssociates(ShownElement(view, a[0]), Shown(view, a[1..]), Shown(view, b));
    }
  }

  lemma {:induction false} AsChildrenConcat(a: seq<Element>, b: seq<Element>)
    ensures AsChildren(a + b) == AsChildren(a) + AsChildren(b)
  {
    if a == [] {
      assert a + b == b;
    } else {
      assert (a + b)[0] == a[0] && (a + b)[1..] == a[1..] + b;
      AsChildrenConcat(a[1..], b);
    }
  }

  lemma {:induction false} ActiveConcat(source: Source, a: seq<SlotDefinition>, b: seq<SlotDefinition>)
    ensures ActiveIn(source, a + b) == ActiveIn(source, a) + ActiveIn(source, b)
  {
    if a == [] {
      assert a + b == b;
    } else {
      assert (a + b)[0] == a[0] && (a + b)[1..] == a[1..] + b;
      ActiveConcat(source, a[1..], b);
      ConcatAssociates(ContributionIds(SelectBindings(source.catalog, a[0], source.context)), ActiveIn(source, a[1..]), ActiveIn(source, b));
    }
  }

  lemma {:induction false} UnderConcat(path: seq<nat>, a: seq<ComposedSlot>, b: seq<ComposedSlot>)
    ensures Under(path, a + b) == Under(path, a) + Under(path, b)
  {
    if a == [] {
      assert a + b == b;
    } else {
      assert (a + b)[0] == a[0] && (a + b)[1..] == a[1..] + b;
      UnderConcat(path, a[1..], b);
    }
  }

  lemma {:induction false} UnderUnder(path: seq<nat>, index: nat, slots: seq<ComposedSlot>)
    ensures Under(path, Under([index], slots)) == Under(path + [index], slots)
  {
    if slots != [] {
      UnderUnder(path, index, slots[1..]);
      var inner := Under([index], slots);
      assert inner[1..] == Under([index], slots[1..]);
      ConcatAssociates(path, [index], slots[0].path);
    }
  }

  class Composer {
    var items: set<ItemId>
    var groups: set<string>
    var active: seq<ContributionId>
    var slots: seq<ComposedSlot>

    ghost function Seen(): Seen
      reads this
    {
      LayoutValidate.Seen(items, groups)
    }

    constructor ()
      ensures Seen() == LayoutValidate.Seen({}, {}) && active == [] && slots == []
    {
      items, groups, active, slots := {}, {}, [], [];
    }

    method InsertGroup(id: string) returns (r: Result<(), ProfileError>)
      modifies this`groups
      ensures Outcome(old(Seen()), [GroupClaim(id)], (), r, Seen())
    {
      if id in groups {
        return Err(DuplicateComposedGroup(id));
      }
      groups := groups + {id};
      r := Ok(());
    }

    method ResolveItem(view: View, contribution: ContributionId, id: ItemId) returns (r: Result<ItemSpec, ProfileError>)
      modifies this`items
      ensures id in view.items ==> Outcome(old(Seen()), [ItemClaim(id)], view.items[id].layout, r, Seen())
      ensures id !in view.items ==> r == Err(if id in old(items) then DuplicateComposedItem(id) else UnknownContributionItem(contribution, id))
    {
      if id in items {
        return Err(DuplicateComposedItem(id));
      }
      items := items + {id};
      if id !in view.items {
        return Err(UnknownContributionItem(contribution, id));
      }
      r := Ok(view.items[id].layout);
    }

    method ResolveContributionGroup(view: View, contribution: ContributionId, group: BarGroup) returns (r: Result<GroupSpec, ProfileError>)
      requires Consistent(view) && KnownRefs(view, GroupRefs(group))
      modifies this`items, this`groups
      ensures ResolveGroup(view, group).Ok?
      ensures Outcome(old(Seen()), GroupRefClaims(group), ResolveGroup(view, group).value, r, Seen())
      decreases group, 1
    {
      KnownGroupResolves(view, group);
      ghost var all := GroupRefClaims(group);
      OutcomeStops(old(Seen()), all, old(Seen()), [GroupClaim(group.id)], ChildRefClaims(group.elements));
      var _ :- InsertGroup(group.id);
      var elements: seq<GroupElement> := [];
      var i := 0;
      assert group.elements[0..] == group.elements;
      while i < |group.elements|
        invariant 0 <= i <= |group.elements| && KnownRefs(view, ItemRefs(group.elements[i..]))
        invariant Remaining(view, group.elements, elements, i)
        invariant ClaimAll(old(Seen()), all) == ClaimAll(Seen(), ChildRefClaims(group.elements[i..]))
      {
        ghost var rest := group.elements[i + 1..];
        TailOf(group.elements, i);
        KnownConcat(view, ChildRefs(group.elements[i]), ItemRefs(rest));
        OutcomeStops(old(Seen()), all, Seen(), OneChildClaims(group.elements[i]), ChildRefClaims(rest));
        OneFewer(view, group.elements, elements, i);
        var element :- ResolveContributionChild(view, contribution, group.elements[i]);
        elements := elements + [element];
        i := i + 1;
      }
      assert group.elements[i..] == [];
      assert elements + [] == elements;
      r := Ok(GroupSpec(group.id, elements, group.layout, group.spacing, group.visibilityPriority, group.compressionPriority));
    }

    method ResolveContributionChild(view: View, contribution: ContributionId, element: BarGroupElement) returns (r: Result<GroupElement, ProfileError>)
      requires Consistent(view) && KnownRefs(view, ChildRefs(element))
      modifies this`items, this`groups
      ensures ResolveChild(view, element).Ok?
      ensures Outcome(old(Seen()), OneChildClaims(element), ResolveChild(view, element).value, r, Seen())
      decreases element, 2
    {
      match element
      case GroupItemRef(id) =>
        assert ChildRefs(element)[0] == id;
        var item :- ResolveItem(view, contribution, id);
        r := Ok(ChildItem(item));
      case NestedGroup(child) =>
        var nested :- ResolveContributionGroup(view, contribution, child);
        r := Ok(ChildGroup(nested));
    }

    /** `resolve_top_contribution_element`; validation has ruled out a proxy. */
    method ResolveTop(view: View, contribution: ContributionId, element: BarElement) returns (r: Result<Element, ProfileError>)
      requires Consistent(view) && UsableElement(view, element)
      modifies this`items, this`groups
      ensures |ShownElement(view, element)| == 1
      ensures Outcome(old(Seen()), ElementClaims(element), ShownElement(view, element)[0], r, Seen())
    {
      match element
      case ItemRef(id) =>
        assert ElementRefs(element)[0] == id;
        var item :- ResolveItem(view, contribution, id);
        r := Ok(Item(item));
      case GroupRef(group) =>
        var resolved :- ResolveContributionGroup(view, contribution, group);
        r := Ok(Group(resolved));
      case Fixed(width) => r := Ok(FixedSpace(width));
      case Flexible(minimum, weight) => r := Ok(FlexibleSpace(minimum, weight));
    }

    /** `resolve_grouped_contribution_element`; validation has ruled out proxies and spaces. */
    method ResolveGrouped(view: View, contribution: ContributionId, element: BarElement) returns (r: Result<GroupElement, ProfileError>)
      requires Consistent(view) && UsableElement(view, element) && !element.Fixed? && !element.Flexible?
      modifies this`items, this`groups
      ensures |AsChildren(ShownElement(view, element))| == 1
      ensures Outcome(old(Seen()), ElementClaims(element), AsChildren(ShownElement(view, element))[0], r, Seen())
    {
      match element
      case ItemRef(id) =>
        assert ElementRefs(element)[0] == id;
        var item :- ResolveItem(view, contribution, id);
        r := Ok(ChildItem(item));
      case GroupRef(group) =>
        var resolved :- ResolveContributionGroup(view, contribution, group);
        r := Ok(ChildGroup(resolved));
    }

    method ComposeTopBody(view: View, contribution: ContributionId, body: seq<BarElement>) returns (r: Result<seq<Element>, ProfileError>)
      requires Consistent(view) && UsableBody(view, body)
      modifies this`items, this`groups
      ensures Outcome(old(Seen()), BodyClaims(body), Shown(view, body), r, Seen())
    {
      var elements: seq<Element> := [];
      var i := 0;
      assert body[0..] == body;
      while i < |body|
        invariant 0 <= i <= |body|
        invariant Shown(view, body) == elements + Shown(view, body[i..])
        invariant ClaimAll(old(Seen()), BodyClaims(body)) == ClaimAll(Seen(), BodyClaims(body[i..]))
      {
        TailOf(body, i);
        OutcomeStops(old(Seen()), BodyClaims(body), Seen(), ElementClaims(body[i]), BodyClaims(body[i + 1..]));
        var element :- ResolveTop(view, contribution, body[i]);
        ConcatAssociates(elements, [element], Shown(view, body[i + 1..]));
        elements := elements + [element];
        i := i + 1;
      }
      assert body[i..] == [];
      assert elements + [] == elements;
      r := Ok(elements);
    }

    method ComposeGroupedBody(view: View, contribution: ContributionId, body: seq<BarElement>) returns (r: Result<seq<GroupElement>, ProfileError>)
      requires Consistent(view) && UsableBody(view, body) && SpaceFree(body)
      modifies this`items, this`groups
      ensures Outcome(old(Seen()), BodyClaims(body), AsChildren(Shown(view, body)), r, Seen())
    {
      var elements: seq<GroupElement> := [];
      var i := 0;
      assert body[0..] == body;
      while i < |body|
        invariant 0 <= i <= |body|
        invariant AsChildren(Shown(view, body)) == elements + AsChildren(Shown(view, body[i..]))
        invariant ClaimAll(old(Seen()), BodyClaims(body)) == ClaimAll(Seen(), BodyClaims(body[i..]))
      {
        TailOf(body, i);
        OutcomeStops(old(Seen()), BodyClaims(body), Seen(), ElementClaims(body[i]), BodyClaims(body[i + 1..]));
        AsChildrenConcat(ShownElement(view, body[i]), Shown(view, body[i + 1..]));
        var element :- ResolveGrouped(view, contribution, body[i]);
        assert AsChildren(ShownElement(view, body[i])) == [element];
        ConcatAssociates(elements, [element], AsChildren(Shown(view, body[i + 1..])));
        elements := elements + [element];
        i := i + 1;
      }
      assert body[i..] == [];
      assert elements + [] == elements;
      r := Ok(elements);
    }

    /** `compose_top_slot` */
    method ComposeTopSlot(source: Source, slot: SlotDefinition) returns (r: Result<seq<Element>, ProfileError>)
      requires Prepared(source) && SlotReady(source.catalog, slot, false)
      modifies this`items, this`groups, this`active
      ensures Outcome(old(Seen()), BodyClaims(BodyOf(source, slot)), ShownIn(source, slot), r, Seen())
      ensures r.Ok? ==> active == old(active) + ContributionIds(SelectBindings(source.catalog, slot, source.context))
    {
      var selected := SelectBindings(source.catalog, slot, source.context);
      SelectedAreReady(source, slot, false);
      var elements: seq<Element> := [];
      var i := 0;
      assert selected[0..] == selected;
      while i < |selected|
        invariant 0 <= i <= |selected|
        invariant ShownIn(source, slot) == elements + Shown(source.view, Gathered(selected[i..]))
        invariant old(active) + ContributionIds(selected) == active + ContributionIds(selected[i..])
        invariant ClaimAll(old(Seen()), BodyClaims(BodyOf(source, slot))) == ClaimAll(Seen(), BodyClaims(Gathered(selected[i..])))
      {
        TailOf(selected, i);
        ghost var rest := Gathered(selected[i + 1..]);
        BodyConcat(source.view, selected[i].elements, rest);
        OutcomeStops(old(Seen()), BodyClaims(BodyOf(source, slot)), Seen(), BodyClaims(selected[i].elements), BodyClaims(rest));
        ConcatAssociates(active, [selected[i].id], ContributionIds(selected[i + 1..]));
        active := active + [selected[i].id];
        var more :- ComposeTopBody(source.view, selected[i].id, selected[i].elements);
        ConcatAssociates(elements, more, Shown(source.view, rest));
        elements := elements + more;
        i := i + 1;
      }
      assert selected[i..] == [];
      assert elements + [] == elements && active + [] == active;
      r := Ok(elements);
    }

    /** `compose_group_slot` */
    method ComposeGroupSlot(source: Source, slot: SlotDefinition) returns (r: Result<seq<GroupElement>, ProfileError>)
      requires Prepared(source) && SlotReady(source.catalog, slot, true)
      modifies this`items, this`groups, this`active
      ensures Outcome(old(Seen()), BodyClaims(BodyOf(source, slot)), AsChildren(ShownIn(source, slot)), r, Seen())
      ensures r.Ok? ==> active == old(active) + ContributionIds(SelectBindings(source.catalog, slot, source.context))
    {
      var selected := SelectBindings(source.catalog, slot, source.context);
      SelectedAreReady(source, slot, true);
      var elements: seq<GroupElement> := [];
      var i := 0;
      assert selected[0..] == selected;
      while i < |selected|
        invariant 0 <= i <= |selected|
        invariant AsChildren(ShownIn(source, slot)) == elements + AsChildren(Shown(source.view, Gathered(selected[i..])))
        invariant old(active) + ContributionIds(selected) == active + ContributionIds(selected[i..])
        invariant ClaimAll(old(Seen()), BodyClaims(BodyOf(source, slot))) == ClaimAll(Seen(), BodyClaims(Gathered(selected[i..])))
      {
        TailOf(selected, i);
        ghost var rest := Gathered(selected[i + 1..]);
        BodyConcat(source.view, selected[i].elements, rest);
        AsChildrenConcat(Shown(source.view, selected[i].elements), Shown(source.view, rest));
        OutcomeStops(old(Seen()), BodyClaims(BodyOf(source, slot)), Seen(), BodyClaims(selected[i].elements), BodyClaims(rest));
        ConcatAssociates(active, [selected[i].id], ContributionIds(selected[i + 1..]));
        active := active + [selected[i].id];
        var more :- ComposeGroupedBody(source.view, selected[i].id, selected[i].elements);
        ConcatAssociates(elements, more, AsChildren(Shown(source.view, rest)));
        elements := elements + more;
        i := i + 1;
      }
      assert selected[i..] == [];
      assert elements + [] == elements && active + [] == active;
      r := Ok(elements);
    }

    /** `compose_profile_group` */
    method ComposeProfileGroup(source: Source, group: ProfileGroup, path: seq<nat>) returns (r: Result<GroupSpec, ProfileError>)
      requires Prepared(source) && GroupReady(source.catalog, group)
      modifies this
      ensures Outcome(old(Seen()), ProfileGroupClaims(source, group), GroupContent(source, group), r, Seen())
      ensures r.Ok? ==> slots == old(slots) + Under(path, GroupSlots(source, group))
      ensures r.Ok? ==> active == old(active) + ActiveIn(source, GroupSlotDefinitions(group))
      decreases group, 1
    {
      ghost var all := ProfileGroupClaims(source, group);
      OutcomeStops(old(Seen()), all, old(Seen()), [GroupClaim(group.id)], ProfileChildrenClaims(source, group.elements));
      var _ :- InsertGroup(group.id);
      var elements: seq<GroupElement> := [];
      assert group.elements[0..] == group.elements;
      var i := 0;
      while i < |group.elements|
        invariant 0 <= i == |elements| <= |group.elements| && ChildrenReady(source.catalog, group.elements[i..])
        invariant ChildrenContent(source, group.elements) == elements + ChildrenContent(source, group.elements[i..])
        invariant old(slots) + Under(path, GroupSlots(source, group)) == slots + Under(path, ChildSlots(source, group.elements[i..], i))
        invariant old(active) + ActiveIn(source, GroupSlotDefinitions(group)) == active + ActiveIn(source, ChildSlotDefinitions(group.elements[i..]))
        invariant ClaimAll(old(Seen()), all) == ClaimAll(Seen(), ProfileChildrenClaims(source, group.elements[i..]))
      {
        ghost var rest := group.elements[i + 1..];
        TailOf(group.elements, i);
        OutcomeStops(old(Seen()), all, Seen(), ProfileChildClaims(source, group.elements[i]), ProfileChildrenClaims(source, rest));
        NextChild(source, group.elements[i], rest, i, path, slots, active);
        var child :- ComposeChild(source, group.elements[i], path + [|elements|]);
        ConcatAssociates(elements, [child], ChildrenContent(source, rest));
        elements := elements + [child];
        i := i + 1;
      }
      assert group.elements[i..] == [];
      assert elements + [] == elements && slots + [] == slots && active + [] == active;
      r := Ok(GroupSpec(group.id, elements, group.layout, group.spacing, group.visibilityPriority, group.compressionPriority));
    }

    method ComposeChild(source: Source, element: ProfileGroupElement, path: seq<nat>) returns (r: Result<GroupElement, ProfileError>)
      requires Prepared(source) && ChildReady(source.catalog, element)
      modifies this
      ensures Outcome(old(Seen()), ProfileChildClaims(source, element), ChildContent(source, element), r, Seen())
      ensures r.Ok? ==> slots == old(slots) + Under(path, OneSlots(source, element))
      ensures r.Ok? ==> active == old(active) + ActiveIn(source, OneSlotDefinitions(element))
      decreases element, 2
    {
      match element
      case GroupedSlot(slot) =>
        var id := SlotGroupId(source.profile, slot.id);
        OutcomeStops(old(Seen()), ProfileChildClaims(source, element), old(Seen()), BodyClaims(BodyOf(source, slot)), [GroupClaim(id)]);
        var children :- ComposeGroupSlot(source, slot);
        var _ :- InsertGroup(id);
        slots := slots + [ComposedSlot(slot.id, path, 0, |children|)];
        SingleSlot(source, slot, path);
        r := Ok(ChildGroup(GroupSpec(id, children, Natural, 0, 0, 0)));
      case GroupedGroup(group) =>
        var composed :- ComposeProfileGroup(source, group, path);
        r := Ok(ChildGroup(composed));
    }

    /** The body of `compose` once the catalog is valid and the profile found. */
    method ComposeElements(source: Source, elements: seq<ProfileElement>) returns (r: Result<seq<Element>, ProfileError>)
      requires Prepared(source) && ElementsReady(source.catalog, elements)
      requires Seen() == LayoutValidate.Seen({}, {}) && active == [] && slots == []
      modifies this
      ensures Outcome(LayoutValidate.Seen({}, {}), BarClaims(source, elements), BarContent(source, elements), r, Seen())
      ensures r.Ok? ==> slots == BarSlots(source, elements, 0)
      ensures r.Ok? ==> active == ActiveIn(source, SlotDefinitions(elements))
    {
      var composed: seq<Element> := [];
      var i := 0;
      assert elements[0..] == elements;
      while i < |elements|
        invariant 0 <= i <= |elements| && ElementsReady(source.catalog, elements[i..])
        invariant BarContent(source, elements) == composed + BarContent(source, elements[i..])
        invariant BarSlots(source, elements, 0) == slots + BarSlots(source, elements[i..], |composed|)
        invariant ActiveIn(source, SlotDefinitions(elements)) == active + ActiveIn(source, SlotDefinitions(elements[i..]))
        invariant ClaimAll(old(Seen()), BarClaims(source, elements)) == ClaimAll(Seen(), BarClaims(source, elements[i..]))
      {
        ghost var rest := elements[i + 1..];
        TailOf(elements, i);
        OutcomeStops(old(Seen()), BarClaims(source, elements), Seen(), TopClaims(source, elements[i]), BarClaims(source, rest));
        NextTop(source, elements[i..], composed, slots, active);
        var more :- ComposeTop(source, elements[i], |composed|);
        composed := composed + more;
        i := i + 1;
      }
      assert elements[i..] == [];
      assert composed + [] == composed && slots + [] == slots && active + [] == active;
      r := Ok(composed);
    }

    /** One element of the profile, placed at position `start` of the bar. */
    method ComposeTop(source: Source, element: ProfileElement, start: nat) returns (r: Result<seq<Element>, ProfileError>)
      requires Prepared(source) && ElementReady(source.catalog, element)
      modifies this
      ensures Outcome(old(Seen()), TopClaims(source, element), TopContent(source, element), r, Seen())
      ensures r.Ok? ==> slots == old(slots) + TopSlots(source, element, start)
      ensures r.Ok? ==> active == old(active) + ActiveIn(source, TopSlotDefinitions(element))
    {
      match element
      case TopFixed(width) =>
        assert slots + [] == slots && active + [] == active;
        r := Ok([FixedSpace(width)]);
      case TopFlexible(minimum, weight) =>
        assert slots + [] == slots && active + [] == active;
        r := Ok([FlexibleSpace(minimum, weight)]);
      case TopSlot(slot) =>
        var shown :- ComposeTopSlot(source, slot);
        slots := slots + [ComposedSlot(slot.id, [], start, start + |shown|)];
        SingleSlot(source, slot, []);
        r := Ok(shown);
      case TopGroup(group) =>
        var composed :- ComposeProfileGroup(source, group, [start]);
        r := Ok([Group(composed)]);
    }
  }

  lemma {:induction false} SelectedAreReady(source: Source, slot: SlotDefinition, nested: bool)
    requires Prepared(source) && SlotReady(source.catalog, slot, nested)
    ensures forall k :: 0 <= k < |SelectBindings(source.catalog, slot, source.context)| ==>
              var body := SelectBindings(source.catalog, slot, source.context)[k].elements;
              UsableBody(source.view, body) && (nested ==> SpaceFree(body))
  {
    var selected := SelectBindings(source.catalog, slot, source.context);
    forall k | 0 <= k < |selected|
      ensures UsableBody(source.view, selected[k].elements) && (nested ==> SpaceFree(selected[k].elements))
    {
      SelectedAreBound(source.catalog, slot, source.context, selected[k]);
      assert Usable(source.view, selected[k]);
    }
  }

  lemma {:induction false} SingleSlot(source: Source, slot: SlotDefinition, path: seq<nat>)
    ensures ActiveIn(source, [slot]) == ContributionIds(SelectBindings(source.catalog, slot, source.context))
    ensures Under(path, [ComposedSlot(slot.id, [], 0, |AsChildren(ShownIn(source, slot))|)]) ==
            [ComposedSlot(slot.id, path, 0, |AsChildren(ShownIn(source, slot))|)]
  {
    assert [slot][1..] == [];
    assert path + [] == path;
  }

  lemma {:induction false} NextChild(source: Source, element: ProfileGroupElement, rest: seq<ProfileGroupElement>, index: nat, path: seq<nat>,
                  slots: seq<ComposedSlot>, active: seq<ContributionId>)
    ensures slots + Under(path, Under([index], OneSlots(source, element)) + ChildSlots(source, rest, index + 1))
            == (slots + Under(path + [index], OneSlots(source, element))) + Under(path, ChildSlots(source, rest, index + 1))
    ensures active + ActiveIn(source, OneSlotDefinitions(element) + ChildSlotDefinitions(rest))
            == (active + ActiveIn(source, OneSlotDefinitions(element))) + ActiveIn(source, ChildSlotDefinitions(rest))
  {
    var one, others := OneSlots(source, element), ChildSlots(source, rest, index + 1);
    UnderConcat(path, Under([index], one), others);
    UnderUnder(path, index, one);
    ConcatAssociates(slots, Under(path + [index], one), Under(path, others));
    ActiveConcat(source, OneSlotDefinitions(element), ChildSlotDefinitions(rest));
    ConcatAssociates(active, ActiveIn(source, OneSlotDefinitions(element)), ActiveIn(source, ChildSlotDefinitions(rest)));
  }

  lemma {:induction false} NextContent(source: Source, elements: seq<ProfileElement>, composed: seq<Element>)
    requires elements != []
    ensures composed + BarContent(source, elements) == (composed + TopContent(source, elements[0])) + BarContent(source, elements[1..])
  {
    ConcatAssociates(composed, TopContent(source, elements[0]), BarContent(source, elements[1..]));
  }

  lemma {:induction false} NextSlots(source: Source, elements: seq<ProfileElement>, start: nat, slots: seq<ComposedSlot>)
    requires elements != []
    ensures slots + BarSlots(source, elements, start) ==
            (slots + TopSlots(source, elements[0], start)) + BarSlots(source, elements[1..], start + |TopContent(source, elements[0])|)
  {
    ConcatAssociates(slots, TopSlots(source, elements[0], start), BarSlots(source, elements[1..], start + |TopContent(source, elements[0])|));
  }

  lemma {:induction false} NextActive(source: Source, elements: seq<ProfileElement>, active: seq<ContributionId>)
    requires elements != []
    ensures active + ActiveIn(source, SlotDefinitions(elements)) ==
            (active + ActiveIn(source, TopSlotDefinitions(elements[0]))) + ActiveIn(source, SlotDefinitions(elements[1..]))
  {
    ActiveConcat(source, TopSlotDefinitions(elements[0]), SlotDefinitions(elements[1..]));
    ConcatAssociates(active, ActiveIn(source, TopSlotDefinitions(elements[0])), ActiveIn(source, SlotDefinitions(elements[1..])));
  }

  lemma {:induction false} NextTop(source: Source, elements: seq<ProfileElement>, composed: seq<Element>, slots: seq<ComposedSlot>, active: seq<ContributionId>)
    requires elements != []
    ensures var content := TopContent(source, elements[0]);
            && composed + BarContent(source, elements) == (composed + content) + BarContent(source, elements[1..])
            && slots + BarSlots(source, elements, |composed|) ==
               (slots + TopSlots(source, elements[0], |composed|)) + BarSlots(source, elements[1..], |composed + content|)
    ensures active + ActiveIn(source, SlotDefinitions(elements)) ==
            (active + ActiveIn(source, TopSlotDefinitions(elements[0]))) + ActiveIn(source, SlotDefinitions(elements[1..]))
  {
    NextContent(source, elements, composed);
    NextSlots(source, elements, |composed|, slots);
    NextActive(source, elements, active);
  }

  /** `ProfileCatalog::compose` computes the composition. */
  method ComposeProfile(view: View, catalog: Catalog, id: ProfileId, context: ContextSnapshot) returns (r: Result<ProfileComposition, ProfileError>)
    requires Consistent(view)
    ensures r == Composed(view, catalog, id, context)
  {
    var _ :- ValidateCatalog(view, catalog);
    ValidCatalogFacts(view, catalog);
    if id !in catalog.profiles {
      return Err(UnknownProfile(id));
    }
    var profile := catalog.profiles[id];
    var source := Source(view, catalog, profile.id, context);
    var composer := new Composer();
    var elements :- composer.ComposeElements(source, profile.elements);
    var principal := profile.principalItem;
    if principal.Some? {
      TakenMeansClaimed(LayoutValidate.Seen({}, {}), BarClaims(source, profile.elements), ItemClaim(principal.value));
      if principal.value !in composer.items {
        principal := None;
      }
    }
    r := Ok(ProfileComposition(profile.id, composer.active, composer.slots, BarSpec(elements, principal)));
  }
}
