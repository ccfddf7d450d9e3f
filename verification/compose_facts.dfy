/** What every successful composition satisfies. */
module ComposeFacts {
  import opened Basics
  import opened Ordering
  import opened Sorting
  import opened Context
  import opened LayoutTypes
  import opened LayoutGroups
  import opened LayoutValidate
  import opened RegistryModel
  import opened ActiveChain
  import opened Profiles
  import opened Compose

  // ----- when claims succeed -----

  lemma {:induction false} TakeOne(seen: Seen, claim: Claim)
    ensures !Taken(seen, claim) <==> Fresh(ItemNames([claim]), seen.items) && Fresh(GroupNames([claim]), seen.groups)
    ensures Take(seen, claim).items == seen.items + Elements(ItemNames([claim]))
    ensures Take(seen, claim).groups == seen.groups + Elements(GroupNames([claim]))
  {
    assert [claim][1..] == [];
    assert ItemNames([claim]) == (if claim.ItemClaim? then [claim.id] else []);
    assert GroupNames([claim]) == (if claim.GroupClaim? then [claim.id] else []);
    assert [claim.id][0] == claim.id;
  }

  /** Claims succeed exactly when all the names are new and pairwise distinct. */
  lemma {:induction false} ClaimAllExact(seen: Seen, claims: seq<Claim>)
    ensures ClaimAll(seen, claims).Ok? <==> Fresh(ItemNames(claims), seen.items) && Fresh(GroupNames(claims), seen.groups)
    decreases |claims|
  {
    if claims != [] {
      var first := [claims[0]];
      assert claims == first + claims[1..];
      NamesConcat(first, claims[1..]);
      TakeOne(seen, claims[0]);
      FreshConcat(ItemNames(first), ItemNames(claims[1..]), seen.items);
      FreshConcat(GroupNames(first), GroupNames(claims[1..]), seen.groups);
      ClaimAllExact(Take(seen, claims[0]), claims[1..]);
    }
  }

  /** A failing claim is the first repetition: all claims before it succeed and one of them is equal to it. */
  lemma {:induction false} FirstRepetition(seen: Seen, claims: seq<Claim>) returns (k: nat)
    requires ClaimAll(seen, claims).Err?
    ensures k < |claims| && claims[k] == ClaimAll(seen, claims).error
    ensures ClaimAll(seen, claims[..k]).Ok? && Taken(ClaimAll(seen, claims[..k]).value, claims[k])
    decreases |claims|
  {
    if Taken(seen, claims[0]) {
      k := 0;
    } else {
      var j := FirstRepetition(Take(seen, claims[0]), claims[1..]);
      k := j + 1;
      assert claims[..k] == [claims[0]] + claims[1..][..j];
      assert claims[..k][1..] == claims[1..][..j];
    }
  }

  lemma {:induction false} TakenMeansClaimed(seen: Seen, claims: seq<Claim>, claim: Claim)
    requires ClaimAll(seen, claims).Ok?
    ensures Taken(ClaimAll(seen, claims).value, claim) <==> Taken(seen, claim) || claim in claims
    decreases |claims|
  {
    if claims != [] {
      TakenMeansClaimed(Take(seen, claims[0]), claims[1..], claim);
      assert claims == [claims[0]] + claims[1..];
    }
  }

  // ----- what references claim is what they show -----

  lemma {:induction false} GroupRefNames(group: BarGroup)
    ensures ItemNames(GroupRefClaims(group)) == GroupRefs(group) && GroupNames(GroupRefClaims(group)) == RefGroupIds(group)
    decreases group, 1
  {
    ChildRefNames(group.elements);
    NamesConcat([GroupClaim(group.id)], ChildRefClaims(group.elements));
    SingleName(GroupClaim(group.id));
  }

  lemma {:induction false} SingleName(claim: Claim)
    ensures ItemNames([claim]) == if claim.ItemClaim? then [claim.id] else []
    ensures GroupNames([claim]) == if claim.GroupClaim? then [claim.id] else []
  {
    assert [claim][1..] == [];
  }

  lemma {:induction false} ChildRefNames(elements: seq<BarGroupElement>)
    ensures ItemNames(ChildRefClaims(elements)) == ItemRefs(elements)
    ensures GroupNames(ChildRefClaims(elements)) == RefChildGroupIds(elements)
    decreases elements, 0
  {
    if elements != [] {
      OneRefNames(elements[0]);
      ChildRefNames(elements[1..]);
      NamesConcat(OneChildClaims(elements[0]), ChildRefClaims(elements[1..]));
    }
  }

  lemma {:induction false} OneRefNames(element: BarGroupElement)
    ensures ItemNames(OneChildClaims(element)) == ChildRefs(element)
    ensures GroupNames(OneChildClaims(element)) == RefIdsOfChild(element)
    decreases element, 2
  {
    match element
    case GroupItemRef(id) => SingleName(ItemClaim(id));
    case NestedGroup(group) => GroupRefNames(group);
  }

  lemma {:induction false} ElementNames(element: BarElement)
    ensures ItemNames(ElementClaims(element)) == ElementRefs(element)
    ensures GroupNames(ElementClaims(element)) == ElementGroupRefs(element)
  {
    match element
    case ItemRef(id) => SingleName(ItemClaim(id));
    case GroupRef(group) => GroupRefNames(group);
    case _ =>
  }

  /** Resolution keeps the group identifiers of a reference, in order. */
  lemma {:induction false} ResolvedGroupIds(view: View, group: BarGroup)
    requires ResolveGroup(view, group).Ok?
    ensures GroupIds(ResolveGroup(view, group).value) == RefGroupIds(group)
    decreases group, 1
  {
    ResolvedChildIds(view, group.elements);
  }

  lemma {:induction false} ResolvedChildIds(view: View, elements: seq<BarGroupElement>)
    requires ResolveChildren(view, elements).Ok?
    ensures ChildGroupIds(ResolveChildren(view, elements).value) == RefChildGroupIds(elements)
    decreases elements, 0
  {
    if elements != [] {
      var first, rest := ResolveChild(view, elements[0]).value, ResolveChildren(view, elements[1..]).value;
      assert ([first] + rest)[1..] == rest;
      ResolvedChildIds(view, elements[1..]);
      ResolvedIdsOfChild(view, elements[0]);
    }
  }

  lemma {:induction false} ResolvedIdsOfChild(view: View, element: BarGroupElement)
    requires ResolveChild(view, element).Ok?
    ensures IdsOfChild(ResolveChild(view, element).value) == RefIdsOfChild(element)
    decreases element, 2
  {
    match element
    case GroupItemRef(_) =>
    case NestedGroup(group) => ResolvedGroupIds(view, group);
  }

  ghost predicate UsableBody(view: View, body: seq<BarElement>) {
    forall i :: 0 <= i < |body| ==> UsableElement(view, body[i])
  }

  ghost predicate SpaceFree(body: seq<BarElement>) {
    forall i :: 0 <= i < |body| ==> !body[i].Fixed? && !body[i].Flexible?
  }

  /** A usable body resolves without an unknown item or a proxy, element by element. */
  lemma {:induction false} UsableResolves(view: View, body: seq<BarElement>)
    requires Consistent(view) && UsableBody(view, body)
    ensures |Shown(view, body)| == |body|
    ensures forall i :: 0 <= i < |body| ==> !body[i].ContextProxy? && ResolveElement(view, body[i]) == Ok(Shown(view, body)[i])
  {
    if body != [] {
      UsableResolves(view, body[1..]);
      KnownElementResolves(view, body[0]);
      var shown := Shown(view, body);
      assert shown == [ResolveElement(view, body[0]).value] + Shown(view, body[1..]);
      forall i | 0 <= i < |body| ensures !body[i].ContextProxy? && ResolveElement(view, body[i]) == Ok(shown[i]) {
        if i > 0 {
          assert body[i] == body[1..][i - 1];
          assert shown[i] == Shown(view, body[1..])[i - 1];
        }
      }
    }
  }

  lemma {:induction false} ShownNames(view: View, body: seq<BarElement>)
    requires Consistent(view) && UsableBody(view, body)
    ensures Ids(BarItems(Shown(view, body))) == ItemNames(BodyClaims(body))
    ensures BarGroupIds(Shown(view, body)) == GroupNames(BodyClaims(body))
  {
    if body != [] {
      var rest := Shown(view, body[1..]);
      ShownNames(view, body[1..]);
      assert UsableElement(view, body[0]);
      KnownElementResolves(view, body[0]);
      var first := ResolveElement(view, body[0]).value;
      assert Shown(view, body) == [first] + rest;
      assert ([first] + rest)[1..] == rest;
      IdsConcat(ElementItems(first), BarItems(rest));
      ElementNames(body[0]);
      NamesConcat(ElementClaims(body[0]), BodyClaims(body[1..]));
      if body[0].GroupRef? {
        ResolvedGroupIds(view, body[0].group);
      }
    }
  }

  lemma {:induction false} ElementNamesUsed(view: View, body: seq<BarElement>)
    requires UsableBody(view, body)
    ensures Nonempty(GroupNames(BodyClaims(body)))
  {
    if body != [] {
      assert UsableElement(view, body[0]);
      ElementNamesUsed(view, body[1..]);
      ElementNames(body[0]);
      NamesConcat(ElementClaims(body[0]), BodyClaims(body[1..]));
    }
  }

  lemma {:induction false} AsChildrenNames(elements: seq<Element>)
    ensures ItemsOf(AsChildren(elements)) == BarItems(elements)
    ensures ChildGroupIds(AsChildren(elements)) == BarGroupIds(elements)
  {
    if elements != [] {
      AsChildrenNames(elements[1..]);
      var rest := AsChildren(elements[1..]);
      match elements[0]
      case Item(item) => assert ([ChildItem(item)] + rest)[1..] == rest;
      case Group(group) => assert ([ChildGroup(group)] + rest)[1..] == rest;
      case _ =>
    }
  }

  /** The element a child stands for. */
  function AsTop(element: GroupElement): Element {
    match element
    case ChildItem(item) => Item(item)
    case ChildGroup(group) => Group(group)
  }

  lemma {:induction false} AsChildrenExact(elements: seq<Element>)
    requires forall i :: 0 <= i < |elements| ==> elements[i].Item? || elements[i].Group?
    ensures |AsChildren(elements)| == |elements|
    ensures forall i :: 0 <= i < |elements| ==> AsTop(AsChildren(elements)[i]) == elements[i]
  {
    if elements != [] {
      assert elements[0].Item? || elements[0].Group?;
      AsChildrenExact(elements[1..]);
      var r, rest := AsChildren(elements), AsChildren(elements[1..]);
      forall i | 0 <= i < |elements| ensures |r| == |elements| && AsTop(r[i]) == elements[i] {
        if i > 0 {
          assert r[i] == rest[i - 1];
          assert elements[i] == elements[1..][i - 1];
        }
      }
    }
  }

  // ----- slots of a valid catalog -----

  /** What composing may rely on once the catalog is validated. */
  ghost predicate Prepared(source: Source) {
    Consistent(source.view) && AllUsable(source.view, source.catalog)
  }

  lemma {:induction false} BodiesUsable(view: View, contributions: seq<ContributionDefinition>)
    requires forall i :: 0 <= i < |contributions| ==> Usable(view, contributions[i])
    ensures UsableBody(view, Gathered(contributions))
  {
    if contributions != [] {
      BodiesUsable(view, contributions[1..]);
      assert Usable(view, contributions[0]);
    }
  }

  lemma {:induction false} BodiesSpaceFree(contributions: seq<ContributionDefinition>)
    requires forall i :: 0 <= i < |contributions| ==> !HasSpace(contributions[i].elements)
    ensures SpaceFree(Gathered(contributions))
  {
    if contributions != [] {
      BodiesSpaceFree(contributions[1..]);
      assert !HasSpace(contributions[0].elements);
    }
  }

  lemma {:induction false} SlotBodyUsable(source: Source, slot: SlotDefinition, nested: bool)
    requires Prepared(source) && SlotReady(source.catalog, slot, nested)
    ensures UsableBody(source.view, BodyOf(source, slot))
    ensures nested ==> SpaceFree(BodyOf(source, slot))
  {
    var selected := SelectBindings(source.catalog, slot, source.context);
    forall k | 0 <= k < |selected|
      ensures Usable(source.view, selected[k]) && (nested ==> !HasSpace(selected[k].elements))
    {
      SelectedAreBound(source.catalog, slot, source.context, selected[k]);
    }
    BodiesUsable(source.view, selected);
    if nested {
      BodiesSpaceFree(selected);
    }
  }

  lemma {:induction false} SlotNames(source: Source, slot: SlotDefinition, nested: bool)
    requires Prepared(source) && SlotReady(source.catalog, slot, nested)
    ensures Ids(BarItems(ShownIn(source, slot))) == ItemNames(BodyClaims(BodyOf(source, slot)))
    ensures BarGroupIds(ShownIn(source, slot)) == GroupNames(BodyClaims(BodyOf(source, slot)))
    ensures Nonempty(GroupNames(BodyClaims(BodyOf(source, slot))))
    ensures nested ==> |AsChildren(ShownIn(source, slot))| == |ShownIn(source, slot)|
    ensures nested ==> forall i :: 0 <= i < |ShownIn(source, slot)| ==> AsTop(AsChildren(ShownIn(source, slot))[i]) == ShownIn(source, slot)[i]
  {
    SlotBodyUsable(source, slot, nested);
    var body := BodyOf(source, slot);
    ShownNames(source.view, body);
    ElementNamesUsed(source.view, body);
    if nested {
      UsableResolves(source.view, body);
      var shown := ShownIn(source, slot);
      forall i | 0 <= i < |shown| ensures shown[i].Item? || shown[i].Group? {
        assert ResolveElement(source.view, body[i]) == Ok(shown[i]);
      }
      AsChildrenExact(shown);
    }
  }

  // ----- the names of a composed bar are its claims -----

  /** Same names with the same multiplicity. */
  ghost predicate SameNames(a: seq<string>, b: seq<string>) {
    multiset(a) == multiset(b)
  }

  lemma {:induction false} GroupContentNames(source: Source, group: ProfileGroup)
    requires Prepared(source) && GroupReady(source.catalog, group)
    ensures Ids(GroupItems(GroupContent(source, group))) == ItemNames(ProfileGroupClaims(source, group))
    ensures SameNames(GroupIds(GroupContent(source, group)), GroupNames(ProfileGroupClaims(source, group)))
    ensures Nonempty(GroupNames(ProfileGroupClaims(source, group)))
    decreases group, 1
  {
    ChildrenContentNames(source, group.elements);
    NamedBy(group.id, ProfileChildrenClaims(source, group.elements));
    OneMoreName(group.id, ChildGroupIds(ChildrenContent(source, group.elements)), GroupNames(ProfileChildrenClaims(source, group.elements)));
  }

  lemma {:induction false} NamedBy(id: string, claims: seq<Claim>)
    ensures ItemNames([GroupClaim(id)] + claims) == ItemNames(claims) == ItemNames(claims + [GroupClaim(id)])
    ensures GroupNames([GroupClaim(id)] + claims) == [id] + GroupNames(claims)
    ensures GroupNames(claims + [GroupClaim(id)]) == GroupNames(claims) + [id]
  {
    NamesConcat([GroupClaim(id)], claims);
    NamesConcat(claims, [GroupClaim(id)]);
    SingleName(GroupClaim(id));
  }

  lemma {:induction false} OneMoreName(id: string, a: seq<string>, b: seq<string>)
    requires id != "" && SameNames(a, b) && Nonempty(b)
    ensures SameNames([id] + a, [id] + b) && SameNames([id] + a, b + [id])
    ensures Nonempty([id] + b) && Nonempty(b + [id])
  {
  }

  lemma {:induction false} ChildrenContentNames(source: Source, elements: seq<ProfileGroupElement>)
    requires Prepared(source) && ChildrenReady(source.catalog, elements)
    ensures Ids(ItemsOf(ChildrenContent(source, elements))) == ItemNames(ProfileChildrenClaims(source, elements))
    ensures SameNames(ChildGroupIds(ChildrenContent(source, elements)), GroupNames(ProfileChildrenClaims(source, elements)))
    ensures Nonempty(GroupNames(ProfileChildrenClaims(source, elements)))
    decreases elements, 0
  {
    if elements != [] {
      var first, rest := ChildContent(source, elements[0]), ChildrenContent(source, elements[1..]);
      assert ([first] + rest)[1..] == rest;
      ChildContentNames(source, elements[0]);
      ChildrenContentNames(source, elements[1..]);
      NamesConcat(ProfileChildClaims(source, elements[0]), ProfileChildrenClaims(source, elements[1..]));
      IdsConcat(ChildItems(first), ItemsOf(rest));
    }
  }

  lemma {:induction false} ChildContentNames(source: Source, element: ProfileGroupElement)
    requires Prepared(source) && ChildReady(source.catalog, element)
    ensures Ids(ChildItems(ChildContent(source, element))) == ItemNames(ProfileChildClaims(source, element))
    ensures SameNames(IdsOfChild(ChildContent(source, element)), GroupNames(ProfileChildClaims(source, element)))
    ensures Nonempty(GroupNames(ProfileChildClaims(source, element)))
    decreases element, 2
  {
    match element
    case GroupedGroup(group) => GroupContentNames(source, group);
    case GroupedSlot(slot) =>
      var id, claims := SlotGroupId(source.profile, slot.id), BodyClaims(BodyOf(source, slot));
      SlotNames(source, slot, true);
      SlotGroupNames(source, slot);
      NamedBy(id, claims);
      OneMoreName(id, BarGroupIds(ShownIn(source, slot)), GroupNames(claims));
  }

  lemma {:induction false} SlotGroupNames(source: Source, slot: SlotDefinition)
    ensures GroupItems(SlotGroup(source, slot)) == BarItems(ShownIn(source, slot))
    ensures GroupIds(SlotGroup(source, slot)) == [SlotGroupId(source.profile, slot.id)] + BarGroupIds(ShownIn(source, slot))
    ensures SlotGroupId(source.profile, slot.id) != ""
  {
    AsChildrenNames(ShownIn(source, slot));
    assert SlotGroupId(source.profile, slot.id)[0] == '@';
  }

  lemma {:induction false} TopContentNames(source: Source, element: ProfileElement)
    requires Prepared(source) && ElementReady(source.catalog, element)
    ensures Ids(BarItems(TopContent(source, element))) == ItemNames(TopClaims(source, element))
    ensures SameNames(BarGroupIds(TopContent(source, element)), GroupNames(TopClaims(source, element)))
    ensures Nonempty(GroupNames(TopClaims(source, element)))
  {
    match element
    case TopSlot(slot) => SlotNames(source, slot, false);
    case TopGroup(group) =>
      GroupContentNames(source, group);
      SingleElement(Group(GroupContent(source, group)));
    case TopFixed(width) => SingleElement(FixedSpace(width));
    case TopFlexible(minimum, weight) => SingleElement(FlexibleSpace(minimum, weight));
  }

  lemma {:induction false} SingleElement(element: Element)
    ensures BarItems([element]) == ElementItems(element) && BarGroupIds([element]) == ElementGroupIds(element)
  {
    assert [element][1..] == [];
  }

  lemma {:induction false} BarConcat(a: seq<Element>, b: seq<Element>)
    ensures BarItems(a + b) == BarItems(a) + BarItems(b)
    ensures BarGroupIds(a + b) == BarGroupIds(a) + BarGroupIds(b)
  {
    if a == [] {
      assert a + b == b;
    } else {
      assert (a + b)[0] == a[0] && (a + b)[1..] == a[1..] + b;
      BarConcat(a[1..], b);
      ConcatAssociates(ElementItems(a[0]), BarItems(a[1..]), BarItems(b));
      ConcatAssociates(ElementGroupIds(a[0]), BarGroupIds(a[1..]), BarGroupIds(b));
    }
  }

  lemma {:induction false} BarContentNames(source: Source, elements: seq<ProfileElement>)
    requires Prepared(source) && ElementsReady(source.catalog, elements)
    ensures Ids(BarItems(BarContent(source, elements))) == ItemNames(BarClaims(source, elements))
    ensures SameNames(BarGroupIds(BarContent(source, elements)), GroupNames(BarClaims(source, elements)))
    ensures Nonempty(GroupNames(BarClaims(source, elements)))
  {
    if elements != [] {
      var first, rest := TopContent(source, elements[0]), BarContent(source, elements[1..]);
      TopContentNames(source, elements[0]);
      BarContentNames(source, elements[1..]);
      BarConcat(first, rest);
      IdsConcat(BarItems(first), BarItems(rest));
      NamesConcat(TopClaims(source, elements[0]), BarClaims(source, elements[1..]));
    }
  }

  lemma {:induction false} SameNamesFresh(a: seq<string>, b: seq<string>)
    requires SameNames(a, b) && Fresh(b, {}) && Nonempty(b)
    ensures Fresh(a, {}) && Nonempty(a)
  {
    DistinctIsMultisetProperty(a);
    DistinctIsMultisetProperty(b);
    forall x | x in a ensures x in b && multiset(a)[x] == 1 {
      assert x in multiset(a);
      assert x in multiset(b);
    }
    forall i | 0 <= i < |a| ensures a[i] != "" {
      assert a[i] in b;
    }
  }

  // ----- the theorems -----

  lemma {:induction false} WeightsPositive(source: Source, elements: seq<ProfileElement>)
    requires Prepared(source) && ElementsReady(source.catalog, elements)
    ensures forall i :: 0 <= i < |BarContent(source, elements)| && BarContent(source, elements)[i].FlexibleSpace? ==>
              BarContent(source, elements)[i].weight > 0
  {
    if elements != [] {
      WeightsPositive(source, elements[1..]);
      var first := TopContent(source, elements[0]);
      forall i | 0 <= i < |first| && first[i].FlexibleSpace? ensures first[i].weight > 0 {
        if elements[0].TopSlot? {
          var slot := elements[0].slot;
          SlotBodyUsable(source, slot, false);
          UsableResolves(source.view, BodyOf(source, slot));
          assert UsableElement(source.view, BodyOf(source, slot)[i]);
        }
      }
    }
  }

  /** Claimed items are registered, so they have a name. */
  lemma {:induction false} ClaimedItemsAreNamed(source: Source, elements: seq<ProfileElement>)
    requires Prepared(source) && ElementsReady(source.catalog, elements)
    ensures Nonempty(ItemNames(BarClaims(source, elements)))
  {
    if elements != [] {
      ClaimedItemsAreNamed(source, elements[1..]);
      NamesConcat(TopClaims(source, elements[0]), BarClaims(source, elements[1..]));
      match elements[0]
      case TopSlot(slot) =>
        SlotBodyUsable(source, slot, false);
        BodyItemsNamed(source.view, BodyOf(source, slot));
      case TopGroup(group) => GroupItemsNamed(source, group);
      case _ =>
    }
  }

  lemma {:induction false} BodyItemsNamed(view: View, body: seq<BarElement>)
    requires Consistent(view) && UsableBody(view, body)
    ensures Nonempty(ItemNames(BodyClaims(body)))
  {
    if body != [] {
      BodyItemsNamed(view, body[1..]);
      assert UsableElement(view, body[0]);
      ElementNames(body[0]);
      NamesConcat(ElementClaims(body[0]), BodyClaims(body[1..]));
      forall i | 0 <= i < |ElementRefs(body[0])| ensures ElementRefs(body[0])[i] != "" {
        assert ElementRefs(body[0])[i] in view.items;
      }
    }
  }

  lemma {:induction false} GroupItemsNamed(source: Source, group: ProfileGroup)
    requires Prepared(source) && GroupReady(source.catalog, group)
    ensures Nonempty(ItemNames(ProfileGroupClaims(source, group)))
    decreases group, 1
  {
    ChildItemsNamed(source, group.elements);
    NamesConcat([GroupClaim(group.id)], ProfileChildrenClaims(source, group.elements));
    SingleName(GroupClaim(group.id));
  }

  lemma {:induction false} ChildItemsNamed(source: Source, elements: seq<ProfileGroupElement>)
    requires Prepared(source) && ChildrenReady(source.catalog, elements)
    ensures Nonempty(ItemNames(ProfileChildrenClaims(source, elements)))
    decreases elements, 0
  {
    if elements != [] {
      ChildItemsNamed(source, elements[1..]);
      NamesConcat(ProfileChildClaims(source, elements[0]), ProfileChildrenClaims(source, elements[1..]));
      OneChildItemsNamed(source, elements[0]);
    }
  }

  lemma {:induction false} OneChildItemsNamed(source: Source, element: ProfileGroupElement)
    requires Prepared(source) && ChildReady(source.catalog, element)
    ensures Nonempty(ItemNames(ProfileChildClaims(source, element)))
    decreases element, 2
  {
    match element
    case GroupedGroup(group) => GroupItemsNamed(source, group);
    case GroupedSlot(slot) =>
      SlotBodyUsable(source, slot, true);
      BodyItemsNamed(source.view, BodyOf(source, slot));
      NamesConcat(BodyClaims(BodyOf(source, slot)), [GroupClaim(SlotGroupId(source.profile, slot.id))]);
      SingleName(GroupClaim(SlotGroupId(source.profile, slot.id)));
  }

  /** A profile composes exactly when the catalog is valid, the profile exists, and no item and no
      group is claimed twice; the only errors left are those and nothing is unknown. */
  lemma {:induction false} ComposesExactly(view: View, catalog: Catalog, id: ProfileId, context: ContextSnapshot)
    requires Consistent(view) && CatalogConsistent(catalog)
    ensures Composed(view, catalog, id, context).Ok? <==>
              && ValidateCatalog(view, catalog).Ok?
              && id in catalog.profiles
              && var claims := BarClaims(Source(view, catalog, id, context), catalog.profiles[id].elements);
                 Distinct(ItemNames(claims)) && Distinct(GroupNames(claims))
    ensures ValidateCatalog(view, catalog).Ok? && Composed(view, catalog, id, context).Err? ==>
              var error := Composed(view, catalog, id, context).error;
              error.UnknownProfile? || error.DuplicateComposedItem? || error.DuplicateComposedGroup?
  {
    if ValidateCatalog(view, catalog).Ok? && id in catalog.profiles {
      ClaimAllExact(Seen({}, {}), BarClaims(Source(view, catalog, id, context), catalog.profiles[id].elements));
    }
  }

  /** The composed bar holds exactly the claimed items, in order, each once; its groups are named
      and pairwise distinct, its flexible spaces weighted and its principal is one of its items. */
  lemma {:induction false} ComposedBarIsSound(view: View, catalog: Catalog, id: ProfileId, context: ContextSnapshot)
    requires Consistent(view) && CatalogConsistent(catalog) && Composed(view, catalog, id, context).Ok?
    ensures var bar := Composed(view, catalog, id, context).value.bar;
            && Ids(BarItems(bar.elements)) == ItemNames(BarClaims(Source(view, catalog, id, context), catalog.profiles[id].elements))
            && Fresh(Ids(BarItems(bar.elements)), {}) && Nonempty(Ids(BarItems(bar.elements)))
            && Fresh(BarGroupIds(bar.elements), {}) && Nonempty(BarGroupIds(bar.elements))
            && (forall i :: 0 <= i < |bar.elements| && bar.elements[i].FlexibleSpace? ==> bar.elements[i].weight > 0)
            && (bar.principalItem.Some? ==> bar.principalItem.value in Ids(BarItems(bar.elements)))
            && bar.principalItem == (match catalog.profiles[id].principalItem
                                     case Some(p) => if p in Ids(BarItems(bar.elements)) then Some(p) else None
                                     case None => None)
  {
    var profile := catalog.profiles[id];
    var source := Source(view, catalog, id, context);
    var claims := BarClaims(source, profile.elements);
    var elements := BarContent(source, profile.elements);
    ValidCatalogFacts(view, catalog);
    BarContentNames(source, profile.elements);
    WeightsPositive(source, profile.elements);
    ClaimAllExact(Seen({}, {}), claims);
    SameNamesFresh(BarGroupIds(elements), GroupNames(claims));
    ClaimedItemsAreNamed(source, profile.elements);
    if profile.principalItem.Some? {
      ItemNamesMembers(claims, profile.principalItem.value);
    }
  }

  /** Layout never rejects a composed bar for an empty, repeated or unknown identifier or for a
      flexible space: only for an item that is not sized, a group too deep or without a common width,
      or a required item that is not shown. */
  lemma {:induction false} ComposedBarValidates(view: View, catalog: Catalog, id: ProfileId, context: ContextSnapshot, required: set<ItemId>)
    requires Consistent(view) && CatalogConsistent(catalog) && Composed(view, catalog, id, context).Ok?
    ensures var bar := Composed(view, catalog, id, context).value.bar;
            var result := Validate(bar, required);
            && (result.Ok? <==> AllSoundTop(bar.elements) && required <= Elements(Ids(BarItems(bar.elements))))
            && (result.Err? ==> FaultOf(bar, required, result.error))
  {
    ComposedBarIsSound(view, catalog, id, context);
    var bar := Composed(view, catalog, id, context).value.bar;
    SoundBarValidates(bar, required);
  }

  /** The only faults a well-named bar can have, and where. */
  ghost predicate FaultOf(bar: BarSpec, required: set<ItemId>, error: LayoutError) {
    match error
    case InvalidSizing(id) => exists i :: 0 <= i < |BarItems(bar.elements)| && BarItems(bar.elements)[i].id == id && !ItemSized(BarItems(bar.elements)[i])
    case GroupDepthExceeded(id) => id in BarEvidence(bar.elements).tooDeep
    case InvalidEqualWidthGroup(id) => id in BarEvidence(bar.elements).uneven
    case UnknownRequired(id) => id in required && id !in Ids(BarItems(bar.elements))
    case _ => false
  }

  lemma {:induction false} DistinctNeverRepeats(names: seq<string>, name: string)
    requires Distinct(names)
    ensures !Repeats(names, {}, name)
  {
  }

  lemma {:induction false} SoundBarValidates(bar: BarSpec, required: set<ItemId>)
    requires Fresh(Ids(BarItems(bar.elements)), {}) && Nonempty(Ids(BarItems(bar.elements)))
    requires Fresh(BarGroupIds(bar.elements), {}) && Nonempty(BarGroupIds(bar.elements))
    requires forall i :: 0 <= i < |bar.elements| && bar.elements[i].FlexibleSpace? ==> bar.elements[i].weight > 0
    requires bar.principalItem.Some? ==> bar.principalItem.value in Ids(BarItems(bar.elements))
    ensures Validate(bar, required).Ok? <==> AllSoundTop(bar.elements) && required <= Elements(Ids(BarItems(bar.elements)))
    ensures Validate(bar, required).Err? ==> FaultOf(bar, required, Validate(bar, required).error)
  {
    ValidateExact(bar, required);
    ValidateBlames(bar, required);
    BarEvidenceIs(bar.elements);
    var ids := Ids(BarItems(bar.elements));
    assert forall id :: id in ids <==> id in Elements(ids);
    if Validate(bar, required).Err? {
      match Validate(bar, required).error
      case DuplicateItem(id) => DistinctNeverRepeats(ids, id);
      case DuplicateGroup(id) => DistinctNeverRepeats(BarGroupIds(bar.elements), id);
      case _ =>
    }
  }
}
