/** Profiles that compose into bars layout rejects. */
module ComposeWitness {
  import opened Basics
  import opened Sorting
  import opened Ordering
  import opened Context
  import opened LayoutTypes
  import opened LayoutGroups
  import opened LayoutValidate
  import opened RegistryModel
  import opened ActiveChain
  import opened Profiles
  import opened Compose
  import opened ComposeFacts
  import opened ComposeSizes

  // ----- a registry with one item, a contribution with one element, a profile with one element -----

  function OneItem(minimum: u32): View {
    View(map["a" := ItemDefinition(ItemSpec("a", minimum, 1, 1, 0, 0, None), "A", None, None)], map[])
  }

  const OneSlot := SlotDefinition("s", Fix, [ContributionBinding("c", 0)])

  function OneCatalog(element: BarElement, top: ProfileElement): Catalog {
    Catalog(map["c" := ContributionDefinition("c", [element], Always, Global, 0)], map["p" := ProfileDefinition("p", [top], None)])
  }

  lemma {:induction false} SingleKey<V>(key: string, value: V)
    ensures SortedKeys(map[key := value]) == [key]
  {
    StringIsTotalOrder();
    var keys := map[key := value].Keys;
    assert keys == {key};
    ListingFacts(StringLe, keys);
    var listed := SortedKeys(map[key := value]);
    assert |listed| == 1 && listed[0] in keys;
  }

  lemma {:induction false} OnlySelection(element: BarElement, top: ProfileElement, context: ContextSnapshot)
    ensures var catalog := OneCatalog(element, top);
            SelectBindings(catalog, OneSlot, context) == [catalog.contributions["c"]] && SlotBody(catalog, OneSlot, context) == [element]
  {
    var catalog := OneCatalog(element, top);
    var bound := Numbered(OneSlot.bindings);
    assert bound == [Bound(0, OneSlot.bindings[0])];
    SortSingle(bound);
    var rest: seq<Bound> := [];
    assert bound[1..] == rest;
    assert Candidates(catalog, OneSlot, context, rest) == [];
    assert Candidates(catalog, OneSlot, context, bound) == [catalog.contributions["c"]];
    var others: seq<ContributionDefinition> := [];
    assert [catalog.contributions["c"]][1..] == others && Gathered(others) == [];
    assert Gathered([catalog.contributions["c"]]) == [element] + [];
  }

  lemma {:induction false} SortSingle(bound: seq<Bound>)
    requires |bound| == 1
    ensures Sort(BoundBefore, bound) == bound
  {
    assert bound[1..] == [];
  }

  lemma {:induction false} ItemIsConsistent(minimum: u32)
    ensures Consistent(OneItem(minimum))
  {
  }

  lemma {:induction false} CatalogIsConsistent(element: BarElement, top: ProfileElement)
    ensures CatalogConsistent(OneCatalog(element, top))
  {
    assert !Blank("c") by { assert !IsWhitespace("c"[0]); }
    assert !Blank("p") by { assert !IsWhitespace("p"[0]); }
  }

  /** Validation of such a catalog comes down to its element and its profile. */
  lemma {:induction false} OneCatalogValidates(view: View, element: BarElement, top: ProfileElement)
    ensures ValidateCatalog(view, OneCatalog(element, top)).Ok? <==>
              && ValidateContributionElements(view, "c", [element], {}).Ok?
              && ValidateProfileElements(OneCatalog(element, top), "p", [top], Names({}, {})).Ok?
  {
    var catalog := OneCatalog(element, top);
    SingleKey("c", catalog.contributions["c"]);
    SingleKey("p", catalog.profiles["p"]);
    var none: seq<string> := [];
    assert ["c"][1..] == none && ["p"][1..] == none;
    assert ValidateContributions(view, catalog, none).Ok? && ValidateProfiles(catalog, none).Ok?;
  }

  lemma {:induction false} OneSlotValidates(element: BarElement, top: ProfileElement, nested: bool)
    requires nested ==> !element.Fixed? && !element.Flexible?
    ensures ValidateSlot(OneCatalog(element, top), "p", OneSlot, nested, Names({}, {})).Ok?
    ensures ValidateSlot(OneCatalog(element, top), "p", OneSlot, nested, Names({}, {"outer"})).Ok?
  {
    var catalog := OneCatalog(element, top);
    assert !Blank("s") by { assert !IsWhitespace("s"[0]); }
    assert OneSlot.bindings[1..] == [];
    assert ValidateBindings(catalog, "p", "s", nested, []).Ok?;
    assert ValidateBindings(catalog, "p", "s", nested, OneSlot.bindings).Ok?;
  }

  // ----- an item without a width -----

  lemma {:induction false} ItemCatalogValidates()
    ensures ValidateCatalog(OneItem(0), OneCatalog(ItemRef("a"), TopSlot(OneSlot))).Ok?
  {
    var view, element, top := OneItem(0), ItemRef("a"), TopSlot(OneSlot);
    var catalog := OneCatalog(element, top);
    OneCatalogValidates(view, element, top);
    OneSlotValidates(element, top, false);
    assert [element][1..] == [] && [top][1..] == [];
    assert ValidateContributionElements(view, "c", [], {}).Ok?;
    assert ValidateProfileElements(catalog, "p", [], Names({"s"}, {})).Ok?;
  }

  lemma {:induction false} ItemClaims(source: Source, context: ContextSnapshot)
    requires source == Source(OneItem(0), OneCatalog(ItemRef("a"), TopSlot(OneSlot)), "p", context)
    ensures BarClaims(source, [TopSlot(OneSlot)]) == [ItemClaim("a")]
  {
    var element, top := ItemRef("a"), TopSlot(OneSlot);
    OnlySelection(element, top, context);
    assert [element][1..] == [] && [top][1..] == [];
    assert BodyClaims([element]) == [ItemClaim("a")] by {
      assert BodyClaims([]) == [];
    }
    assert BarClaims(source, [top]) == [ItemClaim("a")] by {
      assert BarClaims(source, []) == [];
    }
  }

  lemma {:induction false} ItemComposes(context: ContextSnapshot)
    ensures var view, catalog := OneItem(0), OneCatalog(ItemRef("a"), TopSlot(OneSlot));
            && Composed(view, catalog, "p", context).Ok?
            && Composed(view, catalog, "p", context).value.bar == BarSpec(BarContent(Source(view, catalog, "p", context), [TopSlot(OneSlot)]), None)
  {
    var catalog := OneCatalog(ItemRef("a"), TopSlot(OneSlot));
    ItemIsConsistent(0);
    CatalogIsConsistent(ItemRef("a"), TopSlot(OneSlot));
    ItemCatalogValidates();
    ItemClaims(Source(OneItem(0), catalog, "p", context), context);
    OneClaimComposes(OneItem(0), catalog, "p", context, ItemClaim("a"));
    ComposedContent(OneItem(0), catalog, "p", context);
  }

  lemma {:induction false} OneClaimComposes(view: View, catalog: Catalog, id: ProfileId, context: ContextSnapshot, claim: Claim)
    requires Consistent(view) && CatalogConsistent(catalog) && ValidateCatalog(view, catalog).Ok? && id in catalog.profiles
    requires BarClaims(Source(view, catalog, id, context), catalog.profiles[id].elements) == [claim]
    ensures Composed(view, catalog, id, context).Ok?
  {
    SingleName(claim);
    ComposesExactly(view, catalog, id, context);
  }

  lemma {:induction false} ComposedContent(view: View, catalog: Catalog, id: ProfileId, context: ContextSnapshot)
    requires CatalogConsistent(catalog) && Composed(view, catalog, id, context).Ok? && catalog.profiles[id].principalItem == None
    ensures Composed(view, catalog, id, context).value.bar == BarSpec(BarContent(Source(view, catalog, id, context), catalog.profiles[id].elements), None)
  {
  }

  /** The registry accepts an item of minimum width zero; a profile that shows it composes, and layout
      rejects the bar. */
  lemma {:induction false} ZeroWidthIsRejected(context: ContextSnapshot)
    ensures var view, catalog := OneItem(0), OneCatalog(ItemRef("a"), TopSlot(OneSlot));
            && Consistent(view) && CatalogConsistent(catalog) && Composed(view, catalog, "p", context).Ok?
            && Validate(Composed(view, catalog, "p", context).value.bar, {}) == Err(InvalidSizing("a"))
  {
    var catalog := OneCatalog(ItemRef("a"), TopSlot(OneSlot));
    ItemIsConsistent(0);
    CatalogIsConsistent(ItemRef("a"), TopSlot(OneSlot));
    ItemComposes(context);
    OneItemBar(Source(OneItem(0), catalog, "p", context), context);
  }

  lemma {:induction false} OneItemBar(source: Source, context: ContextSnapshot)
    requires source == Source(OneItem(0), OneCatalog(ItemRef("a"), TopSlot(OneSlot)), "p", context)
    ensures var item := OneItem(0).items["a"].layout;
            var bar := BarSpec(BarContent(source, [TopSlot(OneSlot)]), None);
            bar.elements == [Item(item)] && Validate(bar, {}) == Err(InvalidSizing("a"))
  {
    var item := OneItem(0).items["a"].layout;
    OnlySelection(ItemRef("a"), TopSlot(OneSlot), context);
    assert [ItemRef("a")][1..] == [];
    assert Shown(source.view, []) == [];
    assert Shown(source.view, [ItemRef("a")]) == [Item(item)];
    assert [TopSlot(OneSlot)][1..] == [];
    assert BarContent(source, []) == [];
    assert BarContent(source, [TopSlot(OneSlot)]) == [Item(item)];
    assert ValidateElements([Item(item)], 0, Seen({}, {})) == Err(InvalidSizing("a"));
  }

  // ----- groups that are too deep together -----

  function Name(n: nat): (r: string)
    ensures |r| == n
  {
    seq(n, i => 'g')
  }

  /** Groups nested `n` deep around the item. */
  function Deep(n: nat): BarGroup
    requires n > 0
  {
    BarGroup(Name(n), [if n == 1 then GroupItemRef("a") else NestedGroup(Deep(n - 1))], Natural, 0, 0, 0)
  }

  lemma {:induction false} OneChild(element: BarGroupElement)
    ensures ItemRefs([element]) == ChildRefs(element) && RefChildGroupIds([element]) == RefIdsOfChild(element)
    ensures RefChildDepth([element]) == RefDepthOf(element)
    ensures forall view :: RefSizings(view, [element]).Ok? <==> RefChildSizing(view, element).Ok?
  {
    var none: seq<BarGroupElement> := [];
    assert [element][1..] == none;
    assert ItemRefs(none) == [] && RefChildGroupIds(none) == [] && RefChildDepth(none) == 0;
    assert forall view: View :: RefSizings(view, none).Ok?;
  }

  lemma {:induction false} DeepMeasures(view: View, n: nat)
    requires n > 0
    ensures RefDepth(Deep(n)) == n && GroupRefs(Deep(n)) == ["a"] && RefSizing(view, Deep(n)).Ok?
  {
    OneChild(Deep(n).elements[0]);
    if n > 1 {
      DeepMeasures(view, n - 1);
    }
  }

  lemma {:induction false} DeepNames(n: nat)
    requires n > 0
    ensures Distinct(RefGroupIds(Deep(n)))
    ensures forall i :: 0 <= i < |RefGroupIds(Deep(n))| ==> 0 < |RefGroupIds(Deep(n))[i]| <= n && RefGroupIds(Deep(n))[i][0] == 'g'
  {
    OneChild(Deep(n).elements[0]);
    if n > 1 {
      DeepNames(n - 1);
    }
  }

  lemma {:induction false} DeepValidates(view: View, n: nat, depth: nat, seen: set<string>)
    requires n > 0 && "a" in view.items && depth + n <= MAX_GROUP_DEPTH + 1
    requires forall k :: 0 < k <= n ==> Name(k) !in seen
    ensures ValidateContributionGroup(view, "c", Deep(n), depth, seen).Ok?
  {
    assert !Blank(Name(n)) by { assert !IsWhitespace(Name(n)[0]); }
    var after := seen + {Name(n)};
    var element := Deep(n).elements[0];
    var none: seq<BarGroupElement> := [];
    assert Deep(n).elements[1..] == none;
    if n > 1 {
      forall k | 0 < k <= n - 1 ensures Name(k) !in after {
        assert |Name(k)| != |Name(n)|;
      }
      DeepValidates(view, n - 1, depth + 1, after);
    }
    var checked := ValidateContributionChild(view, "c", element, depth, after);
    assert checked.Ok?;
    assert ValidateContributionChildren(view, "c", none, depth, checked.value).Ok?;
    assert ValidateContributionChildren(view, "c", Deep(n).elements, depth, after).Ok?;
  }

  const Outer := ProfileGroup("outer", [GroupedSlot(OneSlot)], Natural, 0, 0, 0)

  lemma {:induction false} OuterValidates(catalog: Catalog)
    requires ValidateSlot(catalog, "p", OneSlot, true, Names({}, {"outer"})).Ok?
    ensures ValidateProfileElements(catalog, "p", [TopGroup(Outer)], Names({}, {})).Ok?
  {
    assert !Blank("outer") && !(SLOT_PREFIX <= "outer") by {
      assert !IsWhitespace("outer"[0]);
      assert SLOT_PREFIX[0] == '@' && "outer"[0] == 'o';
    }
    var none: seq<ProfileGroupElement> := [];
    assert Outer.elements[1..] == none;
    assert {} + {"outer"} == {"outer"};
    var after := ValidateProfileChild(catalog, "p", "outer", Outer.elements[0], 1, Names({}, {"outer"}));
    assert after.Ok?;
    assert ValidateProfileChildren(catalog, "p", "outer", none, 1, after.value).Ok?;
    assert ValidateProfileGroup(catalog, "p", Outer, 1, Names({}, {})).Ok?;
    assert [TopGroup(Outer)][1..] == [];
  }

  lemma {:induction false} DeepCatalogIsValid(n: nat)
    requires 0 < n <= MAX_GROUP_DEPTH
    ensures ValidateCatalog(OneItem(1), OneCatalog(GroupRef(Deep(n)), TopGroup(Outer))).Ok?
  {
    var view, element, top := OneItem(1), GroupRef(Deep(n)), TopGroup(Outer);
    OneCatalogValidates(view, element, top);
    OneSlotValidates(element, top, true);
    DeepValidates(view, n, 1, {});
    OuterValidates(OneCatalog(element, top));
    var none: seq<BarElement> := [];
    assert [element][1..] == none;
  }

  /** The names that the composition claims: the profile's group, the contributed groups and the group
      of the slot. */
  lemma {:induction false} DeepClaims(n: nat, context: ContextSnapshot)
    requires n > 0
    ensures var source := Source(OneItem(1), OneCatalog(GroupRef(Deep(n)), TopGroup(Outer)), "p", context);
            && ItemNames(BarClaims(source, [TopGroup(Outer)])) == ["a"]
            && GroupNames(BarClaims(source, [TopGroup(Outer)])) == ["outer"] + (RefGroupIds(Deep(n)) + [SlotGroupId("p", "s")])
  {
    var element, top := GroupRef(Deep(n)), TopGroup(Outer);
    var source := Source(OneItem(1), OneCatalog(element, top), "p", context);
    OnlySelection(element, top, context);
    var body := BodyClaims([element]);
    assert body == GroupRefClaims(Deep(n)) by {
      assert [element][1..] == [] && BodyClaims([]) == [];
    }
    GroupRefNames(Deep(n));
    DeepMeasures(OneItem(1), n);
    NamedBy(SlotGroupId("p", "s"), body);
    var inner := body + [GroupClaim(SlotGroupId("p", "s"))];
    assert ProfileChildrenClaims(source, Outer.elements) == inner by {
      assert Outer.elements[1..] == [] && ProfileChildrenClaims(source, []) == [];
    }
    NamedBy("outer", inner);
    assert BarClaims(source, [top]) == ProfileGroupClaims(source, Outer) by {
      assert [top][1..] == [] && BarClaims(source, []) == [];
    }
  }

  lemma {:induction false} DeepClaimsAreDistinct(n: nat)
    requires n > 0
    ensures Distinct(["outer"] + (RefGroupIds(Deep(n)) + [SlotGroupId("p", "s")]))
  {
    DeepNames(n);
    var inner, slot := RefGroupIds(Deep(n)), SlotGroupId("p", "s");
    assert slot[0] == '@' && "outer"[0] == 'o';
    var tail := inner + [slot];
    forall i, j | 0 <= i < j < |tail| ensures tail[i] != tail[j] {
      if j == |inner| {
        assert inner[i][0] == 'g';
      }
    }
    forall i | 0 <= i < |tail| ensures tail[i] != "outer" {
      if i < |inner| {
        assert inner[i][0] == 'g';
      }
    }
  }

  lemma {:induction false} DeepComposes(n: nat, context: ContextSnapshot)
    requires 0 < n <= MAX_GROUP_DEPTH
    ensures Composed(OneItem(1), OneCatalog(GroupRef(Deep(n)), TopGroup(Outer)), "p", context).Ok?
  {
    var element, top := GroupRef(Deep(n)), TopGroup(Outer);
    ItemIsConsistent(1);
    CatalogIsConsistent(element, top);
    DeepCatalogIsValid(n);
    DeepClaims(n, context);
    DeepClaimsAreDistinct(n);
    ComposesExactly(OneItem(1), OneCatalog(element, top), "p", context);
  }

  /** The composed bar nests one level for the profile's group, one for the slot's and `n` for the
      contribution's, which layout allows exactly up to eight. */
  lemma {:induction false} DeepIsAcceptedExactly(n: nat, context: ContextSnapshot)
    requires 0 < n <= MAX_GROUP_DEPTH
    ensures var view, catalog := OneItem(1), OneCatalog(GroupRef(Deep(n)), TopGroup(Outer));
            && Consistent(view) && CatalogConsistent(catalog) && Composed(view, catalog, "p", context).Ok?
            && (Validate(Composed(view, catalog, "p", context).value.bar, {}).Ok? <==> n + 2 <= MAX_GROUP_DEPTH)
            && (n + 2 > MAX_GROUP_DEPTH ==> Validate(Composed(view, catalog, "p", context).value.bar, {}).error.GroupDepthExceeded?)
  {
    var view, element, top := OneItem(1), GroupRef(Deep(n)), TopGroup(Outer);
    var catalog := OneCatalog(element, top);
    var source := Source(view, catalog, "p", context);
    ItemIsConsistent(1);
    CatalogIsConsistent(element, top);
    DeepComposes(n, context);
    LayoutAcceptsExactly(view, catalog, "p", context, {});
    ComposedBarValidates(view, catalog, "p", context, {});
    DeepFits(n, context);
    DeepClaims(n, context);
    assert SizedInRegistry(view, ["a"]);
    ComposedBarIsSound(view, catalog, "p", context);
    DeepIsEven(n, context);
    var bar := Composed(view, catalog, "p", context).value.bar;
    BarContentRegistered(source, [top]);
    SizesAreRegistered(view, BarItems(bar.elements));
  }

  lemma {:induction false} DeepFits(n: nat, context: ContextSnapshot)
    requires 0 < n
    ensures var source := Source(OneItem(1), OneCatalog(GroupRef(Deep(n)), TopGroup(Outer)), "p", context);
            && TemplateSizing(source, Outer).Ok?
            && (ElementsFit(source, [TopGroup(Outer)]) <==> n + 2 <= MAX_GROUP_DEPTH)
  {
    var element, top := GroupRef(Deep(n)), TopGroup(Outer);
    var source := Source(OneItem(1), OneCatalog(element, top), "p", context);
    OnlySelection(element, top, context);
    DeepMeasures(source.view, n);
    var none: seq<BarElement> := [];
    assert [element][1..] == none;
    assert BodyDepth(none) == 0 && BodySizings(source.view, none) == Ok([]);
    assert BodyDepth([element]) == n && BodySizings(source.view, [element]).Ok?;
    assert SlotSizing(source, OneSlot).Ok?;
    var rest: seq<ProfileGroupElement> := [];
    assert Outer.elements[1..] == rest;
    assert TemplateSizings(source, rest).Ok?;
    assert TemplateSizings(source, Outer.elements).Ok?;
    assert ChildrenLeaveRoom(source, rest, 1);
    assert ChildLeavesRoom(source, Outer.elements[0], 1) <==> n + 2 <= MAX_GROUP_DEPTH;
    assert LeavesRoom(source, Outer, 1) <==> n + 2 <= MAX_GROUP_DEPTH;
    assert [top][1..] == [];
    assert ElementsFit(source, []);
  }

  /** A group with a width range has no uneven group in it. */
  lemma {:induction false} SizedIsEven(group: GroupSpec)
    requires GroupSizing(group).Ok?
    ensures UnevenIn(group) == []
    decreases group, 1
  {
    SizedChildrenAreEven(group.elements);
  }

  lemma {:induction false} SizedChildrenAreEven(elements: seq<GroupElement>)
    requires ChildSizings(elements).Ok?
    ensures UnevenChildren(elements) == []
    decreases elements, 0
  {
    if elements != [] {
      SizedChildIsEven(elements[0]);
      SizedChildrenAreEven(elements[1..]);
    }
  }

  lemma {:induction false} SizedChildIsEven(element: GroupElement)
    requires ChildSizing(element).Ok?
    ensures UnevenChild(element) == []
    decreases element, 2
  {
    match element
    case ChildItem(_) =>
    case ChildGroup(group) => SizedIsEven(group);
  }

  lemma {:induction false} DeepIsEven(n: nat, context: ContextSnapshot)
    requires 0 < n <= MAX_GROUP_DEPTH
    ensures var source := Source(OneItem(1), OneCatalog(GroupRef(Deep(n)), TopGroup(Outer)), "p", context);
            BarEvidence(BarContent(source, [TopGroup(Outer)])).uneven == []
  {
    var element, top := GroupRef(Deep(n)), TopGroup(Outer);
    var catalog := OneCatalog(element, top);
    var source := Source(OneItem(1), catalog, "p", context);
    DeepCatalogIsValid(n);
    ItemIsConsistent(1);
    ValidCatalogFacts(source.view, catalog);
    assert ElementsReady(catalog, catalog.profiles["p"].elements);
    DeepFits(n, context);
    TemplateMeasures(source, Outer);
    var group := Group(GroupContent(source, Outer));
    SizedIsEven(group.group);
    assert [top][1..] == [];
    assert BarContent(source, []) == [];
    assert BarContent(source, [top]) == [group];
    var none: seq<Element> := [];
    assert [group][1..] == none;
    assert BarEvidence(none).uneven == [];
  }

  /** A contribution seven deep passes validation on its own, composes inside one profile group, and
      makes layout reject the bar for its depth. */
  lemma {:induction false} SevenDeepIsRejected(context: ContextSnapshot)
    ensures var view, catalog := OneItem(1), OneCatalog(GroupRef(Deep(7)), TopGroup(Outer));
            && Consistent(view) && CatalogConsistent(catalog) && Composed(view, catalog, "p", context).Ok?
            && Validate(Composed(view, catalog, "p", context).value.bar, {}).Err?
            && Validate(Composed(view, catalog, "p", context).value.bar, {}).error.GroupDepthExceeded?
  {
    DeepIsAcceptedExactly(7, context);
  }
}
