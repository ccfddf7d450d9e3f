/** When layout accepts a composed bar, told from the registry, the catalog and the context. */
module ComposeSizes {
  import opened Basics
  import opened Ordering
  import opened Context
  import opened LayoutTypes
  import opened LayoutGroups
  import opened LayoutValidate
  import opened RegistryModel
  import opened ActiveChain
  import opened Profiles
  import opened Compose
  import opened ComposeFacts

  // ----- soundness splits into sizes of items, widths of groups and depth -----

  ghost predicate AllSized(items: seq<ItemSpec>) {
    forall i :: 0 <= i < |items| ==> ItemSized(items[i])
  }

  lemma {:induction false} AllSizedConcat(a: seq<ItemSpec>, b: seq<ItemSpec>)
    ensures AllSized(a + b) <==> AllSized(a) && AllSized(b)
  {
    var c := a + b;
    assert forall i :: 0 <= i < |a| ==> c[i] == a[i];
    if AllSized(c) {
      forall i | 0 <= i < |b| ensures ItemSized(b[i]) {
        assert c[|a| + i] == b[i];
      }
    }
  }

  /** A group is sound exactly when its items are sized and its equal-width groups have common widths. */
  lemma {:induction false} SoundGroupExactly(group: GroupSpec)
    ensures SoundGroup(group) <==> AllSized(GroupItems(group)) && GroupSizing(group).Ok?
    decreases group, 1
  {
    SoundElementsExactly(group.elements);
  }

  lemma {:induction false} SoundElementsExactly(elements: seq<GroupElement>)
    ensures ChildSizings(elements).Ok? ==> (SoundElements(elements) <==> AllSized(ItemsOf(elements)))
    ensures SoundElements(elements) ==> ChildSizings(elements).Ok?
    decreases elements, 0
  {
    if elements != [] {
      SoundElementExactly(elements[0]);
      SoundElementsExactly(elements[1..]);
      AllSizedConcat(ChildItems(elements[0]), ItemsOf(elements[1..]));
    }
  }

  lemma {:induction false} SoundElementExactly(element: GroupElement)
    ensures ChildSizing(element).Ok? ==> (SoundElement(element) <==> AllSized(ChildItems(element)))
    ensures SoundElement(element) ==> ChildSizing(element).Ok?
    decreases element, 2
  {
    match element
    case ChildItem(item) => assert [item][0] == item;
    case ChildGroup(group) => SoundGroupExactly(group);
  }

  /** What remains of soundness besides the sizes of items. */
  ghost predicate TopFits(element: Element) {
    match element
    case Item(_) => true
    case Group(group) => GroupSizing(group).Ok? && Depth(group) <= MAX_GROUP_DEPTH
    case FixedSpace(_) => true
    case FlexibleSpace(_, weight) => weight > 0
  }

  ghost predicate AllTopFit(elements: seq<Element>) {
    elements == [] || (TopFits(elements[0]) && AllTopFit(elements[1..]))
  }

  lemma {:induction false} AllTopFitConcat(a: seq<Element>, b: seq<Element>)
    ensures AllTopFit(a + b) <==> AllTopFit(a) && AllTopFit(b)
  {
    if a == [] {
      assert a + b == b;
    } else {
      assert (a + b)[0] == a[0] && (a + b)[1..] == a[1..] + b;
      AllTopFitConcat(a[1..], b);
    }
  }

  lemma {:induction false} SoundTopExactly(element: Element)
    ensures SoundTop(element) <==> AllSized(ElementItems(element)) && TopFits(element)
  {
    match element
    case Item(item) => assert [item][0] == item;
    case Group(group) => SoundGroupExactly(group);
    case _ =>
  }

  lemma {:induction false} AllSoundTopExactly(elements: seq<Element>)
    ensures AllSoundTop(elements) <==> AllSized(BarItems(elements)) && AllTopFit(elements)
  {
    if elements != [] {
      var first, rest := elements[0], elements[1..];
      SoundTopExactly(first);
      AllSoundTopExactly(rest);
      AllSizedConcat(ElementItems(first), BarItems(rest));
      assert AllSoundTop(elements) <==> SoundTop(first) && AllSoundTop(rest) by {
        assert elements == [first] + rest;
        assert forall i :: 0 <= i < |rest| ==> rest[i] == elements[i + 1];
        assert elements[0] == first;
      }
    }
  }

  // ----- widths and depths of references -----

  /** A group without its children: what decides how their widths combine. */
  function Frame(id: string, layout: GroupLayout, spacing: u32): GroupSpec {
    GroupSpec(id, [], layout, spacing, 0, 0)
  }

  /** The width range of a contributed group; none when an equal-width group in it has no common width. */
  function RefSizing(view: View, group: BarGroup): Result<Sizing, LayoutError>
    decreases group, 1
  {
    var sizings :- RefSizings(view, group.elements);
    CombineSizings(Frame(group.id, group.layout, group.spacing), ActiveSizings(sizings))
  }

  function RefSizings(view: View, elements: seq<BarGroupElement>): Result<seq<Sizing>, LayoutError>
    decreases elements, 0
  {
    if elements == [] then
      Ok([])
    else
      var first :- RefChildSizing(view, elements[0]);
      var rest :- RefSizings(view, elements[1..]);
      Ok([first] + rest)
  }

  function RefChildSizing(view: View, element: BarGroupElement): Result<Sizing, LayoutError>
    decreases element, 2
  {
    match element
    case GroupItemRef(id) => Ok(if id in view.items then ItemSizing(view.items[id].layout) else FixedSizing(0))
    case NestedGroup(group) => RefSizing(view, group)
  }

  function RefDepth(group: BarGroup): nat
    decreases group, 1
  {
    1 + RefChildDepth(group.elements)
  }

  function RefChildDepth(elements: seq<BarGroupElement>): nat
    decreases elements, 0
  {
    if elements == [] then 0 else Max(RefDepthOf(elements[0]), RefChildDepth(elements[1..]))
  }

  function RefDepthOf(element: BarGroupElement): nat
    decreases element, 2
  {
    match element
    case GroupItemRef(_) => 0
    case NestedGroup(group) => RefDepth(group)
  }

  lemma {:induction false} CombineNeedsFrame(a: GroupSpec, b: GroupSpec, active: seq<Sizing>)
    requires a.id == b.id && a.layout == b.layout && a.spacing == b.spacing
    ensures CombineSizings(a, active) == CombineSizings(b, active)
  {
  }

  lemma {:induction false} ResolvedGroupMeasures(view: View, group: BarGroup)
    requires Consistent(view) && KnownRefs(view, GroupRefs(group)) && ResolveGroup(view, group).Ok?
    ensures GroupSizing(ResolveGroup(view, group).value) == RefSizing(view, group)
    ensures Depth(ResolveGroup(view, group).value) == RefDepth(group)
    decreases group, 1
  {
    ResolvedChildrenMeasure(view, group.elements);
    var sizings := RefSizings(view, group.elements);
    if sizings.Ok? {
      CombineNeedsFrame(ResolveGroup(view, group).value, Frame(group.id, group.layout, group.spacing), ActiveSizings(sizings.value));
    }
  }

  lemma {:induction false} ResolvedChildrenMeasure(view: View, elements: seq<BarGroupElement>)
    requires Consistent(view) && KnownRefs(view, ItemRefs(elements)) && ResolveChildren(view, elements).Ok?
    ensures ChildSizings(ResolveChildren(view, elements).value) == RefSizings(view, elements)
    ensures ChildDepth(ResolveChildren(view, elements).value) == RefChildDepth(elements)
    decreases elements, 0
  {
    if elements != [] {
      KnownConcat(view, ChildRefs(elements[0]), ItemRefs(elements[1..]));
      var first, rest := ResolveChild(view, elements[0]).value, ResolveChildren(view, elements[1..]).value;
      assert ([first] + rest)[0] == first && ([first] + rest)[1..] == rest;
      ResolvedChildMeasures(view, elements[0]);
      ResolvedChildrenMeasure(view, elements[1..]);
    }
  }

  lemma {:induction false} ResolvedChildMeasures(view: View, element: BarGroupElement)
    requires Consistent(view) && KnownRefs(view, ChildRefs(element)) && ResolveChild(view, element).Ok?
    ensures ChildSizing(ResolveChild(view, element).value) == RefChildSizing(view, element)
    ensures DepthOfChild(ResolveChild(view, element).value) == RefDepthOf(element)
    decreases element, 2
  {
    match element
    case GroupItemRef(id) => assert ChildRefs(element)[0] == id;
    case NestedGroup(group) => ResolvedGroupMeasures(view, group);
  }

  // ----- widths and depths of what a slot shows -----

  /** The width ranges of the items and groups of a body. */
  function BodySizings(view: View, body: seq<BarElement>): Result<seq<Sizing>, LayoutError> {
    if body == [] then Ok([])
    else
      match body[0]
      case ItemRef(id) =>
        var rest :- BodySizings(view, body[1..]);
        Ok([if id in view.items then ItemSizing(view.items[id].layout) else FixedSizing(0)] + rest)
      case GroupRef(group) =>
        var first :- RefSizing(view, group);
        var rest :- BodySizings(view, body[1..]);
        Ok([first] + rest)
      case _ => BodySizings(view, body[1..])
  }

  function BodyDepth(body: seq<BarElement>): nat {
    if body == [] then 0
    else Max(if body[0].GroupRef? then RefDepth(body[0].group) else 0, BodyDepth(body[1..]))
  }

  lemma {:induction false} BodyMeasures(view: View, body: seq<BarElement>)
    requires Consistent(view) && UsableBody(view, body)
    ensures ChildSizings(AsChildren(Shown(view, body))) == BodySizings(view, body)
    ensures ChildDepth(AsChildren(Shown(view, body))) == BodyDepth(body)
    ensures AllTopFit(Shown(view, body)) <==> BodySizings(view, body).Ok? && BodyDepth(body) <= MAX_GROUP_DEPTH
  {
    if body != [] {
      assert UsableElement(view, body[0]);
      KnownElementResolves(view, body[0]);
      BodyMeasures(view, body[1..]);
      var first, rest := ResolveElement(view, body[0]).value, Shown(view, body[1..]);
      assert Shown(view, body) == [first] + rest;
      assert ([first] + rest)[0] == first && ([first] + rest)[1..] == rest;
      match body[0]
      case ItemRef(id) =>
        assert ElementRefs(body[0])[0] == id;
        assert ([ChildItem(first.item)] + AsChildren(rest))[1..] == AsChildren(rest);
      case GroupRef(group) =>
        ResolvedGroupMeasures(view, group);
        assert ([ChildGroup(first.group)] + AsChildren(rest))[1..] == AsChildren(rest);
      case _ =>
    }
  }

  // ----- widths and depths of the template -----

  function SlotSizing(source: Source, slot: SlotDefinition): Result<Sizing, LayoutError> {
    var sizings :- BodySizings(source.view, BodyOf(source, slot));
    CombineSizings(Frame(SlotGroupId(source.profile, slot.id), Natural, 0), ActiveSizings(sizings))
  }

  function TemplateSizing(source: Source, group: ProfileGroup): Result<Sizing, LayoutError>
    decreases group, 1
  {
    var sizings :- TemplateSizings(source, group.elements);
    CombineSizings(Frame(group.id, group.layout, group.spacing), ActiveSizings(sizings))
  }

  function TemplateSizings(source: Source, elements: seq<ProfileGroupElement>): Result<seq<Sizing>, LayoutError>
    decreases elements, 0
  {
    if elements == [] then
      Ok([])
    else
      var first :- TemplateChildSizing(source, elements[0]);
      var rest :- TemplateSizings(source, elements[1..]);
      Ok([first] + rest)
  }

  function TemplateChildSizing(source: Source, element: ProfileGroupElement): Result<Sizing, LayoutError>
    decreases element, 2
  {
    match element
    case GroupedSlot(slot) => SlotSizing(source, slot)
    case GroupedGroup(group) => TemplateSizing(source, group)
  }

  lemma {:induction false} SlotGroupMeasures(source: Source, slot: SlotDefinition)
    requires Prepared(source) && SlotReady(source.catalog, slot, true)
    ensures GroupSizing(SlotGroup(source, slot)) == SlotSizing(source, slot)
    ensures Depth(SlotGroup(source, slot)) == 1 + BodyDepth(BodyOf(source, slot))
  {
    SlotBodyUsable(source, slot, true);
    BodyMeasures(source.view, BodyOf(source, slot));
    var sizings := BodySizings(source.view, BodyOf(source, slot));
    if sizings.Ok? {
      CombineNeedsFrame(SlotGroup(source, slot), Frame(SlotGroupId(source.profile, slot.id), Natural, 0), ActiveSizings(sizings.value));
    }
  }

  lemma {:induction false} TemplateMeasures(source: Source, group: ProfileGroup)
    requires Prepared(source) && GroupReady(source.catalog, group)
    ensures GroupSizing(GroupContent(source, group)) == TemplateSizing(source, group)
    decreases group, 1
  {
    TemplateChildrenMeasure(source, group.elements);
    var sizings := TemplateSizings(source, group.elements);
    if sizings.Ok? {
      CombineNeedsFrame(GroupContent(source, group), Frame(group.id, group.layout, group.spacing), ActiveSizings(sizings.value));
    }
  }

  lemma {:induction false} TemplateChildrenMeasure(source: Source, elements: seq<ProfileGroupElement>)
    requires Prepared(source) && ChildrenReady(source.catalog, elements)
    ensures ChildSizings(ChildrenContent(source, elements)) == TemplateSizings(source, elements)
    decreases elements, 0
  {
    if elements != [] {
      var first, rest := ChildContent(source, elements[0]), ChildrenContent(source, elements[1..]);
      assert ([first] + rest)[0] == first && ([first] + rest)[1..] == rest;
      TemplateChildMeasures(source, elements[0]);
      TemplateChildrenMeasure(source, elements[1..]);
    }
  }

  lemma {:induction false} TemplateChildMeasures(source: Source, element: ProfileGroupElement)
    requires Prepared(source) && ChildReady(source.catalog, element)
    ensures ChildSizing(ChildContent(source, element)) == TemplateChildSizing(source, element)
    decreases element, 2
  {
    match element
    case GroupedSlot(slot) => SlotGroupMeasures(source, slot);
    case GroupedGroup(group) => TemplateMeasures(source, group);
  }

  /** Every slot inside a group at `depth` leaves room for the groups of its contributions: the group
      around it, the group of the slot, and theirs are at most eight. */
  ghost predicate LeavesRoom(source: Source, group: ProfileGroup, depth: nat)
    decreases group, 1
  {
    ChildrenLeaveRoom(source, group.elements, depth)
  }

  ghost predicate ChildrenLeaveRoom(source: Source, elements: seq<ProfileGroupElement>, depth: nat)
    decreases elements, 0
  {
    elements == [] || (ChildLeavesRoom(source, elements[0], depth) && ChildrenLeaveRoom(source, elements[1..], depth))
  }

  ghost predicate ChildLeavesRoom(source: Source, element: ProfileGroupElement, depth: nat)
    decreases element, 2
  {
    match element
    case GroupedSlot(slot) => depth + 1 + BodyDepth(BodyOf(source, slot)) <= MAX_GROUP_DEPTH
    case GroupedGroup(group) => LeavesRoom(source, group, depth + 1)
  }

  /** What validation of the template itself says about depth. */
  ghost predicate Nested(group: ProfileGroup, depth: nat)
    decreases group, 1
  {
    depth <= MAX_GROUP_DEPTH && ChildrenNested(group.elements, depth)
  }

  ghost predicate ChildrenNested(elements: seq<ProfileGroupElement>, depth: nat)
    decreases elements, 0
  {
    elements == [] || (ChildNested(elements[0], depth) && ChildrenNested(elements[1..], depth))
  }

  ghost predicate ChildNested(element: ProfileGroupElement, depth: nat)
    decreases element, 2
  {
    match element
    case GroupedSlot(_) => depth < MAX_GROUP_DEPTH
    case GroupedGroup(group) => Nested(group, depth + 1)
  }

  lemma {:induction false} ValidIsNested(catalog: Catalog, profile: ProfileId, group: ProfileGroup, depth: nat, names: Names)
    requires ValidateProfileGroup(catalog, profile, group, depth, names).Ok?
    ensures Nested(group, depth)
    decreases group, 1
  {
    ValidChildrenNested(catalog, profile, group.id, group.elements, depth, names.(groups := names.groups + {group.id}));
  }

  lemma {:induction false} ValidChildrenNested(catalog: Catalog, profile: ProfileId, group: string, elements: seq<ProfileGroupElement>, depth: nat, names: Names)
    requires ValidateProfileChildren(catalog, profile, group, elements, depth, names).Ok?
    ensures ChildrenNested(elements, depth)
    decreases elements, 0
  {
    if elements != [] {
      ValidChildNested(catalog, profile, group, elements[0], depth, names);
      ValidChildrenNested(catalog, profile, group, elements[1..], depth,
                          ValidateProfileChild(catalog, profile, group, elements[0], depth, names).value);
    }
  }

  lemma {:induction false} ValidChildNested(catalog: Catalog, profile: ProfileId, group: string, element: ProfileGroupElement, depth: nat, names: Names)
    requires ValidateProfileChild(catalog, profile, group, element, depth, names).Ok?
    ensures ChildNested(element, depth)
    decreases element, 2
  {
    match element
    case GroupedSlot(_) =>
    case GroupedGroup(child) => ValidIsNested(catalog, profile, child, depth + 1, names);
  }

  lemma {:induction false} DepthExactly(source: Source, group: ProfileGroup, depth: nat)
    requires Prepared(source) && GroupReady(source.catalog, group) && Nested(group, depth)
    ensures depth + Depth(GroupContent(source, group)) <= MAX_GROUP_DEPTH + 1 <==> LeavesRoom(source, group, depth)
    decreases group, 1
  {
    ChildrenDepthExactly(source, group.elements, depth);
  }

  lemma {:induction false} ChildrenDepthExactly(source: Source, elements: seq<ProfileGroupElement>, depth: nat)
    requires Prepared(source) && ChildrenReady(source.catalog, elements) && ChildrenNested(elements, depth) && depth <= MAX_GROUP_DEPTH
    ensures depth + ChildDepth(ChildrenContent(source, elements)) <= MAX_GROUP_DEPTH <==> ChildrenLeaveRoom(source, elements, depth)
    decreases elements, 0
  {
    if elements != [] {
      var first, rest := ChildContent(source, elements[0]), ChildrenContent(source, elements[1..]);
      assert ([first] + rest)[0] == first && ([first] + rest)[1..] == rest;
      ChildDepthExactly(source, elements[0], depth);
      ChildrenDepthExactly(source, elements[1..], depth);
    }
  }

  lemma {:induction false} ChildDepthExactly(source: Source, element: ProfileGroupElement, depth: nat)
    requires Prepared(source) && ChildReady(source.catalog, element) && ChildNested(element, depth)
    ensures depth + DepthOfChild(ChildContent(source, element)) <= MAX_GROUP_DEPTH <==> ChildLeavesRoom(source, element, depth)
    decreases element, 2
  {
    match element
    case GroupedSlot(slot) => SlotGroupMeasures(source, slot);
    case GroupedGroup(group) => DepthExactly(source, group, depth + 1);
  }

  // ----- the whole profile -----

  /** Groups of the element nest at most eight deep and have widths in common where they must. */
  ghost predicate ElementFits(source: Source, element: ProfileElement) {
    match element
    case TopSlot(slot) =>
      BodyDepth(BodyOf(source, slot)) <= MAX_GROUP_DEPTH && BodySizings(source.view, BodyOf(source, slot)).Ok?
    case TopGroup(group) => LeavesRoom(source, group, 1) && TemplateSizing(source, group).Ok?
    case _ => true
  }

  ghost predicate ElementsFit(source: Source, elements: seq<ProfileElement>) {
    elements == [] || (ElementFits(source, elements[0]) && ElementsFit(source, elements[1..]))
  }

  ghost predicate ElementsNested(elements: seq<ProfileElement>) {
    elements == [] || ((elements[0].TopGroup? ==> Nested(elements[0].group, 1)) && ElementsNested(elements[1..]))
  }

  lemma {:induction false} ValidElementsNested(catalog: Catalog, profile: ProfileId, elements: seq<ProfileElement>, names: Names)
    requires ValidateProfileElements(catalog, profile, elements, names).Ok?
    ensures ElementsNested(elements)
  {
    if elements != [] {
      match elements[0]
      case TopSlot(slot) => ValidElementsNested(catalog, profile, elements[1..], ValidateSlot(catalog, profile, slot, false, names).value);
      case TopGroup(group) =>
        ValidIsNested(catalog, profile, group, 1, names);
        ValidElementsNested(catalog, profile, elements[1..], ValidateProfileGroup(catalog, profile, group, 1, names).value);
      case _ => ValidElementsNested(catalog, profile, elements[1..], names);
    }
  }

  lemma {:induction false} ValidProfileNested(catalog: Catalog, ids: seq<ProfileId>, id: ProfileId)
    requires forall i :: 0 <= i < |ids| ==> ids[i] in catalog.profiles
    requires ValidateProfiles(catalog, ids).Ok? && id in ids
    ensures id in catalog.profiles && ElementsNested(catalog.profiles[id].elements)
  {
    if id == ids[0] {
      ValidElementsNested(catalog, catalog.profiles[id].id, catalog.profiles[id].elements, Names({}, {}));
    } else {
      assert id in ids[1..];
      ValidProfileNested(catalog, ids[1..], id);
    }
  }

  lemma {:induction false} TopFitsExactly(source: Source, element: ProfileElement)
    requires Prepared(source) && ElementReady(source.catalog, element)
    requires element.TopGroup? ==> Nested(element.group, 1)
    ensures AllTopFit(TopContent(source, element)) <==> ElementFits(source, element)
  {
    match element
    case TopSlot(slot) =>
      SlotBodyUsable(source, slot, false);
      BodyMeasures(source.view, BodyOf(source, slot));
    case TopGroup(group) =>
      TemplateMeasures(source, group);
      DepthExactly(source, group, 1);
      OneTopFits(Group(GroupContent(source, group)));
    case TopFixed(width) => OneTopFits(FixedSpace(width));
    case TopFlexible(minimum, weight) => OneTopFits(FlexibleSpace(minimum, weight));
  }

  lemma {:induction false} OneTopFits(element: Element)
    ensures AllTopFit([element]) <==> TopFits(element)
  {
    assert [element][1..] == [];
  }

  lemma {:induction false} BarFitsExactly(source: Source, elements: seq<ProfileElement>)
    requires Prepared(source) && ElementsReady(source.catalog, elements) && ElementsNested(elements)
    ensures AllTopFit(BarContent(source, elements)) <==> ElementsFit(source, elements)
  {
    if elements != [] {
      TopFitsExactly(source, elements[0]);
      BarFitsExactly(source, elements[1..]);
      AllTopFitConcat(TopContent(source, elements[0]), BarContent(source, elements[1..]));
    }
  }

  // ----- the items of a composed bar are the registered ones -----

  ghost predicate Registered(view: View, items: seq<ItemSpec>) {
    forall i :: 0 <= i < |items| ==> items[i].id in view.items && view.items[items[i].id].layout == items[i]
  }

  lemma {:induction false} RegisteredConcat(view: View, a: seq<ItemSpec>, b: seq<ItemSpec>)
    requires Registered(view, a) && Registered(view, b)
    ensures Registered(view, a + b)
  {
  }

  lemma {:induction false} ResolvedGroupRegistered(view: View, group: BarGroup)
    requires Consistent(view) && ResolveGroup(view, group).Ok?
    ensures Registered(view, GroupItems(ResolveGroup(view, group).value))
    decreases group, 1
  {
    ResolvedChildrenRegistered(view, group.elements);
  }

  lemma {:induction false} ResolvedChildrenRegistered(view: View, elements: seq<BarGroupElement>)
    requires Consistent(view) && ResolveChildren(view, elements).Ok?
    ensures Registered(view, ItemsOf(ResolveChildren(view, elements).value))
    decreases elements, 0
  {
    if elements != [] {
      var first, rest := ResolveChild(view, elements[0]).value, ResolveChildren(view, elements[1..]).value;
      assert ([first] + rest)[0] == first && ([first] + rest)[1..] == rest;
      ResolvedChildRegistered(view, elements[0]);
      ResolvedChildrenRegistered(view, elements[1..]);
      RegisteredConcat(view, ChildItems(first), ItemsOf(rest));
    }
  }

  lemma {:induction false} ResolvedChildRegistered(view: View, element: BarGroupElement)
    requires Consistent(view) && ResolveChild(view, element).Ok?
    ensures Registered(view, ChildItems(ResolveChild(view, element).value))
    decreases element, 2
  {
    match element
    case GroupItemRef(_) =>
    case NestedGroup(group) => ResolvedGroupRegistered(view, group);
  }

  lemma {:induction false} ShownRegistered(view: View, body: seq<BarElement>)
    requires Consistent(view)
    ensures Registered(view, BarItems(Shown(view, body)))
  {
    if body != [] {
      ShownRegistered(view, body[1..]);
      ShownElementRegistered(view, body[0]);
      BarConcat(ShownElement(view, body[0]), Shown(view, body[1..]));
      RegisteredConcat(view, BarItems(ShownElement(view, body[0])), BarItems(Shown(view, body[1..])));
    }
  }

  lemma {:induction false} ShownElementRegistered(view: View, element: BarElement)
    requires Consistent(view)
    ensures Registered(view, BarItems(ShownElement(view, element)))
  {
    if !element.ContextProxy? && ResolveElement(view, element).Ok? {
      SingleElement(ResolveElement(view, element).value);
      if element.GroupRef? {
        ResolvedGroupRegistered(view, element.group);
      }
    }
  }

  lemma {:induction false} GroupContentRegistered(source: Source, group: ProfileGroup)
    requires Consistent(source.view)
    ensures Registered(source.view, GroupItems(GroupContent(source, group)))
    decreases group, 1
  {
    ChildrenContentRegistered(source, group.elements);
  }

  lemma {:induction false} ChildrenContentRegistered(source: Source, elements: seq<ProfileGroupElement>)
    requires Consistent(source.view)
    ensures Registered(source.view, ItemsOf(ChildrenContent(source, elements)))
    decreases elements, 0
  {
    if elements != [] {
      var first, rest := ChildContent(source, elements[0]), ChildrenContent(source, elements[1..]);
      assert ([first] + rest)[0] == first && ([first] + rest)[1..] == rest;
      ChildContentRegistered(source, elements[0]);
      ChildrenContentRegistered(source, elements[1..]);
      RegisteredConcat(source.view, ChildItems(first), ItemsOf(rest));
    }
  }

  lemma {:induction false} ChildContentRegistered(source: Source, element: ProfileGroupElement)
    requires Consistent(source.view)
    ensures Registered(source.view, ChildItems(ChildContent(source, element)))
    decreases element, 2
  {
    match element
    case GroupedSlot(slot) =>
      SlotGroupNames(source, slot);
      ShownRegistered(source.view, BodyOf(source, slot));
    case GroupedGroup(group) => GroupContentRegistered(source, group);
  }

  lemma {:induction false} BarContentRegistered(source: Source, elements: seq<ProfileElement>)
    requires Consistent(source.view)
    ensures Registered(source.view, BarItems(BarContent(source, elements)))
  {
    if elements != [] {
      BarContentRegistered(source, elements[1..]);
      TopContentRegistered(source, elements[0]);
      BarConcat(TopContent(source, elements[0]), BarContent(source, elements[1..]));
      RegisteredConcat(source.view, BarItems(TopContent(source, elements[0])), BarItems(BarContent(source, elements[1..])));
    }
  }

  lemma {:induction false} TopContentRegistered(source: Source, element: ProfileElement)
    requires Consistent(source.view)
    ensures Registered(source.view, BarItems(TopContent(source, element)))
  {
    match element
    case TopSlot(slot) => ShownRegistered(source.view, BodyOf(source, slot));
    case TopGroup(group) =>
      SingleElement(Group(GroupContent(source, group)));
      GroupContentRegistered(source, group);
    case TopFixed(width) => SingleElement(FixedSpace(width));
    case TopFlexible(minimum, weight) => SingleElement(FlexibleSpace(minimum, weight));
  }

  /** Every named item is registered with a proper size. */
  ghost predicate SizedInRegistry(view: View, names: seq<ItemId>) {
    forall i :: 0 <= i < |names| ==> names[i] in view.items && ItemSized(view.items[names[i]].layout)
  }

  lemma {:induction false} SizesAreRegistered(view: View, items: seq<ItemSpec>)
    requires Registered(view, items)
    ensures AllSized(items) <==> SizedInRegistry(view, Ids(items))
  {
    var names := Ids(items);
    assert forall i :: 0 <= i < |items| ==> names[i] == items[i].id;
    if SizedInRegistry(view, names) {
      forall i | 0 <= i < |items| ensures ItemSized(items[i]) {
        assert names[i] == items[i].id;
      }
    }
  }

  // ----- the theorem -----

  /** The items that a composition claims. */
  function ClaimedItems(view: View, catalog: Catalog, id: ProfileId, context: ContextSnapshot): seq<ItemId>
    requires id in catalog.profiles
  {
    ItemNames(BarClaims(Source(view, catalog, id, context), catalog.profiles[id].elements))
  }

  /** Layout accepts a composed bar exactly when every claimed item is registered with a proper size,
      every slot leaves room for the groups of its selected contributions, every equal-width group has
      a common width, and the required items are claimed: all told from the registry, the catalog, the
      profile and the context. */
  lemma {:induction false} LayoutAcceptsExactly(view: View, catalog: Catalog, id: ProfileId, context: ContextSnapshot, required: set<ItemId>)
    requires Consistent(view) && CatalogConsistent(catalog) && Composed(view, catalog, id, context).Ok?
    ensures Validate(Composed(view, catalog, id, context).value.bar, required).Ok? <==>
              && SizedInRegistry(view, ClaimedItems(view, catalog, id, context))
              && ElementsFit(Source(view, catalog, id, context), catalog.profiles[id].elements)
              && required <= Elements(ClaimedItems(view, catalog, id, context))
  {
    var profile := catalog.profiles[id];
    var source := Source(view, catalog, id, context);
    var bar := Composed(view, catalog, id, context).value.bar;
    ComposedBarValidates(view, catalog, id, context, required);
    ComposedBarIsSound(view, catalog, id, context);
    ValidCatalogFacts(view, catalog);
    ValidProfileNested(catalog, SortedKeys(catalog.profiles), id);
    AcceptsContentExactly(source, profile.elements);
  }

  lemma {:induction false} AcceptsContentExactly(source: Source, elements: seq<ProfileElement>)
    requires Prepared(source) && ElementsReady(source.catalog, elements) && ElementsNested(elements)
    ensures AllSoundTop(BarContent(source, elements)) <==>
              SizedInRegistry(source.view, ItemNames(BarClaims(source, elements))) && ElementsFit(source, elements)
  {
    var content := BarContent(source, elements);
    AllSoundTopExactly(content);
    BarFitsExactly(source, elements);
    BarContentRegistered(source, elements);
    SizesAreRegistered(source.view, BarItems(content));
    BarContentNames(source, elements);
  }
}
