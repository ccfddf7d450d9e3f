/** Validation of a bar before it is resolved. */
module LayoutValidate {
  import opened Basics
  import opened LayoutTypes
  import opened LayoutGroups
  import opened Ordering

  /** Identifiers met so far. */
  datatype Seen = Seen(items: set<ItemId>, groups: set<string>)

  function ValidateItem(item: ItemSpec, seen: Seen): Result<Seen, LayoutError> {
    if item.id == "" then Err(EmptyItemId)
    else if item.minWidth == 0 || item.minWidth > item.preferredWidth || item.preferredWidth > item.maxWidth then
      Err(InvalidSizing(item.id))
    else if item.id in seen.items then Err(DuplicateItem(item.id))
    else Ok(seen.(items := seen.items + {item.id}))
  }

  function ValidateGroup(group: GroupSpec, depth: nat, seen: Seen): Result<Seen, LayoutError>
    decreases group, 1
  {
    if group.id == "" then Err(EmptyGroupId)
    else if depth > MAX_GROUP_DEPTH then Err(GroupDepthExceeded(group.id))
    else if group.id in seen.groups then Err(DuplicateGroup(group.id))
    else
      var after :- ValidateChildren(group.elements, depth, seen.(groups := seen.groups + {group.id}));
      var _ :- GroupSizing(group);
      Ok(after)
  }

  function ValidateChildren(elements: seq<GroupElement>, depth: nat, seen: Seen): Result<Seen, LayoutError>
    decreases elements, 0
  {
    if elements == [] then
      Ok(seen)
    else
      var after :- ValidateChild(elements[0], depth, seen);
      ValidateChildren(elements[1..], depth, after)
  }

  function ValidateChild(element: GroupElement, depth: nat, seen: Seen): Result<Seen, LayoutError>
    decreases element, 2
  {
    match element
    case ChildItem(item) => ValidateItem(item, seen)
    case ChildGroup(group) => ValidateGroup(group, depth + 1, seen)
  }

  function ValidateElement(element: Element, index: nat, seen: Seen): Result<Seen, LayoutError> {
    match element
    case Item(item) => ValidateItem(item, seen)
    case Group(group) => ValidateGroup(group, 1, seen)
    case FixedSpace(_) => Ok(seen)
    case FlexibleSpace(_, weight) => if weight == 0 then Err(InvalidFlexibleSpace(index)) else Ok(seen)
  }

  function ValidateElements(elements: seq<Element>, index: nat, seen: Seen): Result<Seen, LayoutError> {
    if elements == [] then
      Ok(seen)
    else
      var after :- ValidateElement(elements[0], index, seen);
      ValidateElements(elements[1..], index + 1, after)
  }

  function Validate(bar: BarSpec, required: set<ItemId>): Result<(), LayoutError> {
    var seen :- ValidateElements(bar.elements, 0, Seen({}, {}));
    if bar.principalItem.Some? && bar.principalItem.value !in seen.items then
      Err(UnknownPrincipal(bar.principalItem.value))
    else if required - seen.items != {} then
      StringIsTotalOrder();
      Err(UnknownRequired(Least(StringLe, required - seen.items)))
    else
      Ok(())
  }

  // ----- what a bar has to satisfy -----

  function GroupIds(group: GroupSpec): seq<string>
    decreases group, 1
  {
    [group.id] + ChildGroupIds(group.elements)
  }

  function ChildGroupIds(elements: seq<GroupElement>): seq<string>
    decreases elements, 0
  {
    if elements == [] then [] else IdsOfChild(elements[0]) + ChildGroupIds(elements[1..])
  }

  function IdsOfChild(element: GroupElement): seq<string>
    decreases element, 2
  {
    match element
    case ChildItem(_) => []
    case ChildGroup(group) => GroupIds(group)
  }

  function ElementGroupIds(element: Element): seq<string> {
    match element
    case Group(group) => GroupIds(group)
    case _ => []
  }

  /** Nesting depth; a group without subgroups has depth one. */
  function Depth(group: GroupSpec): nat
    decreases group, 1
  {
    1 + ChildDepth(group.elements)
  }

  function ChildDepth(elements: seq<GroupElement>): nat
    decreases elements, 0
  {
    if elements == [] then 0 else Max(DepthOfChild(elements[0]), ChildDepth(elements[1..]))
  }

  function DepthOfChild(element: GroupElement): nat
    decreases element, 2
  {
    match element
    case ChildItem(_) => 0
    case ChildGroup(group) => Depth(group)
  }

  function BarItems(elements: seq<Element>): seq<ItemSpec> {
    if elements == [] then [] else ElementItems(elements[0]) + BarItems(elements[1..])
  }

  function BarGroupIds(elements: seq<Element>): seq<string> {
    if elements == [] then [] else ElementGroupIds(elements[0]) + BarGroupIds(elements[1..])
  }

  /** Pairwise distinct names, none of them in use already. */
  ghost predicate Fresh(names: seq<string>, taken: set<string>) {
    && Distinct(names)
    && forall i :: 0 <= i < |names| ==> names[i] !in taken
  }

  ghost predicate Nonempty(names: seq<string>) {
    forall i :: 0 <= i < |names| ==> names[i] != ""
  }

  ghost predicate SoundTop(element: Element) {
    match element
    case Item(item) => ItemSized(item)
    case Group(group) => SoundGroup(group) && Depth(group) <= MAX_GROUP_DEPTH
    case FixedSpace(_) => true
    case FlexibleSpace(_, weight) => weight > 0
  }

  ghost predicate ValidElements(elements: seq<Element>) {
    && Fresh(Ids(BarItems(elements)), {}) && Nonempty(Ids(BarItems(elements)))
    && Fresh(BarGroupIds(elements), {}) && Nonempty(BarGroupIds(elements))
    && forall i :: 0 <= i < |elements| ==> SoundTop(elements[i])
  }

  ghost predicate ValidBar(bar: BarSpec, required: set<ItemId>) {
    && ValidElements(bar.elements)
    && (bar.principalItem.Some? ==> bar.principalItem.value in Ids(BarItems(bar.elements)))
    && (forall id :: id in required ==> id in Ids(BarItems(bar.elements)))
  }

  lemma {:induction false} FreshConcat(a: seq<string>, b: seq<string>, taken: set<string>)
    ensures Fresh(a + b, taken) <==> Fresh(a, taken) && Fresh(b, taken + Elements(a))
    ensures Nonempty(a + b) <==> Nonempty(a) && Nonempty(b)
    ensures Elements(a + b) == Elements(a) + Elements(b)
  {
    var c := a + b;
    assert forall i :: 0 <= i < |a| ==> c[i] == a[i];
    assert forall i :: 0 <= i < |b| ==> c[|a| + i] == b[i];
    if Fresh(c, taken) {
      forall i | 0 <= i < |b| ensures b[i] !in taken + Elements(a) {
        assert c[|a| + i] !in taken;
        forall k | 0 <= k < |a| ensures a[k] != b[i] {
          assert c[k] != c[|a| + i];
        }
      }
      forall i, j | 0 <= i < j < |b| ensures b[i] != b[j] {
        assert c[|a| + i] != c[|a| + j];
      }
      forall i, j | 0 <= i < j < |a| ensures a[i] != a[j] {
        assert c[i] != c[j];
      }
    }
    if Fresh(a, taken) && Fresh(b, taken + Elements(a)) {
      forall i, j | 0 <= i < j < |c| ensures c[i] != c[j] {
        if j < |a| {
        } else if i >= |a| {
          assert b[i - |a|] != b[j - |a|];
        } else {
          assert a[i] in Elements(a);
        }
      }
    }
    if Nonempty(c) {
      forall i | 0 <= i < |b| ensures b[i] != "" {
        assert c[|a| + i] != "";
      }
    }
  }

  /** Everything one subtree has to satisfy given the identifiers met before it. */
  ghost predicate Acceptable(items: seq<ItemSpec>, groups: seq<string>, seen: Seen) {
    && Fresh(Ids(items), seen.items) && Nonempty(Ids(items))
    && Fresh(groups, seen.groups) && Nonempty(groups)
  }

  function After(items: seq<ItemSpec>, groups: seq<string>, seen: Seen): Seen {
    Seen(seen.items + Elements(Ids(items)), seen.groups + Elements(groups))
  }

  lemma {:induction false} AcceptableConcat(a: seq<ItemSpec>, ga: seq<string>, b: seq<ItemSpec>, gb: seq<string>, seen: Seen)
    ensures Acceptable(a + b, ga + gb, seen) <==> Acceptable(a, ga, seen) && Acceptable(b, gb, After(a, ga, seen))
    ensures After(a + b, ga + gb, seen) == After(b, gb, After(a, ga, seen))
  {
    IdsConcat(a, b);
    FreshConcat(Ids(a), Ids(b), seen.items);
    FreshConcat(ga, gb, seen.groups);
  }

  lemma {:induction false} AcceptableItem(item: ItemSpec, seen: Seen)
    ensures ValidateItem(item, seen).Ok? <==> Acceptable([item], [], seen) && ItemSized(item)
    ensures ValidateItem(item, seen).Ok? ==> ValidateItem(item, seen).value == After([item], [], seen)
  {
    assert Ids([item]) == [item.id];
    assert [item.id][0] == item.id;
  }

  /** Validation of a group succeeds exactly when its identifiers are new and nonempty, it nests no
      deeper than allowed, every item is sized and every equal-width group has a common width. */
  lemma {:induction false} ValidateGroupExact(group: GroupSpec, depth: nat, seen: Seen)
    requires depth >= 1
    ensures ValidateGroup(group, depth, seen).Ok? <==>
              && Acceptable(GroupItems(group), GroupIds(group), seen)
              && depth + Depth(group) <= MAX_GROUP_DEPTH + 1
              && SoundGroup(group)
    ensures ValidateGroup(group, depth, seen).Ok? ==>
              ValidateGroup(group, depth, seen).value == After(GroupItems(group), GroupIds(group), seen)
    decreases group, 1
  {
    var entered := seen.(groups := seen.groups + {group.id});
    ValidateChildrenExact(group.elements, depth, entered);
    AcceptableConcat([], [group.id], GroupItems(group), ChildGroupIds(group.elements), seen);
    assert [] + GroupItems(group) == GroupItems(group);
    assert After([], [group.id], seen) == entered by {
      assert Elements([group.id]) == {group.id};
      assert Elements(Ids([])) == {};
    }
    assert Acceptable([], [group.id], seen) <==> group.id != "" && group.id !in seen.groups by {
      assert [group.id][0] == group.id;
    }
  }

  lemma {:induction false} ValidateChildrenExact(elements: seq<GroupElement>, depth: nat, seen: Seen)
    requires depth >= 1
    ensures ValidateChildren(elements, depth, seen).Ok? <==>
              && Acceptable(ItemsOf(elements), ChildGroupIds(elements), seen)
              && depth + ChildDepth(elements) <= Max(depth, MAX_GROUP_DEPTH)
              && SoundElements(elements)
    ensures ValidateChildren(elements, depth, seen).Ok? ==>
              ValidateChildren(elements, depth, seen).value == After(ItemsOf(elements), ChildGroupIds(elements), seen)
    decreases elements, 0
  {
    if elements == [] {
      assert After([], [], seen) == seen;
    } else {
      var first := elements[0];
      ValidateChildExact(first, depth, seen);
      AcceptableConcat(ChildItems(first), IdsOfChild(first), ItemsOf(elements[1..]), ChildGroupIds(elements[1..]), seen);
      ValidateChildrenExact(elements[1..], depth, After(ChildItems(first), IdsOfChild(first), seen));
    }
  }

  lemma {:induction false} ValidateChildExact(element: GroupElement, depth: nat, seen: Seen)
    requires depth >= 1
    ensures ValidateChild(element, depth, seen).Ok? <==>
              && Acceptable(ChildItems(element), IdsOfChild(element), seen)
              && depth + DepthOfChild(element) <= Max(depth, MAX_GROUP_DEPTH)
              && SoundElement(element)
    ensures ValidateChild(element, depth, seen).Ok? ==>
              ValidateChild(element, depth, seen).value == After(ChildItems(element), IdsOfChild(element), seen)
    decreases element, 2
  {
    match element
    case ChildItem(item) => AcceptableItem(item, seen);
    case ChildGroup(group) => ValidateGroupExact(group, depth + 1, seen);
  }

  ghost predicate AllSoundTop(elements: seq<Element>) {
    forall i :: 0 <= i < |elements| ==> SoundTop(elements[i])
  }

  lemma {:induction false} ValidateElementExact(element: Element, index: nat, seen: Seen)
    ensures ValidateElement(element, index, seen).Ok? <==>
              Acceptable(ElementItems(element), ElementGroupIds(element), seen) && SoundTop(element)
    ensures ValidateElement(element, index, seen).Ok? ==>
              ValidateElement(element, index, seen).value == After(ElementItems(element), ElementGroupIds(element), seen)
  {
    match element
    case Item(item) => AcceptableItem(item, seen);
    case Group(group) => ValidateGroupExact(group, 1, seen);
    case _ => assert After([], [], seen) == seen;
  }

  lemma {:induction false} ValidateElementsExact(elements: seq<Element>, index: nat, seen: Seen)
    ensures ValidateElements(elements, index, seen).Ok? <==>
              Acceptable(BarItems(elements), BarGroupIds(elements), seen) && AllSoundTop(elements)
    ensures ValidateElements(elements, index, seen).Ok? ==>
              ValidateElements(elements, index, seen).value == After(BarItems(elements), BarGroupIds(elements), seen)
  {
    if elements == [] {
      assert After([], [], seen) == seen;
    } else {
      var first, rest := elements[0], elements[1..];
      ValidateElementExact(first, index, seen);
      AcceptableConcat(ElementItems(first), ElementGroupIds(first), BarItems(rest), BarGroupIds(rest), seen);
      ValidateElementsExact(rest, index + 1, After(ElementItems(first), ElementGroupIds(first), seen));
      assert AllSoundTop(elements) <==> SoundTop(first) && AllSoundTop(rest) by {
        assert elements == [first] + rest;
        assert forall i :: 0 <= i < |rest| ==> rest[i] == elements[i + 1];
        assert elements[0] == first;
      }
    }
  }

  /** A bar passes validation exactly when it is valid. */
  lemma {:induction false} ValidateExact(bar: BarSpec, required: set<ItemId>)
    ensures Validate(bar, required).Ok? <==> ValidBar(bar, required)
  {
    ValidateElementsExact(bar.elements, 0, Seen({}, {}));
    StringIsTotalOrder();
    var ids := Ids(BarItems(bar.elements));
    assert Seen({}, {}).items + Elements(ids) == Elements(ids);
    assert forall id :: id in ids <==> id in Elements(ids);
    if Validate(bar, required).Ok? {
      assert required - Elements(ids) == {};
      assert forall id :: id in required ==> id in Elements(ids);
    }
    if ValidBar(bar, required) {
      assert required - Elements(ids) == {};
    }
  }

  // ----- what each error blames -----

  /** Identifiers of the groups that sit `level` levels below a group. */
  function GroupsAt(group: GroupSpec, level: nat): seq<string>
    decreases group, 1
  {
    if level == 0 then [group.id] else ChildrenAt(group.elements, level - 1)
  }

  function ChildrenAt(elements: seq<GroupElement>, level: nat): seq<string>
    decreases elements, 0
  {
    if elements == [] then [] else ChildAt(elements[0], level) + ChildrenAt(elements[1..], level)
  }

  function ChildAt(element: GroupElement, level: nat): seq<string>
    decreases element, 2
  {
    match element
    case ChildItem(_) => []
    case ChildGroup(group) => GroupsAt(group, level)
  }

  /** An equal-width group whose children, each sized, have no width in common. */
  predicate Uneven(group: GroupSpec) {
    && group.layout.EqualWidth? && ChildSizings(group.elements).Ok?
    && var active := ActiveSizings(ChildSizings(group.elements).value);
    active != [] && Largest(Minima(active)) > Smallest(Maxima(active))
  }

  /** Identifiers of the uneven groups in a group, itself included. */
  function UnevenIn(group: GroupSpec): seq<string>
    decreases group, 1
  {
    (if Uneven(group) then [group.id] else []) + UnevenChildren(group.elements)
  }

  function UnevenChildren(elements: seq<GroupElement>): seq<string>
    decreases elements, 0
  {
    if elements == [] then [] else UnevenChild(elements[0]) + UnevenChildren(elements[1..])
  }

  function UnevenChild(element: GroupElement): seq<string>
    decreases element, 2
  {
    match element
    case ChildItem(_) => []
    case ChildGroup(group) => UnevenIn(group)
  }

  /** The name occurs, and is taken or occurred before. */
  ghost predicate Repeats(names: seq<string>, taken: set<string>, name: string) {
    exists i :: 0 <= i < |names| && names[i] == name && (name in taken || name in names[..i])
  }

  /** What a subtree holds that an error can point at. */
  datatype Evidence = Evidence(items: seq<ItemSpec>, groups: seq<string>, tooDeep: seq<string>, uneven: seq<string>)

  /** The error points at a defect of its kind: the name that is repeated, the item that is not
      sized, the group one level too deep, or the group without a common width. */
  ghost predicate Blames(error: LayoutError, e: Evidence, seen: Seen) {
    match error
    case EmptyItemId => "" in Ids(e.items)
    case DuplicateItem(id) => Repeats(Ids(e.items), seen.items, id)
    case EmptyGroupId => "" in e.groups
    case DuplicateGroup(id) => Repeats(e.groups, seen.groups, id)
    case InvalidSizing(id) => exists i :: 0 <= i < |e.items| && e.items[i].id == id && !ItemSized(e.items[i])
    case GroupDepthExceeded(id) => id in e.tooDeep
    case InvalidEqualWidthGroup(id) => id in e.uneven
    case _ => false
  }

  function Join(a: Evidence, b: Evidence): Evidence {
    Evidence(a.items + b.items, a.groups + b.groups, a.tooDeep + b.tooDeep, a.uneven + b.uneven)
  }

  lemma {:induction false} RepeatsConcat(a: seq<string>, b: seq<string>, taken: set<string>, name: string)
    requires Repeats(a, taken, name) || Repeats(b, taken + Elements(a), name)
    ensures Repeats(a + b, taken, name)
  {
    var c := a + b;
    if Repeats(a, taken, name) {
      var i :| 0 <= i < |a| && a[i] == name && (name in taken || name in a[..i]);
      assert c[i] == a[i] && c[..i] == a[..i];
    } else {
      var i :| 0 <= i < |b| && b[i] == name && (name in taken + Elements(a) || name in b[..i]);
      assert c[|a| + i] == b[i] && c[..|a| + i] == a + b[..i];
    }
  }

  lemma {:induction false} BlamesJoin(error: LayoutError, a: Evidence, b: Evidence, seen: Seen)
    requires Blames(error, a, seen) || Blames(error, b, After(a.items, a.groups, seen))
    ensures Blames(error, Join(a, b), seen)
  {
    IdsConcat(a.items, b.items);
    match error
    case DuplicateItem(id) => RepeatsConcat(Ids(a.items), Ids(b.items), seen.items, id);
    case DuplicateGroup(id) => RepeatsConcat(a.groups, b.groups, seen.groups, id);
    case InvalidSizing(id) =>
      if Blames(error, a, seen) {
        var i :| 0 <= i < |a.items| && a.items[i].id == id && !ItemSized(a.items[i]);
        assert (a.items + b.items)[i] == a.items[i];
      } else {
        var i :| 0 <= i < |b.items| && b.items[i].id == id && !ItemSized(b.items[i]);
        assert (a.items + b.items)[|a.items| + i] == b.items[i];
      }
    case _ =>
  }

  function ItemEvidence(item: ItemSpec): Evidence {
    Evidence([item], [], [], [])
  }

  lemma {:induction false} BlameItem(item: ItemSpec, seen: Seen)
    ensures ValidateItem(item, seen).Err? ==> Blames(ValidateItem(item, seen).error, ItemEvidence(item), seen)
  {
    assert Ids([item]) == [item.id];
    assert Ids([item])[0] == item.id && [item][0] == item;
  }

  /** The width range of a group is missing only because of an uneven group in it. */
  lemma {:induction false} SizingErrors(group: GroupSpec)
    ensures GroupSizing(group).Err? ==> GroupSizing(group).error.InvalidEqualWidthGroup? && GroupSizing(group).error.group in UnevenIn(group)
    decreases group, 1
  {
    ChildSizingErrors(group.elements);
  }

  lemma {:induction false} ChildSizingErrors(elements: seq<GroupElement>)
    ensures ChildSizings(elements).Err? ==>
              ChildSizings(elements).error.InvalidEqualWidthGroup? && ChildSizings(elements).error.group in UnevenChildren(elements)
    decreases elements, 0
  {
    if elements != [] {
      OneSizingError(elements[0]);
      ChildSizingErrors(elements[1..]);
    }
  }

  lemma {:induction false} OneSizingError(element: GroupElement)
    ensures ChildSizing(element).Err? ==>
              ChildSizing(element).error.InvalidEqualWidthGroup? && ChildSizing(element).error.group in UnevenChild(element)
    decreases element, 2
  {
    match element
    case ChildItem(_) =>
    case ChildGroup(group) => SizingErrors(group);
  }

  /** Evidence of a group entered at `depth`: groups at depth nine are too deep. */
  function GroupEvidence(group: GroupSpec, depth: nat): Evidence
    requires depth <= MAX_GROUP_DEPTH + 1
  {
    Evidence(GroupItems(group), GroupIds(group), GroupsAt(group, MAX_GROUP_DEPTH + 1 - depth), UnevenIn(group))
  }

  /** Evidence of the children of a group that is at `depth` itself. */
  function ChildrenEvidence(elements: seq<GroupElement>, depth: nat): Evidence
    requires depth <= MAX_GROUP_DEPTH
  {
    Evidence(ItemsOf(elements), ChildGroupIds(elements), ChildrenAt(elements, MAX_GROUP_DEPTH - depth), UnevenChildren(elements))
  }

  function ChildEvidence(element: GroupElement, depth: nat): Evidence
    requires depth <= MAX_GROUP_DEPTH
  {
    Evidence(ChildItems(element), IdsOfChild(element), ChildAt(element, MAX_GROUP_DEPTH - depth), UnevenChild(element))
  }

  lemma {:induction false} BlameGroup(group: GroupSpec, depth: nat, seen: Seen)
    requires 1 <= depth <= MAX_GROUP_DEPTH + 1
    ensures ValidateGroup(group, depth, seen).Err? ==> Blames(ValidateGroup(group, depth, seen).error, GroupEvidence(group, depth), seen)
    decreases group, 1
  {
    var result := ValidateGroup(group, depth, seen);
    if result.Err? {
      assert GroupIds(group)[0] == group.id;
      if group.id != "" && depth <= MAX_GROUP_DEPTH && group.id !in seen.groups {
        BlameInside(group, depth, seen);
      }
    }
  }

  lemma {:induction false} BlameInside(group: GroupSpec, depth: nat, seen: Seen)
    requires 1 <= depth <= MAX_GROUP_DEPTH && group.id != "" && group.id !in seen.groups
    requires ValidateGroup(group, depth, seen).Err?
    ensures Blames(ValidateGroup(group, depth, seen).error, GroupEvidence(group, depth), seen)
    decreases group, 0
  {
    var entered := seen.(groups := seen.groups + {group.id});
    var error := ValidateGroup(group, depth, seen).error;
    if ValidateChildren(group.elements, depth, entered).Err? {
      BlameChildren(group.elements, depth, entered);
      var own := Evidence([], [group.id], [], if Uneven(group) then [group.id] else []);
      assert After([], [group.id], seen) == entered by {
        assert Elements([group.id]) == {group.id};
        assert Elements(Ids([])) == {};
      }
      BlamesJoin(error, own, ChildrenEvidence(group.elements, depth), seen);
      assert Join(own, ChildrenEvidence(group.elements, depth)) == GroupEvidence(group, depth) by {
        assert [] + GroupItems(group) == GroupItems(group);
        assert [] + ChildrenAt(group.elements, MAX_GROUP_DEPTH - depth) == GroupsAt(group, MAX_GROUP_DEPTH + 1 - depth);
      }
    } else {
      SizingErrors(group);
    }
  }

  lemma {:induction false} BlameChildren(elements: seq<GroupElement>, depth: nat, seen: Seen)
    requires 1 <= depth <= MAX_GROUP_DEPTH
    ensures ValidateChildren(elements, depth, seen).Err? ==>
              Blames(ValidateChildren(elements, depth, seen).error, ChildrenEvidence(elements, depth), seen)
    decreases elements, 0
  {
    if elements != [] && ValidateChildren(elements, depth, seen).Err? {
      var first := elements[0];
      BlameChild(first, depth, seen);
      ValidateChildExact(first, depth, seen);
      if ValidateChild(first, depth, seen).Ok? {
        BlameChildren(elements[1..], depth, After(ChildItems(first), IdsOfChild(first), seen));
      }
      BlamesJoin(ValidateChildren(elements, depth, seen).error, ChildEvidence(first, depth), ChildrenEvidence(elements[1..], depth), seen);
    }
  }

  lemma {:induction false} BlameChild(element: GroupElement, depth: nat, seen: Seen)
    requires 1 <= depth <= MAX_GROUP_DEPTH
    ensures ValidateChild(element, depth, seen).Err? ==> Blames(ValidateChild(element, depth, seen).error, ChildEvidence(element, depth), seen)
    decreases element, 2
  {
    match element
    case ChildItem(item) => BlameItem(item, seen);
    case ChildGroup(group) => BlameGroup(group, depth + 1, seen);
  }

  function TopEvidence(element: Element): Evidence {
    match element
    case Item(item) => ItemEvidence(item)
    case Group(group) => GroupEvidence(group, 1)
    case _ => Evidence([], [], [], [])
  }

  function BarEvidence(elements: seq<Element>): Evidence {
    if elements == [] then Evidence([], [], [], []) else Join(TopEvidence(elements[0]), BarEvidence(elements[1..]))
  }

  lemma {:induction false} BarEvidenceIs(elements: seq<Element>)
    ensures BarEvidence(elements).items == BarItems(elements) && BarEvidence(elements).groups == BarGroupIds(elements)
  {
    if elements != [] {
      BarEvidenceIs(elements[1..]);
    }
  }

  /** Every error of validation points at a defect of its kind in the bar; that of a flexible space
      at the space without a weight. */
  lemma {:induction false} BlameElements(elements: seq<Element>, index: nat, seen: Seen)
    ensures var result := ValidateElements(elements, index, seen);
            result.Err? ==>
              if result.error.InvalidFlexibleSpace?
              then var i := result.error.element - index;
                   0 <= i < |elements| && elements[i].FlexibleSpace? && elements[i].weight == 0
              else Blames(result.error, BarEvidence(elements), seen)
  {
    var result := ValidateElements(elements, index, seen);
    if elements != [] && result.Err? {
      var first, rest := elements[0], elements[1..];
      ValidateElementExact(first, index, seen);
      BlameTop(first, index, seen);
      var step := ValidateElement(first, index, seen);
      if step.Ok? {
        BlameElements(rest, index + 1, step.value);
      }
      if !result.error.InvalidFlexibleSpace? {
        assert TopEvidence(first).items == ElementItems(first) && TopEvidence(first).groups == ElementGroupIds(first);
        BlamesJoin(result.error, TopEvidence(first), BarEvidence(rest), seen);
      }
    }
  }

  lemma {:induction false} BlameTop(element: Element, index: nat, seen: Seen)
    ensures ValidateElement(element, index, seen).Err? ==>
              if element.FlexibleSpace? then ValidateElement(element, index, seen).error == InvalidFlexibleSpace(index) && element.weight == 0
              else Blames(ValidateElement(element, index, seen).error, TopEvidence(element), seen)
  {
    match element {
      case Item(item) => BlameItem(item, seen);
      case Group(group) => BlameGroup(group, 1, seen);
      case _ =>
    }
  }

  /** Why a bar is rejected: a defect of the error's kind in its elements, a principal that is no item
      of the bar, or the first required item that is none. */
  lemma {:induction false} ValidateBlames(bar: BarSpec, required: set<ItemId>)
    ensures var result := Validate(bar, required);
            result.Err? ==>
              match result.error
              case InvalidFlexibleSpace(i) => i < |bar.elements| && bar.elements[i].FlexibleSpace? && bar.elements[i].weight == 0
              case UnknownPrincipal(id) => bar.principalItem == Some(id) && id !in Ids(BarItems(bar.elements))
              case UnknownRequired(id) => id in required && id !in Ids(BarItems(bar.elements))
              case error => Blames(error, BarEvidence(bar.elements), Seen({}, {}))
  {
    var none := Seen({}, {});
    BlameElements(bar.elements, 0, none);
    ValidateElementsExact(bar.elements, 0, none);
    var ids := Ids(BarItems(bar.elements));
    assert forall id :: id in ids <==> id in Elements(ids);
    StringIsTotalOrder();
    if ValidateElements(bar.elements, 0, none).Ok? {
      assert ValidateElements(bar.elements, 0, none).value.items == Elements(ids);
      if required - Elements(ids) != {} {
        assert Least(StringLe, required - Elements(ids)) in required - Elements(ids);
      }
    }
  }
}
