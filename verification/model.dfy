/** Context facts and the predicates over them. */
module Context {
  import opened Basics

  datatype ContextValue = Text(text: string) | Boolean(flag: bool)

  datatype ContextSnapshot = ContextSnapshot(generation: u64, facts: map<string, ContextValue>)

  datatype ContextPredicate =
    | Always
    | Present(key: string)
    | Equals(key: string, value: ContextValue)
    | All(predicates: seq<ContextPredicate>)
    | Any(predicates: seq<ContextPredicate>)
    | Not(negated: ContextPredicate)
  {
    predicate Matches(context: ContextSnapshot) {
      match this
      case Always => true
      case Present(key) => key in context.facts
      case Equals(key, value) => key in context.facts && context.facts[key] == value
      case All(predicates) => forall i :: 0 <= i < |predicates| ==> predicates[i].Matches(context)
      case Any(predicates) => exists i :: 0 <= i < |predicates| && predicates[i].Matches(context)
      case Not(p) => !p.Matches(context)
    }
  }

  datatype ContextScope = Global | Workspace | Application | Window

  /** Scopes from the least to the most specific. */
  function Rank(scope: ContextScope): nat {
    match scope
    case Global => 0
    case Workspace => 1
    case Application => 2
    case Window => 3
  }

  /** Unicode white space, what `str::trim` removes. */
  predicate IsWhitespace(c: char) {
    var n := c as int;
    || 9 <= n <= 13 || n == 32 || n == 0x85 || n == 0xA0 || n == 0x1680
    || 0x2000 <= n <= 0x200A || n == 0x2028 || n == 0x2029 || n == 0x202F || n == 0x205F || n == 0x3000
  }

  /** `value.trim().is_empty()` */
  predicate Blank(s: string) {
    forall i :: 0 <= i < |s| ==> IsWhitespace(s[i])
  }
}

/** Items, bars and the registry that owns them. */
module RegistryModel {
  import opened Basics
  import opened Ordering
  import opened Context
  import opened LayoutTypes
  import opened LayoutValidate

  type BarId = string

  datatype ItemDefinition = ItemDefinition(
    layout: ItemSpec,
    caption: string,
    expandedBar: Option<BarId>,
    pressAndHoldBar: Option<BarId>)

  datatype BarGroupElement = GroupItemRef(id: ItemId) | NestedGroup(group: BarGroup)

  datatype BarGroup = BarGroup(
    id: string,
    elements: seq<BarGroupElement>,
    layout: GroupLayout,
    spacing: u32,
    visibilityPriority: int,
    compressionPriority: int)

  datatype BarElement =
    | ItemRef(id: ItemId)
    | GroupRef(group: BarGroup)
    | Fixed(width: u32)
    | Flexible(minimum: u32, weight: u32)
    | ContextProxy

  datatype BarDefinition = BarDefinition(id: BarId, elements: seq<BarElement>, principalItem: Option<ItemId>)

  datatype ModelError =
    | NoItemId
    | NoItemLabel(item: ItemId)
    | NoBarId
    | RepeatedItem(item: ItemId)
    | RepeatedBar(bar: BarId)
    | UnknownItem(bar: BarId, item: ItemId)
    | UnknownExpandedBar(item: ItemId, bar: BarId)
    | MultipleContextProxies(bar: BarId)
    | ZeroFlexibleWeight(bar: BarId)
    | NoGroupId(bar: BarId)
    | RepeatedGroup(bar: BarId, group: string)
    | TooDeep(bar: BarId, group: string)
    | PrincipalNotInBar(bar: BarId, item: ItemId)
    | EmptyActiveChain
    | UnknownActiveBar(bar: BarId)
    | UnknownComposedItem(item: ItemId)

  /** The contents of a registry as a value. */
  datatype View = View(items: map<ItemId, ItemDefinition>, bars: map<BarId, BarDefinition>)

  /** What `add_item` and `add_bar` establish and nothing can undo. */
  ghost predicate Consistent(view: View) {
    && (forall id :: id in view.items ==> id != "" && view.items[id].layout.id == id)
    && (forall id :: id in view.bars ==> id != "" && view.bars[id].id == id)
  }

  class Registry {
    var items: map<ItemId, ItemDefinition>
    var bars: map<BarId, BarDefinition>

    function Contents(): View
      reads this
    {
      View(items, bars)
    }

    constructor ()
      ensures Contents() == View(map[], map[]) && Consistent(Contents())
    {
      items, bars := map[], map[];
    }

    method AddItem(item: ItemDefinition) returns (r: Result<(), ModelError>)
      requires Consistent(Contents())
      modifies this
      ensures Consistent(Contents())
      ensures r.Ok? <==> item.layout.id != "" && !Blank(item.caption) && item.layout.id !in old(items)
      ensures Contents() == if r.Ok? then old(Contents()).(items := old(items)[item.layout.id := item]) else old(Contents())
      ensures r.Err? ==> r.error == if item.layout.id == "" then NoItemId
                                    else if Blank(item.caption) then NoItemLabel(item.layout.id)
                                    else RepeatedItem(item.layout.id)
    {
      var id := item.layout.id;
      if id == "" {
        return Err(NoItemId);
      }
      if Blank(item.caption) {
        return Err(NoItemLabel(id));
      }
      if id in items {
        return Err(RepeatedItem(id));
      }
      items := items[id := item];
      r := Ok(());
    }

    method AddBar(bar: BarDefinition) returns (r: Result<(), ModelError>)
      requires Consistent(Contents())
      modifies this
      ensures Consistent(Contents())
      ensures r.Ok? <==> bar.id != "" && bar.id !in old(bars)
      ensures Contents() == if r.Ok? then old(Contents()).(bars := old(bars)[bar.id := bar]) else old(Contents())
      ensures r.Err? ==> r.error == if bar.id == "" then NoBarId else RepeatedBar(bar.id)
    {
      if bar.id == "" {
        return Err(NoBarId);
      }
      if bar.id in bars {
        return Err(RepeatedBar(bar.id));
      }
      bars := bars[bar.id := bar];
      r := Ok(());
    }
  }

  // ----- validation -----

  function ValidateGroupRef(view: View, bar: BarId, group: BarGroup, depth: nat, seen: set<string>): Result<set<string>, ModelError>
    decreases group, 1
  {
    if Blank(group.id) then Err(NoGroupId(bar))
    else if depth > MAX_GROUP_DEPTH then Err(TooDeep(bar, group.id))
    else if group.id in seen then Err(RepeatedGroup(bar, group.id))
    else ValidateGroupRefs(view, bar, group.elements, depth, seen + {group.id})
  }

  function ValidateGroupRefs(view: View, bar: BarId, elements: seq<BarGroupElement>, depth: nat, seen: set<string>): Result<set<string>, ModelError>
    decreases elements, 0
  {
    if elements == [] then
      Ok(seen)
    else
      var after :- ValidateGroupChild(view, bar, elements[0], depth, seen);
      ValidateGroupRefs(view, bar, elements[1..], depth, after)
  }

  function ValidateGroupChild(view: View, bar: BarId, element: BarGroupElement, depth: nat, seen: set<string>): Result<set<string>, ModelError>
    decreases element, 2
  {
    match element
    case GroupItemRef(id) => if id in view.items then Ok(seen) else Err(UnknownItem(bar, id))
    case NestedGroup(group) => ValidateGroupRef(view, bar, group, depth + 1, seen)
  }

  function ValidateBarElements(view: View, bar: BarId, elements: seq<BarElement>, seen: set<string>): Result<(), ModelError> {
    if elements == [] then
      Ok(())
    else
      match elements[0]
      case ItemRef(id) =>
        if id !in view.items then Err(UnknownItem(bar, id)) else ValidateBarElements(view, bar, elements[1..], seen)
      case GroupRef(group) =>
        var after :- ValidateGroupRef(view, bar, group, 1, seen);
        ValidateBarElements(view, bar, elements[1..], after)
      case Flexible(_, weight) =>
        if weight == 0 then Err(ZeroFlexibleWeight(bar)) else ValidateBarElements(view, bar, elements[1..], seen)
      case Fixed(_) => ValidateBarElements(view, bar, elements[1..], seen)
      case ContextProxy => ValidateBarElements(view, bar, elements[1..], seen)
  }

  function ProxyCount(elements: seq<BarElement>): nat {
    if elements == [] then 0 else (if elements[0].ContextProxy? then 1 else 0) + ProxyCount(elements[1..])
  }

  function GroupRefs(group: BarGroup): seq<ItemId>
    decreases group, 1
  {
    ItemRefs(group.elements)
  }

  function ItemRefs(elements: seq<BarGroupElement>): seq<ItemId>
    decreases elements, 0
  {
    if elements == [] then [] else ChildRefs(elements[0]) + ItemRefs(elements[1..])
  }

  function ChildRefs(element: BarGroupElement): seq<ItemId>
    decreases element, 2
  {
    match element
    case GroupItemRef(id) => [id]
    case NestedGroup(group) => GroupRefs(group)
  }

  /** Items an element refers to, at any nesting. */
  function ElementRefs(element: BarElement): seq<ItemId> {
    match element
    case ItemRef(id) => [id]
    case GroupRef(group) => GroupRefs(group)
    case _ => []
  }

  predicate Refers(elements: seq<BarElement>, id: ItemId) {
    exists i :: 0 <= i < |elements| && id in ElementRefs(elements[i])
  }

  function ValidateBarDefinition(view: View, bar: BarDefinition): Result<(), ModelError> {
    if ProxyCount(bar.elements) > 1 then
      Err(MultipleContextProxies(bar.id))
    else
      var _ :- ValidateBarElements(view, bar.id, bar.elements, {});
      if bar.principalItem.Some? && !Refers(bar.elements, bar.principalItem.value) then
        Err(PrincipalNotInBar(bar.id, bar.principalItem.value))
      else
        Ok(())
  }

  function ValidateTargets(view: View, item: ItemDefinition): Result<(), ModelError> {
    if item.expandedBar.Some? && item.expandedBar.value !in view.bars then
      Err(UnknownExpandedBar(item.layout.id, item.expandedBar.value))
    else if item.pressAndHoldBar.Some? && item.pressAndHoldBar.value !in view.bars then
      Err(UnknownExpandedBar(item.layout.id, item.pressAndHoldBar.value))
    else Ok(())
  }

  function ValidateItems(view: View, ids: seq<ItemId>): Result<(), ModelError>
    requires forall i :: 0 <= i < |ids| ==> ids[i] in view.items
  {
    if ids == [] then
      Ok(())
    else
      var _ :- ValidateTargets(view, view.items[ids[0]]);
      ValidateItems(view, ids[1..])
  }

  function ValidateBars(view: View, ids: seq<BarId>): Result<(), ModelError>
    requires forall i :: 0 <= i < |ids| ==> ids[i] in view.bars
  {
    if ids == [] then
      Ok(())
    else
      var _ :- ValidateBarDefinition(view, view.bars[ids[0]]);
      ValidateBars(view, ids[1..])
  }

  /** Keys of a `BTreeMap` in iteration order. */
  function SortedKeys<V>(m: map<string, V>): (r: seq<string>)
    ensures forall i :: 0 <= i < |r| ==> r[i] in m
    ensures forall k :: k in m ==> k in r
  {
    StringIsTotalOrder();
    ListingFacts(StringLe, m.Keys);
    var r := Listing(StringLe, m.Keys);
    assert forall k :: k in r <==> k in Elements(r);
    r
  }

  /** `Registry::validate`: all items, then all bars, in key order. */
  function ValidateRegistry(view: View): Result<(), ModelError> {
    var _ :- ValidateItems(view, SortedKeys(view.items));
    ValidateBars(view, SortedKeys(view.bars))
  }

  lemma {:induction false} ValidBarsMember(view: View, ids: seq<BarId>, id: BarId)
    requires forall i :: 0 <= i < |ids| ==> ids[i] in view.bars
    requires ValidateBars(view, ids).Ok? && id in ids
    ensures id in view.bars && ValidateBarDefinition(view, view.bars[id]).Ok?
  {
    if id != ids[0] {
      assert id in ids[1..];
      ValidBarsMember(view, ids[1..], id);
    }
  }

  /** In a valid registry every bar is valid on its own. */
  lemma {:induction false} ValidRegistryBar(view: View, id: BarId)
    requires ValidateRegistry(view).Ok? && id in view.bars
    ensures ValidateBarDefinition(view, view.bars[id]).Ok?
  {
    ValidBarsMember(view, SortedKeys(view.bars), id);
  }

  // ----- known items -----

  ghost predicate KnownRefs(view: View, refs: seq<ItemId>) {
    forall i :: 0 <= i < |refs| ==> refs[i] in view.items
  }

  lemma {:induction false} KnownConcat(view: View, a: seq<ItemId>, b: seq<ItemId>)
    ensures KnownRefs(view, a + b) <==> KnownRefs(view, a) && KnownRefs(view, b)
  {
    if KnownRefs(view, a + b) {
      assert forall i :: 0 <= i < |a| ==> (a + b)[i] == a[i];
      forall i | 0 <= i < |b| ensures b[i] in view.items {
        assert (a + b)[|a| + i] == b[i];
      }
    }
  }

  lemma {:induction false} ValidGroupIsKnown(view: View, bar: BarId, group: BarGroup, depth: nat, seen: set<string>)
    requires ValidateGroupRef(view, bar, group, depth, seen).Ok?
    ensures KnownRefs(view, GroupRefs(group))
    decreases group, 1
  {
    ValidRefsAreKnown(view, bar, group.elements, depth, seen + {group.id});
  }

  lemma {:induction false} ValidRefsAreKnown(view: View, bar: BarId, elements: seq<BarGroupElement>, depth: nat, seen: set<string>)
    requires ValidateGroupRefs(view, bar, elements, depth, seen).Ok?
    ensures KnownRefs(view, ItemRefs(elements))
    decreases elements, 0
  {
    if elements != [] {
      ValidChildIsKnown(view, bar, elements[0], depth, seen);
      ValidRefsAreKnown(view, bar, elements[1..], depth, ValidateGroupChild(view, bar, elements[0], depth, seen).value);
      KnownConcat(view, ChildRefs(elements[0]), ItemRefs(elements[1..]));
    }
  }

  lemma {:induction false} ValidChildIsKnown(view: View, bar: BarId, element: BarGroupElement, depth: nat, seen: set<string>)
    requires ValidateGroupChild(view, bar, element, depth, seen).Ok?
    ensures KnownRefs(view, ChildRefs(element))
    decreases element, 2
  {
    match element
    case GroupItemRef(_) =>
    case NestedGroup(group) => ValidGroupIsKnown(view, bar, group, depth + 1, seen);
  }

  lemma {:induction false} ValidElementsAreKnown(view: View, bar: BarId, elements: seq<BarElement>, seen: set<string>, i: nat)
    requires ValidateBarElements(view, bar, elements, seen).Ok? && i < |elements|
    ensures KnownRefs(view, ElementRefs(elements[i]))
    ensures elements[i].Flexible? ==> elements[i].weight > 0
  {
    if elements[0].GroupRef? {
      ValidGroupIsKnown(view, bar, elements[0].group, 1, seen);
      if i > 0 {
        ValidElementsAreKnown(view, bar, elements[1..], ValidateGroupRef(view, bar, elements[0].group, 1, seen).value, i - 1);
      }
    } else if i > 0 {
      ValidElementsAreKnown(view, bar, elements[1..], seen, i - 1);
    }
  }

  // ----- resolution of references -----

  function ResolveGroup(view: View, group: BarGroup): Result<GroupSpec, ModelError>
    decreases group, 1
  {
    var elements :- ResolveChildren(view, group.elements);
    Ok(GroupSpec(group.id, elements, group.layout, group.spacing, group.visibilityPriority, group.compressionPriority))
  }

  function ResolveChildren(view: View, elements: seq<BarGroupElement>): Result<seq<GroupElement>, ModelError>
    decreases elements, 0
  {
    if elements == [] then
      Ok([])
    else
      var first :- ResolveChild(view, elements[0]);
      var rest :- ResolveChildren(view, elements[1..]);
      Ok([first] + rest)
  }

  function ResolveChild(view: View, element: BarGroupElement): Result<GroupElement, ModelError>
    decreases element, 2
  {
    match element
    case GroupItemRef(id) => if id in view.items then Ok(ChildItem(view.items[id].layout)) else Err(UnknownComposedItem(id))
    case NestedGroup(group) =>
      var resolved :- ResolveGroup(view, group);
      Ok(ChildGroup(resolved))
  }

  function ResolveElement(view: View, element: BarElement): Result<Element, ModelError>
    requires !element.ContextProxy?
  {
    match element
    case ItemRef(id) => if id in view.items then Ok(Item(view.items[id].layout)) else Err(UnknownComposedItem(id))
    case GroupRef(group) =>
      var resolved :- ResolveGroup(view, group);
      Ok(Group(resolved))
    case Fixed(width) => Ok(FixedSpace(width))
    case Flexible(minimum, weight) => Ok(FlexibleSpace(minimum, weight))
  }

  /** Known references resolve, and the resolved group holds exactly the referenced items, in order. */
  lemma {:induction false} KnownGroupResolves(view: View, group: BarGroup)
    requires Consistent(view) && KnownRefs(view, GroupRefs(group))
    ensures ResolveGroup(view, group).Ok?
    ensures Ids(GroupItems(ResolveGroup(view, group).value)) == GroupRefs(group)
    decreases group, 1
  {
    KnownChildrenResolve(view, group.elements);
  }

  lemma {:induction false} KnownChildrenResolve(view: View, elements: seq<BarGroupElement>)
    requires Consistent(view) && KnownRefs(view, ItemRefs(elements))
    ensures ResolveChildren(view, elements).Ok?
    ensures Ids(ItemsOf(ResolveChildren(view, elements).value)) == ItemRefs(elements)
    decreases elements, 0
  {
    if elements != [] {
      KnownConcat(view, ChildRefs(elements[0]), ItemRefs(elements[1..]));
      KnownChildResolves(view, elements[0]);
      KnownChildrenResolve(view, elements[1..]);
      var first, rest := ResolveChild(view, elements[0]).value, ResolveChildren(view, elements[1..]).value;
      assert ([first] + rest)[1..] == rest;
      IdsConcat(ChildItems(first), ItemsOf(rest));
    }
  }

  lemma {:induction false} KnownChildResolves(view: View, element: BarGroupElement)
    requires Consistent(view) && KnownRefs(view, ChildRefs(element))
    ensures ResolveChild(view, element).Ok?
    ensures Ids(ChildItems(ResolveChild(view, element).value)) == ChildRefs(element)
    decreases element, 2
  {
    match element
    case GroupItemRef(id) =>
      assert ChildRefs(element)[0] == id;
    case NestedGroup(group) => KnownGroupResolves(view, group);
  }

  lemma {:induction false} KnownElementResolves(view: View, element: BarElement)
    requires Consistent(view) && !element.ContextProxy? && KnownRefs(view, ElementRefs(element))
    ensures ResolveElement(view, element).Ok?
    ensures Ids(ElementItems(ResolveElement(view, element).value)) == ElementRefs(element)
  {
    match element
    case ItemRef(id) =>
      assert ElementRefs(element)[0] == id;
    case GroupRef(group) => KnownGroupResolves(view, group);
    case _ =>
  }
}
