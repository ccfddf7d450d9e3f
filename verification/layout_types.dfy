/** The composed bar that the layout solver receives and the layout it returns. */
module LayoutTypes {
  import opened Basics

  type ItemId = string

  const MAX_GROUP_DEPTH := 8

  datatype ItemSpec = ItemSpec(
    id: ItemId,
    minWidth: u32,
    preferredWidth: u32,
    maxWidth: u32,
    visibilityPriority: int,
    compressionPriority: int,
    visibilityGroup: Option<string>)

  datatype GroupLayout = Natural | EqualWidth

  datatype GroupElement = ChildItem(item: ItemSpec) | ChildGroup(group: GroupSpec)

  datatype GroupSpec = GroupSpec(
    id: string,
    elements: seq<GroupElement>,
    layout: GroupLayout,
    spacing: u32,
    visibilityPriority: int,
    compressionPriority: int)

  datatype Element =
    | Item(item: ItemSpec)
    | Group(group: GroupSpec)
    | FixedSpace(width: u32)
    | FlexibleSpace(minimum: u32, weight: u32)

  datatype BarSpec = BarSpec(elements: seq<Element>, principalItem: Option<ItemId>)

  datatype Placement = Placement(id: ItemId, x: nat, width: nat)

  datatype ResolvedLayout = ResolvedLayout(
    placements: seq<Placement>,
    hiddenItems: seq<ItemId>,
    contentWidth: nat)

  datatype LayoutError =
    | EmptyItemId
    | DuplicateItem(item: ItemId)
    | InvalidSizing(item: ItemId)
    | InvalidFlexibleSpace(element: nat)
    | UnknownPrincipal(item: ItemId)
    | UnknownRequired(item: ItemId)
    | EmptyGroupId
    | DuplicateGroup(group: string)
    | GroupDepthExceeded(group: string)
    | InvalidEqualWidthGroup(group: string)
    | InconsistentVisibilityGroup(group: string)
    | InsufficientWidth(available: nat, required: nat)

  /** The width range of an element together with its natural width. */
  datatype Sizing = Sizing(minimum: nat, preferred: nat, maximum: nat) {
    predicate Ordered() {
      minimum <= preferred <= maximum
    }

    predicate Admits(width: nat) {
      minimum <= width <= maximum
    }
  }

  predicate ItemSized(item: ItemSpec) {
    1 <= item.minWidth <= item.preferredWidth <= item.maxWidth
  }

  /** The items of a group in reading order, at any nesting. */
  function GroupItems(group: GroupSpec): seq<ItemSpec>
    decreases group, 1
  {
    ItemsOf(group.elements)
  }

  function ItemsOf(elements: seq<GroupElement>): seq<ItemSpec>
    decreases elements, 0
  {
    if elements == [] then [] else ChildItems(elements[0]) + ItemsOf(elements[1..])
  }

  function ChildItems(element: GroupElement): seq<ItemSpec>
    decreases element, 2
  {
    match element
    case ChildItem(item) => [item]
    case ChildGroup(group) => GroupItems(group)
  }

  function ElementItems(element: Element): seq<ItemSpec> {
    match element
    case Item(item) => [item]
    case Group(group) => GroupItems(group)
    case FixedSpace(_) => []
    case FlexibleSpace(_, _) => []
  }

  function Ids(items: seq<ItemSpec>): seq<ItemId> {
    seq(|items|, i requires 0 <= i < |items| => items[i].id)
  }

  lemma {:induction false} IdsConcat(a: seq<ItemSpec>, b: seq<ItemSpec>)
    ensures Ids(a + b) == Ids(a) + Ids(b)
  {
  }
}
