/** What composing a profile means: the bar it shows, the address of every slot, and the
    identifiers it claims. */
module Compose {
  import opened Basics
  import opened Context
  import opened LayoutTypes
  import opened LayoutValidate
  import opened RegistryModel
  import opened ActiveChain
  import opened Profiles

  /** Position of a slot: the group indices leading to its container, and a half-open range in it. */
  datatype ComposedSlot = ComposedSlot(id: SlotId, path: seq<nat>, start: nat, end: nat)

  datatype ProfileComposition = ProfileComposition(
    profile: ProfileId,
    activeContributions: seq<ContributionId>,
    slots: seq<ComposedSlot>,
    bar: BarSpec)

  // ----- identifiers claimed by a composition, in the order they are claimed -----

  datatype Claim = ItemClaim(id: ItemId) | GroupClaim(id: string)

  predicate Taken(seen: Seen, claim: Claim) {
    match claim
    case ItemClaim(id) => id in seen.items
    case GroupClaim(id) => id in seen.groups
  }

  function Take(seen: Seen, claim: Claim): Seen {
    match claim
    case ItemClaim(id) => seen.(items := seen.items + {id})
    case GroupClaim(id) => seen.(groups := seen.groups + {id})
  }

  /** Takes the claims in order; fails with the first one that is already taken. */
  function ClaimAll(seen: Seen, claims: seq<Claim>): Result<Seen, Claim>
    decreases |claims|
  {
    if claims == [] then Ok(seen)
    else if Taken(seen, claims[0]) then Err(claims[0])
    else ClaimAll(Take(seen, claims[0]), claims[1..])
  }

  function Clash(claim: Claim): ProfileError {
    match claim
    case ItemClaim(id) => DuplicateComposedItem(id)
    case GroupClaim(id) => DuplicateComposedGroup(id)
  }

  function GroupRefClaims(group: BarGroup): seq<Claim>
    decreases group, 1
  {
    [GroupClaim(group.id)] + ChildRefClaims(group.elements)
  }

  function ChildRefClaims(elements: seq<BarGroupElement>): seq<Claim>
    decreases elements, 0
  {
    if elements == [] then [] else OneChildClaims(elements[0]) + ChildRefClaims(elements[1..])
  }

  function OneChildClaims(element: BarGroupElement): seq<Claim>
    decreases element, 2
  {
    match element
    case GroupItemRef(id) => [ItemClaim(id)]
    case NestedGroup(group) => GroupRefClaims(group)
  }

  function ElementClaims(element: BarElement): seq<Claim> {
    match element
    case ItemRef(id) => [ItemClaim(id)]
    case GroupRef(group) => GroupRefClaims(group)
    case _ => []
  }

  function BodyClaims(body: seq<BarElement>): seq<Claim> {
    if body == [] then [] else ElementClaims(body[0]) + BodyClaims(body[1..])
  }

  // ----- what a slot shows -----

  /** The elements of several contributions, one after the other. */
  function Gathered(contributions: seq<ContributionDefinition>): seq<BarElement> {
    if contributions == [] then [] else contributions[0].elements + Gathered(contributions[1..])
  }

  function ContributionIds(contributions: seq<ContributionDefinition>): seq<ContributionId> {
    if contributions == [] then [] else [contributions[0].id] + ContributionIds(contributions[1..])
  }

  /** The concatenation of a slot's selected contributions in selection order. */
  function SlotBody(catalog: Catalog, slot: SlotDefinition, context: ContextSnapshot): seq<BarElement> {
    Gathered(SelectBindings(catalog, slot, context))
  }

  /** The layout element a reference stands for; a proxy or an unknown reference stands for nothing. */
  function ShownElement(view: View, element: BarElement): seq<Element> {
    if element.ContextProxy? then []
    else
      match ResolveElement(view, element)
      case Ok(resolved) => [resolved]
      case Err(_) => []
  }

  function Shown(view: View, body: seq<BarElement>): seq<Element> {
    if body == [] then [] else ShownElement(view, body[0]) + Shown(view, body[1..])
  }

  /** The same elements as children of a group. */
  function AsChildren(elements: seq<Element>): seq<GroupElement> {
    if elements == [] then []
    else
      match elements[0]
      case Item(item) => [ChildItem(item)] + AsChildren(elements[1..])
      case Group(group) => [ChildGroup(group)] + AsChildren(elements[1..])
      case _ => AsChildren(elements[1..])
  }

  function SlotGroupId(profile: ProfileId, slot: SlotId): string {
    SLOT_PREFIX + profile + "/" + slot
  }

  // ----- the composed bar -----

  /** Everything a composition depends on. */
  datatype Source = Source(view: View, catalog: Catalog, profile: ProfileId, context: ContextSnapshot)

  function BodyOf(source: Source, slot: SlotDefinition): seq<BarElement> {
    SlotBody(source.catalog, slot, source.context)
  }

  function ShownIn(source: Source, slot: SlotDefinition): seq<Element> {
    Shown(source.view, BodyOf(source, slot))
  }

  function SlotGroup(source: Source, slot: SlotDefinition): GroupSpec {
    GroupSpec(SlotGroupId(source.profile, slot.id), AsChildren(ShownIn(source, slot)), Natural, 0, 0, 0)
  }

  function GroupContent(source: Source, group: ProfileGroup): GroupSpec
    decreases group, 1
  {
    GroupSpec(group.id, ChildrenContent(source, group.elements), group.layout, group.spacing,
              group.visibilityPriority, group.compressionPriority)
  }

  function ChildrenContent(source: Source, elements: seq<ProfileGroupElement>): (r: seq<GroupElement>)
    ensures |r| == |elements|
    decreases elements, 0
  {
    if elements == [] then [] else [ChildContent(source, elements[0])] + ChildrenContent(source, elements[1..])
  }

  function ChildContent(source: Source, element: ProfileGroupElement): (r: GroupElement)
    ensures r.ChildGroup?
    decreases element, 2
  {
    match element
    case GroupedSlot(slot) => ChildGroup(SlotGroup(source, slot))
    case GroupedGroup(group) => ChildGroup(GroupContent(source, group))
  }

  function TopContent(source: Source, element: ProfileElement): seq<Element> {
    match element
    case TopSlot(slot) => ShownIn(source, slot)
    case TopGroup(group) => [Group(GroupContent(source, group))]
    case TopFixed(width) => [FixedSpace(width)]
    case TopFlexible(minimum, weight) => [FlexibleSpace(minimum, weight)]
  }

  function BarContent(source: Source, elements: seq<ProfileElement>): seq<Element> {
    if elements == [] then [] else TopContent(source, elements[0]) + BarContent(source, elements[1..])
  }

  // ----- its claims -----

  function ProfileGroupClaims(source: Source, group: ProfileGroup): seq<Claim>
    decreases group, 1
  {
    [GroupClaim(group.id)] + ProfileChildrenClaims(source, group.elements)
  }

  function ProfileChildrenClaims(source: Source, elements: seq<ProfileGroupElement>): seq<Claim>
    decreases elements, 0
  {
    if elements == [] then [] else ProfileChildClaims(source, elements[0]) + ProfileChildrenClaims(source, elements[1..])
  }

  function ProfileChildClaims(source: Source, element: ProfileGroupElement): seq<Claim>
    decreases element, 2
  {
    match element
    case GroupedSlot(slot) => BodyClaims(BodyOf(source, slot)) + [GroupClaim(SlotGroupId(source.profile, slot.id))]
    case GroupedGroup(group) => ProfileGroupClaims(source, group)
  }

  function TopClaims(source: Source, element: ProfileElement): seq<Claim> {
    match element
    case TopSlot(slot) => BodyClaims(BodyOf(source, slot))
    case TopGroup(group) => ProfileGroupClaims(source, group)
    case _ => []
  }

  function BarClaims(source: Source, elements: seq<ProfileElement>): seq<Claim> {
    if elements == [] then [] else TopClaims(source, elements[0]) + BarClaims(source, elements[1..])
  }

  // ----- its slots and active contributions -----

  function GroupSlotDefinitions(group: ProfileGroup): seq<SlotDefinition>
    decreases group, 1
  {
    ChildSlotDefinitions(group.elements)
  }

  function ChildSlotDefinitions(elements: seq<ProfileGroupElement>): seq<SlotDefinition>
    decreases elements, 0
  {
    if elements == [] then [] else OneSlotDefinitions(elements[0]) + ChildSlotDefinitions(elements[1..])
  }

  function OneSlotDefinitions(element: ProfileGroupElement): seq<SlotDefinition>
    decreases element, 2
  {
    match element
    case GroupedSlot(slot) => [slot]
    case GroupedGroup(group) => GroupSlotDefinitions(group)
  }

  function TopSlotDefinitions(element: ProfileElement): seq<SlotDefinition> {
    match element
    case TopSlot(slot) => [slot]
    case TopGroup(group) => GroupSlotDefinitions(group)
    case _ => []
  }

  /** The slots of a profile in reading order, at any nesting. */
  function SlotDefinitions(elements: seq<ProfileElement>): seq<SlotDefinition> {
    if elements == [] then [] else TopSlotDefinitions(elements[0]) + SlotDefinitions(elements[1..])
  }

  function ActiveIn(source: Source, slots: seq<SlotDefinition>): seq<ContributionId> {
    if slots == [] then []
    else ContributionIds(SelectBindings(source.catalog, slots[0], source.context)) + ActiveIn(source, slots[1..])
  }

  /** Slots of a container as seen from the container at `path`. */
  function Under(path: seq<nat>, slots: seq<ComposedSlot>): (r: seq<ComposedSlot>)
    ensures |r| == |slots|
  {
    if slots == [] then [] else [slots[0].(path := path + slots[0].path)] + Under(path, slots[1..])
  }

  function GroupSlots(source: Source, group: ProfileGroup): seq<ComposedSlot>
    decreases group, 1
  {
    ChildSlots(source, group.elements, 0)
  }

  function ChildSlots(source: Source, elements: seq<ProfileGroupElement>, index: nat): seq<ComposedSlot>
    decreases elements, 0
  {
    if elements == [] then []
    else Under([index], OneSlots(source, elements[0])) + ChildSlots(source, elements[1..], index + 1)
  }

  function OneSlots(source: Source, element: ProfileGroupElement): seq<ComposedSlot>
    decreases element, 2
  {
    match element
    case GroupedSlot(slot) => [ComposedSlot(slot.id, [], 0, |AsChildren(ShownIn(source, slot))|)]
    case GroupedGroup(group) => GroupSlots(source, group)
  }

  function TopSlots(source: Source, element: ProfileElement, start: nat): seq<ComposedSlot> {
    match element
    case TopSlot(slot) => [ComposedSlot(slot.id, [], start, start + |ShownIn(source, slot)|)]
    case TopGroup(group) => Under([start], GroupSlots(source, group))
    case _ => []
  }

  function BarSlots(source: Source, elements: seq<ProfileElement>, start: nat): seq<ComposedSlot> {
    if elements == [] then []
    else TopSlots(source, elements[0], start) + BarSlots(source, elements[1..], start + |TopContent(source, elements[0])|)
  }

  /** `ProfileCatalog::compose`: the composition of a profile in a context. */
  function Composed(view: View, catalog: Catalog, id: ProfileId, context: ContextSnapshot): Result<ProfileComposition, ProfileError> {
    var _ :- ValidateCatalog(view, catalog);
    if id !in catalog.profiles then
      Err(UnknownProfile(id))
    else
      var profile := catalog.profiles[id];
      var source := Source(view, catalog, profile.id, context);
      var claims := BarClaims(source, profile.elements);
      match ClaimAll(Seen({}, {}), claims)
      case Err(claim) => Err(Clash(claim))
      case Ok(_) => Ok(ProfileComposition(
          profile.id,
          ActiveIn(source, SlotDefinitions(profile.elements)),
          BarSlots(source, profile.elements, 0),
          BarSpec(BarContent(source, profile.elements),
                  if profile.principalItem.Some? && ItemClaim(profile.principalItem.value) in claims then profile.principalItem else None)))
  }

  // ----- claims, taken in order -----

  lemma {:induction false} ClaimAllConcat(seen: Seen, a: seq<Claim>, b: seq<Claim>)
    ensures ClaimAll(seen, a + b) == (if ClaimAll(seen, a).Ok? then ClaimAll(ClaimAll(seen, a).value, b) else ClaimAll(seen, a))
    decreases |a|
  {
    if a == [] {
      assert a + b == b;
    } else {
      assert (a + b)[0] == a[0] && (a + b)[1..] == a[1..] + b;
      if !Taken(seen, a[0]) {
        ClaimAllConcat(Take(seen, a[0]), a[1..], b);
      }
    }
  }

  function ItemNames(claims: seq<Claim>): seq<ItemId> {
    if claims == [] then []
    else (if claims[0].ItemClaim? then [claims[0].id] else []) + ItemNames(claims[1..])
  }

  function GroupNames(claims: seq<Claim>): seq<string> {
    if claims == [] then []
    else (if claims[0].GroupClaim? then [claims[0].id] else []) + GroupNames(claims[1..])
  }

  lemma {:induction false} NamesConcat(a: seq<Claim>, b: seq<Claim>)
    ensures ItemNames(a + b) == ItemNames(a) + ItemNames(b)
    ensures GroupNames(a + b) == GroupNames(a) + GroupNames(b)
  {
    if a == [] {
      assert a + b == b;
    } else {
      assert (a + b)[0] == a[0] && (a + b)[1..] == a[1..] + b;
      NamesConcat(a[1..], b);
      ConcatAssociates(if a[0].ItemClaim? then [a[0].id] else [], ItemNames(a[1..]), ItemNames(b));
      ConcatAssociates(if a[0].GroupClaim? then [a[0].id] else [], GroupNames(a[1..]), GroupNames(b));
    }
  }

  lemma {:induction false} ItemNamesMembers(claims: seq<Claim>, id: ItemId)
    ensures id in ItemNames(claims) <==> ItemClaim(id) in claims
  {
    if claims != [] {
      ItemNamesMembers(claims[1..], id);
      assert claims == [claims[0]] + claims[1..];
    }
  }
}
