/** User-owned profiles: templates with slots, contributions, and their validation. */
module Profiles {
  import opened Basics
  import opened Sorting
  import opened Context
  import opened LayoutTypes
  import opened RegistryModel
  import opened ActiveChain
  import LayoutValidate

  type ProfileId = string
  type SlotId = string
  type ContributionId = string

  datatype SlotPolicy = Collect | Select | Fix

  datatype ContributionDefinition = ContributionDefinition(
    id: ContributionId,
    elements: seq<BarElement>,
    condition: ContextPredicate,
    scope: ContextScope,
    priority: int)

  datatype ContributionBinding = ContributionBinding(contribution: ContributionId, order: int)

  datatype SlotDefinition = SlotDefinition(id: SlotId, policy: SlotPolicy, bindings: seq<ContributionBinding>)

  datatype ProfileGroupElement = GroupedSlot(slot: SlotDefinition) | GroupedGroup(group: ProfileGroup)

  datatype ProfileGroup = ProfileGroup(
    id: string,
    elements: seq<ProfileGroupElement>,
    layout: GroupLayout,
    spacing: u32,
    visibilityPriority: int,
    compressionPriority: int)

  datatype ProfileElement =
    | TopSlot(slot: SlotDefinition)
    | TopGroup(group: ProfileGroup)
    | TopFixed(width: u32)
    | TopFlexible(minimum: u32, weight: u32)

  datatype ProfileDefinition = ProfileDefinition(id: ProfileId, elements: seq<ProfileElement>, principalItem: Option<ItemId>)

  datatype ProfileError =
    | EmptyContributionId
    | EmptyProfileId
    | EmptySlotId(profile: ProfileId)
    | EmptyModeId
    | DuplicateContribution(contribution: ContributionId)
    | DuplicateProfile(profile: ProfileId)
    | DuplicateSlot(profile: ProfileId, slot: SlotId)
    | InvalidGroupId(profile: ProfileId, group: string)
    | DuplicateProfileGroup(profile: ProfileId, group: string)
    | ProfileGroupTooDeep(profile: ProfileId, group: string)
    | InvalidContributionGroupId(contribution: ContributionId, group: string)
    | DuplicateContributionGroup(contribution: ContributionId, group: string)
    | ContributionGroupTooDeep(contribution: ContributionId, group: string)
    | DuplicateComposedGroup(group: string)
    | UnknownContribution(profile: ProfileId, slot: SlotId, contribution: ContributionId)
    | UnknownProfile(profile: ProfileId)
    | UnknownContributionItem(contribution: ContributionId, item: ItemId)
    | DuplicateComposedItem(item: ItemId)
    | ContextProxyInContribution(contribution: ContributionId)
    | ZeroFlexibleWeightInContribution(contribution: ContributionId)
    | ZeroFlexibleWeightInProfile(profile: ProfileId)
    | SpaceInGroupedSlot(profile: ProfileId, slot: SlotId, contribution: ContributionId)

  /** The contents of a profile catalog as a value. */
  datatype Catalog = Catalog(
    contributions: map<ContributionId, ContributionDefinition>,
    profiles: map<ProfileId, ProfileDefinition>)

  /** What adding contributions and profiles establishes and nothing can undo. */
  ghost predicate CatalogConsistent(catalog: Catalog) {
    && (forall id :: id in catalog.contributions ==> !Blank(id) && catalog.contributions[id].id == id)
    && (forall id :: id in catalog.profiles ==> !Blank(id) && catalog.profiles[id].id == id)
  }

  class ProfileCatalog {
    var contributions: map<ContributionId, ContributionDefinition>
    var profiles: map<ProfileId, ProfileDefinition>

    function Contents(): Catalog
      reads this
    {
      Catalog(contributions, profiles)
    }

    constructor ()
      ensures Contents() == Catalog(map[], map[]) && CatalogConsistent(Contents())
    {
      contributions, profiles := map[], map[];
    }

    method AddContribution(contribution: ContributionDefinition) returns (r: Result<(), ProfileError>)
      requires CatalogConsistent(Contents())
      modifies this
      ensures CatalogConsistent(Contents())
      ensures r.Ok? <==> !Blank(contribution.id) && contribution.id !in old(contributions)
      ensures Contents() == if r.Ok? then old(Contents()).(contributions := old(contributions)[contribution.id := contribution])
                            else old(Contents())
      ensures r.Err? ==> r.error == if Blank(contribution.id) then EmptyContributionId else DuplicateContribution(contribution.id)
    {
      if Blank(contribution.id) {
        return Err(EmptyContributionId);
      }
      if contribution.id in contributions {
        return Err(DuplicateContribution(contribution.id));
      }
      contributions := contributions[contribution.id := contribution];
      r := Ok(());
    }

    method AddProfile(profile: ProfileDefinition) returns (r: Result<(), ProfileError>)
      requires CatalogConsistent(Contents())
      modifies this
      ensures CatalogConsistent(Contents())
      ensures r.Ok? <==> !Blank(profile.id) && profile.id !in old(profiles)
      ensures Contents() == if r.Ok? then old(Contents()).(profiles := old(profiles)[profile.id := profile])
                            else old(Contents())
      ensures r.Err? ==> r.error == if Blank(profile.id) then EmptyProfileId else DuplicateProfile(profile.id)
    {
      if Blank(profile.id) {
        return Err(EmptyProfileId);
      }
      if profile.id in profiles {
        return Err(DuplicateProfile(profile.id));
      }
      profiles := profiles[profile.id := profile];
      r := Ok(());
    }
  }

  // ----- validation of contributions -----

  function ValidateContributionGroup(view: View, id: ContributionId, group: BarGroup, depth: nat, seen: set<string>): Result<set<string>, ProfileError>
    decreases group, 1
  {
    if Blank(group.id) then Err(InvalidContributionGroupId(id, group.id))
    else if depth > MAX_GROUP_DEPTH then Err(ContributionGroupTooDeep(id, group.id))
    else if group.id in seen then Err(DuplicateContributionGroup(id, group.id))
    else ValidateContributionChildren(view, id, group.elements, depth, seen + {group.id})
  }

  function ValidateContributionChildren(view: View, id: ContributionId, elements: seq<BarGroupElement>, depth: nat, seen: set<string>): Result<set<string>, ProfileError>
    decreases elements, 0
  {
    if elements == [] then
      Ok(seen)
    else
      var after :- ValidateContributionChild(view, id, elements[0], depth, seen);
      ValidateContributionChildren(view, id, elements[1..], depth, after)
  }

  function ValidateContributionChild(view: View, id: ContributionId, element: BarGroupElement, depth: nat, seen: set<string>): Result<set<string>, ProfileError>
    decreases element, 2
  {
    match element
    case GroupItemRef(item) => if item in view.items then Ok(seen) else Err(UnknownContributionItem(id, item))
    case NestedGroup(group) => ValidateContributionGroup(view, id, group, depth + 1, seen)
  }

  function ValidateContributionElements(view: View, id: ContributionId, elements: seq<BarElement>, seen: set<string>): Result<(), ProfileError> {
    if elements == [] then
      Ok(())
    else
      match elements[0]
      case ItemRef(item) =>
        if item !in view.items then Err(UnknownContributionItem(id, item))
        else ValidateContributionElements(view, id, elements[1..], seen)
      case GroupRef(group) =>
        var after :- ValidateContributionGroup(view, id, group, 1, seen);
        ValidateContributionElements(view, id, elements[1..], after)
      case Flexible(_, weight) =>
        if weight == 0 then Err(ZeroFlexibleWeightInContribution(id))
        else ValidateContributionElements(view, id, elements[1..], seen)
      case ContextProxy => Err(ContextProxyInContribution(id))
      case Fixed(_) => ValidateContributionElements(view, id, elements[1..], seen)
  }

  function ValidateContributions(view: View, catalog: Catalog, ids: seq<ContributionId>): Result<(), ProfileError>
    requires forall i :: 0 <= i < |ids| ==> ids[i] in catalog.contributions
  {
    if ids == [] then
      Ok(())
    else
      var contribution := catalog.contributions[ids[0]];
      var _ :- ValidateContributionElements(view, contribution.id, contribution.elements, {});
      ValidateContributions(view, catalog, ids[1..])
  }

  // ----- validation of profiles -----

  /** Slots and groups of a profile met so far. */
  datatype Names = Names(slots: set<SlotId>, groups: set<string>)

  predicate HasSpace(elements: seq<BarElement>) {
    exists i :: 0 <= i < |elements| && (elements[i].Fixed? || elements[i].Flexible?)
  }

  function ValidateBindings(catalog: Catalog, profile: ProfileId, slot: SlotId, nested: bool, bindings: seq<ContributionBinding>): Result<(), ProfileError> {
    if bindings == [] then
      Ok(())
    else
      var id := bindings[0].contribution;
      if id !in catalog.contributions then Err(UnknownContribution(profile, slot, id))
      else if nested && HasSpace(catalog.contributions[id].elements) then Err(SpaceInGroupedSlot(profile, slot, id))
      else ValidateBindings(catalog, profile, slot, nested, bindings[1..])
  }

  function ValidateSlot(catalog: Catalog, profile: ProfileId, slot: SlotDefinition, nested: bool, names: Names): Result<Names, ProfileError> {
    if Blank(slot.id) then Err(EmptySlotId(profile))
    else if slot.id in names.slots then Err(DuplicateSlot(profile, slot.id))
    else
      var _ :- ValidateBindings(catalog, profile, slot.id, nested, slot.bindings);
      Ok(names.(slots := names.slots + {slot.id}))
  }

  const SLOT_PREFIX := "@slot/"

  function ValidateProfileGroup(catalog: Catalog, profile: ProfileId, group: ProfileGroup, depth: nat, names: Names): Result<Names, ProfileError>
    decreases group, 1
  {
    if Blank(group.id) || SLOT_PREFIX <= group.id then Err(InvalidGroupId(profile, group.id))
    else if depth > MAX_GROUP_DEPTH then Err(ProfileGroupTooDeep(profile, group.id))
    else if group.id in names.groups then Err(DuplicateProfileGroup(profile, group.id))
    else ValidateProfileChildren(catalog, profile, group.id, group.elements, depth, names.(groups := names.groups + {group.id}))
  }

  function ValidateProfileChildren(catalog: Catalog, profile: ProfileId, group: string, elements: seq<ProfileGroupElement>, depth: nat, names: Names): Result<Names, ProfileError>
    decreases elements, 0
  {
    if elements == [] then
      Ok(names)
    else
      var after :- ValidateProfileChild(catalog, profile, group, elements[0], depth, names);
      ValidateProfileChildren(catalog, profile, group, elements[1..], depth, after)
  }

  function ValidateProfileChild(catalog: Catalog, profile: ProfileId, group: string, element: ProfileGroupElement, depth: nat, names: Names): Result<Names, ProfileError>
    decreases element, 2
  {
    match element
    case GroupedSlot(slot) =>
      if depth >= MAX_GROUP_DEPTH then Err(ProfileGroupTooDeep(profile, group))
      else ValidateSlot(catalog, profile, slot, true, names)
    case GroupedGroup(child) => ValidateProfileGroup(catalog, profile, child, depth + 1, names)
  }

  function ValidateProfileElements(catalog: Catalog, profile: ProfileId, elements: seq<ProfileElement>, names: Names): Result<(), ProfileError> {
    if elements == [] then
      Ok(())
    else
      match elements[0]
      case TopSlot(slot) =>
        var after :- ValidateSlot(catalog, profile, slot, false, names);
        ValidateProfileElements(catalog, profile, elements[1..], after)
      case TopGroup(group) =>
        var after :- ValidateProfileGroup(catalog, profile, group, 1, names);
        ValidateProfileElements(catalog, profile, elements[1..], after)
      case TopFlexible(_, weight) =>
        if weight == 0 then Err(ZeroFlexibleWeightInProfile(profile))
        else ValidateProfileElements(catalog, profile, elements[1..], names)
      case TopFixed(_) => ValidateProfileElements(catalog, profile, elements[1..], names)
  }

  function ValidateProfiles(catalog: Catalog, ids: seq<ProfileId>): Result<(), ProfileError>
    requires forall i :: 0 <= i < |ids| ==> ids[i] in catalog.profiles
  {
    if ids == [] then
      Ok(())
    else
      var profile := catalog.profiles[ids[0]];
      var _ :- ValidateProfileElements(catalog, profile.id, profile.elements, Names({}, {}));
      ValidateProfiles(catalog, ids[1..])
  }

  /** `ProfileCatalog::validate`: contributions, then profiles, in key order. */
  function ValidateCatalog(view: View, catalog: Catalog): Result<(), ProfileError> {
    var _ :- ValidateContributions(view, catalog, SortedKeys(catalog.contributions));
    ValidateProfiles(catalog, SortedKeys(catalog.profiles))
  }

  // ----- what validation establishes -----

  /** Group identifiers of a contribution, in traversal order. */
  function RefGroupIds(group: BarGroup): seq<string>
    decreases group, 1
  {
    [group.id] + RefChildGroupIds(group.elements)
  }

  function RefChildGroupIds(elements: seq<BarGroupElement>): seq<string>
    decreases elements, 0
  {
    if elements == [] then [] else RefIdsOfChild(elements[0]) + RefChildGroupIds(elements[1..])
  }

  function RefIdsOfChild(element: BarGroupElement): seq<string>
    decreases element, 2
  {
    match element
    case GroupItemRef(_) => []
    case NestedGroup(group) => RefGroupIds(group)
  }

  function ElementGroupRefs(element: BarElement): seq<string> {
    match element
    case GroupRef(group) => RefGroupIds(group)
    case _ => []
  }

  /** An element that a composition can use: no proxy, known items, named groups, weighted spaces. */
  ghost predicate UsableElement(view: View, element: BarElement) {
    && !element.ContextProxy?
    && KnownRefs(view, ElementRefs(element))
    && LayoutValidate.Nonempty(ElementGroupRefs(element))
    && (element.Flexible? ==> element.weight > 0)
  }

  ghost predicate Usable(view: View, contribution: ContributionDefinition) {
    forall i :: 0 <= i < |contribution.elements| ==> UsableElement(view, contribution.elements[i])
  }

  ghost predicate AllUsable(view: View, catalog: Catalog) {
    forall id :: id in catalog.contributions ==> Usable(view, catalog.contributions[id])
  }

  lemma {:induction false} ValidGroupIsUsable(view: View, id: ContributionId, group: BarGroup, depth: nat, seen: set<string>)
    requires ValidateContributionGroup(view, id, group, depth, seen).Ok?
    ensures KnownRefs(view, GroupRefs(group)) && LayoutValidate.Nonempty(RefGroupIds(group))
    decreases group, 1
  {
    ValidChildrenAreUsable(view, id, group.elements, depth, seen + {group.id});
  }

  lemma {:induction false} ValidChildrenAreUsable(view: View, id: ContributionId, elements: seq<BarGroupElement>, depth: nat, seen: set<string>)
    requires ValidateContributionChildren(view, id, elements, depth, seen).Ok?
    ensures KnownRefs(view, ItemRefs(elements)) && LayoutValidate.Nonempty(RefChildGroupIds(elements))
    decreases elements, 0
  {
    if elements != [] {
      ValidChildIsUsable(view, id, elements[0], depth, seen);
      ValidChildrenAreUsable(view, id, elements[1..], depth, ValidateContributionChild(view, id, elements[0], depth, seen).value);
      KnownConcat(view, ChildRefs(elements[0]), ItemRefs(elements[1..]));
    }
  }

  lemma {:induction false} ValidChildIsUsable(view: View, id: ContributionId, element: BarGroupElement, depth: nat, seen: set<string>)
    requires ValidateContributionChild(view, id, element, depth, seen).Ok?
    ensures KnownRefs(view, ChildRefs(element)) && LayoutValidate.Nonempty(RefIdsOfChild(element))
    decreases element, 2
  {
    match element
    case GroupItemRef(_) =>
    case NestedGroup(group) => ValidGroupIsUsable(view, id, group, depth + 1, seen);
  }

  lemma {:induction false} ValidElementIsUsable(view: View, id: ContributionId, elements: seq<BarElement>, seen: set<string>, i: nat)
    requires ValidateContributionElements(view, id, elements, seen).Ok? && i < |elements|
    ensures UsableElement(view, elements[i])
  {
    if elements[0].GroupRef? {
      ValidGroupIsUsable(view, id, elements[0].group, 1, seen);
      if i > 0 {
        ValidElementIsUsable(view, id, elements[1..], ValidateContributionGroup(view, id, elements[0].group, 1, seen).value, i - 1);
      }
    } else if i > 0 {
      ValidElementIsUsable(view, id, elements[1..], seen, i - 1);
    }
  }

  lemma {:induction false} ValidContributionIsUsable(view: View, catalog: Catalog, ids: seq<ContributionId>, id: ContributionId)
    requires forall i :: 0 <= i < |ids| ==> ids[i] in catalog.contributions
    requires ValidateContributions(view, catalog, ids).Ok? && id in ids
    ensures id in catalog.contributions && Usable(view, catalog.contributions[id])
  {
    if id == ids[0] {
      var contribution := catalog.contributions[id];
      forall i | 0 <= i < |contribution.elements| ensures UsableElement(view, contribution.elements[i]) {
        ValidElementIsUsable(view, contribution.id, contribution.elements, {}, i);
      }
    } else {
      assert id in ids[1..];
      ValidContributionIsUsable(view, catalog, ids[1..], id);
    }
  }

  /** A slot whose bindings are known, and free of spaces when it sits inside a group. */
  ghost predicate SlotReady(catalog: Catalog, slot: SlotDefinition, nested: bool) {
    forall i :: 0 <= i < |slot.bindings| ==>
      && slot.bindings[i].contribution in catalog.contributions
      && (nested ==> !HasSpace(catalog.contributions[slot.bindings[i].contribution].elements))
  }

  ghost predicate GroupReady(catalog: Catalog, group: ProfileGroup)
    decreases group, 1
  {
    group.id != "" && ChildrenReady(catalog, group.elements)
  }

  ghost predicate ChildrenReady(catalog: Catalog, elements: seq<ProfileGroupElement>)
    decreases elements, 0
  {
    elements == [] || (ChildReady(catalog, elements[0]) && ChildrenReady(catalog, elements[1..]))
  }

  ghost predicate ChildReady(catalog: Catalog, element: ProfileGroupElement)
    decreases element, 2
  {
    match element
    case GroupedSlot(slot) => SlotReady(catalog, slot, true)
    case GroupedGroup(group) => GroupReady(catalog, group)
  }

  ghost predicate ElementReady(catalog: Catalog, element: ProfileElement) {
    match element
    case TopSlot(slot) => SlotReady(catalog, slot, false)
    case TopGroup(group) => GroupReady(catalog, group)
    case TopFixed(_) => true
    case TopFlexible(_, weight) => weight > 0
  }

  ghost predicate ElementsReady(catalog: Catalog, elements: seq<ProfileElement>) {
    elements == [] || (ElementReady(catalog, elements[0]) && ElementsReady(catalog, elements[1..]))
  }

  lemma {:induction false} ValidBindingReady(catalog: Catalog, profile: ProfileId, slot: SlotId, nested: bool, bindings: seq<ContributionBinding>, i: nat)
    requires ValidateBindings(catalog, profile, slot, nested, bindings).Ok? && i < |bindings|
    ensures bindings[i].contribution in catalog.contributions
    ensures nested ==> !HasSpace(catalog.contributions[bindings[i].contribution].elements)
  {
    if i > 0 {
      ValidBindingReady(catalog, profile, slot, nested, bindings[1..], i - 1);
    }
  }

  lemma {:induction false} ValidSlotReady(catalog: Catalog, profile: ProfileId, slot: SlotDefinition, nested: bool, names: Names)
    requires ValidateSlot(catalog, profile, slot, nested, names).Ok?
    ensures SlotReady(catalog, slot, nested)
  {
    forall i | 0 <= i < |slot.bindings|
      ensures slot.bindings[i].contribution in catalog.contributions
              && (nested ==> !HasSpace(catalog.contributions[slot.bindings[i].contribution].elements))
    {
      ValidBindingReady(catalog, profile, slot.id, nested, slot.bindings, i);
    }
  }

  lemma {:induction false} ValidGroupReady(catalog: Catalog, profile: ProfileId, group: ProfileGroup, depth: nat, names: Names)
    requires ValidateProfileGroup(catalog, profile, group, depth, names).Ok?
    ensures GroupReady(catalog, group)
    decreases group, 1
  {
    ValidChildrenReady(catalog, profile, group.id, group.elements, depth, names.(groups := names.groups + {group.id}));
  }

  lemma {:induction false} ValidChildrenReady(catalog: Catalog, profile: ProfileId, group: string, elements: seq<ProfileGroupElement>, depth: nat, names: Names)
    requires ValidateProfileChildren(catalog, profile, group, elements, depth, names).Ok?
    ensures ChildrenReady(catalog, elements)
    decreases elements, 0
  {
    if elements != [] {
      ValidChildReady(catalog, profile, group, elements[0], depth, names);
      ValidChildrenReady(catalog, profile, group, elements[1..], depth,
                         ValidateProfileChild(catalog, profile, group, elements[0], depth, names).value);
    }
  }

  lemma {:induction false} ValidChildReady(catalog: Catalog, profile: ProfileId, group: string, element: ProfileGroupElement, depth: nat, names: Names)
    requires ValidateProfileChild(catalog, profile, group, element, depth, names).Ok?
    ensures ChildReady(catalog, element)
    decreases element, 2
  {
    match element
    case GroupedSlot(slot) => ValidSlotReady(catalog, profile, slot, true, names);
    case GroupedGroup(child) => ValidGroupReady(catalog, profile, child, depth + 1, names);
  }

  lemma {:induction false} ValidElementsReady(catalog: Catalog, profile: ProfileId, elements: seq<ProfileElement>, names: Names)
    requires ValidateProfileElements(catalog, profile, elements, names).Ok?
    ensures ElementsReady(catalog, elements)
  {
    if elements != [] {
      match elements[0]
      case TopSlot(slot) =>
        ValidSlotReady(catalog, profile, slot, false, names);
        ValidElementsReady(catalog, profile, elements[1..], ValidateSlot(catalog, profile, slot, false, names).value);
      case TopGroup(group) =>
        ValidGroupReady(catalog, profile, group, 1, names);
        ValidElementsReady(catalog, profile, elements[1..], ValidateProfileGroup(catalog, profile, group, 1, names).value);
      case _ =>
        ValidElementsReady(catalog, profile, elements[1..], names);
    }
  }

  lemma {:induction false} ValidProfileMember(catalog: Catalog, ids: seq<ProfileId>, id: ProfileId)
    requires forall i :: 0 <= i < |ids| ==> ids[i] in catalog.profiles
    requires ValidateProfiles(catalog, ids).Ok? && id in ids
    ensures id in catalog.profiles && ElementsReady(catalog, catalog.profiles[id].elements)
  {
    if id == ids[0] {
      ValidElementsReady(catalog, catalog.profiles[id].id, catalog.profiles[id].elements, Names({}, {}));
    } else {
      assert id in ids[1..];
      ValidProfileMember(catalog, ids[1..], id);
    }
  }

  /** A valid catalog has only usable contributions and ready profiles. */
  lemma {:induction false} ValidCatalogFacts(view: View, catalog: Catalog)
    requires ValidateCatalog(view, catalog).Ok?
    ensures AllUsable(view, catalog)
    ensures forall id :: id in catalog.profiles ==> ElementsReady(catalog, catalog.profiles[id].elements)
  {
    forall id | id in catalog.contributions ensures Usable(view, catalog.contributions[id]) {
      ValidContributionIsUsable(view, catalog, SortedKeys(catalog.contributions), id);
    }
    forall id | id in catalog.profiles ensures ElementsReady(catalog, catalog.profiles[id].elements) {
      ValidProfileMember(catalog, SortedKeys(catalog.profiles), id);
    }
  }

  // ----- selection of contributions for a slot -----

  /** A binding with its position in the slot. */
  datatype Bound = Bound(index: nat, binding: ContributionBinding)

  predicate BoundBefore(a: Bound, b: Bound) {
    a.binding.order < b.binding.order || (a.binding.order == b.binding.order && a.index <= b.index)
  }

  function Numbered(bindings: seq<ContributionBinding>): (r: seq<Bound>)
    ensures |r| == |bindings|
  {
    seq(|bindings|, i requires 0 <= i < |bindings| => Bound(i, bindings[i]))
  }

  function Candidates(catalog: Catalog, slot: SlotDefinition, context: ContextSnapshot, bound: seq<Bound>): seq<ContributionDefinition> {
    if bound == [] then []
    else
      var id := bound[0].binding.contribution;
      var rest := Candidates(catalog, slot, context, bound[1..]);
      if id in catalog.contributions && (slot.policy.Fix? || catalog.contributions[id].condition.Matches(context))
      then [catalog.contributions[id]] + rest else rest
  }

  predicate Outranks(a: ContributionDefinition, b: ContributionDefinition) {
    a.priority > b.priority || (a.priority == b.priority && Rank(a.scope) >= Rank(b.scope))
  }

  /** Highest priority, then most specific scope, then earliest. */
  function Best(candidates: seq<ContributionDefinition>): (k: nat)
    requires candidates != []
    ensures k < |candidates|
    ensures forall i :: 0 <= i < |candidates| ==> Outranks(candidates[k], candidates[i])
    ensures forall i :: 0 <= i < k ==> !Outranks(candidates[i], candidates[k])
  {
    if |candidates| == 1 then 0
    else
      var rest := Best(candidates[1..]);
      assert forall i :: 0 <= i < |candidates[1..]| ==> candidates[1..][i] == candidates[i + 1];
      if Outranks(candidates[0], candidates[1..][rest]) then 0 else rest + 1
  }

  /** `select_bindings`: the contributions a slot shows in a context, in order. */
  function SelectBindings(catalog: Catalog, slot: SlotDefinition, context: ContextSnapshot): seq<ContributionDefinition> {
    var candidates := Candidates(catalog, slot, context, Sort(BoundBefore, Numbered(slot.bindings)));
    if !slot.policy.Select? then candidates
    else if candidates == [] then []
    else [candidates[Best(candidates)]]
  }

  lemma {:induction false} CandidatesMembers(catalog: Catalog, slot: SlotDefinition, context: ContextSnapshot, bound: seq<Bound>, c: ContributionDefinition)
    ensures c in Candidates(catalog, slot, context, bound) <==>
              exists i :: 0 <= i < |bound| && bound[i].binding.contribution in catalog.contributions
                && catalog.contributions[bound[i].binding.contribution] == c && (slot.policy.Fix? || c.condition.Matches(context))
  {
    if bound != [] {
      CandidatesMembers(catalog, slot, context, bound[1..], c);
      if c in Candidates(catalog, slot, context, bound[1..]) {
        var i :| 0 <= i < |bound[1..]| && bound[1..][i].binding.contribution in catalog.contributions
                && catalog.contributions[bound[1..][i].binding.contribution] == c && (slot.policy.Fix? || c.condition.Matches(context));
        assert bound[i + 1] == bound[1..][i];
      }
      if exists i :: 0 <= i < |bound| && bound[i].binding.contribution in catalog.contributions
                && catalog.contributions[bound[i].binding.contribution] == c && (slot.policy.Fix? || c.condition.Matches(context)) {
        var i :| 0 <= i < |bound| && bound[i].binding.contribution in catalog.contributions
                && catalog.contributions[bound[i].binding.contribution] == c && (slot.policy.Fix? || c.condition.Matches(context));
        if i > 0 {
          assert bound[1..][i - 1] == bound[i];
        }
      }
    }
  }

  lemma {:induction false} CandidatesAreBound(catalog: Catalog, slot: SlotDefinition, context: ContextSnapshot, bound: seq<Bound>)
    ensures forall c :: c in Candidates(catalog, slot, context, bound) ==>
              exists i :: 0 <= i < |bound| && bound[i].binding.contribution in catalog.contributions
                && catalog.contributions[bound[i].binding.contribution] == c
  {
    forall c | c in Candidates(catalog, slot, context, bound)
      ensures exists i :: 0 <= i < |bound| && bound[i].binding.contribution in catalog.contributions
                && catalog.contributions[bound[i].binding.contribution] == c
    {
      CandidatesMembers(catalog, slot, context, bound, c);
    }
  }

  /** Selected contributions come from the slot's own bindings. */
  lemma {:induction false} SelectedAreBound(catalog: Catalog, slot: SlotDefinition, context: ContextSnapshot, c: ContributionDefinition)
    requires c in SelectBindings(catalog, slot, context)
    ensures exists i :: 0 <= i < |slot.bindings| && slot.bindings[i].contribution in catalog.contributions
              && catalog.contributions[slot.bindings[i].contribution] == c
  {
    var bound := Sort(BoundBefore, Numbered(slot.bindings));
    CandidatesAreBound(catalog, slot, context, bound);
    var candidates := Candidates(catalog, slot, context, bound);
    assert c in candidates;
    var i :| 0 <= i < |bound| && bound[i].binding.contribution in catalog.contributions
             && catalog.contributions[bound[i].binding.contribution] == c;
    SortKeepsMembers(BoundBefore, Numbered(slot.bindings), bound[i]);
    var j :| 0 <= j < |Numbered(slot.bindings)| && Numbered(slot.bindings)[j] == bound[i];
  }
}
