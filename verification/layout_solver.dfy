/** The solver as it runs: loops that update width vectors, visibility flags and placement lists in
    place, each proved against the function that specifies it. */
module LayoutSolver {
  import opened Basics
  import opened LayoutTypes
  import opened LayoutWidths
  import opened LayoutGroups
  import opened LayoutValidate
  import opened LayoutUnits
  import opened LayoutOverflow
  import Spec = LayoutResolve
  import opened Ordering

  // ----- width vectors -----

  method GrowableIndices(widths: array<nat>, maxima: seq<nat>) returns (r: seq<nat>)
    requires widths.Length == |maxima|
    ensures r == GrowableFrom(widths[..], maxima, 0)
  {
    r := [];
    var i := widths.Length;
    while i > 0
      invariant 0 <= i <= widths.Length
      invariant r == GrowableFrom(widths[..], maxima, i)
    {
      i := i - 1;
      if widths[i] < maxima[i] {
        r := [i] + r;
      }
    }
  }

  /** `grow_widths`: rounds of equal shares until the extra width is used up or nothing can grow. */
  method GrowWidths(widths: array<nat>, maxima: seq<nat>, extra: nat)
    requires Growable(widths[..], maxima)
    modifies widths
    ensures widths[..] == Grow(old(widths[..]), maxima, extra)
  {
    var left := extra;
    while left > 0
      invariant Growable(widths[..], maxima)
      invariant Grow(widths[..], maxima, left) == Grow(old(widths[..]), maxima, extra)
    {
      var growable := GrowableIndices(widths, maxima);
      if growable == [] {
        break;
      }
      GrowableFromFacts(widths[..], maxima, 0);
      ShareFacts(left, |growable|);
      var given := GrowOnce(widths, maxima, growable, Share(left, |growable|), left);
      left := left - given;
    }
  }

  /** The rest of a round from the `k`-th growable position on. */
  ghost function RoundRest(growable: seq<nat>, k: nat, widths: seq<nat>, maxima: seq<nat>, share: nat, left: nat): (seq<nat>, nat)
    requires Growable(widths, maxima) && k <= |growable|
    requires forall j :: 0 <= j < |growable| ==> growable[j] < |widths|
    decreases |growable| - k
  {
    if k == |growable| || left == 0 then
      (widths, left)
    else
      var index := growable[k];
      var addition := Min(Min(maxima[index] - widths[index], share), left);
      RoundRest(growable, k + 1, widths[index := widths[index] + addition], maxima, share, left - addition)
  }

  lemma {:induction false} RoundRestIsRound(growable: seq<nat>, k: nat, widths: seq<nat>, maxima: seq<nat>, share: nat, left: nat)
    requires Growable(widths, maxima) && k <= |growable|
    requires forall j :: 0 <= j < |growable| ==> growable[j] < |widths|
    ensures RoundRest(growable, k, widths, maxima, share, left) == GrowRound(growable[k..], widths, maxima, share, left)
    decreases |growable| - k
  {
    if k < |growable| && left > 0 {
      var index := growable[k];
      var addition := Min(Min(maxima[index] - widths[index], share), left);
      RoundRestIsRound(growable, k + 1, widths[index := widths[index] + addition], maxima, share, left - addition);
      assert growable[k..][0] == index && growable[k..][1..] == growable[k + 1..];
    }
  }

  /** One round over the growable positions; returns what it handed out, which is never nothing. */
  method GrowOnce(widths: array<nat>, maxima: seq<nat>, growable: seq<nat>, share: nat, extra: nat) returns (given: nat)
    requires Growable(widths[..], maxima) && extra > 0 && share > 0 && growable != []
    requires forall k :: 0 <= k < |growable| ==> growable[k] < widths.Length
    requires widths[growable[0]] < maxima[growable[0]]
    modifies widths
    ensures 0 < given <= extra && Growable(widths[..], maxima)
    ensures (widths[..], extra - given) == GrowRound(growable, old(widths[..]), maxima, share, extra)
  {
    given := 0;
    var k := 0;
    ghost var whole := RoundRest(growable, 0, widths[..], maxima, share, extra);
    assert whole == GrowRound(growable, widths[..], maxima, share, extra) by {
      RoundRestIsRound(growable, 0, widths[..], maxima, share, extra);
      assert growable[0..] == growable;
    }
    while k < |growable| && given < extra
      invariant 0 <= k <= |growable| && given <= extra
      invariant Growable(widths[..], maxima)
      invariant RoundRest(growable, k, widths[..], maxima, share, extra - given) == whole
    {
      var addition := GrowOne(widths, maxima, growable[k], share, extra - given);
      given := given + addition;
      k := k + 1;
    }
  }

  method GrowOne(widths: array<nat>, maxima: seq<nat>, index: nat, share: nat, left: nat) returns (addition: nat)
    requires Growable(widths[..], maxima) && index < widths.Length
    modifies widths
    ensures addition == Min(Min(maxima[index] - old(widths[index]), share), left)
    ensures widths[..] == old(widths[..])[index := old(widths[index]) + addition]
    ensures Growable(widths[..], maxima)
  {
    addition := Min(Min(maxima[index] - widths[index], share), left);
    widths[index] := widths[index] + addition;
  }

  /** Greedy compression along an order, in place. */
  method CompressAlong(order: seq<Candidate>, minima: seq<nat>, widths: array<nat>, excess: nat)
    requires Compressible(order, widths[..], minima)
    modifies widths
    ensures widths[..] == Compress(order, old(widths[..]), minima, excess)
  {
    var left: nat := excess;
    var k := 0;
    while k < |order|
      invariant 0 <= k <= |order|
      invariant Compressible(order[k..], widths[..], minima)
      invariant Compress(order[k..], widths[..], minima, left) == Compress(order, old(widths[..]), minima, excess)
    {
      if left == 0 {
        break;
      }
      var index := order[k].index;
      assert order[k..][0] == order[k] && order[k..][1..] == order[k + 1..];
      assert order[k] in order[k..];
      var reduction := Min(widths[index] - minima[index], left);
      ghost var before := widths[..];
      widths[index] := widths[index] - reduction;
      assert widths[..] == before[index := before[index] - reduction];
      assert forall c :: c in order[k + 1..] ==> c in order[k..];
      left := left - reduction;
      k := k + 1;
    }
  }

  /** `compress_to_fit`: shrink the visible elements until the bar fits. */
  method CompressToFit(elements: seq<Element>, visible: seq<bool>, sizing: seq<Sizing>, widths: array<nat>, available: nat)
    requires Spec.Ready(elements, visible, sizing) && widths[..] == Spec.Naturals(elements, visible, sizing)
    modifies widths
    ensures widths[..] == Spec.Compressed(elements, visible, sizing, available)
  {
    Spec.CompressionIsUsable(elements, visible, sizing);
    var total := SumOf(widths);
    var excess := if total > available then total - available else 0;
    CompressAlong(Spec.CompressedOrder(elements, visible), Floors(elements, visible, sizing), widths, excess);
  }

  method SumOf(widths: array<nat>) returns (total: nat)
    ensures total == Sum(widths[..])
  {
    total := 0;
    for i := 0 to widths.Length
      invariant total == Sum(widths[..i])
    {
      SumSnoc(widths[..i], widths[i]);
      assert widths[..i + 1] == widths[..i] + [widths[i]];
      total := total + widths[i];
    }
    assert widths[..widths.Length] == widths[..];
  }

  /** `distribute_flexible_space`: floor shares by weight, the remainder on the last flexible space. */
  method DistributeFlexibleSpace(elements: seq<Element>, widths: array<nat>, low: nat, high: nat, extra: nat)
    requires low <= high <= |elements| == widths.Length
    modifies widths
    ensures widths[..] == Spec.Spread(elements, old(widths[..]), low, high, extra)
  {
    Spec.FlexBetweenFacts(elements, low, high);
    var flexible := Spec.FlexBetween(elements, low, high);
    var total := TotalWeight(flexible);
    if extra == 0 || total == 0 {
      return;
    }
    ghost var goal := AddShares(flexible, Shares(flexible, extra, total, 0), widths[..]);
    var given: nat := 0;
    var k := 0;
    assert flexible[0..] == flexible;
    while k < |flexible|
      invariant 0 <= k <= |flexible|
      invariant Affordable(flexible[k..], extra, total, given)
      invariant AddShares(flexible[k..], Shares(flexible[k..], extra, total, given), widths[..]) == goal
    {
      ghost var rest := flexible[k..];
      assert rest[0] == flexible[k] && rest[1..] == flexible[k + 1..];
      var addition := if k + 1 == |flexible| then extra - given else extra * flexible[k].weight / total;
      SharesStep(rest, extra, total, given, addition);
      ghost var before := widths[..];
      widths[flexible[k].index] := widths[flexible[k].index] + addition;
      assert widths[..] == before[flexible[k].index := before[flexible[k].index] + addition];
      given := given + addition;
      k := k + 1;
    }
    assert flexible[|flexible|..] == [];
  }

  lemma {:induction false} SharesStep(flexible: seq<Flex>, extra: nat, total: nat, given: nat, addition: nat)
    requires total > 0 && flexible != [] && Affordable(flexible, extra, total, given)
    requires addition == (if |flexible| == 1 then extra - given else extra * flexible[0].weight / total)
    ensures Affordable(flexible[1..], extra, total, given + addition)
    ensures Shares(flexible, extra, total, given) == [addition] + Shares(flexible[1..], extra, total, given + addition)
    ensures Shares(flexible, extra, total, given)[1..] == Shares(flexible[1..], extra, total, given + addition)
  {
    FloorShareAffordable(flexible, extra, total, given);
  }

  // ----- groups -----

  /** `natural_child_widths`: compress or grow the children's natural widths to the content width. */
  method NaturalChildWidths(elements: seq<GroupElement>, sizings: seq<Sizing>, content: nat) returns (r: seq<nat>)
    requires AllOrdered(sizings) && |elements| == |sizings|
    ensures r == NaturalWidths(ChildCandidates(elements), sizings, content)
  {
    SizingVectors(sizings);
    var preferred := Preferreds(sizings);
    var widths := new nat[|sizings|](i requires 0 <= i < |sizings| => sizings[i].preferred);
    assert widths[..] == preferred;
    var total := SumOf(widths);
    if content < total {
      OrderIsUsable(ChildCandidates(elements), |sizings|);
      CompressAlong(CompressionOrder(ChildCandidates(elements)), Minima(sizings), widths, total - content);
    } else if content > total {
      GrowWidths(widths, Maxima(sizings), content - total);
    }
    r := widths[..];
  }

  lemma {:induction false} ActiveIsPart(elements: seq<GroupElement>, k: nat) returns (i: nat)
    requires ChildSizings(elements).Ok? && k < |ActiveElements(elements)|
    ensures i < |elements| && elements[i] == ActiveElements(elements)[k]
  {
    if SizeOf(elements[0]).maximum > 0 {
      if k == 0 {
        i := 0;
      } else {
        var j := ActiveIsPart(elements[1..], k - 1);
        i := j + 1;
      }
    } else {
      var j := ActiveIsPart(elements[1..], k);
      i := j + 1;
    }
  }

  /** Active children from the `k`-th on, paired with admissible widths. */
  ghost predicate ActiveReady(active: seq<GroupElement>, widths: seq<nat>, k: nat)
    requires |active| == |widths| && k <= |active|
    decreases |active| - k
  {
    k == |active| ||
    (&& SoundElement(active[k]) && ChildSizing(active[k]).Ok? && SizeOf(active[k]).Admits(widths[k])
     && ActiveReady(active, widths, k + 1))
  }

  /** Placements of the active children only, in order: the same as walking all children. */
  ghost function LayoutActive(active: seq<GroupElement>, widths: seq<nat>, spacing: nat, x: nat, k: nat): seq<Placement>
    requires |active| == |widths| && k <= |active| && ActiveReady(active, widths, k)
    decreases |active| - k
  {
    if k == |active| then []
    else LayoutChild(active[k], x, widths[k]) + LayoutActive(active, widths, spacing, x + widths[k] + spacing, k + 1)
  }

  lemma {:induction false} SuffixStep<T>(s: seq<T>, k: nat, head: T, tail: seq<T>)
    requires k <= |s| && s[k..] == [head] + tail
    ensures k < |s| && s[k] == head && s[k + 1..] == tail
  {
    assert s[k] == s[k..][0];
    assert s[k + 1..] == s[k..][1..];
  }

  /** Walking all children of a suffix is walking its active children, found `k` positions into the
      active children of the whole. */
  lemma {:induction false} ActiveWalk(elements: seq<GroupElement>, own: seq<nat>, active: seq<GroupElement>, widths: seq<nat>, spacing: nat, x: nat, k: nat)
    requires SoundElements(elements) && ChildSizings(elements).Ok? && WidthsAdmitted(elements, own)
    requires |active| == |widths| && k <= |active|
    requires active[k..] == ActiveElements(elements) && widths[k..] == own
    ensures ActiveReady(active, widths, k)
    ensures LayoutActive(active, widths, spacing, x, k) == LayoutChildren(elements, own, spacing, x)
    decreases |elements|
  {
    if elements == [] {
    } else if SizeOf(elements[0]).maximum == 0 {
      ActiveWalk(elements[1..], own, active, widths, spacing, x, k);
      LayoutChildrenSkip(elements, own, spacing, x);
    } else {
      assert active[k] == elements[0] && active[k + 1..] == ActiveElements(elements[1..]) by {
        SuffixStep(active, k, elements[0], ActiveElements(elements[1..]));
      }
      assert widths[k] == own[0] && widths[k + 1..] == own[1..] by {
        SuffixStep(widths, k, own[0], own[1..]);
      }
      ActiveWalk(elements[1..], own[1..], active, widths, spacing, x + own[0] + spacing, k + 1);
      SoundElementIsSized(elements[0]);
      ActiveReadyStep(active, widths, k);
      ActiveWalkStep(elements, own, active, widths, spacing, x, k);
    }
  }

  /** The child at hand is placed alike in both walks. */
  lemma {:induction false} ActiveWalkStep(elements: seq<GroupElement>, own: seq<nat>, active: seq<GroupElement>, widths: seq<nat>, spacing: nat, x: nat, k: nat)
    requires SoundElements(elements) && ChildSizings(elements).Ok? && WidthsAdmitted(elements, own)
    requires elements != [] && SizeOf(elements[0]).maximum > 0
    requires |active| == |widths| && k < |active| && active[k] == elements[0] && widths[k] == own[0]
    requires ActiveReady(active, widths, k)
    requires LayoutActive(active, widths, spacing, x + own[0] + spacing, k + 1) == LayoutChildren(elements[1..], own[1..], spacing, x + own[0] + spacing)
    ensures LayoutActive(active, widths, spacing, x, k) == LayoutChildren(elements, own, spacing, x)
  {
    LayoutActiveStep(active, widths, spacing, x, k);
    LayoutChildrenStep(elements, own, spacing, x);
  }

  lemma {:induction false} ActiveReadyStep(active: seq<GroupElement>, widths: seq<nat>, k: nat)
    requires |active| == |widths| && k < |active|
    requires SoundElement(active[k]) && ChildSizing(active[k]).Ok? && SizeOf(active[k]).Admits(widths[k]) && ActiveReady(active, widths, k + 1)
    ensures ActiveReady(active, widths, k)
  {
  }

  lemma {:induction false} LayoutActiveStep(active: seq<GroupElement>, widths: seq<nat>, spacing: nat, x: nat, k: nat)
    requires |active| == |widths| && k < |active| && ActiveReady(active, widths, k)
    ensures LayoutActive(active, widths, spacing, x, k) ==
            LayoutChild(active[k], x, widths[k]) + LayoutActive(active, widths, spacing, x + widths[k] + spacing, k + 1)
  {
  }

  /** The widths of the active children, as the group's layout mode asks. */
  method ChildWidthsOf(group: GroupSpec, width: nat) returns (widths: seq<nat>)
    requires SoundGroup(group) && GroupSizing(group).value.Admits(width)
    ensures widths == ChildWidths(group, width)
  {
    var sizings := ActiveOf(group);
    if sizings == [] {
      return [];
    }
    var content := ContentWidth(group, width);
    match group.layout {
      case Natural => widths := NaturalChildWidths(ActiveElements(group.elements), sizings, content);
      case EqualWidth => widths := EqualWidths(|sizings|, content);
    }
  }

  lemma {:induction false} ActiveMembers(elements: seq<GroupElement>)
    requires ChildSizings(elements).Ok?
    ensures forall k :: 0 <= k < |ActiveElements(elements)| ==> ActiveElements(elements)[k] in elements
  {
    forall k | 0 <= k < |ActiveElements(elements)| ensures ActiveElements(elements)[k] in elements {
      var i := ActiveIsPart(elements, k);
    }
  }

  /** The placement loop over the active children of `parent`. */
  method PlaceActive(parent: GroupSpec, active: seq<GroupElement>, widths: seq<nat>, x: nat, placements: seq<Placement>) returns (r: seq<Placement>)
    requires |active| == |widths| && ActiveReady(active, widths, 0)
    requires forall k :: 0 <= k < |active| ==> active[k] in parent.elements
    ensures r == placements + LayoutActive(active, widths, parent.spacing, x, 0)
    decreases parent, 0
  {
    r := placements;
    var childX: nat := x;
    var k := 0;
    ghost var goal := placements + LayoutActive(active, widths, parent.spacing, x, 0);
    while k < |active|
      invariant 0 <= k <= |active| && ActiveReady(active, widths, k)
      invariant r + LayoutActive(active, widths, parent.spacing, childX, k) == goal
    {
      ghost var own, before := LayoutChild(active[k], childX, widths[k]), r;
      ghost var next := LayoutActive(active, widths, parent.spacing, childX + widths[k] + parent.spacing, k + 1);
      assert LayoutActive(active, widths, parent.spacing, childX, k) == own + next;
      r := PlaceChild(parent, active[k], childX, widths[k], r);
      ConcatAssociates(before, own, next);
      childX := childX + widths[k] + parent.spacing;
      k := k + 1;
    }
  }

  method PlaceChild(parent: GroupSpec, element: GroupElement, x: nat, width: nat, placements: seq<Placement>) returns (r: seq<Placement>)
    requires element in parent.elements
    requires SoundElement(element) && ChildSizing(element).Ok? && SizeOf(element).Admits(width)
    ensures r == placements + LayoutChild(element, x, width)
    decreases element, 2
  {
    match element {
      case ChildItem(item) => r := placements + [Placement(item.id, x, width)];
      case ChildGroup(group) => r := LayoutGroupInto(group, x, width, placements);
    }
  }

  /** `layout_group`: append the placements of a group's items, at any nesting. */
  method LayoutGroupInto(group: GroupSpec, x: nat, width: nat, placements: seq<Placement>) returns (r: seq<Placement>)
    requires SoundGroup(group) && GroupSizing(group).value.Admits(width)
    ensures r == placements + LayoutGroup(group, x, width)
    decreases group, 1
  {
    ChildWidthsTile(group, width);
    WidthsAdmittedPointwise(group.elements, ChildWidths(group, width));
    var active := ActiveElements(group.elements);
    var widths := ChildWidthsOf(group, width);
    assert active[0..] == active && widths[0..] == widths;
    ActiveWalk(group.elements, widths, active, widths, group.spacing, x, 0);
    ActiveMembers(group.elements);
    r := PlaceActive(group, active, widths, x, placements);
  }

  // ----- validation -----

  /** `validate_group`: walk the children, recording identifiers as they appear. */
  method ValidateGroupInto(group: GroupSpec, depth: nat, seen: Seen) returns (r: Result<Seen, LayoutError>)
    ensures r == ValidateGroup(group, depth, seen)
    decreases group, 1
  {
    if group.id == "" {
      return Err(EmptyGroupId);
    }
    if depth > MAX_GROUP_DEPTH {
      return Err(GroupDepthExceeded(group.id));
    }
    if group.id in seen.groups {
      return Err(DuplicateGroup(group.id));
    }
    r := ValidateChildrenInto(group, depth, seen.(groups := seen.groups + {group.id}));
    if r.Ok? && GroupSizing(group).Err? {
      r := Err(GroupSizing(group).error);
    }
  }

  method ValidateChildrenInto(parent: GroupSpec, depth: nat, seen: Seen) returns (r: Result<Seen, LayoutError>)
    ensures r == ValidateChildren(parent.elements, depth, seen)
    decreases parent, 0
  {
    var current := seen;
    var elements := parent.elements;
    assert elements[0..] == elements;
    var i := 0;
    while i < |elements|
      invariant 0 <= i <= |elements|
      invariant ValidateChildren(elements[i..], depth, current) == ValidateChildren(elements, depth, seen)
    {
      assert elements[i..][0] == elements[i] && elements[i..][1..] == elements[i + 1..];
      var step;
      match elements[i] {
        case ChildItem(item) => step := ValidateItem(item, current);
        case ChildGroup(group) =>
          assert group < elements[i];
          step := ValidateGroupInto(group, depth + 1, current);
      }
      if step.Err? {
        return step;
      }
      current := step.value;
      i := i + 1;
    }
    r := Ok(current);
  }

  /** `validate`: every element in bar order, then the principal, then the required items. */
  method ValidateBar(bar: BarSpec, required: set<ItemId>) returns (r: Result<(), LayoutError>)
    ensures r == Validate(bar, required)
  {
    var seen := Seen({}, {});
    var i := 0;
    assert bar.elements[0..] == bar.elements;
    while i < |bar.elements|
      invariant 0 <= i <= |bar.elements|
      invariant ValidateElements(bar.elements[i..], i, seen) == ValidateElements(bar.elements, 0, Seen({}, {}))
    {
      assert bar.elements[i..][0] == bar.elements[i] && bar.elements[i..][1..] == bar.elements[i + 1..];
      var step;
      match bar.elements[i] {
        case Item(item) => step := ValidateItem(item, seen);
        case Group(group) => step := ValidateGroupInto(group, 1, seen);
        case FixedSpace(_) => step := Ok(seen);
        case FlexibleSpace(_, weight) => step := if weight == 0 then Err(InvalidFlexibleSpace(i)) else Ok(seen);
      }
      if step.Err? {
        return Err(step.error);
      }
      seen := step.value;
      i := i + 1;
    }
    if bar.principalItem.Some? && bar.principalItem.value !in seen.items {
      return Err(UnknownPrincipal(bar.principalItem.value));
    }
    var missing := required - seen.items;
    if missing != {} {
      StringIsTotalOrder();
      return Err(UnknownRequired(Least(StringLe, missing)));
    }
    r := Ok(());
  }

  // ----- the whole run -----

  /** `visibility_units`: extend the matching unit or open a new one for every item and group. */
  method VisibilityUnits(elements: seq<Element>, required: set<ItemId>) returns (r: Result<seq<Unit>, LayoutError>)
    ensures r == UnitsUpTo(elements, required, |elements|)
  {
    var units: seq<Unit> := [];
    var i := 0;
    while i < |elements|
      invariant 0 <= i <= |elements|
      invariant UnitsUpTo(elements, required, i) == Ok(units)
    {
      var step := AddElement(units, elements[i], i, ContainsRequired(elements[i], required));
      if step.Err? {
        assert UnitsUpTo(elements, required, i + 1) == step;
        UnitsKeepFailing(elements, required, i + 1);
        return step;
      }
      units := step.value;
      i := i + 1;
    }
    r := Ok(units);
  }

  lemma {:induction false} UnitsKeepFailing(elements: seq<Element>, required: set<ItemId>, count: nat)
    requires count <= |elements| && UnitsUpTo(elements, required, count).Err?
    ensures UnitsUpTo(elements, required, |elements|) == UnitsUpTo(elements, required, count)
    decreases |elements| - count
  {
    if count < |elements| {
      assert UnitsUpTo(elements, required, count + 1) == UnitsUpTo(elements, required, count);
      UnitsKeepFailing(elements, required, count + 1);
    }
  }

  /** The hiding loop of `resolve`: clear one unit after the other and keep the running total. */
  method HideOverflow(order: seq<Unit>, elements: seq<Element>, sizing: seq<Sizing>, available: nat) returns (visible: seq<bool>, total: nat)
    requires |sizing| == |elements|
    ensures visible == HideUntilFits(order, elements, sizing, Shown(elements), available)
    ensures total == TotalWidth(elements, visible, sizing)
  {
    visible := Shown(elements);
    total := TotalWidth(elements, visible, sizing);
    ghost var goal := HideUntilFits(order, elements, sizing, visible, available);
    var k := 0;
    assert order[0..] == order;
    while k < |order| && total > available
      invariant 0 <= k <= |order| && |visible| == |elements|
      invariant total == TotalWidth(elements, visible, sizing)
      invariant HideUntilFits(order[k..], elements, sizing, visible, available) == goal
    {
      assert order[k..][0] == order[k] && order[k..][1..] == order[k + 1..];
      visible, total := HideOneUnit(order[k].elements, elements, sizing, visible, total);
      k := k + 1;
    }
  }

  method HideOneUnit(hidden: seq<nat>, elements: seq<Element>, sizing: seq<Sizing>, flags: seq<bool>, before: nat) returns (visible: seq<bool>, total: nat)
    requires |elements| == |flags| == |sizing| && before == TotalWidth(elements, flags, sizing)
    ensures visible == Hide(flags, hidden) && total == TotalWidth(elements, visible, sizing)
  {
    visible, total := flags, before;
    var k := 0;
    assert hidden[0..] == hidden;
    while k < |hidden|
      invariant 0 <= k <= |hidden| && |visible| == |elements|
      invariant total == TotalWidth(elements, visible, sizing)
      invariant Hide(visible, hidden[k..]) == Hide(flags, hidden)
    {
      var element := hidden[k];
      assert hidden[k..][0] == element && hidden[k..][1..] == hidden[k + 1..];
      if element < |visible| && visible[element] {
        HidingOneElement(elements, sizing, visible, element);
        visible := visible[element := false];
        total := total - Floor(elements[element], true, sizing[element]) + Floor(elements[element], false, sizing[element]);
      } else if element < |visible| {
        assert visible[element := false] == visible;
      }
      k := k + 1;
    }
  }

  lemma {:induction false} HidingOneElement(elements: seq<Element>, sizing: seq<Sizing>, visible: seq<bool>, i: nat)
    requires |elements| == |visible| == |sizing| && i < |visible| && visible[i]
    ensures TotalWidth(elements, visible[i := false], sizing)
            == TotalWidth(elements, visible, sizing) - Floor(elements[i], true, sizing[i]) + Floor(elements[i], false, sizing[i])
  {
    var before, after := Floors(elements, visible, sizing), Floors(elements, visible[i := false], sizing);
    assert after == before[i := Floor(elements[i], false, sizing[i])];
    SumUpdate(before, i, Floor(elements[i], false, sizing[i]));
  }

  /** Free space to the left and to the right of an element pinned at `x`. */
  method SpreadAround(elements: seq<Element>, base: seq<nat>, available: nat, p: nat, x: nat) returns (r: seq<nat>)
    requires p < |elements| == |base|
    requires Sum(base[..p]) <= x && x + base[p] + Sum(base[p + 1..]) <= available
    ensures r == Spec.ArrangeAround(elements, base, available, p, x).widths
  {
    var n := |elements|;
    var widths := new nat[n](i requires 0 <= i < n => base[i]);
    assert widths[..] == base;
    DistributeFlexibleSpace(elements, widths, 0, p, x - Sum(base[..p]));
    DistributeFlexibleSpace(elements, widths, p + 1, n, available - x - base[p] - Sum(base[p + 1..]));
    r := widths[..];
  }

  method SpreadAll(elements: seq<Element>, base: seq<nat>, extra: nat) returns (r: seq<nat>)
    requires |elements| == |base|
    ensures r == Spec.Spread(elements, base, 0, |elements|, extra)
  {
    var n := |elements|;
    var widths := new nat[n](i requires 0 <= i < n => base[i]);
    assert widths[..] == base;
    DistributeFlexibleSpace(elements, widths, 0, n, extra);
    r := widths[..];
  }

  method CompressBar(elements: seq<Element>, visible: seq<bool>, sizing: seq<Sizing>, available: nat) returns (base: seq<nat>)
    requires Spec.Ready(elements, visible, sizing)
    ensures base == Spec.Compressed(elements, visible, sizing, available)
  {
    var n := |elements|;
    var natural := Spec.Naturals(elements, visible, sizing);
    var widths := new nat[n](i requires 0 <= i < n => natural[i]);
    assert widths[..] == natural;
    CompressToFit(elements, visible, sizing, widths, available);
    base := widths[..];
  }

  /** The arranging half of `resolve`: compress, find and pin the principal, hand out free space. */
  method ArrangeBar(bar: BarSpec, visible: seq<bool>, sizing: seq<Sizing>, available: nat) returns (a: Spec.Arrangement)
    requires Spec.Ready(bar.elements, visible, sizing) && TotalWidth(bar.elements, visible, sizing) <= available
    ensures a == Spec.ArrangeVisible(bar, visible, sizing, available)
  {
    var base := CompressBar(bar.elements, visible, sizing, available);
    Spec.CompressedFits(bar.elements, visible, sizing, available);
    Spec.CompressedFit(bar.elements, visible, sizing, available);
    match Spec.PrincipalOf(bar, visible) {
      case None =>
        var widths := SpreadAll(bar.elements, base, available - Sum(base));
        a := Spec.Arrangement(widths, None);
      case Some(p) =>
        var x := Spec.PrincipalX(bar, visible, base, available, p);
        var widths := SpreadAround(bar.elements, base, available, p, x);
        a := Spec.Arrangement(widths, Some(Spec.Anchor(p, x)));
    }
  }

  method PlaceElement(element: Element, x: nat, width: nat, placements: seq<Placement>) returns (r: seq<Placement>)
    requires Spec.Fits(element, width)
    ensures r == placements + Spec.LayoutTop(element, x, width)
  {
    match element {
      case Item(item) => r := placements + [Placement(item.id, x, width)];
      case Group(group) => r := LayoutGroupInto(group, x, width, placements);
      case FixedSpace(_) => r := placements;
      case FlexibleSpace(_, _) => r := placements;
    }
  }

  /** What has been emitted so far, followed by what the rest of the walk emits. */
  ghost function Emitted(placements: seq<Placement>, hidden: seq<ItemId>, rest: ResolvedLayout): ResolvedLayout {
    ResolvedLayout(placements + rest.placements, hidden + rest.hiddenItems, rest.contentWidth)
  }

  lemma {:induction false} EmitStep(elements: seq<Element>, visible: seq<bool>, a: Spec.Arrangement, i: nat, x: nat,
                 placements: seq<Placement>, hidden: seq<ItemId>)
    requires Spec.AllFit(elements, visible, a.widths) && i < |elements|
    ensures visible[i] ==> Spec.Fits(elements[i], a.widths[i])
    ensures var here := Spec.Here(a.anchor, i, x);
            var rest := Spec.PlaceFrom(elements, visible, a.widths, a.anchor, i + 1, here + a.widths[i]);
            Emitted(placements, hidden, Spec.PlaceFrom(elements, visible, a.widths, a.anchor, i, x))
            == if visible[i]
               then Emitted(placements + Spec.LayoutTop(elements[i], here, a.widths[i]), hidden, rest)
               else Emitted(placements, hidden + Ids(ElementItems(elements[i])), rest)
  {
    var here := Spec.Here(a.anchor, i, x);
    var rest := Spec.PlaceFrom(elements, visible, a.widths, a.anchor, i + 1, here + a.widths[i]);
    if visible[i] {
      Spec.FitAt(elements, visible, a.widths, 0, i);
      EmitAssociates(placements, hidden, Spec.LayoutTop(elements[i], here, a.widths[i]), [], rest);
    } else {
      EmitAssociates(placements, hidden, [], Ids(ElementItems(elements[i])), rest);
    }
  }

  lemma {:induction false} EmitAssociates(placements: seq<Placement>, hidden: seq<ItemId>, placed: seq<Placement>, unseen: seq<ItemId>, rest: ResolvedLayout)
    ensures Emitted(placements, hidden, rest.(placements := placed + rest.placements, hiddenItems := unseen + rest.hiddenItems))
            == Emitted(placements + placed, hidden + unseen, rest)
    ensures [] + rest.placements == rest.placements && [] + rest.hiddenItems == rest.hiddenItems
    ensures placements + [] == placements && hidden + [] == hidden
  {
    ConcatAssociates(placements, placed, rest.placements);
    ConcatAssociates(hidden, unseen, rest.hiddenItems);
  }

  /** One turn of the placement loop of `resolve`. */
  method PlaceNext(elements: seq<Element>, visible: seq<bool>, a: Spec.Arrangement, i: nat, x: nat, placements: seq<Placement>, hidden: seq<ItemId>)
    returns (placed: seq<Placement>, unseen: seq<ItemId>, right: nat)
    requires Spec.AllFit(elements, visible, a.widths) && i < |elements|
    ensures Emitted(placements, hidden, Spec.PlaceFrom(elements, visible, a.widths, a.anchor, i, x))
            == Emitted(placed, unseen, Spec.PlaceFrom(elements, visible, a.widths, a.anchor, i + 1, right))
  {
    EmitStep(elements, visible, a, i, x, placements, hidden);
    placed, unseen := placements, hidden;
    var here := Spec.Here(a.anchor, i, x);
    if visible[i] {
      placed := PlaceElement(elements[i], here, a.widths[i], placements);
    } else {
      unseen := hidden + Ids(ElementItems(elements[i]));
    }
    right := here + a.widths[i];
  }

  /** The placement loop of `resolve`. */
  method PlaceBar(elements: seq<Element>, visible: seq<bool>, a: Spec.Arrangement) returns (r: ResolvedLayout)
    requires Spec.AllFit(elements, visible, a.widths)
    ensures r == Spec.PlaceFrom(elements, visible, a.widths, a.anchor, 0, 0)
  {
    var placements: seq<Placement> := [];
    var hidden: seq<ItemId> := [];
    var x: nat := 0;
    var i := 0;
    ghost var goal := Spec.PlaceFrom(elements, visible, a.widths, a.anchor, 0, 0);
    while i < |elements|
      invariant 0 <= i <= |elements|
      invariant goal == Emitted(placements, hidden, Spec.PlaceFrom(elements, visible, a.widths, a.anchor, i, x))
    {
      placements, hidden, x := PlaceNext(elements, visible, a, i, x, placements, hidden);
      i := i + 1;
    }
    r := ResolvedLayout(placements, hidden, x);
  }

  /** `resolve`. */
  method Resolve(bar: BarSpec, available: u32, required: set<ItemId>) returns (r: Result<ResolvedLayout, LayoutError>)
    ensures r == Spec.Resolve(bar, available, required)
  {
    var valid := ValidateBar(bar, required);
    if valid.Err? {
      return Err(valid.error);
    }
    var units := VisibilityUnits(bar.elements, required);
    if units.Err? {
      return Err(units.error);
    }
    ValidateExact(bar, required);
    Spec.ValidIsSized(bar.elements);
    var sizing := TopSizings(bar.elements).value;
    var visible, total := HideOverflow(HidingOrder(units.value), bar.elements, sizing, available);
    if total > available {
      return Err(InsufficientWidth(available, Min(total, U32_LIMIT - 1)));
    }
    Spec.SurvivorsAreReady(bar.elements, units.value, sizing, available);
    var a := ArrangeBar(bar, visible, sizing, available);
    var layout := PlaceBar(bar.elements, visible, a);
    r := Ok(layout);
  }
}
