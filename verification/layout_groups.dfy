/** Sizing and placement of nested groups: the recursive pair that must agree. */
module LayoutGroups {
  import opened Basics
  import opened LayoutTypes
  import opened LayoutWidths

  // ----- sizing -----

  function ItemSizing(item: ItemSpec): Sizing {
    Sizing(item.minWidth, item.preferredWidth, item.maxWidth)
  }

  function FixedSizing(width: nat): Sizing {
    Sizing(width, width, width)
  }

  function Minima(sizings: seq<Sizing>): (r: seq<nat>)
    ensures |r| == |sizings|
    ensures forall i :: 0 <= i < |sizings| ==> r[i] == sizings[i].minimum
  {
    seq(|sizings|, i requires 0 <= i < |sizings| => sizings[i].minimum)
  }

  function Preferreds(sizings: seq<Sizing>): (r: seq<nat>)
    ensures |r| == |sizings|
    ensures forall i :: 0 <= i < |sizings| ==> r[i] == sizings[i].preferred
  {
    seq(|sizings|, i requires 0 <= i < |sizings| => sizings[i].preferred)
  }

  function Maxima(sizings: seq<Sizing>): (r: seq<nat>)
    ensures |r| == |sizings|
    ensures forall i :: 0 <= i < |sizings| ==> r[i] == sizings[i].maximum
  {
    seq(|sizings|, i requires 0 <= i < |sizings| => sizings[i].maximum)
  }

  function Largest(s: seq<nat>): (r: nat)
    requires s != []
    ensures r in s && forall i :: 0 <= i < |s| ==> s[i] <= r
  {
    if |s| == 1 then s[0] else
    var rest := Largest(s[1..]);
    assert s == [s[0]] + s[1..];
    if rest <= s[0] then s[0] else rest
  }

  function Smallest(s: seq<nat>): (r: nat)
    requires s != []
    ensures r in s && forall i :: 0 <= i < |s| ==> r <= s[i]
  {
    if |s| == 1 then s[0] else
    var rest := Smallest(s[1..]);
    assert s == [s[0]] + s[1..];
    if s[0] <= rest then s[0] else rest
  }

  function Clamp(value: nat, low: nat, high: nat): nat
    requires low <= high
  {
    if value < low then low else if value > high then high else value
  }

  /** `count` copies of `width` side by side. */
  function Copies(width: nat, count: nat): nat {
    width * count
  }

  function Gaps(spacing: nat, count: nat): nat {
    if count == 0 then 0 else Copies(spacing, count - 1)
  }

  function ActiveSizings(sizings: seq<Sizing>): seq<Sizing> {
    if sizings == [] then []
    else if sizings[0].maximum > 0 then [sizings[0]] + ActiveSizings(sizings[1..])
    else ActiveSizings(sizings[1..])
  }

  function CombineSizings(group: GroupSpec, active: seq<Sizing>): Result<Sizing, LayoutError> {
    if active == [] then
      Ok(FixedSizing(0))
    else
      var gaps := Gaps(group.spacing, |active|);
      match group.layout
      case Natural =>
        Ok(Sizing(Sum(Minima(active)) + gaps, Sum(Preferreds(active)) + gaps, Sum(Maxima(active)) + gaps))
      case EqualWidth =>
        var minimum := Largest(Minima(active));
        var maximum := Smallest(Maxima(active));
        if minimum > maximum then
          Err(InvalidEqualWidthGroup(group.id))
        else
          var preferred := Clamp(Largest(Preferreds(active)), minimum, maximum);
          Ok(Sizing(Copies(minimum, |active|) + gaps, Copies(preferred, |active|) + gaps, Copies(maximum, |active|) + gaps))
  }

  function GroupSizing(group: GroupSpec): Result<Sizing, LayoutError>
    decreases group, 1
  {
    var sizings :- ChildSizings(group.elements);
    CombineSizings(group, ActiveSizings(sizings))
  }

  function ChildSizings(elements: seq<GroupElement>): Result<seq<Sizing>, LayoutError>
    decreases elements, 0
  {
    if elements == [] then
      Ok([])
    else
      var first :- ChildSizing(elements[0]);
      var rest :- ChildSizings(elements[1..]);
      Ok([first] + rest)
  }

  function ChildSizing(element: GroupElement): Result<Sizing, LayoutError>
    decreases element, 2
  {
    match element
    case ChildItem(item) => Ok(ItemSizing(item))
    case ChildGroup(group) => GroupSizing(group)
  }

  // ----- what validation establishes about a group -----

  ghost predicate SoundGroup(group: GroupSpec)
    decreases group, 1
  {
    SoundElements(group.elements) && GroupSizing(group).Ok?
  }

  ghost predicate SoundElements(elements: seq<GroupElement>)
    decreases elements, 0
  {
    elements == [] || (SoundElement(elements[0]) && SoundElements(elements[1..]))
  }

  ghost predicate SoundElement(element: GroupElement)
    decreases element, 2
  {
    match element
    case ChildItem(item) => ItemSized(item)
    case ChildGroup(group) => SoundGroup(group)
  }

  lemma {:induction false} SoundElementIsSized(element: GroupElement)
    requires SoundElement(element)
    ensures ChildSizing(element).Ok?
  {
    match element
    case ChildItem(item) =>
    case ChildGroup(group) =>
  }

  function SizeOf(element: GroupElement): Sizing
    requires ChildSizing(element).Ok?
  {
    ChildSizing(element).value
  }

  /** Every child that can take up width, as the placement pass sees it. */
  function ActiveElements(elements: seq<GroupElement>): (r: seq<GroupElement>)
    requires ChildSizings(elements).Ok?
    ensures |r| == |ActiveSizings(ChildSizings(elements).value)|
    ensures forall k :: 0 <= k < |r| ==>
              ChildSizing(r[k]).Ok? && SizeOf(r[k]) == ActiveSizings(ChildSizings(elements).value)[k]
  {
    if elements == [] then []
    else
      var rest := ActiveElements(elements[1..]);
      assert ChildSizings(elements).value[1..] == ChildSizings(elements[1..]).value;
      if SizeOf(elements[0]).maximum > 0 then [elements[0]] + rest else rest
  }

  ghost predicate AllOrdered(sizings: seq<Sizing>) {
    forall k :: 0 <= k < |sizings| ==> sizings[k].Ordered()
  }

  lemma {:induction false} ActiveOrdered(sizings: seq<Sizing>)
    requires AllOrdered(sizings)
    ensures AllOrdered(ActiveSizings(sizings))
  {
    ActiveArePositive(sizings);
  }

  lemma {:induction false} ActiveArePositive(sizings: seq<Sizing>)
    ensures forall k :: 0 <= k < |ActiveSizings(sizings)| ==> ActiveSizings(sizings)[k].maximum > 0
    ensures forall k :: 0 <= k < |ActiveSizings(sizings)| ==> ActiveSizings(sizings)[k] in sizings
    ensures ActiveSizings(sizings) == [] ==> forall s :: s in sizings ==> s.maximum == 0
  {
    if sizings != [] {
      ActiveArePositive(sizings[1..]);
      assert sizings == [sizings[0]] + sizings[1..];
    }
  }

  lemma {:induction false} EqualSizingOrdered(minimum: nat, preferred: nat, maximum: nat, count: nat)
    requires minimum <= preferred <= maximum
    ensures Copies(minimum, count) <= Copies(preferred, count) <= Copies(maximum, count)
  {
    MulMonotone(minimum, preferred, count);
    MulMonotone(preferred, maximum, count);
  }

  lemma {:induction false} CombineOrdered(group: GroupSpec, active: seq<Sizing>)
    requires AllOrdered(active) && forall k :: 0 <= k < |active| ==> active[k].maximum > 0
    requires CombineSizings(group, active).Ok?
    ensures CombineSizings(group, active).value.Ordered()
    ensures active != [] ==> CombineSizings(group, active).value.maximum > 0
  {
    if active != [] {
      match group.layout
      case Natural =>
        SumMonotone(Minima(active), Preferreds(active));
        SumMonotone(Preferreds(active), Maxima(active));
        SumAtLeast(Maxima(active), 0);
        assert Maxima(active)[0] == active[0].maximum;
      case EqualWidth =>
        var minimum := Largest(Minima(active));
        var maximum := Smallest(Maxima(active));
        var preferred := Clamp(Largest(Preferreds(active)), minimum, maximum);
        EqualSizingOrdered(minimum, preferred, maximum, |active|);
        EqualSizingOrdered(1, 1, maximum, |active|);
    }
  }

  /** Sizing always yields a proper range, and a child without width holds no item. */
  lemma {:induction false} ElementSizingFacts(element: GroupElement)
    requires SoundElement(element)
    ensures ChildSizing(element).Ok? && SizeOf(element).Ordered()
    ensures SizeOf(element).maximum == 0 ==> ChildItems(element) == []
    decreases element, 2
  {
    match element
    case ChildItem(item) =>
    case ChildGroup(group) => GroupSizingFacts(group);
  }

  lemma {:induction false} GroupSizingFacts(group: GroupSpec)
    requires SoundGroup(group)
    ensures GroupSizing(group).value.Ordered()
    ensures GroupSizing(group).value.maximum == 0 ==> GroupItems(group) == []
    decreases group, 1
  {
    ElementsSizingFacts(group.elements);
    var sizings := ChildSizings(group.elements).value;
    ActiveArePositive(sizings);
    ActiveOrdered(sizings);
    CombineOrdered(group, ActiveSizings(sizings));
  }

  lemma {:induction false} ElementsSizingFacts(elements: seq<GroupElement>)
    requires SoundElements(elements)
    ensures ChildSizings(elements).Ok?
    ensures AllOrdered(ChildSizings(elements).value)
    ensures (forall s :: s in ChildSizings(elements).value ==> s.maximum == 0) ==> ItemsOf(elements) == []
    decreases elements, 0
  {
    if elements != [] {
      ElementSizingFacts(elements[0]);
      ElementsSizingFacts(elements[1..]);
      assert ChildSizings(elements).value == [SizeOf(elements[0])] + ChildSizings(elements[1..]).value;
    }
  }

  // ----- widths of the children -----

  function ChildPriority(element: GroupElement): int {
    match element
    case ChildItem(item) => item.compressionPriority
    case ChildGroup(group) => group.compressionPriority
  }

  function ChildCandidates(elements: seq<GroupElement>): (r: seq<Candidate>)
    ensures |r| == |elements|
  {
    seq(|elements|, i requires 0 <= i < |elements| => Candidate(ChildPriority(elements[i]), i))
  }

  lemma {:induction false} SizingVectors(sizings: seq<Sizing>)
    requires AllOrdered(sizings)
    ensures Growable(Minima(sizings), Preferreds(sizings))
    ensures Growable(Preferreds(sizings), Maxima(sizings))
  {
    assert forall k :: 0 <= k < |sizings| ==> sizings[k].Ordered();
  }

  ghost predicate Enumerates(candidates: seq<Candidate>, count: nat) {
    |candidates| == count && forall k :: 0 <= k < count ==> candidates[k].index == k
  }

  function NaturalWidths(candidates: seq<Candidate>, sizings: seq<Sizing>, content: nat): seq<nat>
    requires AllOrdered(sizings)
    requires Enumerates(candidates, |sizings|)
  {
    SizingVectors(sizings);
    var preferred := Preferreds(sizings);
    if content < Sum(preferred) then
      OrderIsUsable(candidates, |sizings|);
      Compress(CompressionOrder(candidates), preferred, Minima(sizings), Sum(preferred) - content)
    else if content > Sum(preferred) then
      Grow(preferred, Maxima(sizings), content - Sum(preferred))
    else
      preferred
  }

  /** Sorting candidates that enumerate the positions neither loses nor repeats a position. */
  lemma {:induction false} OrderIsUsable(candidates: seq<Candidate>, count: nat)
    requires Enumerates(candidates, count)
    ensures forall c :: c in CompressionOrder(candidates) ==> c.index < count
    ensures forall i :: 0 <= i < count ==> Mentions(CompressionOrder(candidates), i)
    ensures DistinctIndices(CompressionOrder(candidates))
  {
    OrderKeepsIndices(candidates);
    forall i | 0 <= i < count ensures Mentions(candidates, i) {
      assert candidates[i].index == i;
    }
  }

  lemma {:induction false} CompressedTile(candidates: seq<Candidate>, minima: seq<nat>, preferred: seq<nat>, content: nat)
    requires Growable(minima, preferred) && Enumerates(candidates, |minima|)
    requires Sum(minima) <= content <= Sum(preferred)
    ensures Compressible(CompressionOrder(candidates), preferred, minima)
    ensures var r := Compress(CompressionOrder(candidates), preferred, minima, Sum(preferred) - content);
            |r| == |minima| && Sum(r) == content && Growable(minima, r) && Growable(r, preferred)
  {
    OrderIsUsable(candidates, |minima|);
    var order := CompressionOrder(candidates);
    CompressBounds(order, preferred, minima, Sum(preferred) - content);
    CompressRemovesExcess(order, preferred, minima, Sum(preferred) - content);
  }

  lemma {:induction false} GrownTile(preferred: seq<nat>, maxima: seq<nat>, content: nat)
    requires Growable(preferred, maxima) && Sum(preferred) <= content <= Sum(maxima)
    ensures var r := Grow(preferred, maxima, content - Sum(preferred));
            Sum(r) == content && Growable(preferred, r) && Growable(r, maxima)
  {
    GrowIsFair(preferred, maxima, content - Sum(preferred));
    GrowTotal(preferred, maxima, content - Sum(preferred));
    GrowOnlyWidens(preferred, maxima, content - Sum(preferred));
  }

  lemma {:induction false} GrowableTransitive(a: seq<nat>, b: seq<nat>, c: seq<nat>)
    requires Growable(a, b) && Growable(b, c)
    ensures Growable(a, c)
  {
  }

  /** Natural widths use the content exactly and keep every child in its range: the `debug_assert`s
      after compression and growth. */
  lemma {:induction false} NaturalWidthsTile(candidates: seq<Candidate>, sizings: seq<Sizing>, content: nat)
    requires AllOrdered(sizings)
    requires Enumerates(candidates, |sizings|)
    requires Sum(Minima(sizings)) <= content <= Sum(Maxima(sizings))
    ensures |NaturalWidths(candidates, sizings, content)| == |sizings|
    ensures Sum(NaturalWidths(candidates, sizings, content)) == content
    ensures Growable(Minima(sizings), NaturalWidths(candidates, sizings, content))
    ensures Growable(NaturalWidths(candidates, sizings, content), Maxima(sizings))
  {
    var widths := NaturalWidths(candidates, sizings, content);
    SizingVectors(sizings);
    if content < Sum(Preferreds(sizings)) {
      CompressedTile(candidates, Minima(sizings), Preferreds(sizings), content);
      GrowableTransitive(widths, Preferreds(sizings), Maxima(sizings));
    } else if content > Sum(Preferreds(sizings)) {
      GrownTile(Preferreds(sizings), Maxima(sizings), content);
      GrowableTransitive(Minima(sizings), Preferreds(sizings), widths);
    }
  }

  /** The active children's sizings of a group that passed validation. */
  function ActiveOf(group: GroupSpec): (r: seq<Sizing>)
    requires SoundGroup(group)
    ensures AllOrdered(r) && ChildSizings(group.elements).Ok? && r == ActiveSizings(ChildSizings(group.elements).value)
    ensures |r| == |ActiveElements(group.elements)|
  {
    ElementsSizingFacts(group.elements);
    ActiveOrdered(ChildSizings(group.elements).value);
    ActiveSizings(ChildSizings(group.elements).value)
  }

  /** What is left for the children once the gaps are taken out: the `checked_sub` that never fails. */
  function ContentWidth(group: GroupSpec, width: nat): (r: nat)
    requires SoundGroup(group) && GroupSizing(group).value.Admits(width)
    ensures r + Gaps(group.spacing, |ActiveOf(group)|) == width
  {
    width - Gaps(group.spacing, |ActiveOf(group)|)
  }

  lemma {:induction false} ContentInRange(group: GroupSpec, width: nat)
    requires SoundGroup(group) && GroupSizing(group).value.Admits(width) && ActiveOf(group) != []
    ensures group.layout.Natural? ==>
              Sum(Minima(ActiveOf(group))) <= ContentWidth(group, width) <= Sum(Maxima(ActiveOf(group)))
    ensures group.layout.EqualWidth? ==>
              Copies(Largest(Minima(ActiveOf(group))), |ActiveOf(group)|) <= ContentWidth(group, width)
              <= Copies(Smallest(Maxima(ActiveOf(group))), |ActiveOf(group)|)
  {
  }

  /** The widths given to the active children of a group that is `width` wide. */
  function ChildWidths(group: GroupSpec, width: nat): seq<nat>
    requires SoundGroup(group) && GroupSizing(group).value.Admits(width)
  {
    var sizings := ActiveOf(group);
    if sizings == [] then
      []
    else
      match group.layout
      case Natural => NaturalWidths(ChildCandidates(ActiveElements(group.elements)), sizings, ContentWidth(group, width))
      case EqualWidth => EqualWidths(|sizings|, ContentWidth(group, width))
  }

  /** A group of admissible width is tiled exactly: child widths and gaps add up to it, and every
      active child receives a width from its own range. */
  lemma {:induction false} ChildWidthsTile(group: GroupSpec, width: nat)
    requires SoundGroup(group) && GroupSizing(group).value.Admits(width)
    ensures |ChildWidths(group, width)| == |ActiveOf(group)|
    ensures Sum(ChildWidths(group, width)) + Gaps(group.spacing, |ActiveOf(group)|) == width
    ensures forall k :: 0 <= k < |ActiveOf(group)| ==> ActiveOf(group)[k].Admits(ChildWidths(group, width)[k])
  {
    var sizings := ActiveOf(group);
    var widths := ChildWidths(group, width);
    if sizings != [] {
      var content := ContentWidth(group, width);
      ContentInRange(group, width);
      match group.layout
      case Natural =>
        NaturalWidthsTile(ChildCandidates(ActiveElements(group.elements)), sizings, content);
        forall k | 0 <= k < |sizings| ensures sizings[k].Admits(widths[k]) {
          assert Minima(sizings)[k] <= widths[k] <= Maxima(sizings)[k];
        }
      case EqualWidth =>
        EqualWidthsTile(|sizings|, content, Largest(Minima(sizings)), Smallest(Maxima(sizings)));
        forall k | 0 <= k < |sizings| ensures sizings[k].Admits(widths[k]) {
          assert Minima(sizings)[k] <= Largest(Minima(sizings));
          assert Smallest(Maxima(sizings)) <= Maxima(sizings)[k];
        }
    }
  }

  // ----- placement -----

  /** Widths for the active children of a suffix of a group, each from its child's range. */
  ghost predicate WidthsAdmitted(elements: seq<GroupElement>, widths: seq<nat>)
    requires ChildSizings(elements).Ok?
  {
    if elements == [] then widths == []
    else if SizeOf(elements[0]).maximum == 0 then WidthsAdmitted(elements[1..], widths)
    else widths != [] && SizeOf(elements[0]).Admits(widths[0]) && WidthsAdmitted(elements[1..], widths[1..])
  }

  lemma {:induction false} WidthsAdmittedPointwise(elements: seq<GroupElement>, widths: seq<nat>)
    requires ChildSizings(elements).Ok?
    requires |widths| == |ActiveSizings(ChildSizings(elements).value)|
    requires forall k :: 0 <= k < |widths| ==> ActiveSizings(ChildSizings(elements).value)[k].Admits(widths[k])
    ensures WidthsAdmitted(elements, widths)
  {
    if elements != [] {
      var active := ActiveSizings(ChildSizings(elements).value);
      assert ChildSizings(elements).value[1..] == ChildSizings(elements[1..]).value;
      var rest := ActiveSizings(ChildSizings(elements[1..]).value);
      if SizeOf(elements[0]).maximum > 0 {
        assert active == [SizeOf(elements[0])] + rest;
        forall k | 0 <= k < |widths[1..]| ensures rest[k].Admits(widths[1..][k]) {
          assert rest[k] == active[k + 1];
        }
        WidthsAdmittedPointwise(elements[1..], widths[1..]);
      } else {
        WidthsAdmittedPointwise(elements[1..], widths);
      }
    }
  }

  function LayoutGroup(group: GroupSpec, x: nat, width: nat): seq<Placement>
    requires SoundGroup(group) && GroupSizing(group).value.Admits(width)
    decreases group, 1
  {
    ChildWidthsTile(group, width);
    WidthsAdmittedPointwise(group.elements, ChildWidths(group, width));
    LayoutChildren(group.elements, ChildWidths(group, width), group.spacing, x)
  }

  function LayoutChildren(elements: seq<GroupElement>, widths: seq<nat>, spacing: nat, x: nat): seq<Placement>
    requires SoundElements(elements) && ChildSizings(elements).Ok? && WidthsAdmitted(elements, widths)
    decreases elements, 0
  {
    if elements == [] then
      []
    else if SizeOf(elements[0]).maximum == 0 then
      LayoutChildren(elements[1..], widths, spacing, x)
    else
      LayoutChild(elements[0], x, widths[0])
        + LayoutChildren(elements[1..], widths[1..], spacing, x + widths[0] + spacing)
  }

  function LayoutChild(element: GroupElement, x: nat, width: nat): seq<Placement>
    requires SoundElement(element) && ChildSizing(element).Ok? && SizeOf(element).Admits(width)
    decreases element, 2
  {
    match element
    case ChildItem(item) => [Placement(item.id, x, width)]
    case ChildGroup(group) => LayoutGroup(group, x, width)
  }

  /** Placements that present exactly `items`, in order, without overlap, inside `[low, high]`, each
      as wide as its item allows. */
  ghost predicate Presents(placements: seq<Placement>, items: seq<ItemSpec>, low: nat, high: nat) {
    && |placements| == |items|
    && (forall k :: 0 <= k < |items| ==>
          && placements[k].id == items[k].id
          && items[k].minWidth <= placements[k].width <= items[k].maxWidth
          && low <= placements[k].x && placements[k].x + placements[k].width <= high)
    && (forall i, j :: 0 <= i < j < |placements| ==> placements[i].x + placements[i].width <= placements[j].x)
  }

  lemma {:induction false} PresentsConcat(a: seq<Placement>, aItems: seq<ItemSpec>, b: seq<Placement>, bItems: seq<ItemSpec>,
                       low: nat, middle: nat, middle': nat, high: nat)
    requires Presents(a, aItems, low, middle) && Presents(b, bItems, middle', high)
    requires low <= middle <= middle' <= high
    ensures Presents(a + b, aItems + bItems, low, high)
  {
    var ps, items := a + b, aItems + bItems;
    forall k | 0 <= k < |items|
      ensures && ps[k].id == items[k].id
              && items[k].minWidth <= ps[k].width <= items[k].maxWidth
              && low <= ps[k].x && ps[k].x + ps[k].width <= high
    {
      if k < |a| {
        assert ps[k] == a[k] && items[k] == aItems[k];
      } else {
        assert ps[k] == b[k - |a|] && items[k] == bItems[k - |a|];
      }
    }
    forall i, j | 0 <= i < j < |ps| ensures ps[i].x + ps[i].width <= ps[j].x {
      if j < |a| {
        assert ps[i] == a[i] && ps[j] == a[j];
      } else if i >= |a| {
        assert ps[i] == b[i - |a|] && ps[j] == b[j - |a|];
      } else {
        assert ps[i] == a[i] && ps[j] == b[j - |a|];
        assert a[i].x + a[i].width <= middle && middle' <= b[j - |a|].x;
      }
    }
  }

  lemma {:induction false} PresentsWider(ps: seq<Placement>, items: seq<ItemSpec>, low: nat, high: nat, low': nat, high': nat)
    requires Presents(ps, items, low, high) && low' <= low && high <= high'
    ensures Presents(ps, items, low', high')
  {
  }

  /** Laying out a group presents all of its items, at any nesting, inside its own extent. */
  lemma {:induction false} GroupIsPresented(group: GroupSpec, x: nat, width: nat)
    requires SoundGroup(group) && GroupSizing(group).value.Admits(width)
    ensures Presents(LayoutGroup(group, x, width), GroupItems(group), x, x + width)
    decreases group, 1
  {
    var widths := ChildWidths(group, width);
    ChildWidthsTile(group, width);
    WidthsAdmittedPointwise(group.elements, widths);
    ChildrenArePresented(group.elements, widths, group.spacing, x);
  }

  /** Prepending the first active child and its gap to the presented rest. */
  lemma {:induction false} PresentsStep(first: seq<Placement>, firstItems: seq<ItemSpec>, rest: seq<Placement>, restItems: seq<ItemSpec>,
                     widths: seq<nat>, spacing: nat, x: nat)
    requires widths != [] && Presents(first, firstItems, x, x + widths[0])
    requires var next := x + widths[0] + spacing;
             Presents(rest, restItems, next, next + Sum(widths[1..]) + Gaps(spacing, |widths| - 1))
    requires |widths| == 1 ==> rest == [] && restItems == []
    ensures Presents(first + rest, firstItems + restItems, x, x + Sum(widths) + Gaps(spacing, |widths|))
  {
    if |widths| == 1 {
      assert first + rest == first && firstItems + restItems == firstItems;
    } else {
      var next := x + widths[0] + spacing;
      GapsStep(spacing, |widths|);
      PresentsConcat(first, firstItems, rest, restItems,
                     x, x + widths[0], next, next + Sum(widths[1..]) + Gaps(spacing, |widths| - 1));
    }
  }

  lemma {:induction false} ChildrenArePresented(elements: seq<GroupElement>, widths: seq<nat>, spacing: nat, x: nat)
    requires SoundElements(elements) && ChildSizings(elements).Ok? && WidthsAdmitted(elements, widths)
    ensures Presents(LayoutChildren(elements, widths, spacing, x), ItemsOf(elements), x, x + Sum(widths) + Gaps(spacing, |widths|))
    decreases elements, 0
  {
    if elements == [] {
    } else if SizeOf(elements[0]).maximum == 0 {
      ElementSizingFacts(elements[0]);
      ChildrenArePresented(elements[1..], widths, spacing, x);
      assert ItemsOf(elements) == ItemsOf(elements[1..]);
    } else {
      var next := x + widths[0] + spacing;
      ChildIsPresented(elements[0], x, widths[0]);
      ChildrenArePresented(elements[1..], widths[1..], spacing, next);
      if widths[1..] == [] {
        NoWidthsNoItems(elements[1..], widths[1..], spacing, next);
      }
      PresentsStep(LayoutChild(elements[0], x, widths[0]), ChildItems(elements[0]),
                   LayoutChildren(elements[1..], widths[1..], spacing, next), ItemsOf(elements[1..]), widths, spacing, x);
    }
  }

  lemma {:induction false} GapsStep(spacing: nat, count: nat)
    requires count >= 2
    ensures Gaps(spacing, count) == spacing + Gaps(spacing, count - 1)
  {
    MulSucc(spacing, count - 2);
  }

  lemma {:induction false} NoWidthsNoItems(elements: seq<GroupElement>, widths: seq<nat>, spacing: nat, x: nat)
    requires SoundElements(elements) && ChildSizings(elements).Ok? && WidthsAdmitted(elements, widths)
    requires widths == []
    ensures ItemsOf(elements) == [] && LayoutChildren(elements, widths, spacing, x) == []
  {
    if elements != [] {
      ElementSizingFacts(elements[0]);
      NoWidthsNoItems(elements[1..], widths, spacing, x);
    }
  }

  lemma {:induction false} ChildIsPresented(element: GroupElement, x: nat, width: nat)
    requires SoundElement(element) && ChildSizing(element).Ok? && SizeOf(element).Admits(width)
    ensures Presents(LayoutChild(element, x, width), ChildItems(element), x, x + width)
    decreases element, 2
  {
    match element
    case ChildItem(item) =>
    case ChildGroup(group) => GroupIsPresented(group, x, width);
  }

  // ----- translation -----

  /** The same placements, `distance` further to the right. */
  ghost predicate Displaced(from: seq<Placement>, to: seq<Placement>, distance: nat) {
    && |from| == |to|
    && forall k :: 0 <= k < |from| ==> to[k] == from[k].(x := from[k].x + distance)
  }

  lemma {:induction false} DisplacedConcat(a: seq<Placement>, a': seq<Placement>, b: seq<Placement>, b': seq<Placement>, distance: nat)
    requires Displaced(a, a', distance) && Displaced(b, b', distance)
    ensures Displaced(a + b, a' + b', distance)
  {
  }

  /** Moving a group moves every placement by the same distance and changes nothing else. */
  lemma {:induction false} LayoutCommutesWithTranslation(group: GroupSpec, x: nat, width: nat, distance: nat)
    requires SoundGroup(group) && GroupSizing(group).value.Admits(width)
    ensures Displaced(LayoutGroup(group, x, width), LayoutGroup(group, x + distance, width), distance)
    decreases group, 1
  {
    var widths := ChildWidths(group, width);
    ChildWidthsTile(group, width);
    WidthsAdmittedPointwise(group.elements, widths);
    ChildrenCommute(group.elements, widths, group.spacing, x, x + distance, distance);
  }

  lemma {:induction false} ChildCommutes(element: GroupElement, x: nat, width: nat, distance: nat)
    requires SoundElement(element) && ChildSizing(element).Ok? && SizeOf(element).Admits(width)
    ensures Displaced(LayoutChild(element, x, width), LayoutChild(element, x + distance, width), distance)
    decreases element, 2
  {
    match element
    case ChildItem(item) =>
    case ChildGroup(group) => LayoutCommutesWithTranslation(group, x, width, distance);
  }

  lemma {:induction false} LayoutChildrenStep(elements: seq<GroupElement>, widths: seq<nat>, spacing: nat, x: nat)
    requires SoundElements(elements) && ChildSizings(elements).Ok? && WidthsAdmitted(elements, widths)
    requires elements != [] && SizeOf(elements[0]).maximum > 0
    ensures LayoutChildren(elements, widths, spacing, x)
            == LayoutChild(elements[0], x, widths[0])
               + LayoutChildren(elements[1..], widths[1..], spacing, x + widths[0] + spacing)
  {
  }

  lemma {:induction false} LayoutChildrenSkip(elements: seq<GroupElement>, widths: seq<nat>, spacing: nat, x: nat)
    requires SoundElements(elements) && ChildSizings(elements).Ok? && WidthsAdmitted(elements, widths)
    requires elements != [] && SizeOf(elements[0]).maximum == 0
    ensures LayoutChildren(elements, widths, spacing, x) == LayoutChildren(elements[1..], widths, spacing, x)
  {
  }

  lemma {:induction false} ChildrenCommute(elements: seq<GroupElement>, widths: seq<nat>, spacing: nat, x: nat, y: nat, distance: nat)
    requires SoundElements(elements) && ChildSizings(elements).Ok? && WidthsAdmitted(elements, widths)
    requires y == x + distance
    ensures Displaced(LayoutChildren(elements, widths, spacing, x), LayoutChildren(elements, widths, spacing, y), distance)
    decreases elements, 0
  {
    if elements == [] {
    } else if SizeOf(elements[0]).maximum == 0 {
      ChildrenCommute(elements[1..], widths, spacing, x, y, distance);
      LayoutChildrenSkip(elements, widths, spacing, x);
      LayoutChildrenSkip(elements, widths, spacing, y);
    } else {
      ChildCommutes(elements[0], x, widths[0], distance);
      ChildrenCommute(elements[1..], widths[1..], spacing, x + widths[0] + spacing, y + widths[0] + spacing, distance);
      DisplacedConcat(LayoutChild(elements[0], x, widths[0]), LayoutChild(elements[0], y, widths[0]),
                      LayoutChildren(elements[1..], widths[1..], spacing, x + widths[0] + spacing),
                      LayoutChildren(elements[1..], widths[1..], spacing, y + widths[0] + spacing), distance);
      LayoutChildrenStep(elements, widths, spacing, x);
      LayoutChildrenStep(elements, widths, spacing, y);
    }
  }

  // ----- 64-bit arithmetic -----

  /** Two units for an item, one for a subgroup plus what it holds. */
  function SpanOf(elements: seq<GroupElement>): nat
    decreases elements, 0
  {
    if elements == [] then 0 else ChildSpan(elements[0]) + SpanOf(elements[1..])
  }

  function ChildSpan(element: GroupElement): nat
    decreases element, 2
  {
    match element
    case ChildItem(_) => 2
    case ChildGroup(group) => 1 + GroupSpan(group)
  }

  function GroupSpan(group: GroupSpec): nat
    decreases group, 1
  {
    SpanOf(group.elements)
  }

  const LARGEST_U32: nat := U32_LIMIT - 1

  lemma {:induction false} SmallestTimesCount(s: seq<nat>, smallest: nat)
    requires forall i :: 0 <= i < |s| ==> smallest <= s[i]
    ensures Copies(smallest, |s|) <= Sum(s)
  {
    if s != [] {
      SmallestTimesCount(s[1..], smallest);
      MulSucc(smallest, |s| - 1);
    }
  }

  lemma {:induction false} CombineFits(group: GroupSpec, active: seq<Sizing>, span: nat)
    requires CombineSizings(group, active).Ok?
    requires Sum(Maxima(active)) + Copies(LARGEST_U32, |active|) <= Copies(LARGEST_U32, span)
    ensures CombineSizings(group, active).value.maximum <= Copies(LARGEST_U32, span)
  {
    if active != [] {
      MulMonotone(group.spacing, LARGEST_U32, |active| - 1);
      MulSucc(LARGEST_U32, |active| - 1);
      if group.layout.EqualWidth? {
        SmallestTimesCount(Maxima(active), Smallest(Maxima(active)));
      }
    }
  }

  lemma {:induction false} ChildrenFit(elements: seq<GroupElement>)
    requires ChildSizings(elements).Ok?
    ensures var active := ActiveSizings(ChildSizings(elements).value);
            Sum(Maxima(active)) + Copies(LARGEST_U32, |active|) <= Copies(LARGEST_U32, SpanOf(elements))
    decreases elements, 0
  {
    if elements != [] {
      ChildFits(elements[0]);
      ChildrenFit(elements[1..]);
      var rest := ActiveSizings(ChildSizings(elements[1..]).value);
      ActiveTotals(elements);
      FitStep(SizeOf(elements[0]).maximum, Sum(Maxima(rest)), |rest|, ChildSpan(elements[0]), SpanOf(elements[1..]));
    }
  }

  lemma {:induction false} ActiveTotals(elements: seq<GroupElement>)
    requires ChildSizings(elements).Ok? && elements != []
    ensures var active := ActiveSizings(ChildSizings(elements).value);
            var rest := ActiveSizings(ChildSizings(elements[1..]).value);
            if SizeOf(elements[0]).maximum > 0
            then Sum(Maxima(active)) == SizeOf(elements[0]).maximum + Sum(Maxima(rest)) && |active| == |rest| + 1
            else active == rest
  {
    var active := ActiveSizings(ChildSizings(elements).value);
    var rest := ActiveSizings(ChildSizings(elements[1..]).value);
    assert ChildSizings(elements).value[1..] == ChildSizings(elements[1..]).value;
    if SizeOf(elements[0]).maximum > 0 {
      assert active == [SizeOf(elements[0])] + rest;
      assert Maxima(active)[1..] == Maxima(rest);
    }
  }

  lemma {:induction false} FitStep(maximum: nat, others: nat, count: nat, span: nat, spans: nat)
    requires span >= 1 && maximum <= Copies(LARGEST_U32, span - 1)
    requires others + Copies(LARGEST_U32, count) <= Copies(LARGEST_U32, spans)
    ensures maximum + others + Copies(LARGEST_U32, count + 1) <= Copies(LARGEST_U32, span + spans)
    ensures others + Copies(LARGEST_U32, count) <= Copies(LARGEST_U32, span + spans)
  {
    CopiesAdd(LARGEST_U32, span, spans);
    CopiesAdd(LARGEST_U32, span - 1, 1);
    CopiesAdd(LARGEST_U32, count, 1);
  }

  lemma {:induction false} CopiesAdd(width: nat, a: nat, b: nat)
    ensures Copies(width, a + b) == Copies(width, a) + Copies(width, b)
  {
    Distributes(width, a, b);
  }

  lemma {:induction false} ChildFits(element: GroupElement)
    requires ChildSizing(element).Ok?
    ensures ChildSpan(element) >= 1 && SizeOf(element).maximum <= Copies(LARGEST_U32, ChildSpan(element) - 1)
    decreases element, 2
  {
    match element
    case ChildItem(item) =>
    case ChildGroup(group) => GroupWidthFits(group);
  }

  /** However a group nests, its width is at most 2^32 - 1 per item, gap and subgroup it holds, so
      the 64-bit sums that compute it cannot overflow below 2^32 of them. */
  lemma {:induction false} GroupWidthFits(group: GroupSpec)
    requires GroupSizing(group).Ok?
    ensures GroupSizing(group).value.maximum <= Copies(LARGEST_U32, GroupSpan(group))
    ensures GroupSpan(group) <= U32_LIMIT ==> GroupSizing(group).value.maximum < U64_LIMIT
    decreases group, 1
  {
    ChildrenFit(group.elements);
    CombineFits(group, ActiveSizings(ChildSizings(group.elements).value), GroupSpan(group));
    if GroupSpan(group) <= U32_LIMIT {
      MulMonotone(GroupSpan(group), U32_LIMIT, LARGEST_U32);
    }
  }
}
