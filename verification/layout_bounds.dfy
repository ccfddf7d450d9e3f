/** The 64-bit arithmetic of the solver: sums over the bar and the products of its shares. */
module LayoutBounds {
  import opened Basics
  import opened LayoutTypes
  import opened LayoutGroups
  import opened LayoutWidths
  import opened LayoutUnits
  import opened LayoutOverflow
  import opened LayoutValidate
  import opened LayoutResolve

  /** Number of 32-bit widths that an element is made of. */
  function ElementSpan(element: Element): nat {
    if element.Group? then GroupSpan(element.group) else 1
  }

  function BarSpan(elements: seq<Element>): nat {
    if elements == [] then 0 else ElementSpan(elements[0]) + BarSpan(elements[1..])
  }

  lemma {:induction false} NaturalFits(element: Element, visible: bool, sizing: Sizing)
    requires SoundTop(element) && TopSizing(element) == Ok(sizing)
    ensures Floor(element, visible, sizing) <= LayoutResolve.Natural(element, visible, sizing) <= Copies(LARGEST_U32, ElementSpan(element))
  {
    TopSizingOrdered(element);
    assert Copies(LARGEST_U32, 1) == LARGEST_U32;
    if element.Group? {
      GroupWidthFits(element.group);
    }
  }

  lemma {:induction false} SumsFit(values: seq<nat>, elements: seq<Element>)
    requires |values| == |elements|
    requires forall i :: 0 <= i < |values| ==> values[i] <= Copies(LARGEST_U32, ElementSpan(elements[i]))
    ensures Sum(values) <= Copies(LARGEST_U32, BarSpan(elements))
  {
    if values != [] {
      forall i | 0 <= i < |values[1..]| ensures values[1..][i] <= Copies(LARGEST_U32, ElementSpan(elements[1..][i])) {
        assert values[1..][i] == values[i + 1] && elements[1..][i] == elements[i + 1];
      }
      SumsFit(values[1..], elements[1..]);
      CopiesAdd(LARGEST_U32, ElementSpan(elements[0]), BarSpan(elements[1..]));
    }
  }

  /** The sums over a valid bar, of minima before hiding and of preferred widths before compression,
      stay below 2^64 while the bar has at most 2^32 items, gaps, subgroups and spaces. */
  lemma {:induction false} BarSumsFit(bar: BarSpec, required: set<ItemId>, visible: seq<bool>)
    requires ValidBar(bar, required) && |visible| == |bar.elements|
    ensures TopSizings(bar.elements).Ok? && |TopSizings(bar.elements).value| == |bar.elements|
    ensures var sizing := TopSizings(bar.elements).value;
            && TotalWidth(bar.elements, visible, sizing) <= Sum(Naturals(bar.elements, visible, sizing))
            && Sum(Naturals(bar.elements, visible, sizing)) <= Copies(LARGEST_U32, BarSpan(bar.elements))
            && (BarSpan(bar.elements) <= U32_LIMIT ==> Sum(Naturals(bar.elements, visible, sizing)) < U64_LIMIT)
  {
    ValidIsSized(bar.elements);
    var sizing := TopSizings(bar.elements).value;
    var floors, naturals := Floors(bar.elements, visible, sizing), Naturals(bar.elements, visible, sizing);
    forall i | 0 <= i < |bar.elements|
      ensures floors[i] <= naturals[i] <= Copies(LARGEST_U32, ElementSpan(bar.elements[i]))
    {
      assert SoundTop(bar.elements[i]) && TopSizing(bar.elements[i]) == Ok(sizing[i]);
      NaturalFits(bar.elements[i], visible[i], sizing[i]);
    }
    SumMonotone(floors, naturals);
    SumsFit(naturals, bar.elements);
    if BarSpan(bar.elements) <= U32_LIMIT {
      MulMonotone(BarSpan(bar.elements), U32_LIMIT, LARGEST_U32);
    }
  }

  /** The room left and right of an element pinned at `x`. */
  function ExtrasAround(widths: seq<nat>, available: nat, p: nat, x: nat): seq<nat>
    requires p < |widths| && Sum(widths[..p]) <= x && x + widths[p] + Sum(widths[p + 1..]) <= available
  {
    [x - Sum(widths[..p]), available - x - widths[p] - Sum(widths[p + 1..])]
  }

  lemma {:induction false} AroundSpreads(elements: seq<Element>, widths: seq<nat>, available: nat, p: nat, x: nat)
    requires p < |elements| == |widths| && Sum(widths[..p]) <= x && x + widths[p] + Sum(widths[p + 1..]) <= available
    ensures var extras := ExtrasAround(widths, available, p, x);
            ArrangeAround(elements, widths, available, p, x).widths ==
            Spread(elements, Spread(elements, widths, 0, p, extras[0]), p + 1, |elements|, extras[1])
  {
  }

  /** The extras that the solver spreads: over the whole bar, or left and right of the principal. */
  function Extras(bar: BarSpec, visible: seq<bool>, widths: seq<nat>, available: nat): seq<nat>
    requires AllFit(bar.elements, visible, widths) && Sum(widths) <= available
  {
    match PrincipalOf(bar, visible)
    case None => [available - Sum(widths)]
    case Some(p) =>
      ExtrasAround(widths, available, p, PrincipalX(bar, visible, widths, available, p))
  }

  /** The arrangement is made by spreading exactly these extras. */
  lemma {:induction false} ArrangeSpreadsExtras(bar: BarSpec, visible: seq<bool>, widths: seq<nat>, available: nat)
    requires AllFit(bar.elements, visible, widths) && Sum(widths) <= available
    ensures var extras := Extras(bar, visible, widths, available);
            Arrange(bar, visible, widths, available).widths ==
            match PrincipalOf(bar, visible)
            case None => Spread(bar.elements, widths, 0, |bar.elements|, extras[0])
            case Some(p) => Spread(bar.elements, Spread(bar.elements, widths, 0, p, extras[0]), p + 1, |bar.elements|, extras[1])
  {
    match PrincipalOf(bar, visible)
    case None =>
    case Some(p) =>
      AroundSpreads(bar.elements, widths, available, p, PrincipalX(bar, visible, widths, available, p));
  }

  /** On every success each extra that is spread is at most the width of the bar, so the product with
      any 32-bit weight fits 64 bits. */
  lemma {:induction false} SharesNeverOverflow(bar: BarSpec, available: u32, required: set<ItemId>, k: nat, flex: Flex)
    requires Resolve(bar, available, required).Ok?
    ensures ValidBar(bar, required) && UnitsUpTo(bar.elements, required, |bar.elements|).Ok?
    ensures var visible, base := VisibleAt(bar, available, required), BaseWidths(bar, available, required);
            && AllFit(bar.elements, visible, base)
            && var extras := Extras(bar, visible, base, available);
            k < |extras| ==> extras[k] <= available && extras[k] * flex.weight < U64_LIMIT
  {
    ResolveArranges(bar, available, required);
    var visible, base := VisibleAt(bar, available, required), BaseWidths(bar, available, required);
    var extras := Extras(bar, visible, base, available);
    if k < |extras| {
      ShareProductFits(extras[k], flex);
    }
  }

  /** The total weight of the flexible spaces fits 64 bits while there are at most 2^32 elements. */
  lemma {:induction false} TotalWeightFits(flexible: seq<Flex>)
    ensures TotalWeight(flexible) <= Copies(LARGEST_U32, |flexible|)
    ensures |flexible| <= U32_LIMIT ==> TotalWeight(flexible) < U64_LIMIT
  {
    WeightsAddUp(flexible);
    if |flexible| <= U32_LIMIT {
      MulMonotone(|flexible|, U32_LIMIT, LARGEST_U32);
    }
  }

  lemma {:induction false} WeightsAddUp(flexible: seq<Flex>)
    ensures TotalWeight(flexible) <= Copies(LARGEST_U32, |flexible|)
  {
    if flexible != [] {
      WeightsAddUp(flexible[1..]);
      CopiesAdd(LARGEST_U32, 1, |flexible| - 1);
    }
  }
}
