/** The overflow policy over whole bars: what is hidden, in which order, and when a bar cannot fit. */
module LayoutOverflow {
  import opened Basics
  import opened LayoutTypes
  import opened LayoutGroups
  import opened LayoutUnits
  import opened Sorting

  function TopSizing(element: Element): Result<Sizing, LayoutError> {
    match element
    case Item(item) => Ok(ItemSizing(item))
    case Group(group) => GroupSizing(group)
    case FixedSpace(width) => Ok(FixedSizing(width))
    case FlexibleSpace(minimum, _) => Ok(FixedSizing(minimum))
  }

  function TopSizings(elements: seq<Element>): Result<seq<Sizing>, LayoutError> {
    if elements == [] then
      Ok([])
    else
      var first :- TopSizing(elements[0]);
      var rest :- TopSizings(elements[1..]);
      Ok([first] + rest)
  }

  ghost predicate Sized(elements: seq<Element>, sizing: seq<Sizing>) {
    |sizing| == |elements| && forall i :: 0 <= i < |elements| ==> TopSizing(elements[i]) == Ok(sizing[i])
  }

  lemma {:induction false} TopSizingsSized(elements: seq<Element>)
    requires forall i :: 0 <= i < |elements| ==> TopSizing(elements[i]).Ok?
    ensures TopSizings(elements).Ok? && Sized(elements, TopSizings(elements).value)
  {
    if elements != [] {
      TopSizingsSized(elements[1..]);
      assert forall i :: 0 <= i < |elements[1..]| ==> elements[1..][i] == elements[i + 1];
    }
  }

  /** Item and group elements start visible; spaces are never flagged. */
  function Shown(elements: seq<Element>): (r: seq<bool>)
    ensures |r| == |elements| && forall i :: 0 <= i < |elements| ==> r[i] == IsLeaf(elements[i])
  {
    seq(|elements|, i requires 0 <= i < |elements| => IsLeaf(elements[i]))
  }

  /** The least width of an element given its visibility. */
  function Floor(element: Element, visible: bool, sizing: Sizing): nat {
    match element
    case Item(_) => if visible then sizing.minimum else 0
    case Group(_) => if visible then sizing.minimum else 0
    case FixedSpace(width) => width
    case FlexibleSpace(minimum, _) => minimum
  }

  function Floors(elements: seq<Element>, visible: seq<bool>, sizing: seq<Sizing>): (r: seq<nat>)
    requires |elements| == |visible| == |sizing|
    ensures |r| == |elements|
    ensures forall i :: 0 <= i < |elements| ==> r[i] == Floor(elements[i], visible[i], sizing[i])
  {
    seq(|elements|, i requires 0 <= i < |elements| => Floor(elements[i], visible[i], sizing[i]))
  }

  function TotalWidth(elements: seq<Element>, visible: seq<bool>, sizing: seq<Sizing>): nat
    requires |elements| == |visible| == |sizing|
  {
    Sum(Floors(elements, visible, sizing))
  }

  function Hide(visible: seq<bool>, hidden: seq<nat>): (r: seq<bool>)
    ensures |r| == |visible|
    decreases |hidden|
  {
    if hidden == [] then visible
    else Hide(if hidden[0] < |visible| then visible[hidden[0] := false] else visible, hidden[1..])
  }

  lemma {:induction false} HideEffect(visible: seq<bool>, hidden: seq<nat>, i: nat)
    requires i < |visible|
    ensures Hide(visible, hidden)[i] <==> visible[i] && i !in hidden
    decreases |hidden|
  {
    if hidden != [] {
      HideEffect(if hidden[0] < |visible| then visible[hidden[0] := false] else visible, hidden[1..], i);
      assert hidden == [hidden[0]] + hidden[1..];
    }
  }

  function HidePrefix(order: seq<Unit>, count: nat, visible: seq<bool>): (r: seq<bool>)
    requires count <= |order|
    ensures |r| == |visible|
  {
    if count == 0 then visible else HidePrefix(order[1..], count - 1, Hide(visible, order[0].elements))
  }

  ghost predicate InSome(units: seq<Unit>, i: nat) {
    exists k :: 0 <= k < |units| && i in units[k].elements
  }

  lemma {:induction false} HidePrefixEffect(order: seq<Unit>, count: nat, visible: seq<bool>, i: nat)
    requires count <= |order| && i < |visible|
    ensures HidePrefix(order, count, visible)[i] <==> visible[i] && !InSome(order[..count], i)
  {
    if count > 0 {
      HideEffect(visible, order[0].elements, i);
      HidePrefixEffect(order[1..], count - 1, Hide(visible, order[0].elements), i);
      var prefix, tail := order[..count], order[1..][..count - 1];
      assert prefix == [order[0]] + tail;
      if InSome(tail, i) {
        var k :| 0 <= k < |tail| && i in tail[k].elements;
        assert prefix[k + 1] == tail[k];
      }
      if i in order[0].elements {
        assert prefix[0] == order[0];
      }
      if InSome(prefix, i) && i !in order[0].elements {
        var k :| 0 <= k < |prefix| && i in prefix[k].elements;
        assert tail[k - 1] == prefix[k];
      }
    }
  }

  /** Hide units in order until the minima fit or no candidate is left. */
  function HideUntilFits(order: seq<Unit>, elements: seq<Element>, sizing: seq<Sizing>, visible: seq<bool>, available: nat): (r: seq<bool>)
    requires |elements| == |visible| == |sizing|
    ensures |r| == |visible|
    decreases |order|
  {
    if order == [] || TotalWidth(elements, visible, sizing) <= available then visible
    else HideUntilFits(order[1..], elements, sizing, Hide(visible, order[0].elements), available)
  }

  lemma {:induction false} FewerVisibleIsNarrower(elements: seq<Element>, sizing: seq<Sizing>, less: seq<bool>, more: seq<bool>)
    requires |elements| == |less| == |more| == |sizing|
    requires forall i :: 0 <= i < |less| ==> less[i] ==> more[i]
    ensures TotalWidth(elements, less, sizing) <= TotalWidth(elements, more, sizing)
  {
    SumMonotone(Floors(elements, less, sizing), Floors(elements, more, sizing));
  }

  /** The hidden units are the shortest prefix of the hiding order that makes the minima fit. */
  lemma {:induction false} HidesShortestPrefix(order: seq<Unit>, elements: seq<Element>, sizing: seq<Sizing>, visible: seq<bool>, available: nat)
    returns (count: nat)
    requires |elements| == |visible| == |sizing|
    ensures count <= |order|
    ensures HideUntilFits(order, elements, sizing, visible, available) == HidePrefix(order, count, visible)
    ensures forall j :: 0 <= j < count ==> TotalWidth(elements, HidePrefix(order, j, visible), sizing) > available
    ensures count == |order| || TotalWidth(elements, HidePrefix(order, count, visible), sizing) <= available
    decreases |order|
  {
    if order == [] || TotalWidth(elements, visible, sizing) <= available {
      count := 0;
    } else {
      var next := Hide(visible, order[0].elements);
      var rest := HidesShortestPrefix(order[1..], elements, sizing, next, available);
      count := rest + 1;
      forall j | 0 <= j < count ensures TotalWidth(elements, HidePrefix(order, j, visible), sizing) > available {
        if j > 0 {
          assert HidePrefix(order, j, visible) == HidePrefix(order[1..], j - 1, next);
        }
      }
    }
  }

  lemma {:induction false} LongerPrefixHidesMore(order: seq<Unit>, few: nat, many: nat, visible: seq<bool>, i: nat)
    requires few <= many <= |order| && i < |visible|
    ensures HidePrefix(order, many, visible)[i] ==> HidePrefix(order, few, visible)[i]
  {
    HidePrefixEffect(order, few, visible, i);
    HidePrefixEffect(order, many, visible, i);
    if InSome(order[..few], i) {
      var k :| 0 <= k < |order[..few]| && i in order[..few][k].elements;
      assert order[..many][k] == order[..few][k];
    }
  }

  /** A wider bar never hides an element that a narrower one shows. */
  lemma {:induction false} WiderHidesLess(order: seq<Unit>, elements: seq<Element>, sizing: seq<Sizing>, visible: seq<bool>, narrow: nat, wide: nat, i: nat)
    requires |elements| == |visible| == |sizing| && narrow <= wide && i < |visible|
    ensures HideUntilFits(order, elements, sizing, visible, narrow)[i] ==> HideUntilFits(order, elements, sizing, visible, wide)[i]
  {
    var n := HidesShortestPrefix(order, elements, sizing, visible, narrow);
    var w := HidesShortestPrefix(order, elements, sizing, visible, wide);
    LongerPrefixHidesMore(order, w, n, visible, i);
  }

  // ----- required items -----

  /** An element that must stay: it, or an element that goes with it, holds a required item. */
  ghost predicate Protected(elements: seq<Element>, required: set<ItemId>, i: nat)
    requires i < |elements|
  {
    IsLeaf(elements[i])
    && exists j :: 0 <= j < |elements| && IsLeaf(elements[j]) && Together(elements, i, j) && ContainsRequired(elements[j], required)
  }

  ghost function ProtectedFlags(elements: seq<Element>, required: set<ItemId>): (r: seq<bool>)
    ensures |r| == |elements| && forall i :: 0 <= i < |elements| ==> r[i] == Protected(elements, required, i)
  {
    seq(|elements|, i requires 0 <= i < |elements| => Protected(elements, required, i))
  }

  /** Elements that go together sit in the same unit. */
  lemma {:induction false} SameUnit(elements: seq<Element>, required: set<ItemId>, units: seq<Unit>, i: nat, j: nat, k: nat, m: nat)
    requires UnitsExact(elements, required, |elements|, units) && i < |elements| && j < |elements|
    requires k < |units| && m < |units| && i in units[k].elements && j in units[m].elements
    requires Together(elements, i, j)
    ensures k == m
  {
    MemberFacts(elements, required, |elements|, units[k], i);
    MemberFacts(elements, required, |elements|, units[m], j);
    SeparateUnits(elements, units, i, j, k, m);
  }

  lemma {:induction false} SeparateUnits(elements: seq<Element>, units: seq<Unit>, i: nat, j: nat, k: nat, m: nat)
    requires Separate(units) && i < |elements| && j < |elements| && k < |units| && m < |units|
    requires units[k].group == UnitGroup(elements[i]) && (units[k].group.None? ==> units[k].trailing == i)
    requires units[m].group == UnitGroup(elements[j]) && (units[m].group.None? ==> units[m].trailing == j)
    requires Together(elements, i, j)
    ensures k == m
  {
  }

  lemma {:induction false} OwnUnit(elements: seq<Element>, required: set<ItemId>, units: seq<Unit>, i: nat) returns (k: nat)
    requires UnitsExact(elements, required, |elements|, units) && i < |elements| && IsLeaf(elements[i])
    ensures k < |units| && i in units[k].elements
  {
    assert Placed(units, i);
    var u, p :| 0 <= u < |units| && 0 <= p < |units[u].elements| && units[u].elements[p] == i;
    k := u;
  }

  lemma {:induction false} TogetherInUnit(elements: seq<Element>, required: set<ItemId>, unit: Unit, i: nat, j: nat)
    requires UnitExact(elements, required, |elements|, unit) && i in unit.elements && j in unit.elements
    ensures i < |elements| && j < |elements| && IsLeaf(elements[j]) && Together(elements, i, j)
  {
    MemberFacts(elements, required, |elements|, unit, i);
    MemberFacts(elements, required, |elements|, unit, j);
  }

  lemma {:induction false} RequiredUnitIsProtected(elements: seq<Element>, required: set<ItemId>, units: seq<Unit>, i: nat, k: nat)
    requires UnitsExact(elements, required, |elements|, units) && i < |elements| && IsLeaf(elements[i])
    requires k < |units| && i in units[k].elements
    ensures units[k].required <==> Protected(elements, required, i)
  {
    RequiredFacts(elements, required, |elements|, units[k]);
    if units[k].required {
      var j :| j in units[k].elements && j < |elements| && ContainsRequired(elements[j], required);
      TogetherInUnit(elements, required, units[k], i, j);
    }
    if Protected(elements, required, i) {
      var j :| 0 <= j < |elements| && IsLeaf(elements[j]) && Together(elements, i, j) && ContainsRequired(elements[j], required);
      var m := OwnUnit(elements, required, units, j);
      SameUnit(elements, required, units, i, j, k, m);
    }
  }

  /** Being hidden with all the candidates means sitting in a unit without required items. */
  lemma {:induction false} InOrderIsOptional(elements: seq<Element>, required: set<ItemId>, units: seq<Unit>, i: nat, k: nat)
    requires UnitsExact(elements, required, |elements|, units) && i < |elements| && IsLeaf(elements[i])
    requires k < |units| && i in units[k].elements
    ensures InSome(HidingOrder(units), i) <==> !units[k].required
  {
    var order := HidingOrder(units);
    HidingOrderFacts(units);
    if !units[k].required {
      assert units[k] in order;
      var m :| 0 <= m < |order| && order[m] == units[k];
      assert InSome(order, i);
    }
    if InSome(order, i) {
      var m :| 0 <= m < |order| && i in order[m].elements;
      assert order[m] in order;
      var u :| 0 <= u < |units| && units[u] == order[m];
      SameUnit(elements, required, units, i, i, k, u);
    }
  }

  /** Hiding every candidate leaves exactly the protected elements. */
  lemma {:induction false} HidingAllKeepsProtected(elements: seq<Element>, required: set<ItemId>, units: seq<Unit>, i: nat)
    requires UnitsExact(elements, required, |elements|, units) && i < |elements|
    ensures var order := HidingOrder(units);
            HidePrefix(order, |order|, Shown(elements))[i] <==> Protected(elements, required, i)
  {
    var order := HidingOrder(units);
    HidePrefixEffect(order, |order|, Shown(elements), i);
    assert order[..|order|] == order;
    if IsLeaf(elements[i]) {
      var k := OwnUnit(elements, required, units, i);
      RequiredUnitIsProtected(elements, required, units, i, k);
      InOrderIsOptional(elements, required, units, i, k);
    }
  }

  /** The elements that stay visible at a given width. */
  function Survivors(elements: seq<Element>, units: seq<Unit>, sizing: seq<Sizing>, available: nat): (r: seq<bool>)
    requires |sizing| == |elements|
    ensures |r| == |elements|
  {
    HideUntilFits(HidingOrder(units), elements, sizing, Shown(elements), available)
  }

  /** The bar is too narrow exactly when its protected minima and its spaces exceed the width, and
      then that sum is what remains. */
  lemma {:induction false} InsufficientExactly(elements: seq<Element>, required: set<ItemId>, units: seq<Unit>, sizing: seq<Sizing>, available: nat)
    requires UnitsExact(elements, required, |elements|, units) && |sizing| == |elements|
    ensures var needed := TotalWidth(elements, ProtectedFlags(elements, required), sizing);
            var total := TotalWidth(elements, Survivors(elements, units, sizing, available), sizing);
            (total > available <==> needed > available) && (total > available ==> total == needed)
  {
    var order := HidingOrder(units);
    var all := HidePrefix(order, |order|, Shown(elements));
    forall i | 0 <= i < |elements| ensures all[i] == Protected(elements, required, i) {
      HidingAllKeepsProtected(elements, required, units, i);
    }
    assert all == ProtectedFlags(elements, required);
    var count := HidesShortestPrefix(order, elements, sizing, Shown(elements), available);
    forall i | 0 <= i < |elements| ensures all[i] ==> HidePrefix(order, count, Shown(elements))[i] {
      LongerPrefixHidesMore(order, count, |order|, Shown(elements), i);
    }
    FewerVisibleIsNarrower(elements, sizing, all, HidePrefix(order, count, Shown(elements)));
  }

  /** A protected element is never hidden. */
  lemma {:induction false} ProtectedSurvives(elements: seq<Element>, required: set<ItemId>, units: seq<Unit>, sizing: seq<Sizing>, available: nat, i: nat)
    requires UnitsExact(elements, required, |elements|, units) && |sizing| == |elements| && i < |elements|
    requires Protected(elements, required, i)
    ensures Survivors(elements, units, sizing, available)[i]
  {
    HidingAllKeepsProtected(elements, required, units, i);
    var order := HidingOrder(units);
    var count := HidesShortestPrefix(order, elements, sizing, Shown(elements), available);
    LongerPrefixHidesMore(order, count, |order|, Shown(elements), i);
  }

  /** Elements of one visibility group are shown or hidden as one. */
  lemma {:induction false} GroupsAreAtomic(elements: seq<Element>, required: set<ItemId>, units: seq<Unit>, sizing: seq<Sizing>, available: nat, i: nat, j: nat)
    requires UnitsExact(elements, required, |elements|, units) && |sizing| == |elements|
    requires i < |elements| && j < |elements| && IsLeaf(elements[i]) && IsLeaf(elements[j]) && Together(elements, i, j)
    requires Survivors(elements, units, sizing, available)[i]
    ensures Survivors(elements, units, sizing, available)[j]
  {
    var order := HidingOrder(units);
    var count := HidesShortestPrefix(order, elements, sizing, Shown(elements), available);
    HidePrefixEffect(order, count, Shown(elements), i);
    HidePrefixEffect(order, count, Shown(elements), j);
    if InSome(order[..count], j) {
      HiddenTogether(elements, required, units, count, i, j);
    }
  }

  lemma {:induction false} HiddenTogether(elements: seq<Element>, required: set<ItemId>, units: seq<Unit>, count: nat, i: nat, j: nat)
    requires UnitsExact(elements, required, |elements|, units) && count <= |HidingOrder(units)|
    requires i < |elements| && j < |elements| && IsLeaf(elements[i]) && IsLeaf(elements[j]) && Together(elements, i, j)
    requires InSome(HidingOrder(units)[..count], j)
    ensures InSome(HidingOrder(units)[..count], i)
  {
    var hidden := HidingOrder(units)[..count];
    HidingOrderFacts(units);
    var k := OwnUnit(elements, required, units, i);
    var m :| 0 <= m < |hidden| && j in hidden[m].elements;
    assert hidden[m] in HidingOrder(units);
    var u :| 0 <= u < |units| && units[u] == hidden[m];
    SameUnit(elements, required, units, i, j, k, u);
    assert i in hidden[m].elements;
  }
}
