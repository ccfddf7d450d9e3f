/** From a valid bar and an available width to rectangles. */
module LayoutResolve {
  import opened Basics
  import opened LayoutTypes
  import opened LayoutWidths
  import opened LayoutGroups
  import opened LayoutValidate
  import opened LayoutUnits
  import opened LayoutOverflow
  import opened Ordering

  // ----- compression of the visible elements -----

  function Natural(element: Element, visible: bool, sizing: Sizing): nat {
    match element
    case Item(_) => if visible then sizing.preferred else 0
    case Group(_) => if visible then sizing.preferred else 0
    case FixedSpace(width) => width
    case FlexibleSpace(minimum, _) => minimum
  }

  function Naturals(elements: seq<Element>, visible: seq<bool>, sizing: seq<Sizing>): (r: seq<nat>)
    requires |elements| == |visible| == |sizing|
    ensures |r| == |elements|
    ensures forall i :: 0 <= i < |elements| ==> r[i] == Natural(elements[i], visible[i], sizing[i])
  {
    seq(|elements|, i requires 0 <= i < |elements| => Natural(elements[i], visible[i], sizing[i]))
  }

  function CompressionPriority(element: Element): int
    requires IsLeaf(element)
  {
    if element.Item? then element.item.compressionPriority else element.group.compressionPriority
  }

  function CandidatesFrom(elements: seq<Element>, visible: seq<bool>, i: nat): seq<Candidate>
    requires |elements| == |visible| && i <= |elements|
    decreases |elements| - i
  {
    if i == |elements| then []
    else if visible[i] && IsLeaf(elements[i]) then
      [Candidate(CompressionPriority(elements[i]), i)] + CandidatesFrom(elements, visible, i + 1)
    else CandidatesFrom(elements, visible, i + 1)
  }

  lemma {:induction false} CandidatesFacts(elements: seq<Element>, visible: seq<bool>, i: nat)
    requires |elements| == |visible| && i <= |elements|
    ensures forall k :: 0 <= k < |CandidatesFrom(elements, visible, i)| ==> i <= CandidatesFrom(elements, visible, i)[k].index < |elements|
    ensures DistinctIndices(CandidatesFrom(elements, visible, i))
    ensures forall j :: i <= j < |elements| ==>
              (Mentions(CandidatesFrom(elements, visible, i), j) <==> visible[j] && IsLeaf(elements[j]))
    decreases |elements| - i
  {
    if i < |elements| {
      CandidatesFacts(elements, visible, i + 1);
      var all, rest := CandidatesFrom(elements, visible, i), CandidatesFrom(elements, visible, i + 1);
      if visible[i] && IsLeaf(elements[i]) {
        assert all[0].index == i && all[1..] == rest;
        forall j | i <= j < |elements| ensures Mentions(all, j) <==> visible[j] && IsLeaf(elements[j]) {
          MentionsTail(all, j);
        }
      } else {
        assert !Mentions(rest, i);
      }
    }
  }

  /** Everything later stages rely on: sized, sound elements, and flags only on items and groups. */
  ghost predicate Ready(elements: seq<Element>, visible: seq<bool>, sizing: seq<Sizing>) {
    && |visible| == |elements| && Sized(elements, sizing) && AllSoundTop(elements)
    && forall i :: 0 <= i < |elements| && visible[i] ==> IsLeaf(elements[i])
  }

  lemma {:induction false} TopSizingOrdered(element: Element)
    requires SoundTop(element)
    ensures TopSizing(element).Ok? && TopSizing(element).value.Ordered()
  {
    if element.Group? {
      GroupSizingFacts(element.group);
    }
  }

  lemma {:induction false} FloorsBelowNaturals(elements: seq<Element>, visible: seq<bool>, sizing: seq<Sizing>)
    requires Ready(elements, visible, sizing)
    ensures Growable(Floors(elements, visible, sizing), Naturals(elements, visible, sizing))
  {
    forall i | 0 <= i < |elements|
      ensures Floors(elements, visible, sizing)[i] <= Naturals(elements, visible, sizing)[i]
    {
      assert SoundTop(elements[i]);
      TopSizingOrdered(elements[i]);
    }
  }

  function CompressedOrder(elements: seq<Element>, visible: seq<bool>): seq<Candidate>
    requires |elements| == |visible|
  {
    CompressionOrder(CandidatesFrom(elements, visible, 0))
  }

  lemma {:induction false} CompressionIsUsable(elements: seq<Element>, visible: seq<bool>, sizing: seq<Sizing>)
    requires Ready(elements, visible, sizing)
    ensures Compressible(CompressedOrder(elements, visible), Naturals(elements, visible, sizing), Floors(elements, visible, sizing))
    ensures DistinctIndices(CompressedOrder(elements, visible))
    ensures forall i :: 0 <= i < |elements| ==> (Mentions(CompressedOrder(elements, visible), i) <==> visible[i])
  {
    var candidates := CandidatesFrom(elements, visible, 0);
    CandidatesFacts(elements, visible, 0);
    OrderKeepsIndices(candidates);
    FloorsBelowNaturals(elements, visible, sizing);
    forall c | c in CompressedOrder(elements, visible) ensures c.index < |elements| {
      assert c in candidates;
      var k :| 0 <= k < |candidates| && candidates[k] == c;
    }
  }

  function Compressed(elements: seq<Element>, visible: seq<bool>, sizing: seq<Sizing>, available: nat): seq<nat>
    requires Ready(elements, visible, sizing)
  {
    CompressionIsUsable(elements, visible, sizing);
    var natural := Naturals(elements, visible, sizing);
    Compress(CompressedOrder(elements, visible), natural, Floors(elements, visible, sizing),
             if Sum(natural) > available then Sum(natural) - available else 0)
  }

  /** Compression fits the bar into the available width whenever the minima do, and stays between
      the minimum and the natural width of every element. */
  lemma {:induction false} CompressedFits(elements: seq<Element>, visible: seq<bool>, sizing: seq<Sizing>, available: nat)
    requires Ready(elements, visible, sizing) && TotalWidth(elements, visible, sizing) <= available
    ensures |Compressed(elements, visible, sizing, available)| == |elements|
    ensures Sum(Compressed(elements, visible, sizing, available)) == Min(Sum(Naturals(elements, visible, sizing)), available)
    ensures Growable(Floors(elements, visible, sizing), Compressed(elements, visible, sizing, available))
    ensures Growable(Compressed(elements, visible, sizing, available), Naturals(elements, visible, sizing))
  {
    CompressionIsUsable(elements, visible, sizing);
    var order, natural, floors := CompressedOrder(elements, visible), Naturals(elements, visible, sizing), Floors(elements, visible, sizing);
    var excess: nat := if Sum(natural) > available then Sum(natural) - available else 0;
    CompressBounds(order, natural, floors, excess);
    if excess > 0 {
      forall i | 0 <= i < |elements| ensures natural[i] == floors[i] || Mentions(order, i) {
        assert visible[i] ==> Mentions(order, i);
      }
      CompressRemovesExcess(order, natural, floors, excess);
    }
  }

  lemma {:induction false} InOrderIsGreedy(elements: seq<Element>, visible: seq<bool>, sizing: seq<Sizing>, available: nat, a: nat, b: nat)
    requires Ready(elements, visible, sizing) && a < b < |CompressedOrder(elements, visible)|
    ensures var order := CompressedOrder(elements, visible);
            var r := Compressed(elements, visible, sizing, available);
            && |r| == |elements| && order[a].index < |elements| && order[b].index < |elements|
            && (r[order[b].index] < Naturals(elements, visible, sizing)[order[b].index]
                ==> r[order[a].index] == Floors(elements, visible, sizing)[order[a].index])
  {
    CompressionIsUsable(elements, visible, sizing);
    var order, natural, floors := CompressedOrder(elements, visible), Naturals(elements, visible, sizing), Floors(elements, visible, sizing);
    assert order[a] in order && order[b] in order;
    CompressIsGreedy(order, natural, floors, if Sum(natural) > available then Sum(natural) - available else 0, a, b);
  }

  /** The candidate that stands for an element. */
  function CandidateOf(elements: seq<Element>, i: nat): Candidate
    requires i < |elements| && IsLeaf(elements[i])
  {
    Candidate(CompressionPriority(elements[i]), i)
  }

  lemma {:induction false} ShownIsCandidate(elements: seq<Element>, visible: seq<bool>, start: nat, i: nat)
    requires |visible| == |elements| && start <= i < |elements| && visible[i] && IsLeaf(elements[i])
    ensures CandidateOf(elements, i) in CandidatesFrom(elements, visible, start)
    decreases i - start
  {
    if start < i {
      ShownIsCandidate(elements, visible, start + 1, i);
    }
  }

  lemma {:induction false} PlaceInOrder(elements: seq<Element>, visible: seq<bool>, i: nat) returns (k: nat)
    requires |visible| == |elements| && i < |elements| && visible[i] && IsLeaf(elements[i])
    ensures k < |CompressedOrder(elements, visible)| && CompressedOrder(elements, visible)[k] == CandidateOf(elements, i)
  {
    ShownIsCandidate(elements, visible, 0, i);
    CandidatesFacts(elements, visible, 0);
    OrderKeepsIndices(CandidatesFrom(elements, visible, 0));
    k :| 0 <= k < |CompressedOrder(elements, visible)| && CompressedOrder(elements, visible)[k] == CandidateOf(elements, i);
  }

  /** Of two visible elements, the one with the higher compression priority, or the leading one of
      equals, is compressed only when the other is at its minimum. */
  lemma {:induction false} CompressedIsGreedy(elements: seq<Element>, visible: seq<bool>, sizing: seq<Sizing>, available: nat, i: nat, j: nat)
    requires Ready(elements, visible, sizing) && i < |elements| && j < |elements| && i != j && visible[i] && visible[j]
    requires CompressedBefore(CandidateOf(elements, i), CandidateOf(elements, j))
    ensures var r := Compressed(elements, visible, sizing, available);
            |r| == |elements| && (r[j] < Naturals(elements, visible, sizing)[j] ==> r[i] == Floors(elements, visible, sizing)[i])
  {
    var a := PlaceInOrder(elements, visible, i);
    var b := PlaceInOrder(elements, visible, j);
    assert a < b by {
      CompressionOrderSorts(CandidatesFrom(elements, visible, 0));
    }
    InOrderIsGreedy(elements, visible, sizing, available, a, b);
  }

  // ----- the principal item -----

  predicate ContainsItem(element: Element, id: ItemId) {
    id in Ids(ElementItems(element))
  }

  /** First visible element from `i` on that holds the item. */
  function FindPrincipal(elements: seq<Element>, visible: seq<bool>, id: ItemId, i: nat): (r: Option<nat>)
    requires |elements| == |visible| && i <= |elements|
    ensures r.Some? ==> i <= r.value < |elements| && visible[r.value] && ContainsItem(elements[r.value], id)
    ensures r.None? ==> forall j :: i <= j < |elements| && visible[j] ==> !ContainsItem(elements[j], id)
    decreases |elements| - i
  {
    if i == |elements| then None
    else if visible[i] && ContainsItem(elements[i], id) then Some(i)
    else FindPrincipal(elements, visible, id, i + 1)
  }

  function FindPlacement(placements: seq<Placement>, id: ItemId): (r: Option<Placement>)
    ensures r.Some? <==> exists k :: 0 <= k < |placements| && placements[k].id == id
    ensures r.Some? ==> r.value in placements && r.value.id == id
  {
    if placements == [] then None
    else if placements[0].id == id then Some(placements[0])
    else
      assert placements == [placements[0]] + placements[1..];
      FindPlacement(placements[1..], id)
  }

  ghost predicate Fits(element: Element, width: nat) {
    SoundTop(element) && (IsLeaf(element) ==> TopSizing(element).Ok? && TopSizing(element).value.Admits(width))
  }

  function LayoutTop(element: Element, x: nat, width: nat): seq<Placement>
    requires Fits(element, width)
  {
    match element
    case Item(item) => [Placement(item.id, x, width)]
    case Group(group) => LayoutGroup(group, x, width)
    case FixedSpace(_) => []
    case FlexibleSpace(_, _) => []
  }

  lemma {:induction false} TopIsPresented(element: Element, x: nat, width: nat)
    requires Fits(element, width)
    ensures Presents(LayoutTop(element, x, width), ElementItems(element), x, x + width)
  {
    if element.Group? {
      GroupIsPresented(element.group, x, width);
    }
  }

  /** Where the principal leaf sits inside its element, and how wide it is. */
  function PrincipalMetrics(element: Element, width: nat, id: ItemId): (r: Option<(nat, nat)>)
    requires Fits(element, width)
    ensures ContainsItem(element, id) ==> r.Some?
    ensures r.Some? ==> r.value.0 + r.value.1 <= width
  {
    TopIsPresented(element, 0, width);
    var found := FindPlacement(LayoutTop(element, 0, width), id);
    assert ContainsItem(element, id) ==> found.Some? by {
      if ContainsItem(element, id) {
        var k :| 0 <= k < |Ids(ElementItems(element))| && Ids(ElementItems(element))[k] == id;
        assert LayoutTop(element, 0, width)[k].id == id;
      }
    }
    match found
    case None => None
    case Some(placement) => Some((placement.x, placement.width))
  }

  /** Position that centres the leaf at `offset` inside the element, limited to `[low, high]`. */
  function AnchorX(available: nat, offset: nat, leaf: nat, low: nat, high: nat): nat
    requires low <= high && leaf <= available
  {
    var centred := (available - leaf) / 2;
    Clamp(if centred >= offset then centred - offset else 0, low, high)
  }

  function Distance(a: int, b: int): nat {
    if a <= b then b - a else a - b
  }

  /** The anchor is the point of its range nearest to the one that centres the leaf. */
  lemma {:induction false} AnchorIsNearest(available: nat, offset: nat, leaf: nat, low: nat, high: nat, other: nat)
    requires low <= other <= high && leaf <= available
    ensures low <= AnchorX(available, offset, leaf, low, high) <= high
    ensures Distance(AnchorX(available, offset, leaf, low, high), (available - leaf) / 2 - offset)
            <= Distance(other, (available - leaf) / 2 - offset)
  {
  }

  // ----- flexible space -----

  function FlexBetween(elements: seq<Element>, i: nat, high: nat): seq<Flex>
    requires i <= high <= |elements|
    decreases high - i
  {
    if i == high then []
    else if elements[i].FlexibleSpace? then [Flex(i, elements[i].weight)] + FlexBetween(elements, i + 1, high)
    else FlexBetween(elements, i + 1, high)
  }

  ghost predicate HasFlex(elements: seq<Element>, i: nat, high: nat)
    requires i <= high <= |elements|
  {
    exists j :: i <= j < high && elements[j].FlexibleSpace?
  }

  lemma {:induction false} FlexBetweenFacts(elements: seq<Element>, i: nat, high: nat)
    requires i <= high <= |elements|
    ensures Increasing(FlexBetween(elements, i, high))
    ensures forall k :: 0 <= k < |FlexBetween(elements, i, high)| ==>
              i <= FlexBetween(elements, i, high)[k].index < high
              && elements[FlexBetween(elements, i, high)[k].index].FlexibleSpace?
    decreases high - i
  {
    if i < high {
      FlexBetweenFacts(elements, i + 1, high);
      if elements[i].FlexibleSpace? {
        IncreasingCons(Flex(i, elements[i].weight), FlexBetween(elements, i + 1, high));
      }
    }
  }

  lemma {:induction false} IncreasingCons(first: Flex, rest: seq<Flex>)
    requires Increasing(rest) && forall k :: 0 <= k < |rest| ==> first.index < rest[k].index
    ensures Increasing([first] + rest)
  {
  }

  lemma {:induction false} FlexBetweenWeight(elements: seq<Element>, i: nat, high: nat)
    requires i <= high <= |elements| && AllSoundTop(elements)
    ensures TotalWeight(FlexBetween(elements, i, high)) > 0 <==> HasFlex(elements, i, high)
    decreases high - i
  {
    if i < high {
      FlexBetweenWeight(elements, i + 1, high);
      assert SoundTop(elements[i]);
      if elements[i].FlexibleSpace? {
        assert FlexBetween(elements, i, high)[1..] == FlexBetween(elements, i + 1, high);
      }
      if HasFlex(elements, i + 1, high) {
        var j :| i + 1 <= j < high && elements[j].FlexibleSpace?;
        assert HasFlex(elements, i, high);
      }
      if HasFlex(elements, i, high) && !elements[i].FlexibleSpace? {
        var j :| i <= j < high && elements[j].FlexibleSpace?;
        assert i + 1 <= j;
      }
    }
  }

  /** Hand `extra` to the flexible spaces at positions `low` to `high`. */
  function Spread(elements: seq<Element>, widths: seq<nat>, low: nat, high: nat, extra: nat): (r: seq<nat>)
    requires low <= high <= |elements| == |widths|
    ensures |r| == |widths|
  {
    FlexBetweenFacts(elements, low, high);
    Distribute(FlexBetween(elements, low, high), widths, extra)
  }

  /** Only flexible spaces of the range widen. */
  lemma {:induction false} SpreadFrame(elements: seq<Element>, widths: seq<nat>, low: nat, high: nat, extra: nat, i: nat)
    requires low <= high <= |elements| == |widths| && i < |widths|
    ensures !(low <= i < high && elements[i].FlexibleSpace?) ==> Spread(elements, widths, low, high, extra)[i] == widths[i]
  {
    FlexBetweenFacts(elements, low, high);
    DistributeFrame(FlexBetween(elements, low, high), widths, extra, i);
  }

  /** The range absorbs exactly `extra`, if it holds a flexible space at all. */
  lemma {:induction false} SpreadAbsorbs(elements: seq<Element>, widths: seq<nat>, low: nat, high: nat, extra: nat)
    requires low <= high <= |elements| == |widths| && AllSoundTop(elements)
    ensures Spread(elements, widths, low, high, extra)[..low] == widths[..low]
    ensures Spread(elements, widths, low, high, extra)[high..] == widths[high..]
    ensures Sum(Spread(elements, widths, low, high, extra)[low..high])
            == Sum(widths[low..high]) + (if HasFlex(elements, low, high) then extra else 0)
  {
    var r := Spread(elements, widths, low, high, extra);
    assert r[..low] == widths[..low] by {
      forall i | 0 <= i < low ensures r[i] == widths[i] {
        SpreadFrame(elements, widths, low, high, extra, i);
      }
    }
    assert r[high..] == widths[high..] by {
      forall i | high <= i < |r| ensures r[i] == widths[i] {
        SpreadFrame(elements, widths, low, high, extra, i);
      }
    }
    assert Sum(r) == Sum(widths) + (if HasFlex(elements, low, high) then extra else 0) by {
      FlexBetweenFacts(elements, low, high);
      FlexBetweenWeight(elements, low, high);
      DistributeAbsorbs(FlexBetween(elements, low, high), widths, extra);
    }
    SumThreeParts(widths, low, high);
    SumThreeParts(r, low, high);
  }

  lemma {:induction false} SumThreeParts(s: seq<nat>, low: nat, high: nat)
    requires low <= high <= |s|
    ensures Sum(s) == Sum(s[..low]) + Sum(s[low..high]) + Sum(s[high..])
  {
    assert s == (s[..low] + s[low..high]) + s[high..];
    SumConcat(s[..low] + s[low..high], s[high..]);
    SumConcat(s[..low], s[low..high]);
  }

  // ----- arrangement -----

  /** The element that carries the principal leaf and its left edge. */
  datatype Anchor = Anchor(index: nat, x: nat)

  datatype Arrangement = Arrangement(widths: seq<nat>, anchor: Option<Anchor>)

  function PrincipalOf(bar: BarSpec, visible: seq<bool>): (r: Option<nat>)
    requires |visible| == |bar.elements|
    ensures r.Some? ==> r.value < |bar.elements| && visible[r.value]
  {
    if bar.principalItem.None? then None else FindPrincipal(bar.elements, visible, bar.principalItem.value, 0)
  }

  /** Every visible element from `i` on has an admissible width. */
  ghost predicate FitFrom(elements: seq<Element>, visible: seq<bool>, widths: seq<nat>, i: nat)
    requires |elements| == |visible| == |widths| && i <= |elements|
    decreases |elements| - i
  {
    i == |elements| || ((visible[i] ==> Fits(elements[i], widths[i])) && FitFrom(elements, visible, widths, i + 1))
  }

  ghost predicate AllFit(elements: seq<Element>, visible: seq<bool>, widths: seq<nat>) {
    |elements| == |visible| == |widths| && FitFrom(elements, visible, widths, 0)
  }

  lemma {:induction false} FitAt(elements: seq<Element>, visible: seq<bool>, widths: seq<nat>, i: nat, j: nat)
    requires |elements| == |visible| == |widths| && i <= j < |elements|
    requires FitFrom(elements, visible, widths, i) && visible[j]
    ensures Fits(elements[j], widths[j])
    decreases |elements| - i
  {
    if i < j {
      FitAt(elements, visible, widths, i + 1, j);
    }
  }

  lemma {:induction false} FitAll(elements: seq<Element>, visible: seq<bool>, widths: seq<nat>, i: nat)
    requires |elements| == |visible| == |widths| && i <= |elements|
    requires forall j :: 0 <= j < |elements| && visible[j] ==> Fits(elements[j], widths[j])
    ensures FitFrom(elements, visible, widths, i)
    decreases |elements| - i
  {
    if i < |elements| {
      FitAll(elements, visible, widths, i + 1);
    }
  }

  lemma {:induction false} CompressedFit(elements: seq<Element>, visible: seq<bool>, sizing: seq<Sizing>, available: nat)
    requires Ready(elements, visible, sizing) && TotalWidth(elements, visible, sizing) <= available
    ensures AllFit(elements, visible, Compressed(elements, visible, sizing, available))
  {
    var widths := Compressed(elements, visible, sizing, available);
    CompressedFits(elements, visible, sizing, available);
    forall i | 0 <= i < |elements| && visible[i] ensures Fits(elements[i], widths[i]) {
      assert SoundTop(elements[i]) && TopSizing(elements[i]) == Ok(sizing[i]);
      TopSizingOrdered(elements[i]);
      assert Floors(elements, visible, sizing)[i] <= widths[i] <= Naturals(elements, visible, sizing)[i];
    }
    FitAll(elements, visible, widths, 0);
  }

  /** Left edge of the principal element `p` when the elements have the given base widths. */
  function PrincipalX(bar: BarSpec, visible: seq<bool>, widths: seq<nat>, available: nat, p: nat): (x: nat)
    requires AllFit(bar.elements, visible, widths) && Sum(widths) <= available
    requires bar.principalItem.Some? && p < |widths| && visible[p] && ContainsItem(bar.elements[p], bar.principalItem.value)
    ensures Sum(widths[..p]) <= x && x + widths[p] + Sum(widths[p + 1..]) <= available
  {
    SumSplit(widths, p);
    FitAt(bar.elements, visible, widths, 0, p);
    var metrics := PrincipalMetrics(bar.elements[p], widths[p], bar.principalItem.value).value;
    AnchorX(available, metrics.0, metrics.1, Sum(widths[..p]), available - widths[p] - Sum(widths[p + 1..]))
  }

  /** Free space goes to the flexible spaces left and right of an element pinned at `x`. */
  function ArrangeAround(elements: seq<Element>, widths: seq<nat>, available: nat, p: nat, x: nat): Arrangement
    requires p < |elements| == |widths|
    requires Sum(widths[..p]) <= x && x + widths[p] + Sum(widths[p + 1..]) <= available
  {
    var left := Spread(elements, widths, 0, p, x - Sum(widths[..p]));
    var both := Spread(elements, left, p + 1, |elements|, available - x - widths[p] - Sum(widths[p + 1..]));
    Arrangement(both, Some(Anchor(p, x)))
  }

  function Arrange(bar: BarSpec, visible: seq<bool>, widths: seq<nat>, available: nat): Arrangement
    requires AllFit(bar.elements, visible, widths) && Sum(widths) <= available
  {
    match PrincipalOf(bar, visible)
    case None =>
      Arrangement(Spread(bar.elements, widths, 0, |bar.elements|, available - Sum(widths)), None)
    case Some(p) =>
      ArrangeAround(bar.elements, widths, available, p, PrincipalX(bar, visible, widths, available, p))
  }

  /** The arrangement stays inside the bar: everything before the anchor ends at or before it, and
      everything from the anchor on ends at or before the available width. */
  ghost predicate Inside(a: Arrangement, available: nat) {
    match a.anchor
    case None => Sum(a.widths) <= available
    case Some(Anchor(p, x)) =>
      p < |a.widths| && Sum(a.widths[..p]) <= x && x + Sum(a.widths[p..]) <= available
  }

  lemma {:induction false} ArrangeNone(bar: BarSpec, visible: seq<bool>, widths: seq<nat>, available: nat)
    requires AllSoundTop(bar.elements) && AllFit(bar.elements, visible, widths) && Sum(widths) <= available
    requires PrincipalOf(bar, visible).None?
    ensures Inside(Arrange(bar, visible, widths, available), available)
    ensures HasFlex(bar.elements, 0, |bar.elements|) ==> Sum(Arrange(bar, visible, widths, available).widths) == available
  {
    var n := |bar.elements|;
    var r := Spread(bar.elements, widths, 0, n, available - Sum(widths));
    SpreadAbsorbs(bar.elements, widths, 0, n, available - Sum(widths));
    assert r[0..n] == r && widths[0..n] == widths;
  }

  lemma {:induction false} SpreadLeft(elements: seq<Element>, widths: seq<nat>, p: nat, extra: nat)
    requires p < |elements| == |widths| && AllSoundTop(elements)
    ensures var r := Spread(elements, widths, 0, p, extra);
            && r[p] == widths[p] && r[p + 1..] == widths[p + 1..]
            && Sum(r[..p]) == Sum(widths[..p]) + (if HasFlex(elements, 0, p) then extra else 0)
  {
    var r := Spread(elements, widths, 0, p, extra);
    SpreadAbsorbs(elements, widths, 0, p, extra);
    assert r[0..p] == r[..p] && widths[0..p] == widths[..p];
    assert r[p] == r[p..][0] && r[p + 1..] == r[p..][1..];
    assert widths[p] == widths[p..][0] && widths[p + 1..] == widths[p..][1..];
  }

  lemma {:induction false} SpreadRight(elements: seq<Element>, widths: seq<nat>, p: nat, extra: nat)
    requires p < |elements| == |widths| && AllSoundTop(elements)
    ensures var r := Spread(elements, widths, p + 1, |elements|, extra);
            && r[..p] == widths[..p] && r[p] == widths[p]
            && Sum(r[p + 1..]) == Sum(widths[p + 1..]) + (if HasFlex(elements, p + 1, |elements|) then extra else 0)
  {
    var n := |elements|;
    var r := Spread(elements, widths, p + 1, n, extra);
    SpreadAbsorbs(elements, widths, p + 1, n, extra);
    assert r[p + 1..n] == r[p + 1..] && widths[p + 1..n] == widths[p + 1..];
    assert r[..p] == r[..p + 1][..p] && r[p] == r[..p + 1][p];
    assert widths[..p] == widths[..p + 1][..p] && widths[p] == widths[..p + 1][p];
  }

  lemma {:induction false} ArrangeAroundAbsorbs(elements: seq<Element>, widths: seq<nat>, available: nat, p: nat, x: nat)
    requires p < |elements| == |widths| && AllSoundTop(elements)
    requires Sum(widths[..p]) <= x && x + widths[p] + Sum(widths[p + 1..]) <= available
    ensures var a := ArrangeAround(elements, widths, available, p, x);
            && Inside(a, available) && a.widths[p] == widths[p]
            && (HasFlex(elements, 0, p) ==> Sum(a.widths[..p]) == x)
            && (HasFlex(elements, p + 1, |elements|) ==> x + Sum(a.widths[p..]) == available)
  {
    var left := Spread(elements, widths, 0, p, x - Sum(widths[..p]));
    SpreadLeft(elements, widths, p, x - Sum(widths[..p]));
    var slack := available - x - widths[p] - Sum(widths[p + 1..]);
    var both := Spread(elements, left, p + 1, |elements|, slack);
    SpreadRight(elements, left, p, slack);
    assert both[p..] == [both[p]] + both[p + 1..];
  }

  /** With a visible principal, flexible spaces on each side absorb exactly that side's slack. */
  lemma {:induction false} ArrangeSome(bar: BarSpec, visible: seq<bool>, widths: seq<nat>, available: nat)
    requires AllSoundTop(bar.elements) && AllFit(bar.elements, visible, widths) && Sum(widths) <= available
    requires PrincipalOf(bar, visible).Some?
    ensures var a := Arrange(bar, visible, widths, available);
            var p := PrincipalOf(bar, visible).value;
            && Inside(a, available) && a.anchor == Some(Anchor(p, PrincipalX(bar, visible, widths, available, p)))
            && a.widths[p] == widths[p]
            && (HasFlex(bar.elements, 0, p) ==> Sum(a.widths[..p]) == a.anchor.value.x)
            && (HasFlex(bar.elements, p + 1, |bar.elements|) ==> a.anchor.value.x + Sum(a.widths[p..]) == available)
  {
    var p := PrincipalOf(bar, visible).value;
    ArrangeAroundAbsorbs(bar.elements, widths, available, p, PrincipalX(bar, visible, widths, available, p));
  }

  lemma {:induction false} ArrangeAroundFrame(elements: seq<Element>, widths: seq<nat>, available: nat, p: nat, x: nat, i: nat)
    requires p < |elements| == |widths| && i < |widths|
    requires Sum(widths[..p]) <= x && x + widths[p] + Sum(widths[p + 1..]) <= available
    ensures |ArrangeAround(elements, widths, available, p, x).widths| == |widths|
    ensures !elements[i].FlexibleSpace? ==> ArrangeAround(elements, widths, available, p, x).widths[i] == widths[i]
  {
    var left := Spread(elements, widths, 0, p, x - Sum(widths[..p]));
    SpreadFrame(elements, widths, 0, p, x - Sum(widths[..p]), i);
    SpreadFrame(elements, left, p + 1, |elements|, available - x - widths[p] - Sum(widths[p + 1..]), i);
  }

  /** Spreading free space leaves every visible element as it was. */
  lemma {:induction false} ArrangeKeepsFit(bar: BarSpec, visible: seq<bool>, widths: seq<nat>, available: nat, i: nat)
    requires AllFit(bar.elements, visible, widths) && Sum(widths) <= available
    requires i < |widths|
    ensures |Arrange(bar, visible, widths, available).widths| == |widths|
    ensures !bar.elements[i].FlexibleSpace? ==> Arrange(bar, visible, widths, available).widths[i] == widths[i]
  {
    match PrincipalOf(bar, visible)
    case None =>
      SpreadFrame(bar.elements, widths, 0, |bar.elements|, available - Sum(widths), i);
    case Some(p) =>
      ArrangeAroundFrame(bar.elements, widths, available, p, PrincipalX(bar, visible, widths, available, p), i);
  }

  // ----- placement -----

  function Here(anchor: Option<Anchor>, i: nat, x: nat): nat {
    if anchor.Some? && anchor.value.index == i then anchor.value.x else x
  }

  /** The right edge of the content of a walk. */
  function EndFrom(widths: seq<nat>, anchor: Option<Anchor>, i: nat, x: nat): nat
    requires i <= |widths|
    decreases |widths| - i
  {
    if i == |widths| then x else EndFrom(widths, anchor, i + 1, Here(anchor, i, x) + widths[i])
  }

  /** Walk the bar from element `i` at position `x`: placements of what is visible, identifiers of
      what is hidden, and the right edge of the content. */
  function PlaceFrom(elements: seq<Element>, visible: seq<bool>, widths: seq<nat>, anchor: Option<Anchor>, i: nat, x: nat): (r: ResolvedLayout)
    requires AllFit(elements, visible, widths) && i <= |elements|
    ensures r.contentWidth == EndFrom(widths, anchor, i, x)
    decreases |elements| - i
  {
    if i == |elements| then
      ResolvedLayout([], [], x)
    else
      var here := Here(anchor, i, x);
      var rest := PlaceFrom(elements, visible, widths, anchor, i + 1, here + widths[i]);
      if visible[i] then
        FitAt(elements, visible, widths, 0, i);
        rest.(placements := LayoutTop(elements[i], here, widths[i]) + rest.placements)
      else
        rest.(hiddenItems := Ids(ElementItems(elements[i])) + rest.hiddenItems)
  }

  function ItemsFrom(elements: seq<Element>, flags: seq<bool>, wanted: bool, i: nat): seq<ItemSpec>
    requires |elements| == |flags| && i <= |elements|
    decreases |elements| - i
  {
    if i == |elements| then []
    else (if flags[i] == wanted then ElementItems(elements[i]) else []) + ItemsFrom(elements, flags, wanted, i + 1)
  }

  /** Items of the visible elements, in bar order. */
  function VisibleItems(elements: seq<Element>, visible: seq<bool>): seq<ItemSpec>
    requires |elements| == |visible|
  {
    ItemsFrom(elements, visible, true, 0)
  }

  function HiddenItems(elements: seq<Element>, visible: seq<bool>): seq<ItemSpec>
    requires |elements| == |visible|
  {
    ItemsFrom(elements, visible, false, 0)
  }

  lemma {:induction false} PlaceHidden(elements: seq<Element>, visible: seq<bool>, widths: seq<nat>, anchor: Option<Anchor>, i: nat, x: nat)
    requires AllFit(elements, visible, widths) && i <= |elements|
    ensures PlaceFrom(elements, visible, widths, anchor, i, x).hiddenItems == Ids(ItemsFrom(elements, visible, false, i))
    decreases |elements| - i
  {
    if i < |elements| {
      PlaceHidden(elements, visible, widths, anchor, i + 1, Here(anchor, i, x) + widths[i]);
      IdsConcat(if visible[i] == false then ElementItems(elements[i]) else [], ItemsFrom(elements, visible, false, i + 1));
    }
  }

  lemma {:induction false} FreeEnd(widths: seq<nat>, anchor: Option<Anchor>, i: nat, x: nat)
    requires i <= |widths| && (anchor.Some? ==> anchor.value.index < i)
    ensures EndFrom(widths, anchor, i, x) == x + Sum(widths[i..])
    decreases |widths| - i
  {
    if i < |widths| {
      FreeEnd(widths, anchor, i + 1, x + widths[i]);
      assert widths[i..] == [widths[i]] + widths[i + 1..];
    }
  }

  lemma {:induction false} AnchoredEnd(widths: seq<nat>, anchor: Anchor, i: nat, x: nat)
    requires i <= anchor.index < |widths|
    ensures EndFrom(widths, Some(anchor), i, x) == anchor.x + Sum(widths[anchor.index..])
    decreases |widths| - i
  {
    if i == anchor.index {
      FreeEnd(widths, Some(anchor), i + 1, anchor.x + widths[i]);
      assert widths[i..] == [widths[i]] + widths[i + 1..];
    } else {
      AnchoredEnd(widths, anchor, i + 1, x + widths[i]);
    }
  }

  /** The walk from element `i` at `x` presents the visible items from there on. */
  ghost predicate WalkPresents(elements: seq<Element>, visible: seq<bool>, widths: seq<nat>, anchor: Option<Anchor>, i: nat, x: nat)
    requires AllFit(elements, visible, widths) && i <= |elements|
  {
    var r := PlaceFrom(elements, visible, widths, anchor, i, x);
    x <= r.contentWidth && Presents(r.placements, ItemsFrom(elements, visible, true, i), x, r.contentWidth)
  }

  lemma {:induction false} PlaceUnfold(elements: seq<Element>, visible: seq<bool>, widths: seq<nat>, anchor: Option<Anchor>, i: nat, x: nat)
    requires AllFit(elements, visible, widths) && i < |elements|
    ensures visible[i] ==> Fits(elements[i], widths[i])
    ensures var here := Here(anchor, i, x);
            var r, rest := PlaceFrom(elements, visible, widths, anchor, i, x),
                           PlaceFrom(elements, visible, widths, anchor, i + 1, here + widths[i]);
            && r.contentWidth == rest.contentWidth
            && r.placements == (if visible[i] then LayoutTop(elements[i], here, widths[i]) else []) + rest.placements
  {
    if visible[i] {
      FitAt(elements, visible, widths, 0, i);
    }
  }

  /** One element: what follows is presented from its right edge on, so is the whole from its left edge on. */
  lemma {:induction false} WalkStep(elements: seq<Element>, visible: seq<bool>, widths: seq<nat>, anchor: Option<Anchor>, i: nat, x: nat)
    requires AllFit(elements, visible, widths) && i < |elements| && x <= Here(anchor, i, x)
    requires WalkPresents(elements, visible, widths, anchor, i + 1, Here(anchor, i, x) + widths[i])
    ensures WalkPresents(elements, visible, widths, anchor, i, x)
  {
    var here := Here(anchor, i, x);
    var right := here + widths[i];
    var rest := PlaceFrom(elements, visible, widths, anchor, i + 1, right);
    PlaceUnfold(elements, visible, widths, anchor, i, x);
    var own := if visible[i] then LayoutTop(elements[i], here, widths[i]) else [];
    var ownItems := if visible[i] then ElementItems(elements[i]) else [];
    assert Presents(own, ownItems, x, right) by {
      if visible[i] {
        TopIsPresented(elements[i], here, widths[i]);
        PresentsWider(own, ownItems, here, right, x, right);
      }
    }
    PresentsConcat(own, ownItems, rest.placements, ItemsFrom(elements, visible, true, i + 1), x, right, right, rest.contentWidth);
    assert ItemsFrom(elements, visible, true, i) == ownItems + ItemsFrom(elements, visible, true, i + 1);
  }

  /** Once the anchor is behind, elements follow each other without gaps. */
  lemma {:induction false} WalkFreely(elements: seq<Element>, visible: seq<bool>, widths: seq<nat>, anchor: Option<Anchor>, i: nat, x: nat)
    requires AllFit(elements, visible, widths) && i <= |elements| && (anchor.Some? ==> anchor.value.index < i)
    ensures WalkPresents(elements, visible, widths, anchor, i, x)
    decreases |elements| - i
  {
    if i < |elements| {
      WalkFreely(elements, visible, widths, anchor, i + 1, x + widths[i]);
      WalkStep(elements, visible, widths, anchor, i, x);
    }
  }

  /** Up to the anchor, the elements fit to its left; from there on everything follows it. */
  lemma {:induction false} SumFirst(s: seq<nat>, i: nat, j: nat)
    requires i < j <= |s|
    ensures Sum(s[i..j]) == s[i] + Sum(s[i + 1..j])
  {
    assert s[i..j] == [s[i]] + s[i + 1..j];
  }

  lemma {:induction false} WalkAtAnchor(elements: seq<Element>, visible: seq<bool>, widths: seq<nat>, anchor: Anchor, x: nat)
    requires AllFit(elements, visible, widths) && anchor.index < |elements| && x <= anchor.x
    ensures WalkPresents(elements, visible, widths, Some(anchor), anchor.index, x)
  {
    WalkFreely(elements, visible, widths, Some(anchor), anchor.index + 1, anchor.x + widths[anchor.index]);
    WalkStep(elements, visible, widths, Some(anchor), anchor.index, x);
  }

  lemma {:induction false} WalkAnchored(elements: seq<Element>, visible: seq<bool>, widths: seq<nat>, anchor: Anchor, i: nat, x: nat)
    requires AllFit(elements, visible, widths) && i <= anchor.index < |elements|
    requires x + Sum(widths[i..anchor.index]) <= anchor.x
    ensures WalkPresents(elements, visible, widths, Some(anchor), i, x)
    decreases |elements| - i
  {
    if i == anchor.index {
      WalkAtAnchor(elements, visible, widths, anchor, x);
    } else {
      SumFirst(widths, i, anchor.index);
      WalkAnchored(elements, visible, widths, anchor, i + 1, x + widths[i]);
      WalkStep(elements, visible, widths, Some(anchor), i, x);
    }
  }

  lemma {:induction false} PlacePresents(elements: seq<Element>, visible: seq<bool>, a: Arrangement, available: nat)
    requires AllFit(elements, visible, a.widths) && Inside(a, available)
    ensures var r := PlaceFrom(elements, visible, a.widths, a.anchor, 0, 0);
            && Presents(r.placements, VisibleItems(elements, visible), 0, r.contentWidth)
            && r.contentWidth == (if a.anchor.None? then Sum(a.widths) else a.anchor.value.x + Sum(a.widths[a.anchor.value.index..]))
            && r.contentWidth <= available
  {
    match a.anchor
    case None =>
      WalkFreely(elements, visible, a.widths, None, 0, 0);
      FreeEnd(a.widths, None, 0, 0);
      assert a.widths[0..] == a.widths;
    case Some(anchor) =>
      assert a.widths[0..anchor.index] == a.widths[..anchor.index];
      WalkAnchored(elements, visible, a.widths, anchor, 0, 0);
      AnchoredEnd(a.widths, anchor, 0, 0);
  }

  lemma {:induction false} ItemsSplit(elements: seq<Element>, visible: seq<bool>, i: nat)
    requires |elements| == |visible| && i <= |elements|
    ensures multiset(Ids(ItemsFrom(elements, visible, true, i))) + multiset(Ids(ItemsFrom(elements, visible, false, i)))
            == multiset(Ids(BarItems(elements[i..])))
    decreases |elements| - i
  {
    if i < |elements| {
      ItemsSplit(elements, visible, i + 1);
      assert elements[i..][0] == elements[i] && elements[i..][1..] == elements[i + 1..];
      IdsConcat(ElementItems(elements[i]), BarItems(elements[i + 1..]));
      IdsConcat(ElementItems(elements[i]), ItemsFrom(elements, visible, visible[i], i + 1));
      IdsConcat([], ItemsFrom(elements, visible, !visible[i], i + 1));
      assert Ids([]) == [];
    }
  }

  // ----- the whole solver -----

  lemma {:induction false} ValidIsSized(elements: seq<Element>)
    requires AllSoundTop(elements)
    ensures TopSizings(elements).Ok? && Sized(elements, TopSizings(elements).value)
  {
    forall i | 0 <= i < |elements| ensures TopSizing(elements[i]).Ok? {
      assert SoundTop(elements[i]);
      TopSizingOrdered(elements[i]);
    }
    TopSizingsSized(elements);
  }

  lemma {:induction false} SurvivorsAreLeaves(order: seq<Unit>, elements: seq<Element>, sizing: seq<Sizing>, visible: seq<bool>, available: nat, i: nat)
    requires |elements| == |visible| == |sizing| && i < |elements|
    ensures HideUntilFits(order, elements, sizing, visible, available)[i] ==> visible[i]
    decreases |order|
  {
    if order != [] && TotalWidth(elements, visible, sizing) > available {
      HideEffect(visible, order[0].elements, i);
      SurvivorsAreLeaves(order[1..], elements, sizing, Hide(visible, order[0].elements), available, i);
    }
  }

  lemma {:induction false} SurvivorsAreReady(elements: seq<Element>, units: seq<Unit>, sizing: seq<Sizing>, available: nat)
    requires AllSoundTop(elements) && Sized(elements, sizing)
    ensures Ready(elements, Survivors(elements, units, sizing, available), sizing)
  {
    forall i | 0 <= i < |elements| && Survivors(elements, units, sizing, available)[i] ensures IsLeaf(elements[i]) {
      SurvivorsAreLeaves(HidingOrder(units), elements, sizing, Shown(elements), available, i);
    }
  }

  function ArrangeVisible(bar: BarSpec, visible: seq<bool>, sizing: seq<Sizing>, available: nat): (a: Arrangement)
    requires Ready(bar.elements, visible, sizing) && TotalWidth(bar.elements, visible, sizing) <= available
    ensures AllFit(bar.elements, visible, a.widths) && Inside(a, available)
  {
    var widths := Compressed(bar.elements, visible, sizing, available);
    CompressedFits(bar.elements, visible, sizing, available);
    CompressedFit(bar.elements, visible, sizing, available);
    ArrangedFit(bar, visible, widths, available);
    Arrange(bar, visible, widths, available)
  }

  lemma {:induction false} ArrangedFit(bar: BarSpec, visible: seq<bool>, widths: seq<nat>, available: nat)
    requires AllSoundTop(bar.elements) && AllFit(bar.elements, visible, widths) && Sum(widths) <= available
    requires forall i :: 0 <= i < |visible| && visible[i] ==> IsLeaf(bar.elements[i])
    ensures AllFit(bar.elements, visible, Arrange(bar, visible, widths, available).widths)
    ensures Inside(Arrange(bar, visible, widths, available), available)
  {
    var a := Arrange(bar, visible, widths, available);
    if PrincipalOf(bar, visible).None? {
      ArrangeNone(bar, visible, widths, available);
    } else {
      ArrangeSome(bar, visible, widths, available);
    }
    assert |a.widths| == |widths| by {
      if |widths| > 0 {
        ArrangeKeepsFit(bar, visible, widths, available, 0);
      }
    }
    forall i | 0 <= i < |visible| && visible[i] ensures Fits(bar.elements[i], a.widths[i]) {
      FitAt(bar.elements, visible, widths, 0, i);
      ArrangeKeepsFit(bar, visible, widths, available, i);
    }
    FitAll(bar.elements, visible, a.widths, 0);
  }

  function Resolve(bar: BarSpec, available: u32, required: set<ItemId>): Result<ResolvedLayout, LayoutError> {
    var _ :- Validate(bar, required);
    var units :- UnitsUpTo(bar.elements, required, |bar.elements|);
    ValidateExact(bar, required);
    ValidIsSized(bar.elements);
    var sizing :- TopSizings(bar.elements);
    var visible := Survivors(bar.elements, units, sizing, available);
    var total := TotalWidth(bar.elements, visible, sizing);
    if total > available then
      Err(InsufficientWidth(available, Min(total, U32_LIMIT - 1)))
    else
      SurvivorsAreReady(bar.elements, units, sizing, available);
      var a := ArrangeVisible(bar, visible, sizing, available);
      Ok(PlaceFrom(bar.elements, visible, a.widths, a.anchor, 0, 0))
  }

  /** The flags of the elements that a bar shows at a given width. */
  function VisibleAt(bar: BarSpec, available: u32, required: set<ItemId>): (r: seq<bool>)
    requires ValidBar(bar, required) && UnitsUpTo(bar.elements, required, |bar.elements|).Ok?
    ensures |r| == |bar.elements|
  {
    ValidIsSized(bar.elements);
    Survivors(bar.elements, UnitsUpTo(bar.elements, required, |bar.elements|).value, TopSizings(bar.elements).value, available)
  }

  /** Minima of the protected elements plus the spaces. */
  ghost function NeededWidth(bar: BarSpec, required: set<ItemId>): nat
    requires ValidBar(bar, required)
  {
    ValidIsSized(bar.elements);
    TotalWidth(bar.elements, ProtectedFlags(bar.elements, required), TopSizings(bar.elements).value)
  }

  /** The solver succeeds exactly on valid bars whose visibility groups agree on their priority and
      whose protected minima and spaces fit; and on such bars that are too narrow it reports the
      width they need. */
  lemma {:induction false} ResolveSucceedsExactly(bar: BarSpec, available: u32, required: set<ItemId>)
    ensures Resolve(bar, available, required).Ok? <==>
              && ValidBar(bar, required) && AllAgree(bar.elements, |bar.elements|)
              && NeededWidth(bar, required) <= available
    ensures ValidBar(bar, required) && AllAgree(bar.elements, |bar.elements|) && NeededWidth(bar, required) > available ==>
              Resolve(bar, available, required)
              == Err(InsufficientWidth(available, Min(NeededWidth(bar, required), U32_LIMIT - 1)))
  {
    ValidateExact(bar, required);
    UnitsFailExactly(bar.elements, required, |bar.elements|);
    if ValidBar(bar, required) && AllAgree(bar.elements, |bar.elements|) {
      ValidIsSized(bar.elements);
      UnitsAreExact(bar.elements, required, |bar.elements|);
      InsufficientExactly(bar.elements, required, UnitsUpTo(bar.elements, required, |bar.elements|).value,
                          TopSizings(bar.elements).value, available);
    }
  }

  function PlacementIds(placements: seq<Placement>): seq<ItemId> {
    seq(|placements|, i requires 0 <= i < |placements| => placements[i].id)
  }

  lemma {:induction false} PresentedIds(placements: seq<Placement>, items: seq<ItemSpec>, low: nat, high: nat)
    requires Presents(placements, items, low, high)
    ensures PlacementIds(placements) == Ids(items)
  {
  }

  /** What a successful run computed, stage by stage. */
  lemma {:induction false} ResolveUnfolds(bar: BarSpec, available: u32, required: set<ItemId>) returns (sizing: seq<Sizing>)
    requires Resolve(bar, available, required).Ok?
    ensures ValidBar(bar, required) && UnitsUpTo(bar.elements, required, |bar.elements|).Ok?
    ensures TopSizings(bar.elements) == Ok(sizing)
    ensures var visible := VisibleAt(bar, available, required);
            && Ready(bar.elements, visible, sizing) && TotalWidth(bar.elements, visible, sizing) <= available
            && var a := ArrangeVisible(bar, visible, sizing, available);
            Resolve(bar, available, required).value == PlaceFrom(bar.elements, visible, a.widths, a.anchor, 0, 0)
  {
    ValidateExact(bar, required);
    ValidIsSized(bar.elements);
    sizing := TopSizings(bar.elements).value;
    SurvivorsAreReady(bar.elements, UnitsUpTo(bar.elements, required, |bar.elements|).value, sizing, available);
  }

  /** Whenever the solver succeeds: the visible items are placed in bar order, pairwise disjoint,
      inside the bar and each within its own width range; and placements and hidden items together
      hold every item of the bar exactly once, at any nesting. */
  lemma {:induction false} ResolveIsSound(bar: BarSpec, available: u32, required: set<ItemId>)
    requires Resolve(bar, available, required).Ok?
    ensures ValidBar(bar, required) && UnitsUpTo(bar.elements, required, |bar.elements|).Ok?
    ensures var layout := Resolve(bar, available, required).value;
            var visible := VisibleAt(bar, available, required);
            && layout.contentWidth <= available
            && Presents(layout.placements, VisibleItems(bar.elements, visible), 0, layout.contentWidth)
            && layout.hiddenItems == Ids(HiddenItems(bar.elements, visible))
            && multiset(PlacementIds(layout.placements)) + multiset(layout.hiddenItems) == multiset(Ids(BarItems(bar.elements)))
    ensures Distinct(Ids(BarItems(bar.elements)))
  {
    var sizing := ResolveUnfolds(bar, available, required);
    var visible := VisibleAt(bar, available, required);
    var a := ArrangeVisible(bar, visible, sizing, available);
    PlacePresents(bar.elements, visible, a, available);
    PlaceHidden(bar.elements, visible, a.widths, a.anchor, 0, 0);
    ItemsSplit(bar.elements, visible, 0);
    assert bar.elements[0..] == bar.elements;
    var layout := Resolve(bar, available, required).value;
    PresentedIds(layout.placements, VisibleItems(bar.elements, visible), 0, layout.contentWidth);
  }

  lemma {:induction false} ItemsFromMember(elements: seq<Element>, flags: seq<bool>, wanted: bool, i: nat, id: ItemId)
    requires |elements| == |flags| && i <= |elements|
    ensures id in Ids(ItemsFrom(elements, flags, wanted, i)) <==>
              exists j :: i <= j < |elements| && flags[j] == wanted && ContainsItem(elements[j], id)
    decreases |elements| - i
  {
    if i < |elements| {
      ItemsFromMember(elements, flags, wanted, i + 1, id);
      var own := if flags[i] == wanted then ElementItems(elements[i]) else [];
      IdsConcat(own, ItemsFrom(elements, flags, wanted, i + 1));
      assert id in Ids(own) <==> flags[i] == wanted && ContainsItem(elements[i], id);
      if exists j :: i <= j < |elements| && flags[j] == wanted && ContainsItem(elements[j], id) {
        var j :| i <= j < |elements| && flags[j] == wanted && ContainsItem(elements[j], id);
        assert j == i || i + 1 <= j;
      }
    }
  }

  lemma {:induction false} BarItemsMember(elements: seq<Element>, id: ItemId)
    ensures id in Ids(BarItems(elements)) <==> exists j :: 0 <= j < |elements| && ContainsItem(elements[j], id)
  {
    if elements != [] {
      var rest := elements[1..];
      BarItemsMember(rest, id);
      IdsConcat(ElementItems(elements[0]), BarItems(rest));
      if id in Ids(BarItems(rest)) {
        var j :| 0 <= j < |rest| && ContainsItem(rest[j], id);
        assert ContainsItem(elements[j + 1], id);
      }
      if exists j :: 0 <= j < |elements| && ContainsItem(elements[j], id) {
        var j :| 0 <= j < |elements| && ContainsItem(elements[j], id);
        if j > 0 {
          assert ContainsItem(rest[j - 1], id);
        }
      }
    }
  }

  lemma {:induction false} ContainsRequiredItem(element: Element, required: set<ItemId>, id: ItemId)
    requires id in required && ContainsItem(element, id)
    ensures ContainsRequired(element, required) && IsLeaf(element)
  {
    var k :| 0 <= k < |Ids(ElementItems(element))| && Ids(ElementItems(element))[k] == id;
    assert ElementItems(element)[k].id == id;
  }

  /** A required item is always among the placements. */
  lemma {:induction false} RequiredIsPlaced(bar: BarSpec, available: u32, required: set<ItemId>, id: ItemId)
    requires Resolve(bar, available, required).Ok? && id in required
    ensures id in PlacementIds(Resolve(bar, available, required).value.placements)
  {
    ResolveIsSound(bar, available, required);
    var elements := bar.elements;
    var visible := VisibleAt(bar, available, required);
    BarItemsMember(elements, id);
    var j :| 0 <= j < |elements| && ContainsItem(elements[j], id);
    ContainsRequiredItem(elements[j], required, id);
    assert Protected(elements, required, j) by {
      assert Together(elements, j, j);
    }
    ValidIsSized(elements);
    UnitsAreExact(elements, required, |elements|);
    ProtectedSurvives(elements, required, UnitsUpTo(elements, required, |elements|).value, TopSizings(elements).value, available, j);
    ItemsFromMember(elements, visible, true, 0, id);
    var layout := Resolve(bar, available, required).value;
    PresentedIds(layout.placements, VisibleItems(elements, visible), 0, layout.contentWidth);
  }

  /** Elements of one visibility group appear or disappear as one. */
  lemma {:induction false} VisibilityGroupsAreAtomic(bar: BarSpec, available: u32, required: set<ItemId>, i: nat, j: nat)
    requires Resolve(bar, available, required).Ok?
    requires i < |bar.elements| && j < |bar.elements| && IsLeaf(bar.elements[i]) && IsLeaf(bar.elements[j])
    requires Together(bar.elements, i, j)
    ensures ValidBar(bar, required) && UnitsUpTo(bar.elements, required, |bar.elements|).Ok?
    ensures VisibleAt(bar, available, required)[i] == VisibleAt(bar, available, required)[j]
  {
    ValidateExact(bar, required);
    ValidIsSized(bar.elements);
    UnitsAreExact(bar.elements, required, |bar.elements|);
    var units := UnitsUpTo(bar.elements, required, |bar.elements|).value;
    var sizing := TopSizings(bar.elements).value;
    if VisibleAt(bar, available, required)[i] {
      GroupsAreAtomic(bar.elements, required, units, sizing, available, i, j);
    } else if VisibleAt(bar, available, required)[j] {
      GroupsAreAtomic(bar.elements, required, units, sizing, available, j, i);
    }
  }

  lemma {:induction false} TwoShownWidth(first: ItemSpec, second: ItemSpec, visible: seq<bool>, sizing: seq<Sizing>)
    requires |visible| == 2 && TopSizings([Item(first), Item(second)]) == Ok(sizing)
    ensures |sizing| == 2
    ensures visible[0] && visible[1] ==> TotalWidth([Item(first), Item(second)], visible, sizing) == first.minWidth + second.minWidth
  {
    var elements := [Item(first), Item(second)];
    assert elements[1..] == [Item(second)] && [Item(second)][1..] == [];
    assert TopSizings([]) == Ok([]);
    assert TopSizings([Item(second)]) == Ok([ItemSizing(second)] + []);
    assert sizing == [ItemSizing(first)] + [ItemSizing(second)];
    var floors := Floors(elements, visible, sizing);
    SumSnoc([], floors[0]);
    SumSnoc([floors[0]], floors[1]);
    assert floors == [floors[0]] + [floors[1]] && [] + [floors[0]] == [floors[0]];
  }

  /** Two items in the group named by the empty string share their fate: when their minima do not fit
      side by side both are hidden, even where one alone would fit. */
  lemma {:induction false} UnnamedGroupHidesTogether(first: ItemSpec, second: ItemSpec, available: u32)
    requires first.visibilityGroup == second.visibilityGroup == Some("") && first.id != second.id
    requires Resolve(BarSpec([Item(first), Item(second)], None), available, {}).Ok?
    requires available < first.minWidth + second.minWidth
    ensures Resolve(BarSpec([Item(first), Item(second)], None), available, {}).value.hiddenItems == [first.id, second.id]
  {
    var bar := BarSpec([Item(first), Item(second)], None);
    var elements := bar.elements;
    VisibilityGroupsAreAtomic(bar, available, {}, 0, 1);
    var sizing := ResolveUnfolds(bar, available, {});
    ResolveIsSound(bar, available, {});
    var visible := VisibleAt(bar, available, {});
    TwoShownWidth(first, second, visible, sizing);
    assert ItemsFrom(elements, visible, false, 2) == [];
    assert ItemsFrom(elements, visible, false, 1) == [second];
    assert ItemsFrom(elements, visible, false, 0) == [first] + [second];
    assert Ids([first] + [second]) == [first.id, second.id];
  }

  /** Widening a bar that fits keeps it fitting and never hides an item that was shown. */
  lemma {:induction false} WideningShowsMore(bar: BarSpec, narrow: u32, wide: u32, required: set<ItemId>, id: ItemId)
    requires narrow <= wide && Resolve(bar, narrow, required).Ok?
    ensures Resolve(bar, wide, required).Ok?
    ensures id in Resolve(bar, wide, required).value.hiddenItems ==> id in Resolve(bar, narrow, required).value.hiddenItems
  {
    ResolveSucceedsExactly(bar, narrow, required);
    ResolveSucceedsExactly(bar, wide, required);
    ResolveIsSound(bar, narrow, required);
    ResolveIsSound(bar, wide, required);
    ValidIsSized(bar.elements);
    var elements := bar.elements;
    var units := UnitsUpTo(elements, required, |elements|).value;
    var few, many := VisibleAt(bar, narrow, required), VisibleAt(bar, wide, required);
    ItemsFromMember(elements, few, false, 0, id);
    ItemsFromMember(elements, many, false, 0, id);
    if id in Ids(HiddenItems(elements, many)) {
      var j :| 0 <= j < |elements| && many[j] == false && ContainsItem(elements[j], id);
      WiderHidesLess(HidingOrder(units), elements, TopSizings(elements).value, Shown(elements), narrow, wide, j);
      assert few[j] == false;
    }
  }

  /** Without a visible principal, any flexible space stretches the content to the whole bar. */
  lemma {:induction false} FlexibleFillsBar(bar: BarSpec, available: u32, required: set<ItemId>)
    requires Resolve(bar, available, required).Ok? && HasFlex(bar.elements, 0, |bar.elements|)
    ensures ValidBar(bar, required) && UnitsUpTo(bar.elements, required, |bar.elements|).Ok?
    ensures PrincipalOf(bar, VisibleAt(bar, available, required)).None? ==>
              Resolve(bar, available, required).value.contentWidth == available
  {
    var sizing := ResolveUnfolds(bar, available, required);
    var visible := VisibleAt(bar, available, required);
    var a := ArrangeVisible(bar, visible, sizing, available);
    PlacePresents(bar.elements, visible, a, available);
    if PrincipalOf(bar, visible).None? {
      CompressedFits(bar.elements, visible, sizing, available);
      CompressedFit(bar.elements, visible, sizing, available);
      ArrangeNone(bar, visible, Compressed(bar.elements, visible, sizing, available), available);
    }
  }

  // ----- where the principal leaf ends up -----

  lemma {:induction false} WalkKeeps(elements: seq<Element>, visible: seq<bool>, widths: seq<nat>, anchor: Option<Anchor>, i: nat, x: nat, placement: Placement)
    requires AllFit(elements, visible, widths) && i < |elements|
    requires placement in PlaceFrom(elements, visible, widths, anchor, i + 1, Here(anchor, i, x) + widths[i]).placements
    ensures placement in PlaceFrom(elements, visible, widths, anchor, i, x).placements
  {
    PlaceUnfold(elements, visible, widths, anchor, i, x);
  }

  lemma {:induction false} WalkOwns(elements: seq<Element>, visible: seq<bool>, widths: seq<nat>, anchor: Option<Anchor>, i: nat, x: nat, placement: Placement)
    requires AllFit(elements, visible, widths) && i < |elements| && visible[i] && Fits(elements[i], widths[i])
    requires placement in LayoutTop(elements[i], Here(anchor, i, x), widths[i])
    ensures placement in PlaceFrom(elements, visible, widths, anchor, i, x).placements
  {
    PlaceUnfold(elements, visible, widths, anchor, i, x);
  }

  lemma {:induction false} WalkHoldsElement(elements: seq<Element>, visible: seq<bool>, widths: seq<nat>, anchor: Anchor, i: nat, x: nat, placement: Placement)
    requires AllFit(elements, visible, widths) && i <= anchor.index < |elements| && visible[anchor.index]
    requires Fits(elements[anchor.index], widths[anchor.index])
    requires placement in LayoutTop(elements[anchor.index], anchor.x, widths[anchor.index])
    ensures placement in PlaceFrom(elements, visible, widths, Some(anchor), i, x).placements
    decreases |elements| - i
  {
    if i < anchor.index {
      WalkHoldsElement(elements, visible, widths, anchor, i + 1, x + widths[i], placement);
      WalkKeeps(elements, visible, widths, Some(anchor), i, x, placement);
    } else {
      WalkOwns(elements, visible, widths, Some(anchor), i, x, placement);
    }
  }

  lemma {:induction false} LayoutTopMoves(element: Element, x: nat, width: nat)
    requires Fits(element, width)
    ensures Displaced(LayoutTop(element, 0, width), LayoutTop(element, x, width), x)
  {
    if element.Group? {
      LayoutCommutesWithTranslation(element.group, 0, width, x);
    }
  }

  /** The principal's placement inside its element, moved to where the element is anchored. */
  lemma {:induction false} PrincipalPlacement(element: Element, x: nat, width: nat, id: ItemId) returns (placement: Placement)
    requires Fits(element, width) && ContainsItem(element, id)
    ensures placement in LayoutTop(element, x, width) && placement.id == id
    ensures PrincipalMetrics(element, width, id) == Some((placement.x - x, placement.width)) && x <= placement.x
  {
    LayoutTopMoves(element, x, width);
    var still, moved := LayoutTop(element, 0, width), LayoutTop(element, x, width);
    assert PrincipalMetrics(element, width, id).Some?;
    var found := FindPlacement(still, id).value;
    var k :| 0 <= k < |still| && still[k] == found;
    placement := moved[k];
  }

  /** The base widths from which free space is distributed. */
  function BaseWidths(bar: BarSpec, available: u32, required: set<ItemId>): (r: seq<nat>)
    requires Resolve(bar, available, required).Ok?
    ensures |r| == |bar.elements| && Sum(r) <= available
    ensures ValidBar(bar, required) && UnitsUpTo(bar.elements, required, |bar.elements|).Ok?
  {
    ValidateExact(bar, required);
    ValidIsSized(bar.elements);
    var units := UnitsUpTo(bar.elements, required, |bar.elements|).value;
    var sizing := TopSizings(bar.elements).value;
    SurvivorsAreReady(bar.elements, units, sizing, available);
    CompressedFits(bar.elements, VisibleAt(bar, available, required), sizing, available);
    Compressed(bar.elements, VisibleAt(bar, available, required), sizing, available)
  }

  /** A visible principal item is placed at its offset inside the anchored element. */
  lemma {:induction false} PrincipalIsPlaced(bar: BarSpec, visible: seq<bool>, base: seq<nat>, available: nat, p: nat) returns (placement: Placement, x: nat)
    requires AllSoundTop(bar.elements) && AllFit(bar.elements, visible, base) && Sum(base) <= available
    requires PrincipalOf(bar, visible) == Some(p) && Fits(bar.elements[p], base[p])
    requires AllFit(bar.elements, visible, Arrange(bar, visible, base, available).widths)
    ensures x == PrincipalX(bar, visible, base, available, p) && x <= placement.x
    ensures PrincipalMetrics(bar.elements[p], base[p], bar.principalItem.value) == Some((placement.x - x, placement.width))
    ensures placement.id == bar.principalItem.value
    ensures var a := Arrange(bar, visible, base, available);
            placement in PlaceFrom(bar.elements, visible, a.widths, a.anchor, 0, 0).placements
  {
    x := PrincipalX(bar, visible, base, available, p);
    var a := Arrange(bar, visible, base, available);
    ArrangeSome(bar, visible, base, available);
    placement := PrincipalPlacement(bar.elements[p], x, base[p], bar.principalItem.value);
    WalkHoldsElement(bar.elements, visible, a.widths, Anchor(p, x), 0, 0, placement);
  }

  lemma {:induction false} PrincipalXIsNearest(bar: BarSpec, visible: seq<bool>, widths: seq<nat>, available: nat, p: nat, other: nat, placement: Placement, x: nat)
    requires AllFit(bar.elements, visible, widths) && Sum(widths) <= available
    requires bar.principalItem.Some? && p < |widths| && visible[p] && ContainsItem(bar.elements[p], bar.principalItem.value)
    requires Fits(bar.elements[p], widths[p]) && x == PrincipalX(bar, visible, widths, available, p) && x <= placement.x
    requires PrincipalMetrics(bar.elements[p], widths[p], bar.principalItem.value) == Some((placement.x - x, placement.width))
    requires Sum(widths[..p]) <= other && other + widths[p] + Sum(widths[p + 1..]) <= available
    ensures placement.width <= available
    ensures Distance(placement.x, (available - placement.width) / 2)
            <= Distance(other + (placement.x - x), (available - placement.width) / 2)
  {
    SumSplit(widths, p);
    AnchorIsNearest(available, placement.x - x, placement.width,
                    Sum(widths[..p]), available - widths[p] - Sum(widths[p + 1..]), other);
  }

  /** A successful run places the visible elements on the arrangement of their base widths. */
  lemma {:induction false} ResolveArranges(bar: BarSpec, available: u32, required: set<ItemId>)
    requires Resolve(bar, available, required).Ok?
    ensures ValidBar(bar, required) && UnitsUpTo(bar.elements, required, |bar.elements|).Ok?
    ensures var visible, base := VisibleAt(bar, available, required), BaseWidths(bar, available, required);
            && AllSoundTop(bar.elements) && AllFit(bar.elements, visible, base)
            && var a := Arrange(bar, visible, base, available);
            && AllFit(bar.elements, visible, a.widths)
            && Resolve(bar, available, required).value == PlaceFrom(bar.elements, visible, a.widths, a.anchor, 0, 0)
  {
    var sizing := ResolveUnfolds(bar, available, required);
    var visible := VisibleAt(bar, available, required);
    CompressedFit(bar.elements, visible, sizing, available);
    ArrangedFit(bar, visible, BaseWidths(bar, available, required), available);
  }

  /** A visible principal item is placed, and no other admissible position of its element would put
      it closer to the centre of the bar. */
  lemma {:induction false} PrincipalIsCentred(bar: BarSpec, available: u32, required: set<ItemId>, p: nat, other: nat)
    returns (placement: Placement, x: nat)
    requires Resolve(bar, available, required).Ok?
    requires ValidBar(bar, required) && UnitsUpTo(bar.elements, required, |bar.elements|).Ok?
    requires PrincipalOf(bar, VisibleAt(bar, available, required)) == Some(p)
    requires var base := BaseWidths(bar, available, required);
             Sum(base[..p]) <= other && other + base[p] + Sum(base[p + 1..]) <= available
    ensures placement in Resolve(bar, available, required).value.placements
    ensures placement.id == bar.principalItem.value && placement.width <= available && x <= placement.x
    ensures var base := BaseWidths(bar, available, required);
            Sum(base[..p]) <= x && x + base[p] + Sum(base[p + 1..]) <= available
    ensures Distance(placement.x, (available - placement.width) / 2)
            <= Distance(other + (placement.x - x), (available - placement.width) / 2)
  {
    var visible := VisibleAt(bar, available, required);
    var base := BaseWidths(bar, available, required);
    ResolveArranges(bar, available, required);
    FitAt(bar.elements, visible, base, 0, p);
    placement, x := PrincipalIsPlaced(bar, visible, base, available, p);
    PrincipalXIsNearest(bar, visible, base, available, p, other, placement, x);
  }
}
