/** Visibility units and the overflow policy: which elements disappear when a bar is too narrow. */
module LayoutUnits {
  import opened Basics
  import opened LayoutTypes
  import opened LayoutGroups
  import opened Sorting

  /** Elements that disappear together. */
  datatype Unit = Unit(group: Option<string>, elements: seq<nat>, priority: int, trailing: nat, required: bool)

  predicate IsLeaf(element: Element) {
    element.Item? || element.Group?
  }

  predicate ContainsRequired(element: Element, required: set<ItemId>) {
    exists i :: 0 <= i < |ElementItems(element)| && ElementItems(element)[i].id in required
  }

  function VisibilityPriority(element: Element): int
    requires IsLeaf(element)
  {
    if element.Item? then element.item.visibilityPriority else element.group.visibilityPriority
  }

  function UnitGroup(element: Element): Option<string> {
    if element.Item? then element.item.visibilityGroup else None
  }

  /** Position of the first unit with the given visibility group, or the number of units. */
  function FindUnit(units: seq<Unit>, group: string): (k: nat)
    ensures k <= |units|
    ensures k < |units| ==> units[k].group == Some(group)
    ensures forall j :: 0 <= j < k ==> units[j].group != Some(group)
  {
    if units == [] then 0
    else if units[0].group == Some(group) then 0
    else 1 + FindUnit(units[1..], group)
  }

  function AddElement(units: seq<Unit>, element: Element, index: nat, wanted: bool): Result<seq<Unit>, LayoutError> {
    if !IsLeaf(element) then
      Ok(units)
    else
      var group := UnitGroup(element);
      var priority := VisibilityPriority(element);
      var k := if group.Some? then FindUnit(units, group.value) else |units|;
      if k == |units| then
        Ok(units + [Unit(group, [index], priority, index, wanted)])
      else if units[k].priority != priority then
        Err(InconsistentVisibilityGroup(group.value))
      else
        Ok(units[k := Unit(group, units[k].elements + [index], priority, index, units[k].required || wanted)])
  }

  /** Units of the first `count` elements. */
  function UnitsUpTo(elements: seq<Element>, required: set<ItemId>, count: nat): Result<seq<Unit>, LayoutError>
    requires count <= |elements|
  {
    if count == 0 then
      Ok([])
    else
      var units :- UnitsUpTo(elements, required, count - 1);
      AddElement(units, elements[count - 1], count - 1, ContainsRequired(elements[count - 1], required))
  }

  // ----- the partition that the units form -----

  /** Two elements that have to be shown or hidden together. */
  predicate Together(elements: seq<Element>, i: nat, j: nat)
    requires i < |elements| && j < |elements|
  {
    i == j || (UnitGroup(elements[i]).Some? && UnitGroup(elements[i]) == UnitGroup(elements[j]))
  }

  /** What one unit says about the elements it holds. */
  ghost predicate UnitExact(elements: seq<Element>, required: set<ItemId>, count: nat, unit: Unit)
    requires count <= |elements|
  {
    && unit.elements != [] && unit.trailing == unit.elements[|unit.elements| - 1]
    && (forall p :: 0 <= p < |unit.elements| ==>
          && unit.elements[p] < count && IsLeaf(elements[unit.elements[p]])
          && VisibilityPriority(elements[unit.elements[p]]) == unit.priority
          && UnitGroup(elements[unit.elements[p]]) == unit.group
          && unit.elements[p] <= unit.trailing)
    && (unit.group.None? ==> |unit.elements| == 1)
    && (unit.required <==> exists p :: 0 <= p < |unit.elements| && ContainsRequired(elements[unit.elements[p]], required))
  }

  ghost predicate Placed(units: seq<Unit>, i: nat) {
    exists k, p :: 0 <= k < |units| && 0 <= p < |units[k].elements| && units[k].elements[p] == i
  }

  ghost predicate AllExact(elements: seq<Element>, required: set<ItemId>, count: nat, units: seq<Unit>)
    requires count <= |elements|
  {
    forall k :: 0 <= k < |units| ==> UnitExact(elements, required, count, units[k])
  }

  ghost predicate AllPlaced(elements: seq<Element>, count: nat, units: seq<Unit>)
    requires count <= |elements|
  {
    forall i :: 0 <= i < count && IsLeaf(elements[i]) ==> Placed(units, i)
  }

  /** No two units share a trailing element or a visibility group. */
  ghost predicate Separate(units: seq<Unit>) {
    forall j, k :: 0 <= j < k < |units| ==>
      units[j].trailing != units[k].trailing && (units[j].group.Some? ==> units[j].group != units[k].group)
  }

  /** The units partition the first `count` item and group elements into classes of `Together`. */
  ghost predicate UnitsExact(elements: seq<Element>, required: set<ItemId>, count: nat, units: seq<Unit>)
    requires count <= |elements|
  {
    && AllExact(elements, required, count, units)
    && AllPlaced(elements, count, units)
    && Separate(units)
  }

  lemma {:induction false} NewUnitExact(elements: seq<Element>, required: set<ItemId>, count: nat)
    requires 0 < count <= |elements| && IsLeaf(elements[count - 1])
    ensures var element := elements[count - 1];
            UnitExact(elements, required, count,
                      Unit(UnitGroup(element), [count - 1], VisibilityPriority(element), count - 1, ContainsRequired(element, required)))
  {
    var element := elements[count - 1];
    var unit := Unit(UnitGroup(element), [count - 1], VisibilityPriority(element), count - 1, ContainsRequired(element, required));
    if unit.required {
      assert unit.elements[0] == count - 1;
    }
  }

  lemma {:induction false} GrownUnitExact(elements: seq<Element>, required: set<ItemId>, count: nat, unit: Unit)
    requires 0 < count <= |elements| && IsLeaf(elements[count - 1])
    requires UnitExact(elements, required, count - 1, unit)
    requires unit.group.Some? && unit.group == UnitGroup(elements[count - 1])
    requires unit.priority == VisibilityPriority(elements[count - 1])
    ensures UnitExact(elements, required, count,
                      Unit(unit.group, unit.elements + [count - 1], unit.priority, count - 1,
                           unit.required || ContainsRequired(elements[count - 1], required)))
  {
    var grown := Unit(unit.group, unit.elements + [count - 1], unit.priority, count - 1,
                      unit.required || ContainsRequired(elements[count - 1], required));
    assert forall p :: 0 <= p < |unit.elements| ==> grown.elements[p] == unit.elements[p];
    assert grown.elements[|unit.elements|] == count - 1;
    if unit.required {
      var p :| 0 <= p < |unit.elements| && ContainsRequired(elements[unit.elements[p]], required);
      assert ContainsRequired(elements[grown.elements[p]], required);
    }
    if exists p :: 0 <= p < |grown.elements| && ContainsRequired(elements[grown.elements[p]], required) {
      var p :| 0 <= p < |grown.elements| && ContainsRequired(elements[grown.elements[p]], required);
      if p < |unit.elements| {
        assert ContainsRequired(elements[unit.elements[p]], required);
      }
    }
  }

  lemma {:induction false} UnitExactWeakens(elements: seq<Element>, required: set<ItemId>, count: nat, unit: Unit)
    requires 0 < count <= |elements| && UnitExact(elements, required, count - 1, unit)
    ensures UnitExact(elements, required, count, unit)
  {
  }

  lemma {:induction false} PlacedSurvives(units: seq<Unit>, after: seq<Unit>, i: nat)
    requires Placed(units, i) && |units| <= |after|
    requires forall k :: 0 <= k < |units| ==> units[k].elements <= after[k].elements
    ensures Placed(after, i)
  {
    var k, p :| 0 <= k < |units| && 0 <= p < |units[k].elements| && units[k].elements[p] == i;
    assert after[k].elements[p] == i;
  }

  lemma {:induction false} TrailingIsOld(elements: seq<Element>, required: set<ItemId>, count: nat, units: seq<Unit>, k: nat)
    requires count <= |elements| && AllExact(elements, required, count, units) && k < |units|
    ensures units[k].trailing < count
  {
    assert UnitExact(elements, required, count, units[k]);
  }

  lemma {:induction false} AllExactWeakens(elements: seq<Element>, required: set<ItemId>, count: nat, units: seq<Unit>)
    requires 0 < count <= |elements| && AllExact(elements, required, count - 1, units)
    ensures AllExact(elements, required, count, units)
  {
    forall k | 0 <= k < |units| ensures UnitExact(elements, required, count, units[k]) {
      UnitExactWeakens(elements, required, count, units[k]);
    }
  }

  lemma {:induction false} AllPlacedExtends(elements: seq<Element>, count: nat, units: seq<Unit>, after: seq<Unit>)
    requires 0 < count <= |elements| && AllPlaced(elements, count - 1, units)
    requires |units| <= |after| && forall k :: 0 <= k < |units| ==> units[k].elements <= after[k].elements
    requires IsLeaf(elements[count - 1]) ==> Placed(after, count - 1)
    ensures AllPlaced(elements, count, after)
  {
    forall i | 0 <= i < count && IsLeaf(elements[i]) ensures Placed(after, i) {
      if i < count - 1 {
        PlacedSurvives(units, after, i);
      }
    }
  }

  lemma {:induction false} SeparateAppend(units: seq<Unit>, unit: Unit)
    requires Separate(units)
    requires forall k :: 0 <= k < |units| ==>
               units[k].trailing != unit.trailing && (units[k].group.Some? ==> units[k].group != unit.group)
    ensures Separate(units + [unit])
  {
  }

  lemma {:induction false} SeparateReplace(units: seq<Unit>, k: nat, unit: Unit)
    requires Separate(units) && k < |units| && unit.group == units[k].group
    requires forall j :: 0 <= j < |units| ==> units[j].trailing != unit.trailing
    ensures Separate(units[k := unit])
  {
  }

  lemma {:induction false} AppendUnitExact(elements: seq<Element>, required: set<ItemId>, count: nat, units: seq<Unit>, unit: Unit)
    requires 0 < count <= |elements| && UnitsExact(elements, required, count - 1, units)
    requires UnitExact(elements, required, count, unit) && unit.elements == [count - 1]
    requires forall k :: 0 <= k < |units| && unit.group.Some? ==> units[k].group != unit.group
    ensures UnitsExact(elements, required, count, units + [unit])
  {
    AllExactWeakens(elements, required, count, units);
    assert (units + [unit])[|units|].elements[0] == count - 1;
    AllPlacedExtends(elements, count, units, units + [unit]);
    forall k | 0 <= k < |units| ensures units[k].trailing != unit.trailing {
      TrailingIsOld(elements, required, count - 1, units, k);
    }
    SeparateAppend(units, unit);
  }

  lemma {:induction false} ReplaceUnitExact(elements: seq<Element>, required: set<ItemId>, count: nat, units: seq<Unit>, k: nat, unit: Unit)
    requires 0 < count <= |elements| && UnitsExact(elements, required, count - 1, units) && k < |units|
    requires UnitExact(elements, required, count, unit)
    requires unit.group == units[k].group && unit.elements == units[k].elements + [count - 1]
    ensures UnitsExact(elements, required, count, units[k := unit])
  {
    var after := units[k := unit];
    assert AllExact(elements, required, count, after) by {
      AllExactWeakens(elements, required, count, units);
    }
    assert AllPlaced(elements, count, after) by {
      assert after[k].elements[|units[k].elements|] == count - 1;
      AllPlacedExtends(elements, count, units, after);
    }
    forall j | 0 <= j < |units| ensures units[j].trailing != unit.trailing {
      TrailingIsOld(elements, required, count - 1, units, j);
    }
    SeparateReplace(units, k, unit);
  }

  lemma {:induction false} SkipElementExact(elements: seq<Element>, required: set<ItemId>, count: nat, units: seq<Unit>)
    requires 0 < count <= |elements| && UnitsExact(elements, required, count - 1, units)
    requires !IsLeaf(elements[count - 1])
    ensures UnitsExact(elements, required, count, units)
  {
    AllExactWeakens(elements, required, count, units);
  }

  /** One more element keeps the partition exact. */
  lemma {:induction false} AddElementExact(elements: seq<Element>, required: set<ItemId>, count: nat, units: seq<Unit>)
    requires 0 < count <= |elements| && UnitsExact(elements, required, count - 1, units)
    requires AddElement(units, elements[count - 1], count - 1, ContainsRequired(elements[count - 1], required)).Ok?
    ensures UnitsExact(elements, required, count, AddElement(units, elements[count - 1], count - 1, ContainsRequired(elements[count - 1], required)).value)
  {
    var element := elements[count - 1];
    var after := AddElement(units, element, count - 1, ContainsRequired(element, required)).value;
    if IsLeaf(element) {
      var group := UnitGroup(element);
      var k := if group.Some? then FindUnit(units, group.value) else |units|;
      if k == |units| {
        NewUnitExact(elements, required, count);
        AppendUnitExact(elements, required, count, units, after[k]);
      } else {
        GrownUnitExact(elements, required, count, units[k]);
        ReplaceUnitExact(elements, required, count, units, k, after[k]);
      }
    } else {
      SkipElementExact(elements, required, count, units);
    }
  }

  /** The units of a bar partition its item and group elements: members of one unit share priority
      and visibility group, a unit is required when one of its members holds a required item, and
      no two units share a trailing element or a visibility group. */
  lemma {:induction false} UnitsAreExact(elements: seq<Element>, required: set<ItemId>, count: nat)
    requires count <= |elements| && UnitsUpTo(elements, required, count).Ok?
    ensures UnitsExact(elements, required, count, UnitsUpTo(elements, required, count).value)
  {
    if count > 0 {
      UnitsAreExact(elements, required, count - 1);
      AddElementExact(elements, required, count, UnitsUpTo(elements, required, count - 1).value);
    }
  }

  /** Element `i` asks for the same visibility priority as `j` if they have to go together. */
  ghost predicate Agree(elements: seq<Element>, i: nat, j: nat)
    requires i < |elements| && j < |elements|
  {
    Together(elements, i, j) && IsLeaf(elements[i]) && IsLeaf(elements[j]) ==>
      VisibilityPriority(elements[i]) == VisibilityPriority(elements[j])
  }

  ghost predicate AgreesWithEarlier(elements: seq<Element>, j: nat)
    requires j < |elements|
  {
    forall i :: 0 <= i < j ==> Agree(elements, i, j)
  }

  ghost predicate AllAgree(elements: seq<Element>, count: nat)
    requires count <= |elements|
  {
    forall j :: 0 <= j < count ==> AgreesWithEarlier(elements, j)
  }

  /** Units fail exactly on two members of one visibility group with different priorities. */
  lemma {:induction false} UnitsFailExactly(elements: seq<Element>, required: set<ItemId>, count: nat)
    requires count <= |elements|
    ensures UnitsUpTo(elements, required, count).Ok? <==> AllAgree(elements, count)
    ensures UnitsUpTo(elements, required, count).Err? ==> UnitsUpTo(elements, required, count).error.InconsistentVisibilityGroup?
  {
    if count > 0 {
      var wanted := ContainsRequired(elements[count - 1], required);
      UnitsFailExactly(elements, required, count - 1);
      if UnitsUpTo(elements, required, count - 1).Ok? {
        var units := UnitsUpTo(elements, required, count - 1).value;
        assert UnitsUpTo(elements, required, count) == AddElement(units, elements[count - 1], count - 1, wanted);
        assert UnitsUpTo(elements, required, count).Ok? <==> AgreesWithEarlier(elements, count - 1) by {
          UnitsAreExact(elements, required, count - 1);
          UnitStepFails(elements, required, count, units, wanted);
        }
      }
    }
  }

  lemma {:induction false} UnitStepFails(elements: seq<Element>, required: set<ItemId>, count: nat, units: seq<Unit>, wanted: bool)
    requires 0 < count <= |elements| && UnitsExact(elements, required, count - 1, units)
    ensures AddElement(units, elements[count - 1], count - 1, wanted).Ok? <==> AgreesWithEarlier(elements, count - 1)
  {
    var last := count - 1;
    var element := elements[last];
    if IsLeaf(element) && UnitGroup(element).Some? {
      var k := FindUnit(units, UnitGroup(element).value);
      if k < |units| {
        assert UnitExact(elements, required, last, units[k]);
        var i := units[k].elements[0];
        assert Together(elements, i, last);
        assert Agree(elements, i, last) <==> units[k].priority == VisibilityPriority(element);
      }
      forall i | 0 <= i < last && Together(elements, i, last) && IsLeaf(elements[i])
        ensures k < |units| && VisibilityPriority(elements[i]) == units[k].priority
      {
        MemberOfGroupUnit(elements, required, last, units, i);
      }
    }
  }

  /** A placed member of a visibility group sits in the unit that a search for the group finds. */
  lemma {:induction false} MemberOfGroupUnit(elements: seq<Element>, required: set<ItemId>, count: nat, units: seq<Unit>, i: nat)
    requires i < count <= |elements| && UnitsExact(elements, required, count, units)
    requires IsLeaf(elements[i]) && UnitGroup(elements[i]).Some?
    ensures var k := FindUnit(units, UnitGroup(elements[i]).value);
            k < |units| && VisibilityPriority(elements[i]) == units[k].priority
  {
    assert Placed(units, i);
    var j, p :| 0 <= j < |units| && 0 <= p < |units[j].elements| && units[j].elements[p] == i;
    assert UnitExact(elements, required, count, units[j]);
    assert units[j].group == UnitGroup(elements[i]);
  }

  lemma {:induction false} MemberFacts(elements: seq<Element>, required: set<ItemId>, count: nat, unit: Unit, i: nat)
    requires count <= |elements| && UnitExact(elements, required, count, unit) && i in unit.elements
    ensures i < count && IsLeaf(elements[i]) && UnitGroup(elements[i]) == unit.group
    ensures unit.group.None? ==> unit.elements == [i] && unit.trailing == i
  {
    var p :| 0 <= p < |unit.elements| && unit.elements[p] == i;
  }

  lemma {:induction false} RequiredFacts(elements: seq<Element>, required: set<ItemId>, count: nat, unit: Unit)
    requires count <= |elements| && UnitExact(elements, required, count, unit)
    ensures unit.required <==> exists j :: j in unit.elements && j < |elements| && ContainsRequired(elements[j], required)
  {
    if unit.required {
      var p :| 0 <= p < |unit.elements| && ContainsRequired(elements[unit.elements[p]], required);
      assert unit.elements[p] in unit.elements;
    }
    if exists j :: j in unit.elements && j < |elements| && ContainsRequired(elements[j], required) {
      var j :| j in unit.elements && j < |elements| && ContainsRequired(elements[j], required);
      var p :| 0 <= p < |unit.elements| && unit.elements[p] == j;
      assert ContainsRequired(elements[unit.elements[p]], required);
    }
  }

  /** The unit that holds element `i`, if there is one. */
  ghost predicate Holds(units: seq<Unit>, k: nat, i: nat) {
    k < |units| && i in units[k].elements
  }

  /** Two leaves share a unit exactly when they are the same or name the same visibility group,
      whatever the name: the empty string is a group like any other. */
  lemma {:induction false} SharedUnitExactly(elements: seq<Element>, required: set<ItemId>, i: nat, j: nat)
    requires UnitsUpTo(elements, required, |elements|).Ok?
    requires i < |elements| && j < |elements| && IsLeaf(elements[i]) && IsLeaf(elements[j])
    ensures var units := UnitsUpTo(elements, required, |elements|).value;
            (exists k: nat :: Holds(units, k, i) && Holds(units, k, j)) <==> Together(elements, i, j)
  {
    var units := UnitsUpTo(elements, required, |elements|).value;
    UnitsAreExact(elements, required, |elements|);
    var a := HoldingUnit(elements, required, units, i);
    var b := HoldingUnit(elements, required, units, j);
    if Together(elements, i, j) {
      assert i == j || a == b by {
        if i != j {
          GroupHasOneUnit(units, a, b);
        }
      }
      assert Holds(units, a, i) && Holds(units, a, j);
    }
    if exists k: nat :: Holds(units, k, i) && Holds(units, k, j) {
      var k: nat :| Holds(units, k, i) && Holds(units, k, j);
      assert UnitExact(elements, required, |elements|, units[k]);
      MemberFacts(elements, required, |elements|, units[k], i);
      MemberFacts(elements, required, |elements|, units[k], j);
      if units[k].group.None? {
        assert units[k].elements == [i];
      }
    }
  }

  lemma {:induction false} HoldingUnit(elements: seq<Element>, required: set<ItemId>, units: seq<Unit>, i: nat) returns (k: nat)
    requires UnitsExact(elements, required, |elements|, units) && i < |elements| && IsLeaf(elements[i])
    ensures Holds(units, k, i) && units[k].group == UnitGroup(elements[i])
  {
    assert Placed(units, i);
    var u, p :| 0 <= u < |units| && 0 <= p < |units[u].elements| && units[u].elements[p] == i;
    k := u;
    assert units[k].elements[p] in units[k].elements;
    assert UnitExact(elements, required, |elements|, units[k]);
  }

  lemma {:induction false} GroupHasOneUnit(units: seq<Unit>, a: nat, b: nat)
    requires Separate(units) && a < |units| && b < |units| && units[a].group.Some? && units[a].group == units[b].group
    ensures a == b
  {
  }

  /** Two items in the visibility group named by the empty string form one unit, and disagree on
      their priority like the members of any other group. */
  lemma {:induction false} UnnamedGroupIsGroup(first: ItemSpec, second: ItemSpec, required: set<ItemId>)
    requires first.visibilityGroup == second.visibilityGroup == Some("")
    ensures var elements := [Item(first), Item(second)];
            var units := UnitsUpTo(elements, required, 2);
            if first.visibilityPriority == second.visibilityPriority
            then units.Ok? && |units.value| == 1 && units.value[0].elements == [0, 1]
            else units == Err(InconsistentVisibilityGroup(""))
  {
    var elements := [Item(first), Item(second)];
    var wanted := ContainsRequired(elements[0], required);
    var one := [Unit(Some(""), [0], first.visibilityPriority, 0, wanted)];
    assert UnitsUpTo(elements, required, 0) == Ok([]);
    assert AddElement([], elements[0], 0, wanted) == Ok(one) by {
      assert [] + one == one;
    }
    assert UnitsUpTo(elements, required, 1) == Ok(one);
    assert FindUnit(one, "") == 0;
  }

  // ----- the order in which units disappear -----

  /** Lower priority disappears first; among equals, the unit that ends further to the right. */
  predicate HiddenBefore(a: Unit, b: Unit) {
    a.priority < b.priority || (a.priority == b.priority && a.trailing >= b.trailing)
  }

  function Optional(units: seq<Unit>): seq<Unit> {
    if units == [] then []
    else if units[0].required then Optional(units[1..])
    else [units[0]] + Optional(units[1..])
  }

  lemma {:induction false} OptionalMembers(units: seq<Unit>, unit: Unit)
    ensures unit in Optional(units) <==> unit in units && !unit.required
  {
    if units != [] {
      OptionalMembers(units[1..], unit);
      assert units == [units[0]] + units[1..];
    }
  }

  /** The candidates for hiding, in the order in which they go. */
  function HidingOrder(units: seq<Unit>): seq<Unit> {
    Optional(Sort(HiddenBefore, units))
  }

  lemma {:induction false} OptionalSorted(units: seq<Unit>)
    requires SortedBy(HiddenBefore, units)
    ensures SortedBy(HiddenBefore, Optional(units))
  {
    if units != [] {
      var rest := Optional(units[1..]);
      assert forall i :: 0 <= i < |units[1..]| ==> units[1..][i] == units[i + 1];
      OptionalSorted(units[1..]);
      if !units[0].required {
        forall k | 0 <= k < |rest| ensures HiddenBefore(units[0], rest[k]) {
          OptionalMembers(units[1..], rest[k]);
          var j :| 0 <= j < |units[1..]| && units[1..][j] == rest[k];
          assert HiddenBefore(units[0], units[j + 1]);
        }
        SortedCons(HiddenBefore, units[0], rest);
      }
    }
  }

  /** The order lists exactly the units without required items, by priority, trailing first. */
  lemma {:induction false} HidingOrderFacts(units: seq<Unit>)
    ensures SortedBy(HiddenBefore, HidingOrder(units))
    ensures forall unit :: unit in HidingOrder(units) <==> unit in units && !unit.required
  {
    SortSorts(HiddenBefore, units);
    OptionalSorted(Sort(HiddenBefore, units));
    forall unit ensures unit in HidingOrder(units) <==> unit in units && !unit.required {
      OptionalMembers(Sort(HiddenBefore, units), unit);
      SortKeepsMembers(HiddenBefore, units, unit);
    }
  }
}
