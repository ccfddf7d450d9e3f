/** Composition of an active chain of bars through context proxies. */
module ActiveChain {
  import opened Basics
  import opened LayoutTypes
  import opened LayoutValidate
  import opened RegistryModel

  function WithoutProxy(elements: seq<BarElement>): (r: seq<BarElement>)
    ensures forall i :: 0 <= i < |r| ==> !r[i].ContextProxy?
  {
    if elements == [] then []
    else if elements[0].ContextProxy? then WithoutProxy(elements[1..])
    else [elements[0]] + WithoutProxy(elements[1..])
  }

  /** Position of the first proxy, or the number of elements. */
  function ProxyAt(elements: seq<BarElement>): (p: nat)
    ensures p <= |elements|
    ensures p < |elements| ==> elements[p].ContextProxy?
    ensures forall i :: 0 <= i < p ==> !elements[i].ContextProxy?
  {
    if elements == [] || elements[0].ContextProxy? then 0 else 1 + ProxyAt(elements[1..])
  }

  /** The elements an enclosing bar puts before and after the content it encloses; a bar without a
      proxy contributes nothing. */
  function LeftPart(elements: seq<BarElement>): seq<BarElement> {
    var p := ProxyAt(elements);
    if p == |elements| then [] else elements[..p]
  }

  function RightPart(elements: seq<BarElement>): seq<BarElement> {
    var p := ProxyAt(elements);
    if p == |elements| then [] else elements[p + 1..]
  }

  /** Substitution of `content` for the proxy of an enclosing bar. */
  function Wrap(content: seq<BarElement>, outer: seq<BarElement>): seq<BarElement> {
    var p := ProxyAt(outer);
    if p == |outer| then content else outer[..p] + content + outer[p + 1..]
  }

  /** Substitution along a whole chain of enclosing bars, innermost first. */
  function Nest(content: seq<BarElement>, outers: seq<seq<BarElement>>): seq<BarElement>
    decreases |outers|
  {
    if outers == [] then content else Nest(Wrap(content, outers[0]), outers[1..])
  }

  function Lefts(outers: seq<seq<BarElement>>): seq<BarElement> {
    if outers == [] then [] else Lefts(outers[1..]) + LeftPart(outers[0])
  }

  function Rights(outers: seq<seq<BarElement>>): seq<BarElement> {
    if outers == [] then [] else RightPart(outers[0]) + Rights(outers[1..])
  }

  /** Nested substitution is the left parts, outermost first, the focused content, and the right
      parts, outermost last. */
  lemma {:induction false} NestIsSandwich(content: seq<BarElement>, outers: seq<seq<BarElement>>)
    ensures Nest(content, outers) == Lefts(outers) + content + Rights(outers)
    decreases |outers|
  {
    if outers == [] {
      assert [] + content + [] == content;
    } else {
      var left, right := LeftPart(outers[0]), RightPart(outers[0]);
      NestIsSandwich(Wrap(content, outers[0]), outers[1..]);
      WrapIsParts(content, outers[0]);
      Regroup(Lefts(outers[1..]), left, content, right, Rights(outers[1..]));
    }
  }

  lemma {:induction false} WrapIsParts(content: seq<BarElement>, outer: seq<BarElement>)
    ensures Wrap(content, outer) == LeftPart(outer) + content + RightPart(outer)
  {
    assert [] + content + [] == content;
  }

  lemma {:induction false} Regroup(a: seq<BarElement>, left: seq<BarElement>, content: seq<BarElement>, right: seq<BarElement>, b: seq<BarElement>)
    ensures a + (left + content + right) + b == (a + left) + content + (right + b)
  {
    ConcatAssociates(a, left + content, right);
    ConcatAssociates(a, left, content);
    ConcatAssociates(a + left + content, right, b);
  }

  ghost predicate NoProxy(elements: seq<BarElement>) {
    forall i :: 0 <= i < |elements| ==> !elements[i].ContextProxy?
  }

  lemma {:induction false} ProxyCountBeyond(elements: seq<BarElement>, i: nat)
    requires i < |elements| && elements[i].ContextProxy?
    ensures ProxyCount(elements) >= 1
    ensures ProxyAt(elements) < i ==> ProxyCount(elements) >= 2
  {
    if i > 0 {
      ProxyCountBeyond(elements[1..], i - 1);
      if ProxyAt(elements) == 0 {
        assert elements[0].ContextProxy?;
      }
    }
  }

  /** A valid bar has at most one proxy, so both of its parts are free of proxies. */
  lemma {:induction false} PartsHaveNoProxy(elements: seq<BarElement>)
    requires ProxyCount(elements) <= 1
    ensures NoProxy(LeftPart(elements)) && NoProxy(RightPart(elements))
  {
    var p := ProxyAt(elements);
    if p < |elements| {
      forall i | p < i < |elements| ensures !elements[i].ContextProxy? {
        if elements[i].ContextProxy? {
          ProxyCountBeyond(elements, i);
        }
      }
    }
  }

  lemma {:induction false} SandwichHasNoProxy(outers: seq<seq<BarElement>>)
    requires forall i :: 0 <= i < |outers| ==> ProxyCount(outers[i]) <= 1
    ensures NoProxy(Lefts(outers)) && NoProxy(Rights(outers))
  {
    if outers != [] {
      SandwichHasNoProxy(outers[1..]);
      PartsHaveNoProxy(outers[0]);
    }
  }

  // ----- the composition -----

  /** The bars of a chain, or the first identifier that names none. */
  function ChainBars(view: View, active: seq<BarId>): Result<seq<BarDefinition>, ModelError> {
    if active == [] then
      Ok([])
    else if active[0] !in view.bars then
      Err(UnknownActiveBar(active[0]))
    else
      var rest :- ChainBars(view, active[1..]);
      Ok([view.bars[active[0]]] + rest)
  }

  function Bodies(bars: seq<BarDefinition>): (r: seq<seq<BarElement>>)
    ensures |r| == |bars|
  {
    seq(|bars|, i requires 0 <= i < |bars| => bars[i].elements)
  }

  function ChainElements(bars: seq<BarDefinition>): seq<BarElement>
    requires bars != []
  {
    Lefts(Bodies(bars[1..])) + WithoutProxy(bars[0].elements) + Rights(Bodies(bars[1..]))
  }

  /** Principal of the earliest bar whose principal is in the composed elements. */
  function ChainPrincipal(bars: seq<BarDefinition>, elements: seq<BarElement>): Option<ItemId> {
    if bars == [] then None
    else if bars[0].principalItem.Some? && Refers(elements, bars[0].principalItem.value) then bars[0].principalItem
    else ChainPrincipal(bars[1..], elements)
  }

  function ResolveElements(view: View, elements: seq<BarElement>): Result<seq<Element>, ModelError>
    requires NoProxy(elements)
  {
    if elements == [] then
      Ok([])
    else
      var first :- ResolveElement(view, elements[0]);
      var rest :- ResolveElements(view, elements[1..]);
      Ok([first] + rest)
  }

  ghost predicate ValidBarsOf(view: View, bars: seq<BarDefinition>) {
    forall i :: 0 <= i < |bars| ==> ValidateBarDefinition(view, bars[i]).Ok?
  }

  lemma {:induction false} ChainBarsAreValid(view: View, active: seq<BarId>)
    requires ValidateRegistry(view).Ok? && ChainBars(view, active).Ok?
    ensures |ChainBars(view, active).value| == |active|
    ensures ValidBarsOf(view, ChainBars(view, active).value)
    ensures forall i :: 0 <= i < |active| ==> active[i] in view.bars && ChainBars(view, active).value[i] == view.bars[active[i]]
  {
    if active != [] {
      ChainBarsAreValid(view, active[1..]);
      ValidRegistryBar(view, active[0]);
    }
  }

  lemma {:induction false} ChainElementsHaveNoProxy(view: View, bars: seq<BarDefinition>)
    requires bars != [] && ValidBarsOf(view, bars)
    ensures NoProxy(ChainElements(bars))
  {
    forall i | 0 <= i < |bars[1..]| ensures ProxyCount(Bodies(bars[1..])[i]) <= 1 {
      assert ValidateBarDefinition(view, bars[i + 1]).Ok?;
    }
    SandwichHasNoProxy(Bodies(bars[1..]));
  }

  function ComposeChain(view: View, active: seq<BarId>): Result<BarSpec, ModelError> {
    var _ :- ValidateRegistry(view);
    if active == [] then
      Err(EmptyActiveChain)
    else
      var bars :- ChainBars(view, active);
      ChainBarsAreValid(view, active);
      ChainElementsHaveNoProxy(view, bars);
      var composed := ChainElements(bars);
      var elements :- ResolveElements(view, composed);
      Ok(BarSpec(elements, ChainPrincipal(bars, composed)))
  }

  // ----- as it runs -----

  /** `compose_active_chain`: wrap the focused content into one enclosing bar after the other. */
  method ComposeActiveChain(view: View, active: seq<BarId>) returns (r: Result<BarSpec, ModelError>)
    ensures r == ComposeChain(view, active)
  {
    var valid := ValidateRegistry(view);
    if valid.Err? {
      return Err(valid.error);
    }
    if active == [] {
      return Err(EmptyActiveChain);
    }
    if active[0] !in view.bars {
      return Err(UnknownActiveBar(active[0]));
    }
    var wrapped := WrapAll(view, WithoutProxy(view.bars[active[0]].elements), active[1..]);
    if wrapped.Err? {
      return Err(wrapped.error);
    }
    ghost var bars := ChainBars(view, active).value;
    assert bars == [view.bars[active[0]]] + ChainBars(view, active[1..]).value;
    assert bars[1..] == ChainBars(view, active[1..]).value;
    var composed := wrapped.value;
    NestIsSandwich(WithoutProxy(bars[0].elements), Bodies(bars[1..]));
    ChainBarsAreValid(view, active);
    ChainElementsHaveNoProxy(view, bars);
    var principal := FindPrincipalOf(view, active, composed);
    var elements := ResolveElements(view, composed);
    r := if elements.Err? then Err(elements.error) else Ok(BarSpec(elements.value, principal));
  }

  /** Content nested into the bars that a chain names. */
  ghost function NestedFrom(view: View, content: seq<BarElement>, outers: seq<BarId>): Result<seq<BarElement>, ModelError> {
    match ChainBars(view, outers)
    case Ok(bars) => Ok(Nest(content, Bodies(bars)))
    case Err(error) => Err(error)
  }

  /** The content in place of the proxy of an enclosing bar, if it has one. */
  method WrapOne(content: seq<BarElement>, outer: seq<BarElement>) returns (r: seq<BarElement>)
    ensures r == Wrap(content, outer)
  {
    var proxy := ProxyAt(outer);
    r := if proxy < |outer| then outer[..proxy] + content + outer[proxy + 1..] else content;
  }

  method WrapAll(view: View, content: seq<BarElement>, outers: seq<BarId>) returns (r: Result<seq<BarElement>, ModelError>)
    ensures r == NestedFrom(view, content, outers)
  {
    var composed := content;
    var i := 0;
    assert outers[0..] == outers;
    while i < |outers|
      invariant 0 <= i <= |outers|
      invariant NestedFrom(view, composed, outers[i..]) == NestedFrom(view, content, outers)
    {
      assert outers[i..][0] == outers[i] && outers[i..][1..] == outers[i + 1..];
      if outers[i] !in view.bars {
        return Err(UnknownActiveBar(outers[i]));
      }
      NestStep(view, outers[i..], composed);
      composed := WrapOne(composed, view.bars[outers[i]].elements);
      i := i + 1;
    }
    r := Ok(composed);
  }

  lemma {:induction false} NestStep(view: View, outers: seq<BarId>, content: seq<BarElement>)
    requires outers != [] && outers[0] in view.bars
    ensures NestedFrom(view, content, outers) == NestedFrom(view, Wrap(content, view.bars[outers[0]].elements), outers[1..])
  {
    if ChainBars(view, outers).Ok? {
      var bars := ChainBars(view, outers).value;
      assert Bodies(bars)[1..] == Bodies(ChainBars(view, outers[1..]).value);
    }
  }

  method FindPrincipalOf(view: View, active: seq<BarId>, composed: seq<BarElement>) returns (r: Option<ItemId>)
    requires ChainBars(view, active).Ok?
    ensures r == ChainPrincipal(ChainBars(view, active).value, composed)
  {
    var i := 0;
    assert active[0..] == active;
    while i < |active|
      invariant 0 <= i <= |active| && ChainBars(view, active[i..]).Ok?
      invariant ChainPrincipal(ChainBars(view, active).value, composed) == ChainPrincipal(ChainBars(view, active[i..]).value, composed)
    {
      assert active[i..][0] == active[i] && active[i..][1..] == active[i + 1..];
      assert ChainBars(view, active[i..]).value[1..] == ChainBars(view, active[i + 1..]).value;
      var principal := view.bars[active[i]].principalItem;
      if principal.Some? && Refers(composed, principal.value) {
        return principal;
      }
      i := i + 1;
    }
    r := None;
  }

  // ----- what every composition satisfies -----

  ghost predicate AllKnown(view: View, elements: seq<BarElement>) {
    forall i :: 0 <= i < |elements| ==>
      KnownRefs(view, ElementRefs(elements[i])) && (elements[i].Flexible? ==> elements[i].weight > 0)
  }

  lemma {:induction false} WithoutProxyKnown(view: View, elements: seq<BarElement>)
    requires AllKnown(view, elements)
    ensures AllKnown(view, WithoutProxy(elements))
  {
    if elements != [] {
      assert forall i :: 0 <= i < |elements[1..]| ==> elements[1..][i] == elements[i + 1];
      WithoutProxyKnown(view, elements[1..]);
    }
  }

  lemma {:induction false} PartsKnown(view: View, outers: seq<seq<BarElement>>)
    requires forall i :: 0 <= i < |outers| ==> AllKnown(view, outers[i])
    ensures AllKnown(view, Lefts(outers)) && AllKnown(view, Rights(outers))
  {
    if outers != [] {
      assert AllKnown(view, outers[0]);
      PartsKnown(view, outers[1..]);
    }
  }

  lemma {:induction false} ChainIsKnown(view: View, bars: seq<BarDefinition>)
    requires bars != [] && ValidBarsOf(view, bars)
    ensures AllKnown(view, ChainElements(bars))
  {
    forall i | 0 <= i < |bars| ensures AllKnown(view, bars[i].elements) {
      assert ValidateBarDefinition(view, bars[i]).Ok?;
      forall j | 0 <= j < |bars[i].elements|
        ensures KnownRefs(view, ElementRefs(bars[i].elements[j]))
                && (bars[i].elements[j].Flexible? ==> bars[i].elements[j].weight > 0)
      {
        ValidElementsAreKnown(view, bars[i].id, bars[i].elements, {}, j);
      }
    }
    WithoutProxyKnown(view, bars[0].elements);
    PartsKnown(view, Bodies(bars[1..]));
  }

  /** References of several elements in order. */
  function AllRefs(elements: seq<BarElement>): seq<ItemId> {
    if elements == [] then [] else ElementRefs(elements[0]) + AllRefs(elements[1..])
  }

  lemma {:induction false} KnownElementsResolve(view: View, elements: seq<BarElement>)
    requires Consistent(view) && NoProxy(elements) && AllKnown(view, elements)
    ensures ResolveElements(view, elements).Ok?
    ensures |ResolveElements(view, elements).value| == |elements|
    ensures Ids(BarItems(ResolveElements(view, elements).value)) == AllRefs(elements)
  {
    if elements != [] {
      assert forall i :: 0 <= i < |elements[1..]| ==> elements[1..][i] == elements[i + 1];
      KnownElementResolves(view, elements[0]);
      KnownElementsResolve(view, elements[1..]);
      var first, rest := ResolveElement(view, elements[0]).value, ResolveElements(view, elements[1..]).value;
      assert ([first] + rest)[1..] == rest;
      IdsConcat(ElementItems(first), BarItems(rest));
    }
  }

  lemma {:induction false} RefersIsMember(elements: seq<BarElement>, id: ItemId)
    ensures Refers(elements, id) <==> id in AllRefs(elements)
  {
    if elements != [] {
      RefersIsMember(elements[1..], id);
      if Refers(elements[1..], id) {
        var i :| 0 <= i < |elements[1..]| && id in ElementRefs(elements[1..][i]);
        assert id in ElementRefs(elements[i + 1]);
      }
      if Refers(elements, id) {
        var i :| 0 <= i < |elements| && id in ElementRefs(elements[i]);
        assert i == 0 || id in ElementRefs(elements[1..][i - 1]);
      }
    }
  }

  lemma {:induction false} PrincipalIsEarliest(bars: seq<BarDefinition>, elements: seq<BarElement>)
    ensures ChainPrincipal(bars, elements).Some? ==>
              exists i :: 0 <= i < |bars| && bars[i].principalItem == ChainPrincipal(bars, elements)
                && Refers(elements, ChainPrincipal(bars, elements).value)
                && forall j :: 0 <= j < i ==> bars[j].principalItem.None? || !Refers(elements, bars[j].principalItem.value)
    ensures ChainPrincipal(bars, elements).None? ==>
              forall j :: 0 <= j < |bars| ==> bars[j].principalItem.None? || !Refers(elements, bars[j].principalItem.value)
  {
    if bars != [] && !(bars[0].principalItem.Some? && Refers(elements, bars[0].principalItem.value)) {
      var rest := bars[1..];
      PrincipalIsEarliest(rest, elements);
      if ChainPrincipal(rest, elements).Some? {
        var i :| 0 <= i < |rest| && rest[i].principalItem == ChainPrincipal(rest, elements)
                 && Refers(elements, ChainPrincipal(rest, elements).value)
                 && forall j :: 0 <= j < i ==> rest[j].principalItem.None? || !Refers(elements, rest[j].principalItem.value);
        assert bars[i + 1] == rest[i];
        forall j | 0 <= j < i + 1 ensures bars[j].principalItem.None? || !Refers(elements, bars[j].principalItem.value) {
          if j > 0 {
            assert bars[j] == rest[j - 1];
          }
        }
      } else {
        forall j | 0 <= j < |bars| ensures bars[j].principalItem.None? || !Refers(elements, bars[j].principalItem.value) {
          if j > 0 {
            assert bars[j] == rest[j - 1];
          }
        }
      }
    }
  }

  /** On a valid registry a chain of known bars always composes, without an unknown item: the
      composed bar shows the items of the left parts, outermost first, of the focused bar, and of
      the right parts, and its principal is one of them. */
  lemma {:induction false} ChainComposes(view: View, active: seq<BarId>)
    requires Consistent(view) && ValidateRegistry(view).Ok?
    ensures ComposeChain(view, active).Ok? <==> active != [] && forall i :: 0 <= i < |active| ==> active[i] in view.bars
    ensures ComposeChain(view, active).Ok? ==>
              && ChainBars(view, active).Ok? && ChainBars(view, active).value != []
              && var bars := ChainBars(view, active).value;
              && var bar := ComposeChain(view, active).value;
              && Ids(BarItems(bar.elements)) == AllRefs(ChainElements(bars))
              && bar.principalItem == ChainPrincipal(bars, ChainElements(bars))
              && (bar.principalItem.Some? ==> bar.principalItem.value in Ids(BarItems(bar.elements)))
  {
    KnownChain(view, active);
    if active != [] && ChainBars(view, active).Ok? {
      ChainBarsAreValid(view, active);
      var bars := ChainBars(view, active).value;
      ChainElementsHaveNoProxy(view, bars);
      ChainIsKnown(view, bars);
      KnownElementsResolve(view, ChainElements(bars));
      PrincipalIsEarliest(bars, ChainElements(bars));
      if ChainPrincipal(bars, ChainElements(bars)).Some? {
        RefersIsMember(ChainElements(bars), ChainPrincipal(bars, ChainElements(bars)).value);
      }
    }
  }

  lemma {:induction false} KnownChain(view: View, active: seq<BarId>)
    ensures ChainBars(view, active).Ok? <==> forall i :: 0 <= i < |active| ==> active[i] in view.bars
    ensures ChainBars(view, active).Ok? ==> |ChainBars(view, active).value| == |active|
  {
    if active != [] {
      KnownChain(view, active[1..]);
      if active[0] in view.bars && ChainBars(view, active[1..]).Ok? {
        forall i | 0 <= i < |active| ensures active[i] in view.bars {
          if i > 0 {
            assert active[i] == active[1..][i - 1];
          }
        }
      }
      if forall i :: 0 <= i < |active| ==> active[i] in view.bars {
        forall i | 0 <= i < |active[1..]| ensures active[1..][i] in view.bars {
          assert active[1..][i] == active[i + 1];
        }
      }
    }
  }
}
