/** Selection of the active chain from the context. */
module ContextChain {
  import opened Basics
  import opened Context
  import opened RegistryModel
  import opened ActiveChain

  datatype ContextRule = ContextRule(bar: BarId, scope: ContextScope, priority: int, condition: ContextPredicate)

  datatype ContextSelector = ContextSelector(fallback: BarId, rules: seq<ContextRule>)

  predicate Applies(rule: ContextRule, scope: ContextScope, context: ContextSnapshot) {
    rule.scope == scope && rule.condition.Matches(context)
  }

  /** The rule that wins a scope: the highest priority, the earliest among equals. */
  function Winner(rules: seq<ContextRule>, scope: ContextScope, context: ContextSnapshot): (r: Option<nat>)
    ensures r.None? <==> forall i :: 0 <= i < |rules| ==> !Applies(rules[i], scope, context)
    ensures r.Some? ==> r.value < |rules| && Applies(rules[r.value], scope, context)
    ensures r.Some? ==> forall i :: 0 <= i < |rules| && Applies(rules[i], scope, context) ==>
              rules[i].priority < rules[r.value].priority || (rules[i].priority == rules[r.value].priority && r.value <= i)
  {
    if rules == [] then None
    else
      var last := |rules| - 1;
      var before := Winner(rules[..last], scope, context);
      if !Applies(rules[last], scope, context) then before
      else if before.None? || rules[last].priority > rules[before.value].priority then Some(last)
      else before
  }

  function WinningBar(rules: seq<ContextRule>, scope: ContextScope, context: ContextSnapshot): seq<BarId> {
    var winner := Winner(rules, scope, context);
    if winner.Some? then [rules[winner.value].bar] else []
  }

  /** The winners from the most to the least specific scope, and the fallback unless it is among them. */
  function SelectChain(selector: ContextSelector, context: ContextSnapshot): seq<BarId> {
    var chain := WinningBar(selector.rules, Window, context) + WinningBar(selector.rules, Application, context)
                 + WinningBar(selector.rules, Workspace, context) + WinningBar(selector.rules, Global, context);
    if selector.fallback in chain then chain else chain + [selector.fallback]
  }

  ghost predicate KnownBars(view: View, selector: ContextSelector) {
    selector.fallback in view.bars && forall i :: 0 <= i < |selector.rules| ==> selector.rules[i].bar in view.bars
  }

  /** The fallback is always selected, and only known bars are. */
  lemma {:induction false} SelectedAreKnown(view: View, selector: ContextSelector, context: ContextSnapshot)
    requires KnownBars(view, selector)
    ensures selector.fallback in SelectChain(selector, context) && AllIn(view, SelectChain(selector, context))
  {
    var window, application := WinningBar(selector.rules, Window, context), WinningBar(selector.rules, Application, context);
    var workspace, globally := WinningBar(selector.rules, Workspace, context), WinningBar(selector.rules, Global, context);
    AllInConcat(view, window, application);
    AllInConcat(view, window + application, workspace);
    AllInConcat(view, window + application + workspace, globally);
    AllInConcat(view, window + application + workspace + globally, [selector.fallback]);
  }

  /** Whatever the context, the selected chain of a valid registry composes. */
  lemma {:induction false} SelectedChainComposes(view: View, selector: ContextSelector, context: ContextSnapshot)
    requires Consistent(view) && ValidateRegistry(view).Ok? && KnownBars(view, selector)
    ensures ComposeChain(view, SelectChain(selector, context)).Ok?
  {
    SelectedAreKnown(view, selector, context);
    KnownChainComposes(view, SelectChain(selector, context));
  }

  lemma {:induction false} KnownChainComposes(view: View, chain: seq<BarId>)
    requires Consistent(view) && ValidateRegistry(view).Ok? && chain != [] && AllIn(view, chain)
    ensures ComposeChain(view, chain).Ok?
  {
    ChainComposes(view, chain);
  }

  ghost predicate AllIn(view: View, chain: seq<BarId>) {
    forall i :: 0 <= i < |chain| ==> chain[i] in view.bars
  }

  lemma {:induction false} AllInConcat(view: View, a: seq<BarId>, b: seq<BarId>)
    requires AllIn(view, a) && AllIn(view, b)
    ensures AllIn(view, a + b)
  {
  }

  // ----- selection as it runs -----

  /** What the loop has recorded for a scope. */
  datatype Choice = Choice(priority: int, index: nat, bar: BarId)

  ghost predicate Records(rules: seq<ContextRule>, context: ContextSnapshot, selected: map<ContextScope, Choice>, scope: ContextScope) {
    var winner := Winner(rules, scope, context);
    if winner.None? then scope !in selected
    else scope in selected && selected[scope] == Choice(rules[winner.value].priority, winner.value, rules[winner.value].bar)
  }

  ghost predicate RecordsAll(rules: seq<ContextRule>, context: ContextSnapshot, selected: map<ContextScope, Choice>) {
    && Records(rules, context, selected, Window) && Records(rules, context, selected, Application)
    && Records(rules, context, selected, Workspace) && Records(rules, context, selected, Global)
  }

  /** The record of a scope after one more rule. */
  function Consider(selected: map<ContextScope, Choice>, rule: ContextRule, index: nat, context: ContextSnapshot): map<ContextScope, Choice> {
    if rule.condition.Matches(context)
       && (rule.scope !in selected || rule.priority > selected[rule.scope].priority
           || (rule.priority == selected[rule.scope].priority && index < selected[rule.scope].index))
    then selected[rule.scope := Choice(rule.priority, index, rule.bar)] else selected
  }

  lemma {:induction false} RecordStep(rules: seq<ContextRule>, index: nat, context: ContextSnapshot, selected: map<ContextScope, Choice>, scope: ContextScope)
    requires index < |rules| && Records(rules[..index], context, selected, scope)
    ensures Records(rules[..index + 1], context, Consider(selected, rules[index], index, context), scope)
  {
    assert rules[..index + 1][..index] == rules[..index];
  }

  method SelectRules(rules: seq<ContextRule>, context: ContextSnapshot) returns (selected: map<ContextScope, Choice>)
    ensures RecordsAll(rules, context, selected)
  {
    selected := map[];
    var index := 0;
    while index < |rules|
      invariant 0 <= index <= |rules|
      invariant RecordsAll(rules[..index], context, selected)
    {
      RecordStep(rules, index, context, selected, Window);
      RecordStep(rules, index, context, selected, Application);
      RecordStep(rules, index, context, selected, Workspace);
      RecordStep(rules, index, context, selected, Global);
      selected := Consider(selected, rules[index], index, context);
      index := index + 1;
    }
    assert rules[..index] == rules;
  }

  function Chosen(selected: map<ContextScope, Choice>, scope: ContextScope): seq<BarId> {
    if scope in selected then [selected[scope].bar] else []
  }

  /** `select_chain` */
  method SelectActiveChain(selector: ContextSelector, context: ContextSnapshot) returns (chain: seq<BarId>)
    ensures chain == SelectChain(selector, context)
  {
    var selected := SelectRules(selector.rules, context);
    chain := Chosen(selected, Window) + Chosen(selected, Application) + Chosen(selected, Workspace) + Chosen(selected, Global);
    if selector.fallback !in chain {
      chain := chain + [selector.fallback];
    }
  }
}
