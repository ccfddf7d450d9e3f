/** The composition controller as a state machine over commands and touch captures. */
module Controller {
  import opened Basics
  import opened Sorting
  import opened Ordering
  import opened Context
  import opened LayoutTypes
  import opened LayoutValidate
  import opened RegistryModel
  import opened Profiles
  import opened Compose

  // ----- automatic selection -----

  datatype ProfileRule = ProfileRule(profile: ProfileId, priority: int, condition: ContextPredicate)

  datatype ProfileSelector = ProfileSelector(fallback: ProfileId, rules: seq<ProfileRule>)

  /** Position of the matching rule with the highest priority, the earliest among equals. */
  function BestRule(rules: seq<ProfileRule>, context: ContextSnapshot): (r: Option<nat>)
    ensures r.None? <==> forall i :: 0 <= i < |rules| ==> !rules[i].condition.Matches(context)
    ensures r.Some? ==> r.value < |rules| && rules[r.value].condition.Matches(context)
    ensures r.Some? ==> forall i :: 0 <= i < |rules| && rules[i].condition.Matches(context) ==>
              rules[i].priority < rules[r.value].priority || (rules[i].priority == rules[r.value].priority && r.value <= i)
  {
    if rules == [] then None
    else
      var last := |rules| - 1;
      var before := BestRule(rules[..last], context);
      if !rules[last].condition.Matches(context) then before
      else if before.None? || rules[last].priority > rules[before.value].priority then Some(last)
      else before
  }

  function SelectProfileFor(selector: ProfileSelector, context: ContextSnapshot): ProfileId {
    var best := BestRule(selector.rules, context);
    if best.Some? then selector.rules[best.value].profile else selector.fallback
  }

  // ----- what changes on screen -----

  datatype Delta = Delta(retained: seq<ItemId>, entering: seq<ItemId>, leaving: seq<ItemId>)

  function ItemSet(bar: BarSpec): set<ItemId> {
    Elements(Ids(BarItems(bar.elements)))
  }

  function Ascend(ids: set<ItemId>): seq<ItemId> {
    StringIsTotalOrder();
    Listing(StringLe, ids)
  }

  function DeltaBetween(previous: set<ItemId>, next: set<ItemId>): Delta {
    Delta(Ascend(previous * next), Ascend(next - previous), Ascend(previous - next))
  }

  /** The items on screen once a delta has been carried out. */
  function AfterDelta(items: set<ItemId>, delta: Delta): set<ItemId> {
    (items - Elements(delta.leaving)) + Elements(delta.entering)
  }

  lemma {:induction false} AscendElements(ids: set<ItemId>)
    ensures Elements(Ascend(ids)) == ids && Ascending(StringLe, Ascend(ids))
  {
    StringIsTotalOrder();
    ListingFacts(StringLe, ids);
  }

  /** The delta partitions the old and the new items, each part in order, and leads from one to the other. */
  lemma {:induction false} DeltaIsPartition(previous: set<ItemId>, next: set<ItemId>)
    ensures var delta := DeltaBetween(previous, next);
            && Ascending(StringLe, delta.retained) && Ascending(StringLe, delta.entering) && Ascending(StringLe, delta.leaving)
            && previous == Elements(delta.retained) + Elements(delta.leaving)
            && next == Elements(delta.retained) + Elements(delta.entering)
            && Elements(delta.retained) !! Elements(delta.entering) !! Elements(delta.leaving)
            && AfterDelta(previous, delta) == next
  {
    AscendElements(previous * next);
    AscendElements(next - previous);
    AscendElements(previous - next);
  }

  // ----- state -----

  datatype Snapshot = Snapshot(generation: u64, contextGeneration: u64, composition: ProfileComposition, delta: Delta)

  datatype Lease = Lease(profile: ProfileId, priority: int, sequence: u64)

  type ModeKey = (u64, string)

  /** What a controller owns and never changes. */
  datatype Setting = Setting(view: View, catalog: Catalog, selector: ProfileSelector)

  datatype State = State(
    context: ContextSnapshot,
    manual: Option<ProfileId>,
    modes: map<ModeKey, Lease>,
    current: Snapshot,
    pending: Option<Snapshot>,
    captured: set<u32>,
    nextGeneration: u64,
    nextSequence: u64)

  datatype Command =
    | SetContext(context: ContextSnapshot)
    | SelectProfile(profile: ProfileId)
    | UseAutomaticProfile
    | ActivateMode(owner: u64, mode: string, profile: ProfileId, priority: int)
    | ReleaseMode(owner: u64, mode: string)
    | ReleaseOwner(owner: u64)

  /** `n.wrapping_add(1).max(1)` on 64 bits */
  function Next(n: u64): u64 {
    if n + 1 == U64_LIMIT then 1 else n + 1
  }

  // ----- the effective profile -----

  predicate KeyLe(a: ModeKey, b: ModeKey) {
    LexLe([a.0] + Codes(a.1), [b.0] + Codes(b.1))
  }

  lemma {:induction false} KeyIsTotalOrder()
    ensures TotalOrder(KeyLe)
  {
    forall a: ModeKey, b: ModeKey ensures KeyLe(a, b) || KeyLe(b, a) {
      LexTotal([a.0] + Codes(a.1), [b.0] + Codes(b.1));
    }
    forall a: ModeKey, b: ModeKey, c: ModeKey | KeyLe(a, b) && KeyLe(b, c) ensures KeyLe(a, c) {
      LexTransitive([a.0] + Codes(a.1), [b.0] + Codes(b.1), [c.0] + Codes(c.1));
    }
    forall a: ModeKey, b: ModeKey | KeyLe(a, b) && KeyLe(b, a) ensures a == b {
      LexAntisymmetric([a.0] + Codes(a.1), [b.0] + Codes(b.1));
      assert ([a.0] + Codes(a.1))[0] == a.0 && ([b.0] + Codes(b.1))[0] == b.0;
      assert ([a.0] + Codes(a.1))[1..] == Codes(a.1) && ([b.0] + Codes(b.1))[1..] == Codes(b.1);
      CodesInjective(a.1, b.1);
    }
  }

  predicate Weaker(a: Lease, b: Lease) {
    a.priority < b.priority || (a.priority == b.priority && a.sequence <= b.sequence)
  }

  /** The last of the strongest leases, as `max_by_key` finds it. */
  function StrongestKey(keys: seq<ModeKey>, modes: map<ModeKey, Lease>): (r: ModeKey)
    requires keys != [] && forall i :: 0 <= i < |keys| ==> keys[i] in modes
    ensures r in keys && r in modes
    ensures forall i :: 0 <= i < |keys| ==> Weaker(modes[keys[i]], modes[r])
  {
    var last := |keys| - 1;
    if last == 0 then keys[0]
    else
      var before := StrongestKey(keys[..last], modes);
      if Weaker(modes[before], modes[keys[last]]) then keys[last] else before
  }

  function StrongestLease(modes: map<ModeKey, Lease>): (r: ModeKey)
    requires modes != map[]
    ensures r in modes && forall key :: key in modes ==> Weaker(modes[key], modes[r])
  {
    KeyIsTotalOrder();
    ListingFacts(KeyLe, modes.Keys);
    var keys := Listing(KeyLe, modes.Keys);
    assert forall key :: key in modes ==> key in Elements(keys);
    assert |keys| == |modes.Keys|;
    assert forall i :: 0 <= i < |keys| ==> keys[i] in Elements(keys);
    StrongestKey(keys, modes)
  }

  function EffectiveProfile(setting: Setting, s: State): ProfileId {
    if s.manual.Some? then s.manual.value
    else if s.modes == map[] then SelectProfileFor(setting.selector, s.context)
    else s.modes[StrongestLease(s.modes)].profile
  }

  // ----- transitions -----

  function CheckRules(catalog: Catalog, rules: seq<ProfileRule>): Result<(), ProfileError> {
    if rules == [] then Ok(())
    else if rules[0].profile !in catalog.profiles then Err(UnknownProfile(rules[0].profile))
    else CheckRules(catalog, rules[1..])
  }

  function CheckSelector(catalog: Catalog, selector: ProfileSelector): Result<(), ProfileError> {
    if selector.fallback !in catalog.profiles then Err(UnknownProfile(selector.fallback))
    else CheckRules(catalog, selector.rules)
  }

  function Initial(setting: Setting, context: ContextSnapshot): Result<State, ProfileError> {
    var _ :- ValidateCatalog(setting.view, setting.catalog);
    var _ :- CheckSelector(setting.catalog, setting.selector);
    var composition :- Composed(setting.view, setting.catalog, SelectProfileFor(setting.selector, context), context);
    Ok(State(context, None, map[],
             Snapshot(1, context.generation, composition, DeltaBetween({}, ItemSet(composition.bar))),
             None, {}, 2, 1))
  }

  /** The state after the command itself, or `None` when the command changes nothing. */
  function Obey(setting: Setting, s: State, command: Command): Result<Option<State>, ProfileError> {
    match command
    case SetContext(context) => Ok(Some(s.(context := context)))
    case SelectProfile(profile) =>
      if profile !in setting.catalog.profiles then Err(UnknownProfile(profile)) else Ok(Some(s.(manual := Some(profile))))
    case UseAutomaticProfile => Ok(if s.manual.Some? then Some(s.(manual := None)) else None)
    case ActivateMode(owner, mode, profile, priority) =>
      if profile !in setting.catalog.profiles then Err(UnknownProfile(profile))
      else if Blank(mode) then Err(EmptyModeId)
      else Ok(Some(s.(modes := s.modes[(owner, mode) := Lease(profile, priority, s.nextSequence)], nextSequence := Next(s.nextSequence))))
    case ReleaseMode(owner, mode) =>
      Ok(if (owner, mode) in s.modes then Some(s.(modes := s.modes - {(owner, mode)})) else None)
    case ReleaseOwner(owner) =>
      var kept := map key | key in s.modes && key.0 != owner :: s.modes[key];
      Ok(if |kept| != |s.modes| then Some(s.(modes := kept)) else None)
  }

  function BuildSnapshot(setting: Setting, s: State): Result<Snapshot, ProfileError> {
    var composition :- Composed(setting.view, setting.catalog, EffectiveProfile(setting, s), s.context);
    Ok(Snapshot(s.nextGeneration, s.context.generation, composition,
                DeltaBetween(ItemSet(s.current.composition.bar), ItemSet(composition.bar))))
  }

  datatype Reply = Reply(state: State, result: Result<Option<Snapshot>, ProfileError>)

  /** `apply`: a failing command leaves the state as it was. */
  function Apply(setting: Setting, s: State, command: Command): Reply {
    match Obey(setting, s, command)
    case Err(error) => Reply(s, Err(error))
    case Ok(None) => Reply(s, Ok(None))
    case Ok(Some(obeyed)) =>
      match BuildSnapshot(setting, obeyed)
      case Err(error) => Reply(s, Err(error))
      case Ok(candidate) => Commit(obeyed, candidate)
  }

  function Commit(s: State, candidate: Snapshot): Reply {
    var counted := s.(nextGeneration := Next(s.nextGeneration));
    if s.captured == {} then Reply(counted.(current := candidate), Ok(Some(candidate)))
    else Reply(counted.(pending := Some(candidate)), Ok(None))
  }

  function StartCapture(s: State, contact: u32): State {
    s.(captured := s.captured + {contact})
  }

  function EndCapture(s: State, contact: u32): (State, Option<Snapshot>) {
    var left := s.captured - {contact};
    if left == {} && s.pending.Some? then (s.(captured := left, current := s.pending.value, pending := None), s.pending)
    else (s.(captured := left), None)
  }

  datatype Event = Issue(command: Command) | CaptureStarted(contact: u32) | CaptureEnded(contact: u32)

  /** The state after an event and the snapshot that the event brings on screen. */
  function Step(setting: Setting, s: State, event: Event): (State, Option<Snapshot>) {
    match event
    case Issue(command) =>
      var reply := Apply(setting, s, command);
      (reply.state, if reply.result.Ok? then reply.result.value else None)
    case CaptureStarted(contact) => (StartCapture(s, contact), None)
    case CaptureEnded(contact) => EndCapture(s, contact)
  }

  function Run(setting: Setting, s: State, events: seq<Event>): State
    decreases |events|
  {
    if events == [] then s else Run(setting, Step(setting, s, events[0]).0, events[1..])
  }

  /** The snapshots that a run brings on screen, in order. */
  function ShownBy(setting: Setting, s: State, events: seq<Event>): seq<Snapshot>
    decreases |events|
  {
    if events == [] then []
    else
      var (after, shown) := Step(setting, s, events[0]);
      (if shown.Some? then [shown.value] else []) + ShownBy(setting, after, events[1..])
  }

  // ----- what every reachable state satisfies -----

  /** The newest snapshot, shown or waiting for the captures to end. */
  function Newest(s: State): Snapshot {
    if s.pending.Some? then s.pending.value else s.current
  }

  ghost predicate Selectable(setting: Setting, s: State) {
    && CheckSelector(setting.catalog, setting.selector).Ok?
    && (s.manual.Some? ==> s.manual.value in setting.catalog.profiles)
    && (forall key :: key in s.modes ==> s.modes[key].profile in setting.catalog.profiles)
  }

  ghost predicate UpToDate(setting: Setting, s: State, snapshot: Snapshot) {
    && Composed(setting.view, setting.catalog, EffectiveProfile(setting, s), s.context) == Ok(snapshot.composition)
    && snapshot.contextGeneration == s.context.generation
  }

  ghost predicate Waiting(s: State) {
    s.pending.Some? ==>
      && s.captured != {}
      && s.pending.value.delta == DeltaBetween(ItemSet(s.current.composition.bar), ItemSet(s.pending.value.composition.bar))
  }

  ghost predicate Invariant(setting: Setting, s: State) {
    Selectable(setting, s) && UpToDate(setting, s, Newest(s)) && Waiting(s)
  }

  lemma {:induction false} RuleProfile(catalog: Catalog, rules: seq<ProfileRule>, i: nat)
    requires CheckRules(catalog, rules).Ok? && i < |rules|
    ensures rules[i].profile in catalog.profiles
  {
    if i > 0 {
      RuleProfile(catalog, rules[1..], i - 1);
    }
  }

  /** The effective profile is always one of the catalog. */
  lemma {:induction false} EffectiveIsKnown(setting: Setting, s: State)
    requires Selectable(setting, s)
    ensures EffectiveProfile(setting, s) in setting.catalog.profiles
  {
    var best := BestRule(setting.selector.rules, s.context);
    if best.Some? {
      RuleProfile(setting.catalog, setting.selector.rules, best.value);
    }
  }

  lemma {:induction false} InitialInvariant(setting: Setting, context: ContextSnapshot)
    requires Initial(setting, context).Ok?
    ensures Invariant(setting, Initial(setting, context).value)
  {
  }

  lemma {:induction false} ObeyKeepsSelectable(setting: Setting, s: State, command: Command)
    requires Selectable(setting, s) && Obey(setting, s, command).Ok? && Obey(setting, s, command).value.Some?
    ensures Selectable(setting, Obey(setting, s, command).value.value)
  {
  }

  lemma {:induction false} ObeyFrame(setting: Setting, s: State, command: Command)
    requires Obey(setting, s, command).Ok? && Obey(setting, s, command).value.Some?
    ensures var obeyed := Obey(setting, s, command).value.value;
            obeyed.current == s.current && obeyed.pending == s.pending && obeyed.captured == s.captured
  {
  }

  lemma {:induction false} CommitFrame(setting: Setting, s: State, candidate: Snapshot)
    requires BuildSnapshot(setting, s) == Ok(candidate)
    ensures var reply := Commit(s, candidate);
            && reply.state.captured == s.captured
            && reply.result == (if s.captured == {} then Ok(Some(candidate)) else Ok(None))
            && reply.state.current == (if s.captured == {} then candidate else s.current)
            && candidate.delta == DeltaBetween(OnScreen(s), ItemSet(candidate.composition.bar))
  {
  }

  /** What a command shows: nothing while a contact is captured or when it fails, otherwise the new
      bar with its difference from the one on screen. */
  lemma {:induction false} ApplyFrame(setting: Setting, s: State, command: Command)
    ensures var reply := Apply(setting, s, command);
            && reply.state.captured == s.captured
            && (reply.result.Err? ==> reply.state == s)
            && (s.captured != {} ==> reply.result.Err? || reply.result == Ok(None))
            && (reply.result == Ok(None) ==> reply.state.current == s.current)
            && (reply.result.Ok? && reply.result.value.Some? ==>
                  && reply.state.current == reply.result.value.value
                  && reply.result.value.value.delta == DeltaBetween(OnScreen(s), OnScreen(reply.state)))
  {
    var obeyed := Obey(setting, s, command);
    if obeyed.Ok? && obeyed.value.Some? {
      ObeyFrame(setting, s, command);
      if BuildSnapshot(setting, obeyed.value.value).Ok? {
        CommitFrame(setting, obeyed.value.value, BuildSnapshot(setting, obeyed.value.value).value);
      }
    }
  }

  lemma {:induction false} CommitInvariant(setting: Setting, s: State, candidate: Snapshot)
    requires Selectable(setting, s) && BuildSnapshot(setting, s) == Ok(candidate)
    requires s.captured == {} ==> s.pending.None?
    ensures Invariant(setting, Commit(s, candidate).state)
  {
    var after := Commit(s, candidate).state;
    assert after.manual == s.manual && after.modes == s.modes && after.context == s.context;
    assert EffectiveProfile(setting, after) == EffectiveProfile(setting, s);
    assert Newest(after) == candidate;
  }

  /** Every event keeps the invariant: the newest snapshot is the composition of the effective
      profile in the stored context, and a snapshot waits only while a contact is captured. */
  lemma {:induction false} StepKeepsInvariant(setting: Setting, s: State, event: Event)
    requires Invariant(setting, s)
    ensures Invariant(setting, Step(setting, s, event).0)
  {
    match event
    case Issue(command) =>
      var obeyed := Obey(setting, s, command);
      if obeyed.Ok? && obeyed.value.Some? && BuildSnapshot(setting, obeyed.value.value).Ok? {
        ObeyKeepsSelectable(setting, s, command);
        ObeyFrame(setting, s, command);
        CommitInvariant(setting, obeyed.value.value, BuildSnapshot(setting, obeyed.value.value).value);
      }
    case CaptureStarted(contact) =>
      assert contact in StartCapture(s, contact).captured;
      CaptureKeeps(setting, s, StartCapture(s, contact));
    case CaptureEnded(contact) =>
      CaptureKeeps(setting, s, EndCapture(s, contact).0);
  }

  lemma {:induction false} CaptureKeeps(setting: Setting, s: State, t: State)
    requires Invariant(setting, s) && Waiting(t)
    requires t.manual == s.manual && t.modes == s.modes && t.context == s.context && Newest(t) == Newest(s)
    ensures Invariant(setting, t)
  {
    assert EffectiveProfile(setting, t) == EffectiveProfile(setting, s);
  }

  /** The invariant holds in every reachable state. */
  lemma {:induction false} RunKeepsInvariant(setting: Setting, s: State, events: seq<Event>)
    requires Invariant(setting, s)
    ensures Invariant(setting, Run(setting, s, events))
    decreases |events|
  {
    if events != [] {
      StepKeepsInvariant(setting, s, events[0]);
      RunKeepsInvariant(setting, Step(setting, s, events[0]).0, events[1..]);
    }
  }

  /** Every reachable state shows, or is about to show, the composition of its effective profile. */
  lemma {:induction false} ReachableIsUpToDate(setting: Setting, context: ContextSnapshot, events: seq<Event>)
    requires Initial(setting, context).Ok?
    ensures var s := Run(setting, Initial(setting, context).value, events);
            && Composed(setting.view, setting.catalog, EffectiveProfile(setting, s), s.context) == Ok(Newest(s).composition)
            && Newest(s).contextGeneration == s.context.generation
            && EffectiveProfile(setting, s) in setting.catalog.profiles
            && (s.pending.Some? ==> s.captured != {})
  {
    InitialInvariant(setting, context);
    var s := Run(setting, Initial(setting, context).value, events);
    RunKeepsInvariant(setting, Initial(setting, context).value, events);
    EffectiveIsKnown(setting, s);
  }

  // ----- captures -----

  /** A contact is captured before and after every event of the run. */
  ghost predicate CapturedThroughout(setting: Setting, s: State, events: seq<Event>)
    decreases |events|
  {
    s.captured != {} && (events != [] ==> CapturedThroughout(setting, Step(setting, s, events[0]).0, events[1..]))
  }

  /** While a contact is captured nothing new is shown. */
  lemma {:induction false} FrozenWhileCaptured(setting: Setting, s: State, events: seq<Event>)
    requires CapturedThroughout(setting, s, events)
    ensures Run(setting, s, events).current == s.current
    ensures ShownBy(setting, s, events) == []
    decreases |events|
  {
    if events != [] {
      var (after, shown) := Step(setting, s, events[0]);
      FrozenWhileCaptured(setting, after, events[1..]);
      assert after.captured != {};
      match events[0] {
        case Issue(command) => ApplyFrame(setting, s, command);
        case _ =>
      }
    }
  }

  // ----- deltas -----

  function FoldDeltas(items: set<ItemId>, shown: seq<Snapshot>): set<ItemId>
    decreases |shown|
  {
    if shown == [] then items else FoldDeltas(AfterDelta(items, shown[0].delta), shown[1..])
  }

  ghost predicate Chained(items: set<ItemId>, shown: seq<Snapshot>)
    decreases |shown|
  {
    shown == [] ||
    (&& shown[0].delta == DeltaBetween(items, ItemSet(shown[0].composition.bar))
     && Chained(ItemSet(shown[0].composition.bar), shown[1..]))
  }

  function OnScreen(s: State): set<ItemId> {
    ItemSet(s.current.composition.bar)
  }

  lemma {:induction false} StepShows(setting: Setting, s: State, event: Event)
    requires Invariant(setting, s)
    ensures var (after, shown) := Step(setting, s, event);
            && (shown.None? ==> after.current == s.current)
            && (shown.Some? ==> after.current == shown.value && shown.value.delta == DeltaBetween(OnScreen(s), OnScreen(after)))
  {
    match event
    case Issue(command) => ApplyFrame(setting, s, command);
    case _ =>
  }

  /** Over every run, each delta shown is the partition between the bar shown before and the new one,
      however many waiting snapshots were superseded; so the deltas lead from the first items on
      screen to the last. */
  lemma {:induction false} DeltasLeadToScreen(setting: Setting, s: State, events: seq<Event>)
    requires Invariant(setting, s)
    ensures Chained(OnScreen(s), ShownBy(setting, s, events))
    ensures FoldDeltas(OnScreen(s), ShownBy(setting, s, events)) == OnScreen(Run(setting, s, events))
    decreases |events|
  {
    if events != [] {
      var (after, shown) := Step(setting, s, events[0]);
      StepShows(setting, s, events[0]);
      StepKeepsInvariant(setting, s, events[0]);
      DeltasLeadToScreen(setting, after, events[1..]);
      var rest := ShownBy(setting, after, events[1..]);
      if shown.Some? {
        DeltaIsPartition(OnScreen(s), OnScreen(after));
        assert ([shown.value] + rest)[1..] == rest;
      } else {
        assert [] + rest == rest;
      }
    }
  }
}
