/** The composition controller as it runs: fields updated in place, saved and put back on failure. */
module ControllerRuntime {
  import opened Basics
  import opened Ordering
  import opened Context
  import opened LayoutTypes
  import opened LayoutValidate
  import opened RegistryModel
  import opened Profiles
  import opened Compose
  import opened Composing
  import opened Controller

  lemma {:induction false} MoreItems(a: seq<ItemSpec>, b: seq<ItemSpec>)
    ensures Elements(Ids(a + b)) == Elements(Ids(a)) + Elements(Ids(b))
  {
    IdsConcat(a, b);
    assert forall x :: x in Ids(a) + Ids(b) <==> x in Ids(a) || x in Ids(b);
  }

  /** `collect_layout_group_item_ids` */
  method CollectGroup(group: GroupSpec, ids: set<ItemId>) returns (r: set<ItemId>)
    ensures r == ids + Elements(Ids(GroupItems(group)))
    decreases group, 1
  {
    r := ids;
    var i := 0;
    assert group.elements[0..] == group.elements;
    while i < |group.elements|
      invariant 0 <= i <= |group.elements|
      invariant r + Elements(Ids(ItemsOf(group.elements[i..]))) == ids + Elements(Ids(GroupItems(group)))
    {
      TailOf(group.elements, i);
      MoreItems(ChildItems(group.elements[i]), ItemsOf(group.elements[i + 1..]));
      match group.elements[i] {
        case ChildItem(item) =>
          assert Ids([item]) == [item.id];
          r := r + {item.id};
        case ChildGroup(child) =>
          r := CollectGroup(child, r);
      }
      i := i + 1;
    }
    assert group.elements[i..] == [];
  }

  /** `item_ids` */
  method CollectBar(bar: BarSpec) returns (r: set<ItemId>)
    ensures r == ItemSet(bar)
  {
    r := {};
    var i := 0;
    assert bar.elements[0..] == bar.elements;
    while i < |bar.elements|
      invariant 0 <= i <= |bar.elements|
      invariant r + Elements(Ids(BarItems(bar.elements[i..]))) == ItemSet(bar)
    {
      TailOf(bar.elements, i);
      MoreItems(ElementItems(bar.elements[i]), BarItems(bar.elements[i + 1..]));
      match bar.elements[i] {
        case Item(item) =>
          assert Ids([item]) == [item.id];
          r := r + {item.id};
        case Group(group) =>
          r := CollectGroup(group, r);
        case FixedSpace(_) =>
        case FlexibleSpace(_, _) =>
      }
      i := i + 1;
    }
    assert bar.elements[i..] == [];
  }

  /** `validate_selector` */
  method ValidateSelector(catalog: Catalog, selector: ProfileSelector) returns (r: Result<(), ProfileError>)
    ensures r == CheckSelector(catalog, selector)
  {
    if selector.fallback !in catalog.profiles {
      return Err(UnknownProfile(selector.fallback));
    }
    var i := 0;
    assert selector.rules[0..] == selector.rules;
    while i < |selector.rules|
      invariant 0 <= i <= |selector.rules|
      invariant CheckRules(catalog, selector.rules) == CheckRules(catalog, selector.rules[i..])
    {
      TailOf(selector.rules, i);
      if selector.rules[i].profile !in catalog.profiles {
        return Err(UnknownProfile(selector.rules[i].profile));
      }
      i := i + 1;
    }
    r := Ok(());
  }

  class CompositionController {
    const setting: Setting
    var context: ContextSnapshot
    var manual: Option<ProfileId>
    var modes: map<ModeKey, Lease>
    var current: Snapshot
    var pending: Option<Snapshot>
    var captured: set<u32>
    var nextGeneration: u64
    var nextSequence: u64

    function Contents(): State
      reads this
    {
      State(context, manual, modes, current, pending, captured, nextGeneration, nextSequence)
    }

    constructor (setting: Setting, context: ContextSnapshot, current: Snapshot)
      ensures this.setting == setting
      ensures Contents() == State(context, None, map[], current, None, {}, 2, 1)
    {
      this.setting := setting;
      this.context, manual, modes := context, None, map[];
      this.current, pending, captured := current, None, {};
      nextGeneration, nextSequence := 2, 1;
    }

    /** `CompositionController::new` */
    static method Create(setting: Setting, context: ContextSnapshot) returns (r: Result<CompositionController, ProfileError>)
      requires Consistent(setting.view)
      ensures r.Err? ==> Initial(setting, context) == Err(r.error)
      ensures r.Ok? ==> fresh(r.value) && r.value.setting == setting && Initial(setting, context) == Ok(r.value.Contents())
      ensures r.Ok? ==> Invariant(setting, r.value.Contents())
    {
      var _ :- ValidateCatalog(setting.view, setting.catalog);
      var _ :- ValidateSelector(setting.catalog, setting.selector);
      var composition :- ComposeProfile(setting.view, setting.catalog, SelectProfileFor(setting.selector, context), context);
      var items := CollectBar(composition.bar);
      var snapshot := Snapshot(1, context.generation, composition, DeltaBetween({}, items));
      var controller := new CompositionController(setting, context, snapshot);
      InitialInvariant(setting, context);
      r := Ok(controller);
    }

    method Build() returns (r: Result<Snapshot, ProfileError>)
      requires Consistent(setting.view)
      ensures r == BuildSnapshot(setting, Contents())
    {
      var profile := EffectiveProfile(setting, Contents());
      var composition :- ComposeProfile(setting.view, setting.catalog, profile, context);
      var previous := CollectBar(current.composition.bar);
      var next := CollectBar(composition.bar);
      r := Ok(Snapshot(nextGeneration, context.generation, composition, DeltaBetween(previous, next)));
    }

    /** The match on the command: whether the context, the manual choice or the modes changed. */
    method Carry(command: Command) returns (r: Result<bool, ProfileError>)
      modifies this`context, this`manual, this`modes, this`nextSequence
      ensures r == (match Controller.Obey(setting, old(Contents()), command)
                    case Err(error) => Err(error)
                    case Ok(obeyed) => Ok(obeyed.Some?))
      ensures var obeyed := Controller.Obey(setting, old(Contents()), command);
              Contents() == if obeyed.Ok? && obeyed.value.Some? then obeyed.value.value else old(Contents())
    {
      match command
      case SetContext(next) =>
        context := next;
        r := Ok(true);
      case SelectProfile(profile) =>
        if profile !in setting.catalog.profiles {
          return Err(UnknownProfile(profile));
        }
        manual := Some(profile);
        r := Ok(true);
      case UseAutomaticProfile =>
        r := Ok(manual.Some?);
        manual := None;
      case ActivateMode(owner, mode, profile, priority) =>
        if profile !in setting.catalog.profiles {
          return Err(UnknownProfile(profile));
        }
        if Blank(mode) {
          return Err(EmptyModeId);
        }
        var lease := Lease(profile, priority, nextSequence);
        nextSequence := Next(nextSequence);
        modes := modes[(owner, mode) := lease];
        r := Ok(true);
      case ReleaseMode(owner, mode) =>
        r := Ok((owner, mode) in modes);
        modes := modes - {(owner, mode)};
      case ReleaseOwner(owner) =>
        var before := |modes|;
        ghost var all := modes;
        modes := map key | key in modes && key.0 != owner :: modes[key];
        r := Ok(|modes| != before);
        if |modes| == before {
          SameSize(all, modes);
        }
    }

    /** `apply`: on failure everything is as it was before the call. */
    method Apply(command: Command) returns (r: Result<Option<Snapshot>, ProfileError>)
      requires Consistent(setting.view) && Invariant(setting, Contents())
      modifies this
      ensures Reply(Contents(), r) == Controller.Apply(setting, old(Contents()), command)
      ensures r.Err? ==> Contents() == old(Contents())
      ensures old(captured) != {} ==> current == old(current)
      ensures Invariant(setting, Contents())
    {
      ApplyFacts(setting, Contents(), command);
      r := Attempt(command);
    }

    /** Carries out a command, builds the snapshot it leads to and puts everything back if that fails. */
    method Attempt(command: Command) returns (r: Result<Option<Snapshot>, ProfileError>)
      requires Consistent(setting.view)
      modifies this
      ensures Reply(Contents(), r) == Controller.Apply(setting, old(Contents()), command)
    {
      var previousContext, previousManual, previousModes, previousSequence := context, manual, modes, nextSequence;
      var changed :- Carry(command);
      if !changed {
        return Ok(None);
      }
      var built := Build();
      if built.Err? {
        context, manual, modes, nextSequence := previousContext, previousManual, previousModes, previousSequence;
        return Err(built.error);
      }
      r := Install(built.value);
    }

    /** Shows a new snapshot, or keeps it waiting while a contact is captured. */
    method Install(candidate: Snapshot) returns (r: Result<Option<Snapshot>, ProfileError>)
      modifies this`nextGeneration, this`current, this`pending
      ensures Reply(Contents(), r) == Commit(old(Contents()), candidate)
    {
      nextGeneration := Next(nextGeneration);
      if captured == {} {
        current := candidate;
        r := Ok(Some(current));
      } else {
        pending := Some(candidate);
        r := Ok(None);
      }
    }

    method StartCapture(contact: u32)
      requires Invariant(setting, Contents())
      modifies this`captured
      ensures Contents() == Controller.StartCapture(old(Contents()), contact)
      ensures Invariant(setting, Contents())
    {
      StepKeepsInvariant(setting, Contents(), CaptureStarted(contact));
      captured := captured + {contact};
    }

    method EndCapture(contact: u32) returns (shown: Option<Snapshot>)
      requires Invariant(setting, Contents())
      modifies this`captured, this`current, this`pending
      ensures (Contents(), shown) == Controller.EndCapture(old(Contents()), contact)
      ensures captured != {} ==> current == old(current)
      ensures Invariant(setting, Contents())
    {
      StepKeepsInvariant(setting, Contents(), CaptureEnded(contact));
      captured := captured - {contact};
      shown := None;
      if captured == {} && pending.Some? {
        current := pending.value;
        pending := None;
        shown := Some(current);
      }
    }
  }

  lemma {:induction false} ApplyFacts(setting: Setting, s: State, command: Command)
    requires Invariant(setting, s)
    ensures var reply := Controller.Apply(setting, s, command);
            && Invariant(setting, reply.state)
            && (reply.result.Err? ==> reply.state == s)
            && (s.captured != {} ==> reply.state.current == s.current)
  {
    StepKeepsInvariant(setting, s, Issue(command));
    ApplyFrame(setting, s, command);
  }

  lemma {:induction false} SameSize(all: map<ModeKey, Lease>, part: map<ModeKey, Lease>)
    requires part.Keys <= all.Keys && |part| == |all| && forall key :: key in part ==> part[key] == all[key]
    ensures part == all
  {
    assert |all.Keys - part.Keys| == |all.Keys| - |part.Keys|;
    assert all.Keys == part.Keys;
  }
}
