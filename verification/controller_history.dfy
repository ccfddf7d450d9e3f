/** The effective profile told from the history of accepted commands. */
module ControllerHistory {
  import opened Basics
  import opened Context
  import opened Profiles
  import opened Controller

  /** A mode that is active, in the order of activation. */
  datatype Standing = Standing(owner: u64, mode: string, profile: ProfileId, priority: int) {
    function Key(): ModeKey {
      (owner, mode)
    }
  }

  /** What the accepted commands ask for. */
  datatype Wish = Wish(context: ContextSnapshot, manual: Option<ProfileId>, active: seq<Standing>)

  function Keep(active: seq<Standing>, kept: ModeKey -> bool): seq<Standing> {
    if active == [] then []
    else (if kept(active[0].Key()) then [active[0]] else []) + Keep(active[1..], kept)
  }

  function OtherThan(owner: u64, mode: string): ModeKey -> bool {
    key => key != (owner, mode)
  }

  function NotOwnedBy(owner: u64): ModeKey -> bool {
    (key: ModeKey) => key.0 != owner
  }

  function Heed(w: Wish, command: Command): Wish {
    match command
    case SetContext(context) => w.(context := context)
    case SelectProfile(profile) => w.(manual := Some(profile))
    case UseAutomaticProfile => w.(manual := None)
    case ActivateMode(owner, mode, profile, priority) =>
      w.(active := Keep(w.active, OtherThan(owner, mode)) + [Standing(owner, mode, profile, priority)])
    case ReleaseMode(owner, mode) => w.(active := Keep(w.active, OtherThan(owner, mode)))
    case ReleaseOwner(owner) => w.(active := Keep(w.active, NotOwnedBy(owner)))
  }

  function HeedAll(w: Wish, commands: seq<Command>): Wish
    decreases |commands|
  {
    if commands == [] then w else HeedAll(Heed(w, commands[0]), commands[1..])
  }

  /** The greatest priority and, among equals, the latest activation. */
  function Foremost(active: seq<Standing>): (k: nat)
    requires active != []
    ensures k < |active|
    ensures forall i :: 0 <= i < |active| ==> active[i].priority < active[k].priority || (active[i].priority == active[k].priority && i <= k)
  {
    var last := |active| - 1;
    if last == 0 then 0
    else
      var before := Foremost(active[..last]);
      if active[before].priority <= active[last].priority then last else before
  }

  function Wanted(setting: Setting, w: Wish): ProfileId {
    if w.manual.Some? then w.manual.value
    else if w.active == [] then SelectProfileFor(setting.selector, w.context)
    else w.active[Foremost(w.active)].profile
  }

  /** The commands of a run that succeed. */
  function Accepted(setting: Setting, s: State, events: seq<Event>): seq<Command>
    decreases |events|
  {
    if events == [] then []
    else
      var rest := Accepted(setting, Step(setting, s, events[0]).0, events[1..]);
      if events[0].Issue? && Apply(setting, s, events[0].command).result.Ok? then [events[0].command] + rest else rest
  }

  function Activations(commands: seq<Command>): nat {
    if commands == [] then 0 else (if commands[0].ActivateMode? then 1 else 0) + Activations(commands[1..])
  }

  // ----- leases follow the activations -----

  /** The active modes hold leases with growing sequence numbers above `low`. */
  ghost predicate Increasing(modes: map<ModeKey, Lease>, active: seq<Standing>, low: int) {
    active == [] ||
    (&& active[0].Key() in modes
     && modes[active[0].Key()].profile == active[0].profile
     && modes[active[0].Key()].priority == active[0].priority
     && low < modes[active[0].Key()].sequence
     && Increasing(modes, active[1..], modes[active[0].Key()].sequence))
  }

  ghost predicate Covered(modes: map<ModeKey, Lease>, active: seq<Standing>, count: nat) {
    forall key :: key in modes ==> modes[key].sequence <= count && exists i :: 0 <= i < |active| && active[i].Key() == key
  }

  ghost predicate Leased(modes: map<ModeKey, Lease>, active: seq<Standing>, count: nat) {
    Increasing(modes, active, 0) && Covered(modes, active, count)
  }

  ghost predicate Tracks(s: State, w: Wish, count: nat) {
    && s.context == w.context && s.manual == w.manual
    && Leased(s.modes, w.active, count)
    && s.nextSequence == (if count + 1 < U64_LIMIT then count + 1 else 1)
  }

  lemma {:induction false} IncreasingAt(modes: map<ModeKey, Lease>, active: seq<Standing>, low: int, i: nat)
    requires Increasing(modes, active, low) && i < |active|
    ensures active[i].Key() in modes && low < modes[active[i].Key()].sequence
    ensures modes[active[i].Key()].profile == active[i].profile && modes[active[i].Key()].priority == active[i].priority
  {
    if i > 0 {
      IncreasingAt(modes, active[1..], modes[active[0].Key()].sequence, i - 1);
    }
  }

  lemma {:induction false} IncreasingOrder(modes: map<ModeKey, Lease>, active: seq<Standing>, low: int, i: nat, j: nat)
    requires Increasing(modes, active, low) && i < j < |active|
    ensures active[i].Key() in modes && active[j].Key() in modes
    ensures modes[active[i].Key()].sequence < modes[active[j].Key()].sequence
  {
    IncreasingAt(modes, active, low, i);
    if i == 0 {
      IncreasingAt(modes, active[1..], modes[active[0].Key()].sequence, j - 1);
    } else {
      IncreasingOrder(modes, active[1..], modes[active[0].Key()].sequence, i - 1, j - 1);
    }
  }

  lemma {:induction false} IncreasingWeaken(modes: map<ModeKey, Lease>, active: seq<Standing>, high: int, low: int)
    requires Increasing(modes, active, high) && low <= high
    ensures Increasing(modes, active, low)
  {
  }

  function Restrict(modes: map<ModeKey, Lease>, kept: ModeKey -> bool): map<ModeKey, Lease> {
    map key | key in modes && kept(key) :: modes[key]
  }

  lemma {:induction false} KeepIncreasing(modes: map<ModeKey, Lease>, active: seq<Standing>, low: int, kept: ModeKey -> bool)
    requires Increasing(modes, active, low)
    ensures Increasing(Restrict(modes, kept), Keep(active, kept), low)
  {
    if active != [] {
      var sequence := modes[active[0].Key()].sequence;
      KeepIncreasing(modes, active[1..], sequence, kept);
      if kept(active[0].Key()) {
        assert Keep(active, kept) == [active[0]] + Keep(active[1..], kept);
        assert Keep(active, kept)[1..] == Keep(active[1..], kept);
      } else {
        assert Keep(active, kept) == Keep(active[1..], kept);
        IncreasingWeaken(Restrict(modes, kept), Keep(active[1..], kept), sequence, low);
      }
    }
  }

  lemma {:induction false} KeepHolds(active: seq<Standing>, kept: ModeKey -> bool, i: nat) returns (j: nat)
    requires i < |active| && kept(active[i].Key())
    ensures j < |Keep(active, kept)| && Keep(active, kept)[j] == active[i]
  {
    var skipped := if kept(active[0].Key()) then 1 else 0;
    if i == 0 {
      j := 0;
    } else {
      var k := KeepHolds(active[1..], kept, i - 1);
      j := k + skipped;
    }
  }

  lemma {:induction false} KeepLeased(modes: map<ModeKey, Lease>, active: seq<Standing>, count: nat, kept: ModeKey -> bool)
    requires Leased(modes, active, count)
    ensures Leased(Restrict(modes, kept), Keep(active, kept), count)
  {
    KeepIncreasing(modes, active, 0, kept);
    forall key | key in Restrict(modes, kept)
      ensures exists i :: 0 <= i < |Keep(active, kept)| && Keep(active, kept)[i].Key() == key
    {
      var i :| 0 <= i < |active| && active[i].Key() == key;
      var j := KeepHolds(active, kept, i);
    }
  }

  lemma {:induction false} AppendIncreasing(modes: map<ModeKey, Lease>, active: seq<Standing>, low: int, more: Standing, lease: Lease)
    requires Increasing(modes, active, low) && more.Key() !in modes
    requires low < lease.sequence && forall key :: key in modes ==> modes[key].sequence < lease.sequence
    requires lease.profile == more.profile && lease.priority == more.priority
    ensures Increasing(modes[more.Key() := lease], active + [more], low)
    decreases |active|
  {
    var grown := modes[more.Key() := lease];
    if active == [] {
      assert active + [more] == [more];
      assert [more][1..] == [];
    } else {
      AppendIncreasing(modes, active[1..], modes[active[0].Key()].sequence, more, lease);
      assert (active + [more])[1..] == active[1..] + [more];
      assert grown[active[0].Key()] == modes[active[0].Key()];
    }
  }

  lemma {:induction false} AppendLeased(modes: map<ModeKey, Lease>, active: seq<Standing>, count: nat, more: Standing, lease: Lease)
    requires Leased(modes, active, count) && more.Key() !in modes
    requires lease.sequence == count + 1 && lease.profile == more.profile && lease.priority == more.priority
    ensures Leased(modes[more.Key() := lease], active + [more], count + 1)
  {
    AppendIncreasing(modes, active, 0, more, lease);
    var grown, all := modes[more.Key() := lease], active + [more];
    forall key | key in grown ensures grown[key].sequence <= count + 1 && exists i :: 0 <= i < |all| && all[i].Key() == key {
      if key == more.Key() {
        assert all[|active|].Key() == key;
      } else {
        var i :| 0 <= i < |active| && active[i].Key() == key;
        assert all[i] == active[i];
      }
    }
  }

  /** The strongest lease belongs to the foremost standing mode. */
  lemma {:induction false} ForemostIsStrongest(modes: map<ModeKey, Lease>, active: seq<Standing>, count: nat)
    requires Leased(modes, active, count)
    ensures modes == map[] <==> active == []
    ensures active != [] ==> modes[StrongestLease(modes)].profile == active[Foremost(active)].profile
  {
    if active != [] {
      var k := Foremost(active);
      IncreasingAt(modes, active, 0, k);
      var strongest := StrongestLease(modes);
      var i :| 0 <= i < |active| && active[i].Key() == strongest;
      IncreasingAt(modes, active, 0, i);
      if i < k {
        IncreasingOrder(modes, active, 0, i, k);
      }
      assert Weaker(modes[active[k].Key()], modes[strongest]);
    } else {
      assert forall key :: key !in modes;
    }
  }

  lemma {:induction false} RestrictAll(modes: map<ModeKey, Lease>, kept: ModeKey -> bool)
    requires |Restrict(modes, kept)| == |modes|
    ensures Restrict(modes, kept) == modes
  {
    var rest := Restrict(modes, kept);
    assert rest.Keys <= modes.Keys;
    Subset(rest.Keys, modes.Keys);
  }

  lemma {:induction false} Subset(a: set<ModeKey>, b: set<ModeKey>)
    requires a <= b && |a| == |b|
    ensures a == b
  {
    assert |b - a| == |b| - |a|;
  }

  // ----- commands follow the wish -----

  lemma {:induction false} HeedModes(s: State, w: Wish, command: Command, count: nat)
    requires Tracks(s, w, count) && count + 1 < U64_LIMIT && command.ActivateMode?
    ensures Leased(s.modes[(command.owner, command.mode) := Lease(command.profile, command.priority, s.nextSequence)], Heed(w, command).active, count + 1)
  {
    var key := (command.owner, command.mode);
    var kept := OtherThan(command.owner, command.mode);
    var lease := Lease(command.profile, command.priority, s.nextSequence);
    KeepLeased(s.modes, w.active, count, kept);
    var more := Standing(command.owner, command.mode, command.profile, command.priority);
    AppendLeased(Restrict(s.modes, kept), Keep(w.active, kept), count, more, lease);
    assert Restrict(s.modes, kept)[key := lease] == s.modes[key := lease];
  }

  lemma {:induction false} ReleaseModes(s: State, w: Wish, kept: ModeKey -> bool, count: nat)
    requires Leased(s.modes, w.active, count)
    ensures Leased(if |Restrict(s.modes, kept)| != |s.modes| then Restrict(s.modes, kept) else s.modes, Keep(w.active, kept), count)
  {
    KeepLeased(s.modes, w.active, count, kept);
    if |Restrict(s.modes, kept)| == |s.modes| {
      RestrictAll(s.modes, kept);
    }
  }

  /** A command that is obeyed leads to what the wish says, whether it changed anything or not. */
  ghost predicate Follows(setting: Setting, s: State, w: Wish, command: Command, count: nat)
    requires Obey(setting, s, command).Ok?
  {
    var obeyed := Obey(setting, s, command).value;
    Tracks(if obeyed.Some? then obeyed.value else s, Heed(w, command), count)
  }

  lemma {:induction false} ActivateTracks(setting: Setting, s: State, w: Wish, command: Command, count: nat)
    requires Tracks(s, w, count) && command.ActivateMode? && count + 1 < U64_LIMIT && Obey(setting, s, command).Ok?
    ensures Follows(setting, s, w, command, count + 1)
  {
    HeedModes(s, w, command, count);
  }

  lemma {:induction false} ReleaseTracks(setting: Setting, s: State, w: Wish, command: Command, count: nat)
    requires Tracks(s, w, count) && (command.ReleaseMode? || command.ReleaseOwner?)
    ensures Follows(setting, s, w, command, count)
  {
    if command.ReleaseMode? {
      ReleaseOne(s, w, command.owner, command.mode, count);
    } else {
      ReleaseEvery(s, w, command.owner, count);
    }
  }

  lemma {:induction false} ObeyTracks(setting: Setting, s: State, w: Wish, command: Command, count: nat)
    requires Tracks(s, w, count) && (command.ActivateMode? ==> count + 1 < U64_LIMIT)
    requires Obey(setting, s, command).Ok?
    ensures Follows(setting, s, w, command, count + if command.ActivateMode? then 1 else 0)
  {
    if command.ActivateMode? {
      ActivateTracks(setting, s, w, command, count);
    } else if command.ReleaseMode? || command.ReleaseOwner? {
      ReleaseTracks(setting, s, w, command, count);
    }
  }

  lemma {:induction false} ReleaseEvery(s: State, w: Wish, owner: u64, count: nat)
    requires Leased(s.modes, w.active, count)
    ensures var kept := map key | key in s.modes && key.0 != owner :: s.modes[key];
            Leased(if |kept| != |s.modes| then kept else s.modes, Keep(w.active, NotOwnedBy(owner)), count)
  {
    ReleaseModes(s, w, NotOwnedBy(owner), count);
    assert Restrict(s.modes, NotOwnedBy(owner)) == map key | key in s.modes && key.0 != owner :: s.modes[key];
  }

  lemma {:induction false} ReleaseOne(s: State, w: Wish, owner: u64, mode: string, count: nat)
    requires Leased(s.modes, w.active, count)
    ensures Leased(if (owner, mode) in s.modes then s.modes - {(owner, mode)} else s.modes, Keep(w.active, OtherThan(owner, mode)), count)
  {
    KeepLeased(s.modes, w.active, count, OtherThan(owner, mode));
    assert Restrict(s.modes, OtherThan(owner, mode)) == s.modes - {(owner, mode)};
    if (owner, mode) !in s.modes {
      assert s.modes - {(owner, mode)} == s.modes;
    }
  }

  /** Nothing but an accepted command changes what is tracked. */
  lemma {:induction false} StepTracks(setting: Setting, s: State, w: Wish, event: Event, count: nat)
    requires Tracks(s, w, count)
    requires event.Issue? && event.command.ActivateMode? && Apply(setting, s, event.command).result.Ok? ==> count + 1 < U64_LIMIT
    ensures var after := Step(setting, s, event).0;
            if event.Issue? && Apply(setting, s, event.command).result.Ok?
            then Tracks(after, Heed(w, event.command), count + if event.command.ActivateMode? then 1 else 0)
            else Tracks(after, w, count)
  {
    match event
    case Issue(command) =>
      ApplyFrame(setting, s, command);
      if Apply(setting, s, command).result.Ok? {
        ObeyTracks(setting, s, w, command, count);
        ApplyObeys(setting, s, command);
      }
    case _ =>
  }

  /** The parts of the state that decide the effective profile. */
  ghost predicate SameWish(s: State, t: State) {
    s.context == t.context && s.manual == t.manual && s.modes == t.modes && s.nextSequence == t.nextSequence
  }

  lemma {:induction false} CommitKeeps(s: State, candidate: Snapshot)
    ensures SameWish(Commit(s, candidate).state, s)
  {
  }

  lemma {:induction false} ApplyObeys(setting: Setting, s: State, command: Command)
    requires Apply(setting, s, command).result.Ok?
    ensures Obey(setting, s, command).Ok?
    ensures var obeyed := Obey(setting, s, command).value;
            SameWish(Apply(setting, s, command).state, if obeyed.Some? then obeyed.value else s)
  {
    var obeyed := Obey(setting, s, command);
    if obeyed.Ok? && obeyed.value.Some? && BuildSnapshot(setting, obeyed.value.value).Ok? {
      CommitKeeps(obeyed.value.value, BuildSnapshot(setting, obeyed.value.value).value);
    }
  }

  lemma {:induction false} RunTracks(setting: Setting, s: State, w: Wish, events: seq<Event>, count: nat)
    requires Tracks(s, w, count) && count + Activations(Accepted(setting, s, events)) < U64_LIMIT
    ensures Tracks(Run(setting, s, events), HeedAll(w, Accepted(setting, s, events)), count + Activations(Accepted(setting, s, events)))
    decreases |events|
  {
    if events != [] {
      var event, after := events[0], Step(setting, s, events[0]).0;
      var rest := Accepted(setting, after, events[1..]);
      if event.Issue? && Apply(setting, s, event.command).result.Ok? {
        var all := [event.command] + rest;
        assert all[0] == event.command && all[1..] == rest;
        StepTracks(setting, s, w, event, count);
        RunTracks(setting, after, Heed(w, event.command), events[1..], count + if event.command.ActivateMode? then 1 else 0);
      } else {
        StepTracks(setting, s, w, event, count);
        RunTracks(setting, after, w, events[1..], count);
      }
    }
  }

  /** Over every history with fewer than 2^64 activations, the effective profile is the standing
      manual selection, else that of the standing mode with the greatest priority and the latest
      activation, else the selector's choice; and the catalog has it. */
  lemma {:induction false} EffectiveProfileFromHistory(setting: Setting, context: ContextSnapshot, events: seq<Event>)
    requires Initial(setting, context).Ok?
    requires Activations(Accepted(setting, Initial(setting, context).value, events)) < U64_LIMIT
    ensures var first := Initial(setting, context).value;
            var s := Run(setting, first, events);
            && EffectiveProfile(setting, s) == Wanted(setting, HeedAll(Wish(context, None, []), Accepted(setting, first, events)))
            && EffectiveProfile(setting, s) in setting.catalog.profiles
  {
    var first := Initial(setting, context).value;
    var s := Run(setting, first, events);
    var w := HeedAll(Wish(context, None, []), Accepted(setting, first, events));
    var count := Activations(Accepted(setting, first, events));
    RunTracks(setting, first, Wish(context, None, []), events, 0);
    ForemostIsStrongest(s.modes, w.active, count);
    ReachableIsUpToDate(setting, context, events);
  }
}
