/** The bounded queue of events for a plugin host: capability states that coalesce, edges that keep
    their order, and an explicit report of what was dropped. */
module HostEvents {
  import opened Basics
  import opened Ordering

  /** The contents of a capability state beyond its name, and of a broker result, are opaque. */
  datatype CapabilityState = CapabilityState(capability: string, details: string)

  datatype HostEvent =
    | CapabilityChanged(generation: u64, state: CapabilityState)
    | Completion(request: u64, payload: seq<int>)
    | ResourceEvent(resource: u64, sequence: u64, payload: seq<int>)
    | Overflow(generation: u64, dropped: u64)
  {
    predicate IsEdge() {
      Completion? || ResourceEvent?
    }
  }

  datatype Queue = Queue(
    maximumStates: nat,
    maximumEdges: nat,
    states: map<string, (u64, CapabilityState)>,
    edges: seq<HostEvent>,
    dropped: u64,
    overflowGeneration: u64)

  datatype Operation =
    | PushCapability(generation: u64, state: CapabilityState)
    | PushEdge(event: HostEvent, generation: u64)
    | RecordDropped(count: u64, generation: u64)
    | Pop

  datatype Outcome = Accepted | Refused | Delivered(event: HostEvent) | NothingLeft

  function SaturatingAdd(a: u64, b: u64): u64 {
    if a + b >= U64_LIMIT then U64_LIMIT - 1 else a + b
  }

  function FirstKey(states: map<string, (u64, CapabilityState)>): (key: string)
    requires states != map[]
    ensures key in states
  {
    StringIsTotalOrder();
    assert states.Keys != {};
    Least(StringLe, states.Keys)
  }

  function Drop(q: Queue, count: u64, generation: u64): Queue {
    q.(dropped := SaturatingAdd(q.dropped, count), overflowGeneration := Max(q.overflowGeneration, generation))
  }

  function Step(q: Queue, op: Operation): (Queue, Outcome) {
    match op
    case PushCapability(generation, state) =>
      if state.capability !in q.states && |q.states| >= q.maximumStates then (q, Refused)
      else (q.(states := q.states[state.capability := (generation, state)]), Accepted)
    case PushEdge(event, generation) =>
      if |q.edges| == q.maximumEdges then (Drop(q, 1, generation), Refused)
      else (q.(edges := q.edges + [event]), Accepted)
    case RecordDropped(count, generation) => (Drop(q, count, generation), Accepted)
    case Pop =>
      if q.states != map[] then
        var key := FirstKey(q.states);
        (q.(states := q.states - {key}), Delivered(CapabilityChanged(q.states[key].0, q.states[key].1)))
      else if q.edges != [] then (q.(edges := q.edges[1..]), Delivered(q.edges[0]))
      else if q.dropped > 0 then
        (q.(dropped := 0, overflowGeneration := 0), Delivered(Overflow(q.overflowGeneration, q.dropped)))
      else (q, NothingLeft)
  }

  function IsEmpty(q: Queue): bool {
    q.states == map[] && q.edges == [] && q.dropped == 0
  }

  function Empty(maximumStates: nat, maximumEdges: nat): Queue {
    Queue(maximumStates, maximumEdges, map[], [], 0, 0)
  }

  // ----- histories -----

  /** An operation together with what came of it. */
  datatype Entry = Entry(op: Operation, outcome: Outcome)

  function Run(q: Queue, ops: seq<Operation>): Queue {
    if ops == [] then q else Step(Run(q, ops[..|ops| - 1]), ops[|ops| - 1]).0
  }

  function Trace(q: Queue, ops: seq<Operation>): (r: seq<Entry>)
    ensures |r| == |ops|
  {
    if ops == [] then []
    else
      var before := ops[..|ops| - 1];
      Trace(q, before) + [Entry(ops[|ops| - 1], Step(Run(q, before), ops[|ops| - 1]).1)]
  }

  /** Only completions and resource events are pushed as edges. */
  ghost predicate Sane(ops: seq<Operation>) {
    forall i :: 0 <= i < |ops| && ops[i].PushEdge? ==> ops[i].event.IsEdge()
  }

  function AcceptedEdges(trace: seq<Entry>): seq<HostEvent> {
    if trace == [] then []
    else
      var last := trace[|trace| - 1];
      AcceptedEdges(trace[..|trace| - 1]) + if last.op.PushEdge? && last.outcome.Accepted? then [last.op.event] else []
  }

  function DeliveredEdges(trace: seq<Entry>): seq<HostEvent> {
    if trace == [] then []
    else
      var last := trace[|trace| - 1];
      DeliveredEdges(trace[..|trace| - 1]) + if last.outcome.Delivered? && last.outcome.event.IsEdge() then [last.outcome.event] else []
  }

  function LostIn(entry: Entry): nat {
    if entry.op.PushEdge? && entry.outcome.Refused? then 1 else if entry.op.RecordDropped? then entry.op.count else 0
  }

  function ReportedIn(entry: Entry): nat {
    if entry.outcome.Delivered? && entry.outcome.event.Overflow? then entry.outcome.event.dropped else 0
  }

  /** Edges refused and drops recorded. */
  function Lost(trace: seq<Entry>): nat {
    if trace == [] then 0
    else
      var last := trace[|trace| - 1];
      Lost(trace[..|trace| - 1]) + LostIn(last)
  }

  function Reported(trace: seq<Entry>): nat {
    if trace == [] then 0
    else
      var last := trace[|trace| - 1];
      Reported(trace[..|trace| - 1]) + ReportedIn(last)
  }

  lemma {:induction false} TraceSplit(q: Queue, ops: seq<Operation>)
    requires ops != []
    ensures Trace(q, ops)[..|ops| - 1] == Trace(q, ops[..|ops| - 1])
    ensures Trace(q, ops)[|ops| - 1] == Entry(ops[|ops| - 1], Step(Run(q, ops[..|ops| - 1]), ops[|ops| - 1]).1)
  {
  }

  // ----- what holds over every history -----

  ghost predicate Bounded(q: Queue) {
    && |q.states| <= q.maximumStates && |q.edges| <= q.maximumEdges
    && (forall i :: 0 <= i < |q.edges| ==> q.edges[i].IsEdge())
    && (forall key :: key in q.states ==> q.states[key].1.capability == key)
  }

  lemma {:induction false} PushKeepsBounds(q: Queue, generation: u64, state: CapabilityState)
    requires Bounded(q)
    ensures Bounded(Step(q, PushCapability(generation, state)).0)
  {
    var states := q.states[state.capability := (generation, state)];
    assert states.Keys == q.states.Keys + {state.capability};
    assert |states| == |states.Keys| && |q.states| == |q.states.Keys|;
  }

  lemma {:induction false} PopKeepsBounds(q: Queue)
    requires Bounded(q)
    ensures Bounded(Step(q, Pop).0)
  {
    if q.states != map[] {
      var states := q.states - {FirstKey(q.states)};
      assert states.Keys == q.states.Keys - {FirstKey(q.states)};
      assert |states| == |states.Keys| && |q.states| == |q.states.Keys|;
    }
  }

  lemma {:induction false} StepKeepsBounds(q: Queue, op: Operation)
    requires Bounded(q) && (op.PushEdge? ==> op.event.IsEdge())
    ensures Bounded(Step(q, op).0)
    ensures Step(q, op).0.maximumStates == q.maximumStates && Step(q, op).0.maximumEdges == q.maximumEdges
  {
    match op
    case PushCapability(generation, state) => PushKeepsBounds(q, generation, state);
    case Pop => PopKeepsBounds(q);
    case _ =>
  }

  lemma {:induction false} RunKeepsBounds(q: Queue, ops: seq<Operation>)
    requires Bounded(q) && Sane(ops)
    ensures Bounded(Run(q, ops)) && Run(q, ops).maximumStates == q.maximumStates && Run(q, ops).maximumEdges == q.maximumEdges
  {
    if ops != [] {
      RunKeepsBounds(q, ops[..|ops| - 1]);
      StepKeepsBounds(Run(q, ops[..|ops| - 1]), ops[|ops| - 1]);
    }
  }

  /** Accepted edges are delivered exactly once, in the order they came; those not yet delivered are
      the ones in the queue. */
  lemma {:induction false} EdgesAreFifo(maximumStates: nat, maximumEdges: nat, ops: seq<Operation>)
    requires Sane(ops)
    ensures var q := Empty(maximumStates, maximumEdges);
            DeliveredEdges(Trace(q, ops)) + Run(q, ops).edges == AcceptedEdges(Trace(q, ops))
  {
    var q := Empty(maximumStates, maximumEdges);
    if ops != [] {
      var before, op := ops[..|ops| - 1], ops[|ops| - 1];
      EdgesAreFifo(maximumStates, maximumEdges, before);
      RunKeepsBounds(q, before);
      TraceSplit(q, ops);
      StepEdges(Run(q, before), op, DeliveredEdges(Trace(q, before)));
    }
  }

  lemma {:induction false} StepEdges(q: Queue, op: Operation, delivered: seq<HostEvent>)
    requires Bounded(q) && (op.PushEdge? ==> op.event.IsEdge())
    ensures var (after, outcome) := Step(q, op);
            (delivered + if outcome.Delivered? && outcome.event.IsEdge() then [outcome.event] else []) + after.edges ==
            (delivered + q.edges) + if op.PushEdge? && outcome.Accepted? then [op.event] else []
  {
    match op
    case PushEdge(event, _) => ConcatAssociates(delivered, q.edges, [event]);
    case Pop =>
      if q.states == map[] && q.edges != [] {
        assert q.edges == [q.edges[0]] + q.edges[1..];
        ConcatAssociates(delivered, [q.edges[0]], q.edges[1..]);
      }
    case _ =>
  }

  /** Below saturation every lost event is either reported or waiting to be reported; beyond it the
      count only falls short. */
  lemma {:induction false} DropsAreAccounted(maximumStates: nat, maximumEdges: nat, ops: seq<Operation>)
    requires Sane(ops)
    ensures var q := Empty(maximumStates, maximumEdges);
            Accounted(Lost(Trace(q, ops)), Reported(Trace(q, ops)), Run(q, ops).dropped)
  {
    var q := Empty(maximumStates, maximumEdges);
    if ops != [] {
      var before, op := ops[..|ops| - 1], ops[|ops| - 1];
      DropsAreAccounted(maximumStates, maximumEdges, before);
      RunKeepsBounds(q, before);
      TraceSplit(q, ops);
      StepDrops(Run(q, before), op, Lost(Trace(q, before)), Reported(Trace(q, before)));
    }
  }

  ghost predicate Accounted(lost: nat, reported: nat, waiting: nat) {
    reported + waiting <= lost && (lost < U64_LIMIT ==> reported + waiting == lost)
  }

  lemma {:induction false} StepDrops(q: Queue, op: Operation, lost: nat, reported: nat)
    requires Bounded(q) && Accounted(lost, reported, q.dropped)
    ensures var (after, outcome) := Step(q, op);
            Accounted(lost + LostIn(Entry(op, outcome)), reported + ReportedIn(Entry(op, outcome)), after.dropped)
  {
  }

  // ----- capability states -----

  ghost predicate PushesState(entry: Entry, key: string) {
    entry.op.PushCapability? && entry.outcome.Accepted? && entry.op.state.capability == key
  }

  ghost predicate DeliversState(entry: Entry, key: string) {
    entry.outcome.Delivered? && entry.outcome.event.CapabilityChanged? && entry.outcome.event.state.capability == key
  }

  /** Entry `i` is the last accepted push for `key`, not delivered since. */
  ghost predicate LatestPush(trace: seq<Entry>, key: string, i: nat) {
    && i < |trace| && PushesState(trace[i], key)
    && forall j :: i < j < |trace| ==> !PushesState(trace[j], key) && !DeliversState(trace[j], key)
  }

  /** Every state in the queue is the last one pushed for its capability and has not been delivered;
      a capability that is not in the queue has had its last push delivered. */
  ghost predicate StatesAreLatest(q: Queue, trace: seq<Entry>) {
    && (forall key :: key in q.states ==> exists i: nat ::
          LatestPush(trace, key, i) && q.states[key] == (trace[i].op.generation, trace[i].op.state))
    && (forall key, i: nat :: LatestPush(trace, key, i) ==> key in q.states)
  }

  lemma {:induction false} LatestPushExtends(trace: seq<Entry>, entry: Entry, key: string, i: nat)
    requires !PushesState(entry, key) && !DeliversState(entry, key)
    ensures LatestPush(trace + [entry], key, i) <==> LatestPush(trace, key, i)
  {
    var longer := trace + [entry];
    if LatestPush(trace, key, i) {
      assert longer[i] == trace[i];
      forall j | i < j < |longer| ensures !PushesState(longer[j], key) && !DeliversState(longer[j], key) {
        assert j == |trace| || longer[j] == trace[j];
      }
    }
    if LatestPush(longer, key, i) {
      assert longer[i] == trace[i];
      forall j | i < j < |trace| ensures !PushesState(trace[j], key) && !DeliversState(trace[j], key) {
        assert longer[j] == trace[j];
      }
    }
  }

  lemma {:induction false} LatestPushNow(trace: seq<Entry>, entry: Entry, key: string)
    requires PushesState(entry, key)
    ensures LatestPush(trace + [entry], key, |trace|)
  {
    assert (trace + [entry])[|trace|] == entry;
  }

  lemma {:induction false} StepStates(q: Queue, op: Operation, trace: seq<Entry>)
    requires Bounded(q) && StatesAreLatest(q, trace) && (op.PushEdge? ==> op.event.IsEdge())
    ensures var (after, outcome) := Step(q, op); StatesAreLatest(after, trace + [Entry(op, outcome)])
  {
    var (after, outcome) := Step(q, op);
    var entry := Entry(op, outcome);
    var longer := trace + [entry];
    assert longer[|trace|] == entry;
    forall key | key in after.states
      ensures exists i: nat :: LatestPush(longer, key, i) && after.states[key] == (longer[i].op.generation, longer[i].op.state)
    {
      if PushesState(entry, key) {
        LatestPushNow(trace, entry, key);
      } else {
        assert key in q.states && after.states[key] == q.states[key];
        var i: nat :| LatestPush(trace, key, i) && q.states[key] == (trace[i].op.generation, trace[i].op.state);
        StepDelivers(q, op, key);
        LatestPushExtends(trace, entry, key, i);
        assert longer[i] == trace[i];
      }
    }
    forall key, i: nat | LatestPush(longer, key, i) ensures key in after.states {
      if !PushesState(entry, key) {
        if DeliversState(entry, key) {
          assert false;
        } else {
          LatestPushExtends(trace, entry, key, i);
          StepDelivers(q, op, key);
        }
      }
    }
  }

  /** A state leaves the queue exactly when it is delivered. */
  lemma {:induction false} StepDelivers(q: Queue, op: Operation, key: string)
    requires Bounded(q) && key in q.states && (op.PushEdge? ==> op.event.IsEdge())
    ensures var (after, outcome) := Step(q, op); key !in after.states <==> DeliversState(Entry(op, outcome), key)
  {
  }

  lemma {:induction false} StatesStayLatest(q: Queue, ops: seq<Operation>)
    requires Bounded(q) && q.states == map[] && Sane(ops)
    ensures StatesAreLatest(Run(q, ops), Trace(q, ops))
  {
    if ops != [] {
      var before := ops[..|ops| - 1];
      StatesStayLatest(q, before);
      RunKeepsBounds(q, before);
      StepStates(Run(q, before), ops[|ops| - 1], Trace(q, before));
    }
  }

  /** A delivered capability state is that of the latest push. */
  ghost predicate DeliversLatest(outcome: Outcome, trace: seq<Entry>) {
    outcome.Delivered? && outcome.event.CapabilityChanged? ==>
      exists i: nat :: LatestPush(trace, outcome.event.state.capability, i)
        && trace[i].op.generation == outcome.event.generation && trace[i].op.state == outcome.event.state
  }

  /** Whenever a capability state is delivered, it is the last one pushed for that capability, and it
      has not been delivered before. */
  lemma {:induction false} DeliveredStateIsLatest(maximumStates: nat, maximumEdges: nat, ops: seq<Operation>)
    requires Sane(ops)
    ensures var q := Run(Empty(maximumStates, maximumEdges), ops);
            && |q.states| <= maximumStates && |q.edges| <= maximumEdges
            && DeliversLatest(Step(q, Pop).1, Trace(Empty(maximumStates, maximumEdges), ops))
  {
    var start := Empty(maximumStates, maximumEdges);
    RunKeepsBounds(start, ops);
    StatesStayLatest(start, ops);
    PopIsLatest(Run(start, ops), Trace(start, ops));
  }

  lemma {:induction false} PopIsLatest(q: Queue, trace: seq<Entry>)
    requires Bounded(q) && StatesAreLatest(q, trace)
    ensures DeliversLatest(Step(q, Pop).1, trace)
  {
    if q.states != map[] {
      var key := FirstKey(q.states);
      var i: nat :| LatestPush(trace, key, i) && q.states[key] == (trace[i].op.generation, trace[i].op.state);
    }
  }

  // ----- draining -----

  function Size(q: Queue): nat {
    |q.states| + |q.edges| + if q.dropped > 0 then 1 else 0
  }

  /** `pop` delivers exactly when the queue is not empty, and shrinks it by exactly one. */
  lemma {:induction false} PopShrinks(q: Queue)
    ensures Step(q, Pop).1.NothingLeft? <==> IsEmpty(q)
    ensures IsEmpty(q) <==> Size(q) == 0
    ensures !IsEmpty(q) ==> Step(q, Pop).1.Delivered? && Size(Step(q, Pop).0) == Size(q) - 1
    ensures IsEmpty(q) ==> Step(q, Pop).0 == q
  {
    if q.states != map[] {
      var key := FirstKey(q.states);
      assert (q.states - {key}).Keys == q.states.Keys - {key};
      assert |q.states.Keys - {key}| == |q.states.Keys| - 1;
    }
  }

  function PopTimes(q: Queue, n: nat): Queue
    decreases n
  {
    if n == 0 then q else PopTimes(Step(q, Pop).0, n - 1)
  }

  /** Draining takes exactly as many pops as there are states and edges, and one more if something was
      dropped. */
  lemma {:induction false} DrainingTakesSize(q: Queue, n: nat)
    ensures Size(PopTimes(q, n)) == if n <= Size(q) then Size(q) - n else 0
    ensures IsEmpty(PopTimes(q, n)) <==> n >= Size(q)
    decreases n
  {
    if n > 0 {
      OnePop(q, Step(q, Pop).0);
      DrainingTakesSize(Step(q, Pop).0, n - 1);
    } else {
      EmptyIsSizeZero(q);
    }
  }

  lemma {:induction false} OnePop(q: Queue, after: Queue)
    requires after == Step(q, Pop).0
    ensures Size(after) == if Size(q) == 0 then 0 else Size(q) - 1
  {
    PopShrinks(q);
  }

  lemma {:induction false} EmptyIsSizeZero(q: Queue)
    ensures IsEmpty(q) <==> Size(q) == 0
  {
  }

  // ----- the queue as it runs -----

  class HostEventQueue {
    const maximumStates: nat
    const maximumEdges: nat
    var states: map<string, (u64, CapabilityState)>
    var edges: seq<HostEvent>
    var dropped: u64
    var overflowGeneration: u64

    function Contents(): Queue
      reads this
    {
      Queue(maximumStates, maximumEdges, states, edges, dropped, overflowGeneration)
    }

    constructor (maximumStates: nat, maximumEdges: nat)
      ensures Contents() == Empty(maximumStates, maximumEdges) && Bounded(Contents())
    {
      this.maximumStates, this.maximumEdges := maximumStates, maximumEdges;
      states, edges, dropped, overflowGeneration := map[], [], 0, 0;
    }

    method PushCapability(generation: u64, state: CapabilityState) returns (accepted: bool)
      requires Bounded(Contents())
      modifies this`states
      ensures (Contents(), if accepted then Accepted else Refused) == Step(old(Contents()), Operation.PushCapability(generation, state))
      ensures Bounded(Contents())
    {
      StepKeepsBounds(Contents(), Operation.PushCapability(generation, state));
      if state.capability !in states && |states| >= maximumStates {
        return false;
      }
      states := states[state.capability := (generation, state)];
      accepted := true;
    }

    method PushEdge(event: HostEvent, generation: u64)
      requires Bounded(Contents()) && event.IsEdge()
      modifies this`edges, this`dropped, this`overflowGeneration
      ensures Contents() == Step(old(Contents()), Operation.PushEdge(event, generation)).0
      ensures Bounded(Contents())
    {
      StepKeepsBounds(Contents(), Operation.PushEdge(event, generation));
      if |edges| == maximumEdges {
        RecordDropped(1, generation);
        return;
      }
      edges := edges + [event];
    }

    method PushCompletion(request: u64, payload: seq<int>, generation: u64)
      requires Bounded(Contents())
      modifies this`edges, this`dropped, this`overflowGeneration
      ensures Contents() == Step(old(Contents()), Operation.PushEdge(Completion(request, payload), generation)).0
      ensures Bounded(Contents())
    {
      PushEdge(Completion(request, payload), generation);
    }

    method PushResource(resource: u64, sequence: u64, payload: seq<int>, generation: u64)
      requires Bounded(Contents())
      modifies this`edges, this`dropped, this`overflowGeneration
      ensures Contents() == Step(old(Contents()), Operation.PushEdge(ResourceEvent(resource, sequence, payload), generation)).0
      ensures Bounded(Contents())
    {
      PushEdge(ResourceEvent(resource, sequence, payload), generation);
    }

    method RecordDropped(count: u64, generation: u64)
      modifies this`dropped, this`overflowGeneration
      ensures Contents() == Drop(old(Contents()), count, generation)
    {
      dropped := SaturatingAdd(dropped, count);
      overflowGeneration := Max(overflowGeneration, generation);
    }

    method PopNext() returns (event: Option<HostEvent>)
      requires Bounded(Contents())
      modifies this`states, this`edges, this`dropped, this`overflowGeneration
      ensures (Contents(), if event.Some? then Delivered(event.value) else NothingLeft) == Step(old(Contents()), Pop)
      ensures event.None? <==> IsEmpty(old(Contents()))
      ensures Bounded(Contents())
    {
      StepKeepsBounds(Contents(), Pop);
      PopShrinks(Contents());
      if states != map[] {
        var key := FirstKey(states);
        var value := states[key];
        states := states - {key};
        return Some(CapabilityChanged(value.0, value.1));
      }
      if edges != [] {
        event := Some(edges[0]);
        edges := edges[1..];
        return;
      }
      if dropped > 0 {
        event := Some(Overflow(overflowGeneration, dropped));
        dropped, overflowGeneration := 0, 0;
        return;
      }
      event := None;
    }
  }
}
