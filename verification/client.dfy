/** The frame pacing of a client: flags that event handlers update, with the application, the
    compositor and the graphics as nondeterministic inputs. */
module ClientRuntime {

  datatype FrameFlow = Wait | Animate | Exit

  /** What drawing a frame leads to: the application or the graphics may fail, before or after the
      frame callback is requested. */
  datatype Drawing = AppFailed | Drawn(flow: FrameFlow, presented: bool)

  /** What setting up a surface leads to: no graphics, graphics that the application refuses, or both. */
  datatype Setup = NoGraphics | AppRefused | Ready

  /** What the application answers to an event: an error, or whether it wants to redraw. */
  datatype Answer = Failed | Redraw(wanted: bool)

  datatype Event =
    | Configure(setup: Setup, drawing: Drawing)
    | Visibility(visible: bool, answer: Answer, drawing: Drawing)
    | Touch(answer: Answer, drawing: Drawing)
    | Appearance(answer: Answer, drawing: Drawing)
    | External(answer: Answer, drawing: Drawing)
    | FrameDone(drawing: Drawing)

  /** `outstanding` counts the frame callbacks requested and not yet done. */
  datatype State = State(
    configured: bool,
    framePending: bool,
    visible: bool,
    redrawPending: bool,
    lastFlow: FrameFlow,
    running: bool,
    frames: nat,
    outstanding: nat)

  const Initial := State(false, false, true, false, Wait, true, 0, 0)

  /** A callback is done only if it was requested. */
  predicate Possible(s: State, event: Event) {
    event.FrameDone? ==> s.outstanding > 0
  }

  /** `render_and_commit`, with failure stopping the runtime. */
  function Render(s: State, drawing: Drawing): State {
    match drawing
    case AppFailed => s.(running := false)
    case Drawn(flow, presented) =>
      var request := flow.Animate? && !s.framePending;
      var drawn := s.(redrawPending := false, lastFlow := flow, framePending := s.framePending || request,
                      outstanding := s.outstanding + if request then 1 else 0);
      if !presented then drawn.(running := false)
      else drawn.(frames := s.frames + 1, running := s.running && !flow.Exit?)
  }

  /** The end of the touch, appearance and external handlers. */
  function Answered(s: State, answer: Answer, drawing: Drawing): State {
    match answer
    case Failed => s.(running := false)
    case Redraw(wanted) =>
      var asked := s.(redrawPending := s.redrawPending || wanted);
      if asked.redrawPending && s.visible && !s.framePending && s.configured then Render(asked, drawing) else asked
  }

  function Step(s: State, event: Event): State
    requires Possible(s, event)
  {
    match event
    case Configure(NoGraphics, _) => s.(running := false)
    case Configure(AppRefused, _) => s.(configured := true, running := false)
    case Configure(Ready, drawing) =>
      var configured := s.(configured := true, redrawPending := true);
      if s.visible then Render(configured, drawing) else configured
    case Visibility(visible, Failed, _) => s.(visible := visible, running := false)
    case Visibility(visible, Redraw(wanted), drawing) =>
      var asked := s.(visible := visible, redrawPending := s.redrawPending || wanted || (visible && s.lastFlow.Animate?));
      if asked.redrawPending && !s.framePending && s.configured then Render(asked, drawing) else asked
    case Touch(answer, drawing) => Answered(s, answer, drawing)
    case Appearance(answer, drawing) => Answered(s, answer, drawing)
    case External(answer, drawing) => Answered(s, answer, drawing)
    case FrameDone(drawing) =>
      var done := s.(framePending := false, outstanding := s.outstanding - 1);
      if s.visible && (s.lastFlow.Animate? || s.redrawPending) then Render(done, drawing) else done
  }

  /** Every event of the run can happen when it does. */
  ghost predicate PossibleRun(s: State, events: seq<Event>)
    decreases |events|
  {
    events == [] || (Possible(s, events[0]) && PossibleRun(Step(s, events[0]), events[1..]))
  }

  ghost function Run(s: State, events: seq<Event>): State
    requires PossibleRun(s, events)
    decreases |events|
  {
    if events == [] then s else Run(Step(s, events[0]), events[1..])
  }

  // ----- pacing -----

  /** The flag counts the callbacks, so there is never more than one. While the client runs with a
      configured surface, a visible one that waits for no callback has nothing left to draw, and one
      that animates waits for a callback. */
  ghost predicate Paced(s: State) {
    && s.outstanding == (if s.framePending then 1 else 0)
    && (s.running && s.configured && s.visible ==>
          && (s.redrawPending ==> s.framePending)
          && (s.lastFlow.Animate? ==> s.framePending))
    && (!s.configured ==> !s.framePending && !s.lastFlow.Animate?)
  }

  /** Every handler keeps the pacing. */
  lemma {:induction false} StepKeepsPacing(s: State, event: Event)
    requires Paced(s) && Possible(s, event)
    ensures Paced(Step(s, event))
  {
  }

  /** The pacing holds after every interleaving of events. */
  lemma {:induction false} RunKeepsPacing(s: State, events: seq<Event>)
    requires Paced(s) && PossibleRun(s, events)
    ensures Paced(Run(s, events))
    decreases |events|
  {
    if events != [] {
      StepKeepsPacing(s, events[0]);
      RunKeepsPacing(Step(s, events[0]), events[1..]);
    }
  }

  /** From the start: at most one callback is outstanding; while running and configured, visible with
      none outstanding means nothing to redraw, and visible while animating means one outstanding. */
  lemma {:induction false} ReachableIsPaced(events: seq<Event>)
    requires PossibleRun(Initial, events)
    ensures var s := Run(Initial, events);
            && s.outstanding <= 1
            && (s.running && s.configured && s.visible && s.outstanding == 0 ==> !s.redrawPending)
            && (s.running && s.configured && s.visible && s.lastFlow.Animate? ==> s.outstanding == 1)
  {
    RunKeepsPacing(Initial, events);
  }

  /** No redraw of a visible client is lost: a callback is outstanding, and when it is done the frame
      is drawn unless the application or the graphics fail. */
  lemma {:induction false} RedrawIsServed(s: State, drawing: Drawing)
    requires Paced(s) && s.running && s.configured && s.visible && s.redrawPending
    ensures Possible(s, FrameDone(drawing))
    ensures drawing.Drawn? && drawing.presented ==>
              && Step(s, FrameDone(drawing)).frames == s.frames + 1
              && !Step(s, FrameDone(drawing)).redrawPending
    ensures !(drawing.Drawn? && drawing.presented) ==> !Step(s, FrameDone(drawing)).running
  {
  }

  // ----- drawing while hidden -----

  /** A frame is drawn while the surface is hidden only by the handler that hides it: the visibility
      handler, unlike the others, does not look at the new visibility before it draws. */
  lemma {:induction false} DrawsHiddenExactly(s: State, event: Event)
    requires Possible(s, event)
    ensures Step(s, event).frames > s.frames && !Step(s, event).visible <==>
              && event.Visibility? && !event.visible && event.answer.Redraw?
              && (s.redrawPending || event.answer.wanted) && !s.framePending && s.configured
              && event.drawing.Drawn? && event.drawing.presented
  {
  }

  /** A client that is configured, then hidden, draws a frame that nobody sees, and by animating in it
      keeps a callback outstanding. */
  lemma {:induction false} HiddenFrame()
    ensures var events := [Configure(Ready, Drawn(Wait, true)), Visibility(false, Redraw(true), Drawn(Animate, true))];
            && PossibleRun(Initial, events)
            && var s := Run(Initial, events);
            !s.visible && s.frames == 2 && s.outstanding == 1
  {
    var first, second := Configure(Ready, Drawn(Wait, true)), Visibility(false, Redraw(true), Drawn(Animate, true));
    var events := [first, second];
    var s := Step(Initial, first);
    assert events[1..] == [second] && [second][1..] == [];
    assert PossibleRun(s, [second]);
    assert Run(s, [second]) == Step(s, second);
  }

  // ----- the runtime as it runs -----

  class Runtime {
    var configured: bool
    var framePending: bool
    var visible: bool
    var redrawPending: bool
    var lastFlow: FrameFlow
    var running: bool
    var frames: nat
    /** Callbacks that the compositor still owes. */
    var outstanding: nat

    function Contents(): State
      reads this
    {
      State(configured, framePending, visible, redrawPending, lastFlow, running, frames, outstanding)
    }

    constructor ()
      ensures Contents() == Initial && Paced(Contents())
    {
      configured, framePending, visible, redrawPending := false, false, true, false;
      lastFlow, running, frames, outstanding := Wait, true, 0, 0;
    }

    method Fail()
      modifies this`running
      ensures Contents() == old(Contents()).(running := false)
    {
      running := false;
    }

    method RenderAndCommit(drawing: Drawing) returns (ok: bool)
      modifies this
      ensures (if ok then Contents() else Contents().(running := false)) == Render(old(Contents()), drawing)
      ensures ok <==> drawing.Drawn? && drawing.presented
    {
      if drawing.AppFailed? {
        return false;
      }
      redrawPending := false;
      lastFlow := drawing.flow;
      if drawing.flow == Animate && !framePending {
        outstanding := outstanding + 1;
        framePending := true;
      }
      if !drawing.presented {
        return false;
      }
      frames := frames + 1;
      if drawing.flow == Exit {
        running := false;
      }
      ok := true;
    }

    method RenderOrFail(drawing: Drawing)
      modifies this
      ensures Contents() == Render(old(Contents()), drawing)
    {
      var ok := RenderAndCommit(drawing);
      if !ok {
        Fail();
      }
    }

    method OnConfigure(setup: Setup, drawing: Drawing)
      requires Paced(Contents())
      modifies this
      ensures Contents() == Step(old(Contents()), Configure(setup, drawing)) && Paced(Contents())
    {
      StepKeepsPacing(Contents(), Configure(setup, drawing));
      if setup.NoGraphics? {
        Fail();
        return;
      }
      configured := true;
      if setup.AppRefused? {
        Fail();
        return;
      }
      redrawPending := true;
      if visible {
        RenderOrFail(drawing);
      }
    }

    method OnVisibility(shown: bool, answer: Answer, drawing: Drawing)
      requires Paced(Contents())
      modifies this
      ensures Contents() == Step(old(Contents()), Visibility(shown, answer, drawing)) && Paced(Contents())
    {
      StepKeepsPacing(Contents(), Visibility(shown, answer, drawing));
      visible := shown;
      if answer.Failed? {
        Fail();
        return;
      }
      redrawPending := redrawPending || answer.wanted;
      if shown && lastFlow == Animate {
        redrawPending := true;
      }
      if redrawPending && !framePending && configured {
        RenderOrFail(drawing);
      }
    }

    method RedrawIfAsked(answer: Answer, drawing: Drawing)
      modifies this
      ensures Contents() == Answered(old(Contents()), answer, drawing)
    {
      if answer.Failed? {
        Fail();
        return;
      }
      redrawPending := redrawPending || answer.wanted;
      if redrawPending && visible && !framePending && configured {
        RenderOrFail(drawing);
      }
    }

    method OnTouch(answer: Answer, drawing: Drawing)
      requires Paced(Contents())
      modifies this
      ensures Contents() == Step(old(Contents()), Touch(answer, drawing)) && Paced(Contents())
    {
      StepKeepsPacing(Contents(), Touch(answer, drawing));
      RedrawIfAsked(answer, drawing);
    }

    method OnAppearance(answer: Answer, drawing: Drawing)
      requires Paced(Contents())
      modifies this
      ensures Contents() == Step(old(Contents()), Appearance(answer, drawing)) && Paced(Contents())
    {
      StepKeepsPacing(Contents(), Appearance(answer, drawing));
      RedrawIfAsked(answer, drawing);
    }

    method OnExternal(answer: Answer, drawing: Drawing)
      requires Paced(Contents())
      modifies this
      ensures Contents() == Step(old(Contents()), External(answer, drawing)) && Paced(Contents())
    {
      StepKeepsPacing(Contents(), External(answer, drawing));
      RedrawIfAsked(answer, drawing);
    }

    method OnFrameDone(drawing: Drawing)
      requires Paced(Contents()) && outstanding > 0
      modifies this
      ensures Contents() == Step(old(Contents()), FrameDone(drawing)) && Paced(Contents())
    {
      StepKeepsPacing(Contents(), FrameDone(drawing));
      outstanding := outstanding - 1;
      framePending := false;
      if visible && (lastFlow == Animate || redrawPending) {
        RenderOrFail(drawing);
      }
    }
  }
}
