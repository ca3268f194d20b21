/**
  The GIF frame stepper: each click advances by `stepsPerClick` frames up to
  the last, the last frame marks the stepper done and emits `gif:completed`
  once per instance, and reset rewinds to the first frame.

  JavaScript numbers that can be `NaN` are `Option<int>` here, `None` being
  `NaN`: arithmetic with `NaN` gives `NaN`, `Math.min` with `NaN` gives `NaN`,
  and `frames[NaN]` is `undefined`, which `drawImage` rejects by throwing.
*/
module GifStepper {
  import opened Wrappers
  import opened JsMath

  /** `options.stepsPerClick ?? parseInt(img.dataset.stepsPerClick) ?? 1`: `NaN` is not nullish, so the last fallback never applies. */
  function StepsAsWritten(option: Option<int>, attribute: Option<string>): (steps: Option<int>)
    ensures option.Some? ==> steps == option
    ensures option.None? && attribute.None? ==> steps.None?
  {
    if option.Some? then option else ParseInt(attribute)
  }

  /** The step size with `1` as the fallback for a missing or unreadable attribute. */
  function Steps(option: Option<int>, attribute: Option<string>): (steps: Option<int>)
    ensures steps.Some?
    ensures option.Some? ==> steps == option
    ensures option.None? && attribute.None? ==> steps == Some(1)
    ensures StepsAsWritten(option, attribute).Some? ==> steps == StepsAsWritten(option, attribute)
  {
    if option.Some? then option
    else if ParseInt(attribute).Some? then ParseInt(attribute)
    else Some(1)
  }

  /** The stepper's fields; `emissions` counts the `gif:completed` events sent so far. */
  datatype Stepper = Stepper(
    frameCount: nat,
    steps: Option<int>,
    current: Option<int>,
    started: bool,
    done: bool,
    emitted: bool,
    emissions: nat)

  /** A freshly constructed stepper whose frames have been decoded. */
  function Initial(frameCount: nat, steps: Option<int>): (s: Stepper)
    ensures !s.started && !s.done && !s.emitted && s.emissions == 0
    ensures s.current == Some(-1)
  {
    Stepper(frameCount, steps, Some(-1), false, false, false, 0)
  }

  /** `Math.min` with `NaN` propagation. */
  function MinOrNaN(a: Option<int>, b: int): (r: Option<int>)
    ensures a.None? <==> r.None?
    ensures r.Some? ==> r.value <= b && r.value <= a.value && (r.value == a.value || r.value == b)
  {
    if a.None? then None else if a.value < b then a else Some(b)
  }

  /** `a + b` with `NaN` propagation. */
  function AddOrNaN(a: Option<int>, b: Option<int>): (r: Option<int>)
    ensures r.Some? <==> a.Some? && b.Some?
    ensures r.Some? ==> r.value == a.value + b.value
  {
    if a.Some? && b.Some? then Some(a.value + b.value) else None
  }

  /**
    `_advance`: nothing without frames or once done; the first click starts
    from frame 0; then move `stepsPerClick` frames, never past the last. A
    `NaN` or negative frame index makes `drawImage` throw after `current`
    was assigned.
  */
  function Advance(s: Stepper): (r: Stepper)
    ensures r.frameCount == s.frameCount && r.steps == s.steps
    ensures s.frameCount == 0 || s.done ==> r == s
    ensures s.frameCount > 0 && !s.done ==> r.started
    ensures r.emissions == s.emissions + (if r.emitted && !s.emitted then 1 else 0)
    ensures s.emitted ==> r.emitted
  {
    if s.frameCount == 0 || s.done then s
    else
      var from := if s.started then s.current else Some(0);
      var next := MinOrNaN(AddOrNaN(from, s.steps), s.frameCount - 1);
      var moved := s.(started := true, current := next);
      if next.None? || next.value < 0 then moved
      else if next.value >= s.frameCount - 1 then
        if s.emitted then moved.(done := true)
        else moved.(done := true, emitted := true, emissions := s.emissions + 1)
      else moved
  }

  /** `reset`: nothing without frames; otherwise back to frame 0, started and not done. The emitted flag stays. */
  function Reset(s: Stepper): (r: Stepper)
    ensures s.frameCount == 0 ==> r == s
    ensures s.frameCount > 0 ==> r == s.(current := Some(0), started := true, done := false)
  {
    if s.frameCount == 0 then s else s.(current := Some(0), started := true, done := false)
  }

  /** `setStepsPerClick(n)`. */
  function SetSteps(s: Stepper, n: Option<int>): (r: Stepper)
    ensures r.steps == n && r == s.(steps := n)
  {
    s.(steps := n)
  }

  /** A user action. */
  datatype Action = Click | ResetClick | SetStepSize(n: Option<int>)

  function Apply(s: Stepper, a: Action): Stepper {
    match a
    case Click => Advance(s)
    case ResetClick => Reset(s)
    case SetStepSize(n) => SetSteps(s, n)
  }

  function Run(s: Stepper, actions: seq<Action>): Stepper
    decreases |actions|
  {
    if |actions| == 0 then s else Run(Apply(s, actions[0]), actions[1..])
  }

  /** At most one completion event has been sent, and one exactly when the flag is set. */
  predicate EmitOnce(s: Stepper) {
    s.emissions <= 1 && (s.emissions == 1 <==> s.emitted)
  }

  /** Whatever the clicks, resets and step sizes, `gif:completed` is sent at most once per instance. */
  lemma {:induction false} RunEmitsOnce(s: Stepper, actions: seq<Action>)
    requires EmitOnce(s)
    ensures EmitOnce(Run(s, actions))
    ensures Run(s, actions).emissions >= s.emissions
    decreases |actions|
  {
    if |actions| > 0 {
      RunEmitsOnce(Apply(s, actions[0]), actions[1..]);
    }
  }

  /** The frame index stays on a frame, and done means the last frame. */
  predicate OnFrame(s: Stepper) {
    s.frameCount > 0 && s.started && s.current.Some? && 0 <= s.current.value <= s.frameCount - 1
    && (s.done <==> s.current.value == s.frameCount - 1)
  }

  /** With a non-negative step an advance stays on a frame and is done exactly on the last one. */
  lemma AdvanceStaysOnFrame(s: Stepper)
    requires s.frameCount > 0 && s.steps.Some? && s.steps.value >= 0
    requires OnFrame(s) || (!s.started && !s.done)
    ensures OnFrame(Advance(s))
    ensures var c := if s.started then s.current.value else 0;
      Advance(s).current == Some(if c + s.steps.value < s.frameCount - 1 then c + s.steps.value else s.frameCount - 1)
  {
  }

  /** After a reset the next click lands where the very first click of a fresh stepper does. */
  lemma ResetActsLikeStart(s: Stepper)
    requires s.frameCount > 0
    ensures var a := Advance(Reset(s));
      var b := Advance(Initial(s.frameCount, s.steps));
      a.current == b.current && a.done == b.done && a.started == b.started
  {
  }

  /** `n` clicks. */
  function Clicks(s: Stepper, n: nat): (r: Stepper)
    ensures r.frameCount == s.frameCount && r.steps == s.steps
    decreases n
  {
    if n == 0 then s else Clicks(Advance(s), n - 1)
  }

  /** From a frame, `n` clicks move `n` steps, stopping at the last frame. */
  lemma {:induction false} ClicksReach(s: Stepper, n: nat)
    requires s.steps.Some? && s.steps.value >= 0 && OnFrame(s)
    ensures OnFrame(Clicks(s, n))
    ensures var target := s.current.value + n * s.steps.value;
      Clicks(s, n).current == Some(if target < s.frameCount - 1 then target else s.frameCount - 1)
    decreases n
  {
    if n > 0 {
      AdvanceStaysOnFrame(s);
      var t := Advance(s);
      ClicksReach(t, n - 1);
      var k := s.steps.value;
      assert s.current.value + n * k == s.current.value + k + (n - 1) * k;
    }
  }

  /** With a step of at least one, a fresh stepper is done after one click per frame and has sent its event. */
  lemma FreshStepperCompletes(frameCount: nat, steps: int)
    requires frameCount > 0 && steps >= 1
    ensures Clicks(Initial(frameCount, Some(steps)), frameCount).done
    ensures Clicks(Initial(frameCount, Some(steps)), frameCount).emissions == 1
  {
    var s := Initial(frameCount, Some(steps));
    AdvanceStaysOnFrame(s);
    var t := Advance(s);
    assert EmitOnce(t) && (t.done ==> t.emitted);
    ClicksReach(t, frameCount - 1);
    MulAtLeast(frameCount - 1, steps);
    assert t.current.value + (frameCount - 1) * steps >= frameCount - 1;
    assert Clicks(t, frameCount - 1).current == Some(frameCount - 1);
    assert Clicks(s, frameCount) == Clicks(t, frameCount - 1);
    EmittedOnDone(t, frameCount - 1);
  }

  lemma MulAtLeast(a: nat, k: int)
    requires k >= 1
    ensures a * k >= a
  {
  }

  /** Once on a frame with the event state consistent, clicking keeps `emitted` true exactly when done has been reached. */
  lemma {:induction false} EmittedOnDone(s: Stepper, n: nat)
    requires s.steps.Some? && s.steps.value >= 0 && OnFrame(s)
    requires EmitOnce(s) && (s.done ==> s.emitted)
    ensures Clicks(s, n).done ==> Clicks(s, n).emitted && Clicks(s, n).emissions == 1
    decreases n
  {
    if n > 0 {
      AdvanceStaysOnFrame(s);
      EmittedOnDone(Advance(s), n - 1);
    }
  }

  /** Without `data-steps-per-click` or options the step is `NaN`. */
  lemma MissingAttributeIsNaN(attribute: Option<string>)
    ensures ParseInt(attribute).None? ==> StepsAsWritten(None, attribute).None? && Steps(None, attribute) == Some(1)
    ensures StepsAsWritten(None, None).None?
  {
  }

  /** With a `NaN` step, no number of clicks ever finishes the stepper or sends the event. */
  lemma {:induction false} NaNStepperNeverCompletes(frameCount: nat, n: nat)
    ensures var s := Clicks(Initial(frameCount, StepsAsWritten(None, None)), n);
      !s.done && s.emissions == 0
  {
    NaNClicks(Initial(frameCount, None), n);
  }

  lemma {:induction false} NaNClicks(s: Stepper, n: nat)
    requires s.steps.None? && !s.done && s.emissions == 0 && !s.emitted
    ensures !Clicks(s, n).done && Clicks(s, n).emissions == 0
    decreases n
  {
    if n > 0 {
      NaNClicks(Advance(s), n - 1);
    }
  }

  /** With the fallback applied, an image with no step attribute completes after one click per frame. */
  lemma DefaultStepCompletes(frameCount: nat)
    requires frameCount > 0
    ensures Clicks(Initial(frameCount, Steps(None, None)), frameCount).done
  {
    FreshStepperCompletes(frameCount, 1);
  }
}
