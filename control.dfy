/**
 * The control program of autolight.c: the option settings it keeps in static
 * variables, the calibration that drains frames while the camera's automatic
 * exposure settles, and the main loop that turns each frame's score into a
 * 0..100 backlight level.
 *
 * The main loop is described by the trace of what it does: capture a frame,
 * set the backlight. The scores of successive frames are an input, and the
 * interactive loop, which the source never leaves, stops after the frames
 * supplied.
 */
module Control {
  import opened Common
  import opened Brightness

  const DefaultCalibrateFrames: int := 24
  const DefaultInteractiveTimeout: int := 1000

  /** The value `-x` (`--brightness`) selects: the two spellings of OPT1 and OPT2, anything else keeps `current`. */
  function SelectAlgorithm(arg: string, current: Algorithm): (a: Algorithm)
    ensures a == Opt1 <==> arg in {"opt1", "OPT1"} || (current == Opt1 && arg !in {"opt2", "OPT2"})
    ensures a == Opt2 <==> arg in {"opt2", "OPT2"} || (current == Opt2 && arg !in {"opt1", "OPT1"})
    ensures arg !in {"opt1", "OPT1", "opt2", "OPT2"} ==> a == current
  {
    if arg == "opt1" || arg == "OPT1" then Opt1
    else if arg == "opt2" || arg == "OPT2" then Opt2
    else current
  }

  /** Once OPT1 or OPT2 is selected, no later `-x` argument brings STD back. */
  lemma SelectAlgorithmNeverStd(arg: string, current: Algorithm)
    requires current != Std
    ensures SelectAlgorithm(arg, current) != Std
  {
  }

  /** Giving the same `-x` argument twice has the effect of giving it once. */
  lemma SelectAlgorithmIdempotent(arg: string, current: Algorithm)
    ensures SelectAlgorithm(arg, SelectAlgorithm(arg, current)) == SelectAlgorithm(arg, current)
  {
  }

  /** The option settings of autolight.c, with their initial values. */
  class Settings {
    var brightnessAlgo: Algorithm
    var calibrateFrames: int
    var interactive: bool
    var interactiveTimeout: int

    constructor ()
      ensures brightnessAlgo == Std && calibrateFrames == DefaultCalibrateFrames
      ensures !interactive && interactiveTimeout == DefaultInteractiveTimeout
    {
      brightnessAlgo := Std;
      calibrateFrames := DefaultCalibrateFrames;
      interactive := false;
      interactiveTimeout := DefaultInteractiveTimeout;
    }

    /** The BRIGHTNESS_OPTION case of `set_options`. */
    method SetBrightnessOption(arg: string)
      modifies this`brightnessAlgo
      ensures brightnessAlgo == SelectAlgorithm(arg, old(brightnessAlgo))
    {
      if arg == "opt1" || arg == "OPT1" {
        brightnessAlgo := Opt1;
      } else if arg == "opt2" || arg == "OPT2" {
        brightnessAlgo := Opt2;
      }
    }

    /** The CALIBRATE_TIMES_OPTION case of `set_options`, with the number already converted. */
    method SetCalibrateOption(frames: int)
      modifies this`calibrateFrames
      ensures calibrateFrames == frames
    {
      calibrateFrames := frames;
    }

    /** The INTERACTIVE_OPTION case of `set_options`: the timeout is optional. */
    method SetInteractiveOption(timeout: Option<int>)
      modifies this`interactive, this`interactiveTimeout
      ensures interactive
      ensures interactiveTimeout == if timeout.Some? then timeout.value else old(interactiveTimeout)
    {
      interactive := true;
      if timeout.Some? {
        interactiveTimeout := timeout.value;
      }
    }
  }

  /** The integer brightness passed to the backlight: the score times 100, truncated. */
  function BrightnessLevel(score: real): (level: int)
    ensures 0.0 <= score <= 1.0 ==> 0 <= level <= 100
    ensures 0.0 <= score ==> level as real <= score * 100.0 < level as real + 1.0
  {
    Truncate(score * 100.0)
  }

  /** A brighter frame never gives a lower level. */
  lemma BrightnessLevelMonotone(s: real, t: real)
    requires s <= t
    ensures BrightnessLevel(s) <= BrightnessLevel(t)
  {
    TruncateMonotone(s * 100.0, t * 100.0);
  }

  /** What the control program does, step by step. */
  datatype Event = Capture | SetBacklight(level: int) | Sleep(ms: int)

  /** `calibrate_cam`: read and discard `calibrateFrames` frames; none when it is zero or negative. */
  method CalibrateCam(calibrateFrames: int) returns (events: seq<Event>)
    ensures |events| == (if calibrateFrames > 0 then calibrateFrames else 0)
    ensures forall i :: 0 <= i < |events| ==> events[i] == Capture
  {
    events := [];
    if calibrateFrames == 0 {
      return;
    }
    var i := 0;
    while i < calibrateFrames
      invariant 0 <= i <= (if calibrateFrames > 0 then calibrateFrames else 0)
      invariant |events| == i
      invariant forall j :: 0 <= j < i ==> events[j] == Capture
    {
      events := events + [Capture];
      i := i + 1;
    }
  }

  /**
   * `main_loop`: calibrate when automatic exposure is on, then capture a frame
   * and set the backlight to its level, once, or again for every frame while
   * interactive. `scores[j]` is the score of the j-th frame captured after
   * calibration. The configured timeout never delays anything.
   */
  method MainLoop(autoExposure: bool, calibrateFrames: int, interactive: bool, interactiveTimeout: int, scores: seq<real>)
    returns (events: seq<Event>)
    requires scores != []
    ensures var cal := if autoExposure && calibrateFrames > 0 then calibrateFrames else 0;
      var cycles := if interactive then |scores| else 1;
      && |events| == cal + 2 * cycles
      && (forall i :: 0 <= i < cal ==> events[i] == Capture)
      && (forall j :: 0 <= j < cycles ==>
            events[cal + 2 * j] == Capture && events[cal + 2 * j + 1] == SetBacklight(BrightnessLevel(scores[j])))
    ensures forall i :: 0 <= i < |events| ==> !events[i].Sleep?
  {
    events := [];
    if autoExposure {
      events := CalibrateCam(calibrateFrames);
    }
    var cal := |events|;
    var j := 0;
    var running := true;
    while running
      invariant 0 <= j <= |scores|
      invariant running ==> j < |scores| && (!interactive ==> j == 0)
      invariant !running ==> j == if interactive then |scores| else 1
      invariant |events| == cal + 2 * j
      invariant forall i :: 0 <= i < cal ==> events[i] == Capture
      invariant forall k :: 0 <= k < j ==>
        events[cal + 2 * k] == Capture && events[cal + 2 * k + 1] == SetBacklight(BrightnessLevel(scores[k]))
      invariant forall i :: 0 <= i < |events| ==> !events[i].Sleep?
      decreases |scores| - j
    {
      var level := BrightnessLevel(scores[j]);
      events := events + [Capture, SetBacklight(level)];
      j := j + 1;
      running := interactive && j < |scores|;
    }
  }
}
