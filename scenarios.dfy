/**
 * What the program as a whole does with a frame: the score of the frame
 * (autolight.c), the level derived from it, and the values the backlight
 * outputs are sent (xws.c).
 */
module Scenarios {
  import opened Common
  import opened Brightness
  import opened Control
  import opened Xws

  /** Every frame gives a level in 0..100. */
  lemma FrameLevelInRange(a: Algorithm, frame: seq<uint8>, n: nat)
    requires a != Opt2 && 0 < n && |frame| == 3 * n
    ensures 0 <= BrightnessLevel(Score(a, frame, n)) <= 100
  {
    ScoreBounds(a, frame, n);
  }

  /** An all-white frame gives level 100. */
  lemma WhiteFrameFullLevel(a: Algorithm, frame: seq<uint8>, n: nat)
    requires a != Opt2 && 0 < n && |frame| == 3 * n
    requires forall i :: 0 <= i < |frame| ==> frame[i] == 255
    ensures BrightnessLevel(Score(a, frame, n)) == 100
  {
    ScoreOfConstant(a, frame, n, 255);
    TruncateWhole(100);
  }

  /** An all-black frame gives level 0. */
  lemma BlackFrameZeroLevel(a: Algorithm, frame: seq<uint8>, n: nat)
    requires a != Opt2 && 0 < n && |frame| == 3 * n
    requires forall i :: 0 <= i < |frame| ==> frame[i] == 0
    ensures BrightnessLevel(Score(a, frame, n)) == 0
  {
    ScoreOfConstant(a, frame, n, 0);
    TruncateWhole(0);
  }

  /**
   * On a display with one eligible output whose range is [0, max], an
   * all-white frame sets the backlight to max and an all-black one to 0.
   */
  lemma FrameDrivesSingleOutput(a: Algorithm, frame: seq<uint8>, n: nat, s: Server, output: Output, atom: Atom, k: uint8)
    requires a != Opt2 && 0 < n && |frame| == 3 * n
    requires k == 0 || k == 255
    requires forall i :: 0 <= i < |frame| ==> frame[i] == k
    requires Eligible(s, output)
    requires var q := s.queryProperty(output, Read(s, output).atom); q.validValues[0] == 0 <= q.validValues[1]
    ensures var q := s.queryProperty(output, Read(s, output).atom);
      var level := BrightnessLevel(Score(a, frame, n));
      FanOut(s, [output], FanState(level, atom, []), true).writes
        == [Write(output, Read(s, output).atom, if k == 255 then q.validValues[1] else 0)]
  {
    var q := s.queryProperty(output, Read(s, output).atom);
    assert [output][..0] == [];
    if k == 255 {
      WhiteFrameFullLevel(a, frame, n);
      RescaleOfFull(0, q.validValues[1]);
    } else {
      BlackFrameZeroLevel(a, frame, n);
      RescaleOfZero(0, q.validValues[1]);
    }
  }

  /**
   * A brighter frame never dims an output: with every range ordered, each
   * output receives at least the value it receives for a darker frame.
   */
  lemma BrighterFrameNeverDims(a: Algorithm, f: seq<uint8>, g: seq<uint8>, n: nat,
                               s: Server, outputs: seq<Output>, atom: Atom, k: nat)
    requires a != Opt2 && 0 < n && |f| == 3 * n && |g| == 3 * n
    requires forall i :: 0 <= i < 3 * n ==> f[i] <= g[i]
    requires var w := FanOut(s, outputs, FanState(BrightnessLevel(Score(a, f, n)), atom, []), true).writes;
      forall j :: 0 <= j < |w| ==> OrderedRange(s, w[j])
    requires k < |FanOut(s, outputs, FanState(BrightnessLevel(Score(a, f, n)), atom, []), true).writes|
    ensures var darker := FanOut(s, outputs, FanState(BrightnessLevel(Score(a, f, n)), atom, []), true).writes;
      var brighter := FanOut(s, outputs, FanState(BrightnessLevel(Score(a, g, n)), atom, []), true).writes;
      |darker| == |brighter| && darker[k].output == brighter[k].output && darker[k].value <= brighter[k].value
  {
    ScoreMonotone(a, f, g, n);
    BrightnessLevelMonotone(Score(a, f, n), Score(a, g, n));
    FanOutMonotoneAt(s, outputs, BrightnessLevel(Score(a, f, n)), BrightnessLevel(Score(a, g, n)), atom, true, k);
  }

  /**
   * With the level kept as intended, a frame's level reaches every eligible
   * output, in visiting order, rescaled into that output's own range.
   */
  lemma FrameReachesEveryOutput(a: Algorithm, frame: seq<uint8>, n: nat, s: Server, outputs: seq<Output>, atom: Atom)
    requires a != Opt2 && 0 < n && |frame| == 3 * n
    ensures var level := BrightnessLevel(Score(a, frame, n));
      var writes := FanOut(s, outputs, FanState(level, atom, []), false).writes;
      && 0 <= level <= 100
      && Targets(writes) == EligibleOutputs(s, outputs)
      && forall k :: 0 <= k < |writes| ==> RescaledFrom(s, writes[k], level)
  {
    var level := BrightnessLevel(Score(a, frame, n));
    ScoreBounds(a, frame, n);
    FanOutWritesEligible(s, outputs, level, atom, false);
    FanOutRescalesLevel(s, outputs, level, atom);
  }
}
