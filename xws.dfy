/**
 * The RandR backlight control of xws.c. At start-up the X server is asked for
 * RandR 1.2 or later and for the atoms of the backlight property ("Backlight",
 * or the legacy "BACKLIGHT"). To set a brightness, every output of every root
 * screen is visited: an output whose backlight property holds one 32-bit
 * INTEGER and whose property describes a two-valued range is written the
 * level rescaled into that range.
 *
 * The X server is a set of reply functions (`Server`, `ResourcesReply` per
 * screen, `VersionReply`, the `intern` function); a write to an output is
 * recorded as a `Write` in the order the requests are sent.
 */
module Xws {
  import opened Common

  type Atom = nat
  type Output = nat

  /** XCB_ATOM_NONE (also XCB_NONE) and XCB_ATOM_INTEGER. */
  const AtomNone: Atom := 0
  const AtomInteger: Atom := 19

  /** The RandR version requested, and the least one accepted. */
  const RequiredMajor: int := 1
  const RequiredMinor: int := 2

  const NewPropertyName: string := "Backlight"
  const LegacyPropertyName: string := "BACKLIGHT"

  datatype VersionReply = VersionFailed | Version(major: int, minor: int)
  datatype InternReply = InternFailed | Interned(atom: Atom)
  /** A reply to RRGetOutputProperty; `data` is the first 32-bit item. */
  datatype PropertyReply = PropertyFailed | Property(propType: Atom, numItems: nat, format: nat, data: int)
  /** A reply to RRQueryOutputProperty. */
  datatype QueryReply = QueryFailed | Query(range: bool, validValues: seq<int>)
  /** A reply to RRGetScreenResources for one root screen. */
  datatype ResourcesReply = ResourcesFailed | Resources(outputs: seq<Output>)

  /** The reasons `xws_init` ends the process. */
  datatype XFatal = VersionQueryFailed | VersionTooOld | InternAtomFailed | NoBacklightProperty

  /** One RRChangeOutputProperty request: replace `property` of `output` by the INTEGER `value`. */
  datatype Write = Write(output: Output, property: Atom, value: int)

  /** The atoms found at start-up and the server's answers about outputs. */
  datatype Server = Server(
    newAtom: Atom,
    legacyAtom: Atom,
    getProperty: (Output, Atom) -> PropertyReply,
    queryProperty: (Output, Atom) -> QueryReply)

  /** The atom whose property was last asked for, and the level read (-1 for none). */
  datatype Reading = Reading(atom: Atom, value: int)

  /** A property that holds a backlight level: exactly one 32-bit INTEGER. */
  predicate HoldsLevel(reply: PropertyReply) {
    reply.Property? && reply.propType == AtomInteger && reply.numItems == 1 && reply.format == 32
  }

  /** The property's level, or -1 when it holds none. */
  function LevelOf(reply: PropertyReply): int {
    if HoldsLevel(reply) then reply.data else -1
  }

  /** Whether the property is asked for at all: the legacy atom is only tried when it exists. */
  predicate Requested(newAtom: Atom, legacyAtom: Atom, getProperty: (Output, Atom) -> PropertyReply, output: Output) {
    getProperty(output, newAtom).Property? || legacyAtom != AtomNone
  }

  /**
   * `xws_backlight_get`: try the new atom, fall back to the legacy one when the
   * server refuses it, and read the level under whichever atom was tried last.
   */
  function ReadBacklight(newAtom: Atom, legacyAtom: Atom, getProperty: (Output, Atom) -> PropertyReply, output: Output): (r: Reading)
    ensures r.atom == (if getProperty(output, newAtom).Property? then newAtom else legacyAtom)
    ensures r.value != -1 <==>
      Requested(newAtom, legacyAtom, getProperty, output) && HoldsLevel(getProperty(output, r.atom)) && getProperty(output, r.atom).data != -1
    ensures r.value != -1 ==> r.value == getProperty(output, r.atom).data
  {
    var first := getProperty(output, newAtom);
    if first.PropertyFailed? then
      if legacyAtom == AtomNone then Reading(legacyAtom, -1)
      else
        var second := getProperty(output, legacyAtom);
        if second.PropertyFailed? then Reading(legacyAtom, -1) else Reading(legacyAtom, LevelOf(second))
    else Reading(newAtom, LevelOf(first))
  }

  /**
   * The level written to an output whose range is [min, max]: `value` times
   * (max - min) / 100, clamped to max, then to min, then truncated toward zero.
   */
  function Rescale(value: int, min: int, max: int): (v: int)
    ensures min <= max ==> min <= v <= max
  {
    Truncate(Clamp(Scaled(value, min, max), min, max))
  }

  /** `value` times the scaling factor (max - min) / 100. */
  function Scaled(value: int, min: int, max: int): real {
    value as real * ((max - min) as real / 100.0)
  }

  /** `x` lowered to `max`, then raised to `min`, in that order. */
  function Clamp(x: real, min: int, max: int): real {
    var belowMax := if x > max as real then max as real else x;
    if belowMax < min as real then min as real else belowMax
  }

  /** For a well-formed range, a higher level is never written as a lower value. */
  lemma RescaleMonotone(v1: int, v2: int, min: int, max: int)
    requires v1 <= v2 && min <= max
    ensures Rescale(v1, min, max) <= Rescale(v2, min, max)
  {
    ScaleMonotone(v1 as real, v2 as real, (max - min) as real / 100.0);
    ClampMonotone(Scaled(v1, min, max), Scaled(v2, min, max), min, max);
    TruncateMonotone(Clamp(Scaled(v1, min, max), min, max), Clamp(Scaled(v2, min, max), min, max));
  }

  lemma ClampMonotone(x: real, y: real, min: int, max: int)
    requires x <= y
    ensures Clamp(x, min, max) <= Clamp(y, min, max)
  {
  }

  lemma ScaleMonotone(x: real, y: real, f: real)
    requires x <= y && 0.0 <= f
    ensures x * f <= y * f
  {
    assert y * f - x * f == (y - x) * f;
  }

  /** Level 0 is written as the bottom of a range [min, max] with 0 <= min. */
  lemma RescaleOfZero(min: int, max: int)
    requires 0 <= min <= max
    ensures Rescale(0, min, max) == min
  {
    TruncateWhole(min);
  }

  /**
   * Level 100 is written as the width of the range, max - min, raised to min
   * when narrower: the offset min is not added, so it reaches max only when
   * min is 0 or the range is a single value.
   */
  lemma RescaleOfFull(min: int, max: int)
    requires 0 <= min <= max
    ensures Rescale(100, min, max) == if max - min < min then min else max - min
    ensures Rescale(100, min, max) == max <==> min == 0 || min == max
  {
    assert Scaled(100, min, max) == (max - min) as real;
    TruncateWhole(max - min);
    TruncateWhole(min);
  }

  /** A query reply that describes a range with exactly two bounds. */
  predicate IsRange(q: QueryReply) {
    q.Query? && q.range && |q.validValues| == 2
  }

  function Read(s: Server, output: Output): Reading {
    ReadBacklight(s.newAtom, s.legacyAtom, s.getProperty, output)
  }

  /** An output that `xws_backlight_set` writes: a level is read and its property has a range. */
  predicate Eligible(s: Server, output: Output) {
    Read(s, output).value != -1 && IsRange(s.queryProperty(output, Read(s, output).atom))
  }

  /** The loop state of `xws_backlight_set`: the variable `value`, the global `backlight`, the writes sent. */
  datatype FanState = FanState(value: int, atom: Atom, writes: seq<Write>)

  /**
   * One pass of the output loop. With `carry` the rescaled value replaces
   * `value`, as the source does; without it `value` keeps the level asked for.
   */
  function Visit(s: Server, st: FanState, output: Output, carry: bool): (r: FanState)
    ensures r.atom == Read(s, output).atom
    ensures |r.writes| == |st.writes| + (if Eligible(s, output) then 1 else 0)
    ensures !carry || !Eligible(s, output) ==> r.value == st.value
  {
    var reading := Read(s, output);
    var q := s.queryProperty(output, reading.atom);
    if reading.value != -1 && IsRange(q) then
      var w := Rescale(st.value, q.validValues[0], q.validValues[1]);
      FanState(if carry then w else st.value, reading.atom, st.writes + [Write(output, reading.atom, w)])
    else
      FanState(st.value, reading.atom, st.writes)
  }

  /** The output loop run over `outputs` in order from `init`. */
  function FanOut(s: Server, outputs: seq<Output>, init: FanState, carry: bool): (r: FanState)
    ensures outputs == [] ==> r == init
    ensures outputs != [] ==> r.atom == Read(s, outputs[|outputs| - 1]).atom
  {
    if outputs == [] then init
    else Visit(s, FanOut(s, outputs[..|outputs| - 1], init, carry), outputs[|outputs| - 1], carry)
  }

  /** A pass appends its write, if any, to those already sent. */
  lemma VisitAppends(s: Server, st: FanState, output: Output, carry: bool)
    ensures var v := Visit(s, FanState(st.value, st.atom, []), output, carry);
      Visit(s, st, output, carry) == FanState(v.value, v.atom, st.writes + v.writes)
  {
  }

  /** Running the loop over xs + ys is running it over xs, then over ys from where it stopped. */
  lemma {:induction false} FanOutAppend(s: Server, xs: seq<Output>, ys: seq<Output>, init: FanState, carry: bool)
    ensures var mid := FanOut(s, xs, init, carry);
      var rest := FanOut(s, ys, FanState(mid.value, mid.atom, []), carry);
      FanOut(s, xs + ys, init, carry) == FanState(rest.value, rest.atom, mid.writes + rest.writes)
  {
    var mid := FanOut(s, xs, init, carry);
    if ys == [] {
      assert xs + ys == xs;
    } else {
      var front := ys[..|ys| - 1];
      var last := ys[|ys| - 1];
      FanOutAppend(s, xs, front, init, carry);
      assert (xs + ys)[..|xs + ys| - 1] == xs + front;
      var before := FanOut(s, front, FanState(mid.value, mid.atom, []), carry);
      VisitAppends(s, FanState(before.value, before.atom, mid.writes + before.writes), last, carry);
      VisitAppends(s, before, last, carry);
    }
  }

  lemma FanOutSnoc(s: Server, outputs: seq<Output>, k: nat, init: FanState, carry: bool)
    requires k < |outputs|
    ensures FanOut(s, outputs[..k + 1], init, carry) == Visit(s, FanOut(s, outputs[..k], init, carry), outputs[k], carry)
  {
    assert outputs[..k + 1][..k] == outputs[..k];
  }

  /** The outputs of the screens whose resources were returned, screen by screen. */
  function AllOutputs(screens: seq<ResourcesReply>): seq<Output> {
    if screens == [] then []
    else AllOutputs(screens[..|screens| - 1]) + ScreenOutputs(screens[|screens| - 1])
  }

  function ScreenOutputs(reply: ResourcesReply): seq<Output> {
    if reply.Resources? then reply.outputs else []
  }

  lemma AllOutputsSnoc(screens: seq<ResourcesReply>, k: nat)
    requires k < |screens|
    ensures AllOutputs(screens[..k + 1]) == AllOutputs(screens[..k]) + ScreenOutputs(screens[k])
  {
    assert screens[..k + 1][..k] == screens[..k];
  }

  /** The eligible outputs among `outputs`, in order. */
  function EligibleOutputs(s: Server, outputs: seq<Output>): seq<Output> {
    if outputs == [] then []
    else
      var last := outputs[|outputs| - 1];
      EligibleOutputs(s, outputs[..|outputs| - 1]) + (if Eligible(s, last) then [last] else [])
  }

  /** The outputs the writes go to, in order. */
  function Targets(writes: seq<Write>): seq<Output> {
    if writes == [] then [] else Targets(writes[..|writes| - 1]) + [writes[|writes| - 1].output]
  }

  lemma TargetsSnoc(writes: seq<Write>, w: Write)
    ensures Targets(writes + [w]) == Targets(writes) + [w.output]
  {
    assert (writes + [w])[..|writes|] == writes;
  }

  /** Exactly the eligible outputs are written, each once, in the order they are visited. */
  lemma {:induction false} FanOutWritesEligible(s: Server, outputs: seq<Output>, value: int, atom: Atom, carry: bool)
    ensures Targets(FanOut(s, outputs, FanState(value, atom, []), carry).writes) == EligibleOutputs(s, outputs)
  {
    if outputs != [] {
      var init := FanState(value, atom, []);
      var prefix := outputs[..|outputs| - 1];
      var last := outputs[|outputs| - 1];
      FanOutWritesEligible(s, prefix, value, atom, carry);
      var prev := FanOut(s, prefix, init, carry);
      if Eligible(s, last) {
        var q := s.queryProperty(last, Read(s, last).atom);
        TargetsSnoc(prev.writes, Write(last, Read(s, last).atom, Rescale(prev.value, q.validValues[0], q.validValues[1])));
      }
    }
  }

  lemma {:induction false} EligibleOutputsEmpty(s: Server, outputs: seq<Output>)
    ensures EligibleOutputs(s, outputs) == [] <==> forall k :: 0 <= k < |outputs| ==> !Eligible(s, outputs[k])
  {
    if outputs != [] {
      var prefix := outputs[..|outputs| - 1];
      EligibleOutputsEmpty(s, prefix);
      assert forall k :: 0 <= k < |prefix| ==> prefix[k] == outputs[k];
    }
  }

  lemma {:induction false} TargetsLength(writes: seq<Write>)
    ensures |Targets(writes)| == |writes|
  {
    if writes != [] {
      TargetsLength(writes[..|writes| - 1]);
    }
  }

  /** Some write is sent, and `xws_backlight_set` reports success, exactly when some output is eligible. */
  lemma FanOutWritesSome(s: Server, outputs: seq<Output>, value: int, atom: Atom, carry: bool)
    ensures FanOut(s, outputs, FanState(value, atom, []), carry).writes != [] <==>
      exists k :: 0 <= k < |outputs| && Eligible(s, outputs[k])
  {
    FanOutWritesEligible(s, outputs, value, atom, carry);
    TargetsLength(FanOut(s, outputs, FanState(value, atom, []), carry).writes);
    EligibleOutputsEmpty(s, outputs);
  }

  /** The query reply about the property a write replaces. */
  function RangeOf(s: Server, w: Write): QueryReply {
    s.queryProperty(w.output, w.property)
  }

  /**
   * A write as `xws_backlight_set` may send it: under the atom the level was
   * read from, to an output with a level, inside the output's range when the
   * range is well-formed.
   */
  predicate Admissible(s: Server, w: Write) {
    var q := RangeOf(s, w);
    && Read(s, w.output).value != -1
    && w.property == Read(s, w.output).atom
    && IsRange(q)
    && (q.validValues[0] <= q.validValues[1] ==> q.validValues[0] <= w.value <= q.validValues[1])
  }

  lemma {:induction false} FanOutWriteAdmissible(s: Server, outputs: seq<Output>, value: int, atom: Atom, carry: bool, k: nat)
    requires k < |FanOut(s, outputs, FanState(value, atom, []), carry).writes|
    ensures Admissible(s, FanOut(s, outputs, FanState(value, atom, []), carry).writes[k])
  {
    var prefix := outputs[..|outputs| - 1];
    var prev := FanOut(s, prefix, FanState(value, atom, []), carry);
    if k < |prev.writes| {
      FanOutWriteAdmissible(s, prefix, value, atom, carry, k);
    }
  }

  /** Every write is admissible. */
  lemma FanOutWritesAdmissible(s: Server, outputs: seq<Output>, value: int, atom: Atom, carry: bool)
    ensures var writes := FanOut(s, outputs, FanState(value, atom, []), carry).writes;
      forall k :: 0 <= k < |writes| ==> Admissible(s, writes[k])
  {
    forall k | 0 <= k < |FanOut(s, outputs, FanState(value, atom, []), carry).writes| {
      FanOutWriteAdmissible(s, outputs, value, atom, carry, k);
    }
  }

  /** `w` holds `from` rescaled into the range its property describes. */
  predicate RescaledFrom(s: Server, w: Write, from: int) {
    var q := RangeOf(s, w);
    IsRange(q) && w.value == Rescale(from, q.validValues[0], q.validValues[1])
  }

  /** The value `value` holds when the k-th write is computed: the level for the first, else the value written before. */
  function CarriedBefore(level: int, writes: seq<Write>, k: nat): int
    requires k < |writes|
  {
    if k == 0 then level else writes[k - 1].value
  }

  /** `value` ends as the last value written, or the level itself when nothing was written. */
  lemma {:induction false} FanOutCarriedValue(s: Server, outputs: seq<Output>, level: int, atom: Atom)
    ensures var st := FanOut(s, outputs, FanState(level, atom, []), true);
      st.value == if st.writes == [] then level else st.writes[|st.writes| - 1].value
  {
    if outputs != [] {
      FanOutCarriedValue(s, outputs[..|outputs| - 1], level, atom);
    }
  }

  lemma {:induction false} FanOutCarriesValueAt(s: Server, outputs: seq<Output>, level: int, atom: Atom, k: nat)
    requires k < |FanOut(s, outputs, FanState(level, atom, []), true).writes|
    ensures var writes := FanOut(s, outputs, FanState(level, atom, []), true).writes;
      RescaledFrom(s, writes[k], CarriedBefore(level, writes, k))
  {
    var prefix := outputs[..|outputs| - 1];
    var prev := FanOut(s, prefix, FanState(level, atom, []), true);
    var writes := FanOut(s, outputs, FanState(level, atom, []), true).writes;
    if k < |prev.writes| {
      FanOutCarriesValueAt(s, prefix, level, atom, k);
      if k > 0 {
        assert writes[k - 1] == prev.writes[k - 1];
      }
    } else {
      FanOutCarriedValue(s, prefix, level, atom);
      assert k == |prev.writes|;
      if k > 0 {
        assert writes[k - 1] == prev.writes[k - 1];
      }
    }
  }

  /**
   * The loop as written: the first output written gets the level rescaled, and
   * every later one gets the value written to the output before it, rescaled
   * again; `value` ends as the last value written.
   */
  lemma FanOutCarriesValue(s: Server, outputs: seq<Output>, level: int, atom: Atom)
    ensures var st := FanOut(s, outputs, FanState(level, atom, []), true);
      st.value == if st.writes == [] then level else st.writes[|st.writes| - 1].value
    ensures var st := FanOut(s, outputs, FanState(level, atom, []), true);
      forall k :: 0 <= k < |st.writes| ==>
        RescaledFrom(s, st.writes[k], CarriedBefore(level, st.writes, k))
  {
    FanOutCarriedValue(s, outputs, level, atom);
    var st := FanOut(s, outputs, FanState(level, atom, []), true);
    forall k | 0 <= k < |st.writes|
      ensures RescaledFrom(s, st.writes[k], CarriedBefore(level, st.writes, k))
    {
      FanOutCarriesValueAt(s, outputs, level, atom, k);
    }
  }

  /** The loop as intended: every output written gets the level asked for, rescaled into its own range. */
  lemma {:induction false} FanOutRescalesLevel(s: Server, outputs: seq<Output>, level: int, atom: Atom)
    ensures var st := FanOut(s, outputs, FanState(level, atom, []), false);
      && st.value == level
      && (forall k :: 0 <= k < |st.writes| ==> RescaledFrom(s, st.writes[k], level))
  {
    if outputs != [] {
      FanOutRescalesLevel(s, outputs[..|outputs| - 1], level, atom);
    }
  }

  lemma {:induction false} TargetsAt(writes: seq<Write>, k: nat)
    requires k < |writes|
    ensures |Targets(writes)| == |writes| && Targets(writes)[k] == writes[k].output
  {
    TargetsLength(writes);
    if k < |writes| - 1 {
      TargetsAt(writes[..|writes| - 1], k);
    }
  }

  /** A write whose property describes a range [min, max] with min <= max. */
  predicate OrderedRange(s: Server, w: Write) {
    IsRange(RangeOf(s, w)) && RangeOf(s, w).validValues[0] <= RangeOf(s, w).validValues[1]
  }

  /**
   * Two runs of the loop from levels l1 <= l2 write the same outputs under the
   * same atoms, and, where every range is ordered, the k-th write of the first
   * run is never above that of the second.
   */
  lemma {:induction false} FanOutMonotoneAt(s: Server, outputs: seq<Output>, l1: int, l2: int, atom: Atom, carry: bool, k: nat)
    requires l1 <= l2
    requires var w1 := FanOut(s, outputs, FanState(l1, atom, []), carry).writes;
      forall j :: 0 <= j < |w1| ==> OrderedRange(s, w1[j])
    requires k < |FanOut(s, outputs, FanState(l1, atom, []), carry).writes|
    ensures var w1 := FanOut(s, outputs, FanState(l1, atom, []), carry).writes;
      var w2 := FanOut(s, outputs, FanState(l2, atom, []), carry).writes;
      && |w1| == |w2|
      && w1[k].output == w2[k].output && w1[k].property == w2[k].property
      && w1[k].value <= w2[k].value
  {
    var w1 := FanOut(s, outputs, FanState(l1, atom, []), carry).writes;
    var w2 := FanOut(s, outputs, FanState(l2, atom, []), carry).writes;
    FanOutWritesEligible(s, outputs, l1, atom, carry);
    FanOutWritesEligible(s, outputs, l2, atom, carry);
    TargetsLength(w1);
    TargetsLength(w2);
    TargetsAt(w1, k);
    TargetsAt(w2, k);
    FanOutWriteAdmissible(s, outputs, l1, atom, carry, k);
    FanOutWriteAdmissible(s, outputs, l2, atom, carry, k);
    var q := RangeOf(s, w1[k]);
    assert OrderedRange(s, w1[k]);
    if carry {
      FanOutCarriesValueAt(s, outputs, l1, atom, k);
      FanOutCarriesValueAt(s, outputs, l2, atom, k);
      if k > 0 {
        FanOutMonotoneAt(s, outputs, l1, l2, atom, carry, k - 1);
      }
      RescaleMonotone(CarriedBefore(l1, w1, k), CarriedBefore(l2, w2, k), q.validValues[0], q.validValues[1]);
    } else {
      FanOutRescalesLevel(s, outputs, l1, atom);
      FanOutRescalesLevel(s, outputs, l2, atom);
      RescaleMonotone(l1, l2, q.validValues[0], q.validValues[1]);
    }
  }

  /**
   * Two outputs with ranges [0, 1000] and [0, 100] and a level of 50: as
   * written the second output is sent the first one's 500 rescaled, which
   * clamps to 100 (full brightness); as intended it is sent 50.
   */
  lemma CarriedValueCounterexample()
    ensures var s := Server(7, AtomNone,
                            (o: Output, a: Atom) => Property(AtomInteger, 1, 32, 0),
                            (o: Output, a: Atom) => if o == 0 then Query(true, [0, 1000]) else Query(true, [0, 100]));
      && FanOut(s, [0, 1], FanState(50, AtomNone, []), true).writes == [Write(0, 7, 500), Write(1, 7, 100)]
      && FanOut(s, [0, 1], FanState(50, AtomNone, []), false).writes == [Write(0, 7, 500), Write(1, 7, 50)]
  {
    var s := Server(7, AtomNone,
                    (o: Output, a: Atom) => Property(AtomInteger, 1, 32, 0),
                    (o: Output, a: Atom) => if o == 0 then Query(true, [0, 1000]) else Query(true, [0, 100]));
    assert [0, 1][..1] == [0];
    assert [0][..0] == [];
    assert Rescale(50, 0, 1000) == 500 by {
      assert Scaled(50, 0, 1000) == 500.0;
      TruncateWhole(500);
    }
    assert Rescale(500, 0, 100) == 100 by {
      TruncateWhole(100);
    }
    assert Rescale(50, 0, 100) == 50 by {
      assert Scaled(50, 0, 100) == 50.0;
      TruncateWhole(50);
    }
  }

  /**
   * The screen loop of `xws_backlight_set` as written: the `continue` taken when
   * a screen's resources cannot be read skips `xcb_screen_next`, so the
   * iterator stays on that screen; otherwise it moves to the next one.
   */
  function NextScreenAsWritten(screens: seq<ResourcesReply>, i: nat): (r: nat)
    requires i < |screens|
    ensures i <= r <= i + 1
    ensures r == i <==> screens[i].ResourcesFailed?
  {
    if screens[i].ResourcesFailed? then i else i + 1
  }

  /**
   * The screen loop as written, from screen i with the outputs `visited` so
   * far, for at most `passes` passes: where the iterator stops and the outputs
   * visited by then. Visiting only ever extends the outputs visited.
   */
  function ScreensAsWritten(screens: seq<ResourcesReply>, i: nat, visited: seq<Output>, passes: nat): (r: (nat, seq<Output>))
    ensures i <= r.0
    ensures |visited| <= |r.1| && r.1[..|visited|] == visited
    decreases passes
  {
    if passes == 0 || i >= |screens| then (i, visited)
    else ScreensAsWritten(screens, NextScreenAsWritten(screens, i), visited + ScreenOutputs(screens[i]), passes - 1)
  }

  /**
   * A screen whose resources the server keeps refusing holds the loop as
   * written on it forever, and no output is visited after it.
   */
  lemma {:induction false} ResourcesErrorNeverAdvances(screens: seq<ResourcesReply>, i: nat, visited: seq<Output>, passes: nat)
    requires i < |screens| && screens[i].ResourcesFailed?
    ensures ScreensAsWritten(screens, i, visited, passes) == (i, visited)
    decreases passes
  {
    if passes > 0 {
      assert visited + ScreenOutputs(screens[i]) == visited;
      ResourcesErrorNeverAdvances(screens, i, visited, passes - 1);
    }
  }

  /**
   * The screen loop as intended: a screen whose resources are refused is
   * skipped, visiting none of its outputs. Each pass moves to the next screen.
   */
  function Screens(screens: seq<ResourcesReply>, i: nat, visited: seq<Output>, passes: nat): (r: (nat, seq<Output>))
    ensures r.0 == if i >= |screens| then i else if i + passes <= |screens| then i + passes else |screens|
    ensures |visited| <= |r.1| && r.1[..|visited|] == visited
    decreases passes
  {
    if passes == 0 || i >= |screens| then (i, visited)
    else Screens(screens, i + 1, visited + ScreenOutputs(screens[i]), passes - 1)
  }

  /**
   * As intended, one pass per screen takes the loop past the last screen,
   * having visited exactly `AllOutputs`: the outputs of every screen whose
   * resources were returned, screen by screen.
   */
  lemma {:induction false} ScreensReachEnd(screens: seq<ResourcesReply>, i: nat, visited: seq<Output>, passes: nat)
    requires i <= |screens| && |screens| - i <= passes
    requires visited == AllOutputs(screens[..i])
    ensures Screens(screens, i, visited, passes) == (|screens|, AllOutputs(screens))
    decreases passes
  {
    if i == |screens| {
      assert screens[..i] == screens;
    } else {
      AllOutputsSnoc(screens, i);
      ScreensReachEnd(screens, i + 1, visited + ScreenOutputs(screens[i]), passes - 1);
    }
  }

  /** When every screen's resources are returned, the loop as written is the intended one. */
  lemma {:induction false} ScreensAsWrittenWithoutErrors(screens: seq<ResourcesReply>, i: nat, visited: seq<Output>, passes: nat)
    requires forall k :: i <= k < |screens| ==> screens[k].Resources?
    ensures ScreensAsWritten(screens, i, visited, passes) == Screens(screens, i, visited, passes)
    decreases passes
  {
    if passes > 0 && i < |screens| {
      ScreensAsWrittenWithoutErrors(screens, i + 1, visited + ScreenOutputs(screens[i]), passes - 1);
    }
  }

  /** The static state of xws.c: the atom last tried and the two atoms found at start-up. */
  class RandrBacklight {
    var backlight: Atom
    var backlightNew: Atom
    var backlightLegacy: Atom

    constructor ()
      ensures backlight == AtomNone && backlightNew == AtomNone && backlightLegacy == AtomNone
    {
      backlight := AtomNone;
      backlightNew := AtomNone;
      backlightLegacy := AtomNone;
    }

    /**
     * `xws_init`: demand RandR 1.2 or a later 1.x, then send intern requests
     * for both "Backlight" and "BACKLIGHT" (listed in `requested`). The reply
     * for "Backlight" is always awaited; the one for "BACKLIGHT" only when
     * "Backlight" is NONE. At least one of the two must exist.
     */
    method Init(version: VersionReply, intern: string -> InternReply) returns (r: Outcome<XFatal>, requested: seq<string>)
      modifies this`backlightNew, this`backlightLegacy
      ensures requested == if version.Version? && version.major == RequiredMajor && version.minor >= RequiredMinor
        then [NewPropertyName, LegacyPropertyName] else []
      ensures version.VersionFailed? ==> r == Fail(VersionQueryFailed)
      ensures version.Version? && (version.major != RequiredMajor || version.minor < RequiredMinor) ==> r == Fail(VersionTooOld)
      ensures r.Pass? <==>
        && version.Version? && version.major == RequiredMajor && version.minor >= RequiredMinor
        && intern(NewPropertyName).Interned?
        && (intern(NewPropertyName).atom != AtomNone
            || (intern(LegacyPropertyName).Interned? && intern(LegacyPropertyName).atom != AtomNone))
      ensures r.Pass? ==> backlightNew == intern(NewPropertyName).atom
      ensures r.Pass? ==> backlightLegacy == if backlightNew == AtomNone then intern(LegacyPropertyName).atom else old(backlightLegacy)
      ensures r.Pass? ==> backlightNew != AtomNone || backlightLegacy != AtomNone
    {
      requested := [];
      if version.VersionFailed? {
        return Fail(VersionQueryFailed), requested;
      }
      if version.major != RequiredMajor || version.minor < RequiredMinor {
        return Fail(VersionTooOld), requested;
      }
      requested := [NewPropertyName, LegacyPropertyName];
      var newReply := intern(NewPropertyName);
      var legacyReply := intern(LegacyPropertyName);
      if newReply.InternFailed? {
        return Fail(InternAtomFailed), requested;
      }
      backlightNew := newReply.atom;
      if backlightNew == AtomNone {
        if legacyReply.InternFailed? {
          return Fail(InternAtomFailed), requested;
        }
        backlightLegacy := legacyReply.atom;
        if backlightLegacy == AtomNone {
          return Fail(NoBacklightProperty), requested;
        }
      }
      r := Pass;
    }

    /** `xws_backlight_get`: leaves the atom it tried last in `backlight`. */
    method BacklightGet(output: Output, getProperty: (Output, Atom) -> PropertyReply) returns (value: int)
      modifies this`backlight
      ensures backlight == ReadBacklight(backlightNew, backlightLegacy, getProperty, output).atom
      ensures value == ReadBacklight(backlightNew, backlightLegacy, getProperty, output).value
    {
      backlight := backlightNew;
      var reply := getProperty(output, backlight);
      if reply.PropertyFailed? {
        backlight := backlightLegacy;
        if backlight != AtomNone {
          reply := getProperty(output, backlight);
          if reply.PropertyFailed? {
            return -1;
          }
        }
      }
      if reply.PropertyFailed? || reply.propType != AtomInteger || reply.numItems != 1 || reply.format != 32 {
        value := -1;
      } else {
        value := reply.data;
      }
    }

    /**
     * One pass of the output loop of `xws_backlight_set`: read the output's
     * level, ask for the range of its property, and when both are there write
     * `level` rescaled into the range; the rescaled value is the new level.
     */
    method SetOutput(output: Output, level: int,
                     getProperty: (Output, Atom) -> PropertyReply, queryProperty: (Output, Atom) -> QueryReply)
      returns (newLevel: int, written: Option<Write>)
      modifies this`backlight
      ensures var v := Visit(Server(backlightNew, backlightLegacy, getProperty, queryProperty),
                             FanState(level, old(backlight), []), output, true);
        && newLevel == v.value && backlight == v.atom
        && v.writes == if written.Some? then [written.value] else []
    {
      newLevel := level;
      written := None;
      var got := BacklightGet(output, getProperty);
      if got != -1 {
        var reply := queryProperty(output, backlight);
        if reply.Query? && reply.range && |reply.validValues| == 2 {
          var min := reply.validValues[0];
          var max := reply.validValues[1];
          newLevel := Rescale(level, min, max);
          written := Some(Write(output, backlight, newLevel));
        }
      }
    }

    /**
     * `xws_backlight_set`: visit every output of every screen and write the
     * rescaled level to each eligible one, carrying each rescaled value on as
     * the next output's level; 1 when something was written, else -1. A
     * screen whose resources are refused is skipped.
     */
    method BacklightSet(value: int, screens: seq<ResourcesReply>,
                        getProperty: (Output, Atom) -> PropertyReply, queryProperty: (Output, Atom) -> QueryReply)
      returns (success: int, writes: seq<Write>)
      modifies this`backlight
      ensures var st := FanOut(Server(backlightNew, backlightLegacy, getProperty, queryProperty),
                               AllOutputs(screens), FanState(value, old(backlight), []), true);
        writes == st.writes && backlight == st.atom
      ensures success == if writes == [] then -1 else 1
    {
      ghost var s := Server(backlightNew, backlightLegacy, getProperty, queryProperty);
      ghost var init := FanState(value, backlight, []);
      success := -1;
      writes := [];
      var level := value;
      var i := 0;
      while i < |screens|
        invariant 0 <= i <= |screens|
        invariant s == Server(backlightNew, backlightLegacy, getProperty, queryProperty)
        invariant FanOut(s, AllOutputs(screens[..i]), init, true) == FanState(level, backlight, writes)
        invariant success == if writes == [] then -1 else 1
      {
        AllOutputsSnoc(screens, i);
        FanOutAppend(s, AllOutputs(screens[..i]), ScreenOutputs(screens[i]), init, true);
        ghost var rest := FanOut(s, ScreenOutputs(screens[i]), FanState(level, backlight, []), true);
        assert FanOut(s, AllOutputs(screens[..i + 1]), init, true) == FanState(rest.value, rest.atom, writes + rest.writes);
        if screens[i].Resources? {
          var screenWrites;
          level, screenWrites := SetScreen(screens[i].outputs, level, getProperty, queryProperty);
          assert screenWrites == rest.writes;
          writes := writes + screenWrites;
          if screenWrites != [] {
            success := 1;
          }
        } else {
          assert rest.writes == [];
          assert writes + rest.writes == writes;
        }
        i := i + 1;
      }
      assert screens[..i] == screens;
    }

    /** The output loop of `xws_backlight_set` over one screen's outputs. */
    method SetScreen(outputs: seq<Output>, level: int,
                     getProperty: (Output, Atom) -> PropertyReply, queryProperty: (Output, Atom) -> QueryReply)
      returns (newLevel: int, writes: seq<Write>)
      modifies this`backlight
      ensures var st := FanOut(Server(backlightNew, backlightLegacy, getProperty, queryProperty),
                               outputs, FanState(level, old(backlight), []), true);
        newLevel == st.value && backlight == st.atom && writes == st.writes
    {
      ghost var s := Server(backlightNew, backlightLegacy, getProperty, queryProperty);
      ghost var init := FanState(level, backlight, []);
      newLevel := level;
      writes := [];
      var o := 0;
      while o < |outputs|
        invariant 0 <= o <= |outputs|
        invariant s == Server(backlightNew, backlightLegacy, getProperty, queryProperty)
        invariant FanOut(s, outputs[..o], init, true) == FanState(newLevel, backlight, writes)
      {
        FanOutSnoc(s, outputs, o, init, true);
        VisitAppends(s, FanState(newLevel, backlight, writes), outputs[o], true);
        var written;
        newLevel, written := SetOutput(outputs[o], newLevel, getProperty, queryProperty);
        if written.Some? {
          writes := writes + [written.value];
        }
        o := o + 1;
      }
      assert outputs[..o] == outputs;
    }
  }
}
