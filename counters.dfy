/** The count-up displays of script.js: the stepped stats counter
    (`animateStatCounter`, and `animateScore`, which steps the same way), its
    M+/K+/bare number format, the cubic ease-out, and one frame of the eased
    count-up `animateNumber`. One timer tick or one animation frame is one call.
    Values are exact reals. */
module Counters {
  import opened Decimal
  import opened Reals

  // ---------------------------------------------------------------------------
  // The stepped stats counter
  // ---------------------------------------------------------------------------

  /** `target / 50`: the counter runs in 50 steps. */
  function Increment(target: nat): real {
    target as real / 50.0
  }

  /** The counter's value after k ticks: k steps, clamped at the target. */
  function ValueAfter(target: nat, k: nat): (v: real)
    ensures 0.0 <= v <= target as real
  {
    MinReal(k as real * Increment(target), target as real)
  }

  /** Whether the timer has been cleared after k ticks: on the first tick
      whose sum reaches the target. */
  predicate Finished(target: nat, k: nat) {
    k >= 1 && k as real * Increment(target) >= target as real
  }

  /** A positive target is reached on tick 50 and not before; the value
      never exceeds the target and never goes down. */
  lemma StopsAtTickFifty(target: nat, k: nat)
    requires target > 0
    ensures Finished(target, k) <==> k >= 50
    ensures ValueAfter(target, k) <= ValueAfter(target, k + 1)
    ensures k >= 50 ==> ValueAfter(target, k) == target as real
  {
    var inc := Increment(target);
    assert inc > 0.0;
    assert 50.0 * inc == target as real;
    if k < 50 {
      assert k as real <= 49.0;
      assert k as real * inc <= 49.0 * inc;
    } else {
      assert k as real * inc >= 50.0 * inc;
    }
    assert (k + 1) as real * inc == k as real * inc + inc;
  }

  /** How one tick moves a running counter from ValueAfter(k) to
      ValueAfter(k + 1). */
  lemma NextStep(target: nat, k: nat)
    requires !Finished(target, k)
    ensures ValueAfter(target, k) == k as real * Increment(target)
    ensures Finished(target, k + 1) <==> ValueAfter(target, k) + Increment(target) >= target as real
    ensures !Finished(target, k + 1) ==> ValueAfter(target, k + 1) == ValueAfter(target, k) + Increment(target)
    ensures Finished(target, k + 1) ==> ValueAfter(target, k + 1) == target as real
  {
    var inc := Increment(target);
    assert (k + 1) as real * inc == k as real * inc + inc;
    assert inc >= 0.0;
    assert k as real * inc >= 0.0;
  }

  /** A zero target stops on the first tick. */
  lemma ZeroTargetStopsAtOnce()
    ensures Finished(0, 1) && ValueAfter(0, 1) == 0.0
  {
  }

  /** `x.toFixed(1)` for x >= 0, computed on the exact value: the number of
      tenths nearest to x (halves rounded up). */
  function Tenths(x: real): (t: nat)
    requires x >= 0.0
    ensures t as real / 10.0 - 0.05 <= x < t as real / 10.0 + 0.05
  {
    (x * 10.0 + 0.5).Floor
  }

  function ToFixed1(x: real): string
    requires x >= 0.0
  {
    var t := Tenths(x);
    NatToString(t / 10) + "." + [DigitChar(t % 10)]
  }

  /** The text the stats counter writes: millions to one decimal with "M+"
      for targets from one million up, whole thousands with "K+" for targets
      from one thousand up, the whole number otherwise. The branch is chosen
      by the target, not by the value being shown. */
  function FormatStat(target: nat, current: real): string
    requires current >= 0.0
  {
    if target >= 1000000 then ToFixed1(current / 1000000.0) + "M+"
    else if target >= 1000 then NatToString((current / 1000.0).Floor) + "K+"
    else NatToString(current.Floor)
  }

  /** The shape of the text, and the number it shows: within 0.05 million of
      the value, the whole thousands of the value, or its whole part. */
  lemma FormatStatShape(target: nat, current: real)
    requires current >= 0.0
    ensures var s := FormatStat(target, current);
      |s| >= 1 &&
      (s[|s| - 1] == '+' <==> target >= 1000) &&
      (target >= 1000 ==> |s| >= 2 && (s[|s| - 2] == 'M' <==> target >= 1000000)) &&
      (target < 1000 ==> AllDigits(s) && DigitsValue(s) == current.Floor)
    ensures target >= 1000000 ==>
      var t := Tenths(current / 1000000.0);
      t as real / 10.0 - 0.05 <= current / 1000000.0 < t as real / 10.0 + 0.05 &&
      FormatStat(target, current) == NatToString(t / 10) + "." + [DigitChar(t % 10)] + "M+"
    ensures 1000 <= target < 1000000 ==>
      var k := (current / 1000.0).Floor;
      k as real * 1000.0 <= current < (k + 1) as real * 1000.0 &&
      FormatStat(target, current) == NatToString(k) + "K+"
  {
    if target < 1000 {
      ValueOfNatToString(current.Floor);
    }
  }

  /** The texts the three stats end on (targets 2000000, 1000 and 9), the
      first tick of the million counter (40000 is shown as "0.0M+", not in
      thousands), the examples 999, 1500 and 2149000, and the score counter's
      final 87. */
  lemma StatTexts()
    ensures FormatStat(2000000, 2000000.0) == "2.0M+"
    ensures FormatStat(1000, 1000.0) == "1K+"
    ensures FormatStat(9, 9.0) == "9"
    ensures FormatStat(2000000, ValueAfter(2000000, 1)) == "0.0M+"
    ensures FormatStat(999, 999.0) == "999"
    ensures FormatStat(1500, 1500.0) == "1K+"
    ensures FormatStat(2149000, 2149000.0) == "2.1M+"
    ensures FormatStat(87, 87.0) == "87"
  {
    assert Tenths(2.0) == 20;
    assert NatToString(99) == NatToString(9) + [DigitChar(9)];
    assert NatToString(999) == NatToString(99) + [DigitChar(9)];
    assert NatToString(87) == NatToString(8) + [DigitChar(7)];
    assert Tenths(2.149) == 21;
    assert ValueAfter(2000000, 1) == 40000.0;
    assert Tenths(0.04) == 0;
  }

  /** One stats counter (`animateStatCounter(element, target)`); the score
      counter `animateScore` is the same with target 87. */
  class StatCounter {
    const target: nat
    /** The accumulator `current`. */
    var current: real
    /** Whether the interval timer is still set. */
    var running: bool
    /** The element's text. */
    var text: string
    /** The number of ticks so far. */
    ghost var ticks: nat

    ghost predicate Valid()
      reads this
    {
      current == ValueAfter(target, ticks) &&
      running == !Finished(target, ticks) &&
      (ticks >= 1 ==> text == FormatStat(target, current))
    }

    constructor (target: nat, text: string)
      ensures Valid() && this.target == target && this.text == text
      ensures ticks == 0 && current == 0.0 && running
    {
      this.target := target;
      current := 0.0;
      running := true;
      this.text := text;
      ticks := 0;
    }

    /** One interval tick: add the step, clamp and stop at the target, then
        write the formatted value. */
    method Tick()
      requires Valid() && running
      modifies this
      ensures Valid()
      ensures ticks == old(ticks) + 1
      ensures current == ValueAfter(target, ticks) && current <= target as real
      ensures text == FormatStat(target, current)
    {
      NextStep(target, ticks);
      current := current + Increment(target);
      if current >= target as real {
        current := target as real;
        running := false;
      }
      text := FormatStat(target, current);
      ticks := ticks + 1;
    }
  }

  // ---------------------------------------------------------------------------
  // Eased count-up
  // ---------------------------------------------------------------------------

  /** `easeOutCubic(t) = 1 - (1 - t)^3`. */
  function Ease(t: real): real {
    1.0 - (1.0 - t) * (1.0 - t) * (1.0 - t)
  }

  /** The curve starts at 0, ends at 1, and rises in between. */
  lemma EaseShape(s: real, t: real)
    requires 0.0 <= s <= t <= 1.0
    ensures Ease(0.0) == 0.0 && Ease(1.0) == 1.0
    ensures 0.0 <= Ease(s) <= Ease(t) <= 1.0
  {
    var a, b := 1.0 - s, 1.0 - t;
    assert a >= b >= 0.0;
    assert a * a >= b * b by {
      assert a * a - b * b == (a - b) * (a + b);
    }
    assert a * a * a >= b * b * a;
    assert b * b * a >= b * b * b;
    assert a * a * a <= 1.0 by {
      assert a * a <= 1.0 * a;
    }
  }

  /** What one animation frame shows, and whether it asks for another. */
  datatype Frame = Frame(display: int, again: bool)

  /** One frame of `animateNumber(element, from, to, duration)`, `elapsed`
      milliseconds after the start time: the progress is capped at 1 (and only
      there), eased, and the eased value floored. */
  function AnimateFrame(from: int, to: int, duration: real, elapsed: real): Frame
    requires duration > 0.0
  {
    var progress := MinReal(elapsed / duration, 1.0);
    Frame((from as real + (to - from) as real * Ease(progress)).Floor, progress < 1.0)
  }

  /** Once the duration has passed the frame shows exactly `to` and asks for
      no further frame; before that it always asks for another. */
  lemma FrameAtEnd(from: int, to: int, duration: real, elapsed: real)
    requires duration > 0.0
    ensures elapsed >= duration <==> AnimateFrame(from, to, duration, elapsed) == Frame(to, false)
    ensures elapsed < duration ==> AnimateFrame(from, to, duration, elapsed).again
  {
    var p := elapsed / duration;
    assert p * duration == elapsed;
    if elapsed >= duration {
      assert p >= 1.0;
    } else {
      assert p < 1.0;
    }
  }

  lemma FloorBetween(lo: int, x: real, hi: int)
    requires lo as real <= x <= hi as real
    ensures lo <= x.Floor <= hi
  {
  }

  lemma ScaledBetween(from: int, to: int, e: real)
    requires 0.0 <= e <= 1.0
    ensures var v := from as real + (to - from) as real * e;
      (if from <= to then from else to) as real <= v <= (if from <= to then to else from) as real
  {
    var d := (to - from) as real;
    if d >= 0.0 {
      assert 0.0 <= d * e <= d * 1.0;
    } else {
      assert d * 1.0 <= d * e <= 0.0;
    }
  }

  /** From the start time on, every frame shows a value between `from` and
      `to`. */
  lemma FrameWithinRange(from: int, to: int, duration: real, elapsed: real)
    requires duration > 0.0 && elapsed >= 0.0
    ensures var f := AnimateFrame(from, to, duration, elapsed);
      (if from <= to then from else to) <= f.display <= (if from <= to then to else from)
  {
    var p := MinReal(elapsed / duration, 1.0);
    assert p >= 0.0;
    EaseShape(p, 1.0);
    ScaledBetween(from, to, Ease(p));
    FloorBetween(if from <= to then from else to, from as real + (to - from) as real * Ease(p),
                 if from <= to then to else from);
  }

  /** The progress has no lower cap: a frame stamped 2 ms before the start
      time, counting 34 up to 82 over 500 ms, shows 33, below the start. */
  lemma FrameBeforeStart()
    ensures AnimateFrame(34, 82, 500.0, -2.0) == Frame(33, true)
  {
    assert -2.0 / 500.0 == -0.004;
    assert Ease(-0.004) == 1.0 - 1.004 * 1.004 * 1.004;
  }

  /** The frame with the progress clamped to [0, 1] on both sides. */
  function AnimateFrameClamped(from: int, to: int, duration: real, elapsed: real): Frame
    requires duration > 0.0
  {
    var progress := MaxReal(0.0, MinReal(elapsed / duration, 1.0));
    Frame((from as real + (to - from) as real * Ease(progress)).Floor, progress < 1.0)
  }

  /** Clamped, every frame stays between `from` and `to`, whatever its time
      stamp. */
  lemma ClampedFrameWithinRange(from: int, to: int, duration: real, elapsed: real)
    requires duration > 0.0
    ensures var f := AnimateFrameClamped(from, to, duration, elapsed);
      (if from <= to then from else to) <= f.display <= (if from <= to then to else from)
  {
    var p := MaxReal(0.0, MinReal(elapsed / duration, 1.0));
    var lo, hi := if from <= to then from else to, if from <= to then to else from;
    EaseShape(p, 1.0);
    ScaledBetween(from, to, Ease(p));
    FloorBetween(lo, from as real + (to - from) as real * Ease(p), hi);
  }

  /** From the start time on, the clamped frame is the frame as written; so
      it still ends on `to`. */
  lemma ClampedFrameAgrees(from: int, to: int, duration: real, elapsed: real)
    requires duration > 0.0
    ensures elapsed >= 0.0 ==> AnimateFrameClamped(from, to, duration, elapsed) == AnimateFrame(from, to, duration, elapsed)
    ensures elapsed >= duration ==> AnimateFrameClamped(from, to, duration, elapsed) == Frame(to, false)
  {
    if elapsed >= 0.0 {
      assert elapsed / duration >= 0.0;
      assert MaxReal(0.0, MinReal(elapsed / duration, 1.0)) == MinReal(elapsed / duration, 1.0);
    }
    FrameAtEnd(from, to, duration, elapsed);
  }
}
