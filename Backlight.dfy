/** The arithmetic of `PYOA_Graphics.backlight_fade` (lib/adafruit_pyoa.py): the target is
    clamped to [0, 1] and truncated to a whole percent, and the brightness is then written
    once per value of `range(from, to, delta)`, with `delta` being -1 when fading down and
    +1 otherwise, before the target itself is written. Brightness is kept in whole percent. */
module Backlight {

  /** Python's `max(0, min(1.0, x))`. */
  function Clamp(x: real): (c: real)
    ensures 0.0 <= c <= 1.0
    ensures 0.0 <= x <= 1.0 ==> c == x
    ensures x < 0.0 ==> c == 0.0
    ensures x > 1.0 ==> c == 1.0
  {
    if x < 1.0 then (if x > 0.0 then x else 0.0) else 1.0
  }

  /** `int(max(0, min(1.0, toLight)) * 100)`: the target brightness in whole percent. */
  function TargetPercent(toLight: real): (p: int)
    ensures 0 <= p <= 100
    ensures p as real <= Clamp(toLight) * 100.0 < p as real + 1.0
    ensures toLight >= 1.0 ==> p == 100
    ensures toLight <= 0.0 ==> p == 0
  {
    (Clamp(toLight) * 100.0).Floor
  }

  /** The step of the fade loop: down when the start is above the target, up otherwise. */
  function Delta(from: int, to: int): int {
    if from > to then -1 else 1
  }

  /** Python's `range(from, to, Delta(from, to))`: the brightness values written before
      the final one. */
  function FadeSteps(from: int, to: int): (steps: seq<int>)
    ensures |steps| == (if from > to then from - to else to - from)
    ensures from == to ==> steps == []
    ensures steps != [] ==> steps[0] == from && steps[|steps| - 1] + Delta(from, to) == to
    ensures forall i :: 0 <= i < |steps| ==> steps[i] != to
    ensures forall i :: 0 < i < |steps| ==> steps[i] == steps[i - 1] + Delta(from, to)
  {
    var n := if from > to then from - to else to - from;
    seq(n, i => from + Delta(from, to) * i)
  }

  /** Every brightness value a fade writes: the steps, then the target itself. */
  function FadeTrace(from: int, to: int): (t: seq<int>)
    ensures |t| == (if from > to then from - to else to - from) + 1
    ensures t[0] == from && t[|t| - 1] == to
  {
    FadeSteps(from, to) + [to]
  }

  /** A fade ends exactly at its target, moves strictly toward it at every write, and
      never leaves the interval between its start and its target. */
  lemma FadeIsMonotone(from: int, to: int)
    ensures var t := FadeTrace(from, to);
      && t[|t| - 1] == to
      && (from <= to ==> forall i, j :: 0 <= i < j < |t| ==> t[i] < t[j])
      && (from >= to ==> forall i, j :: 0 <= i < j < |t| ==> t[i] > t[j])
      && (forall i :: 0 <= i < |t| ==> (from <= t[i] <= to || to <= t[i] <= from))
  {
    var t := FadeTrace(from, to);
    var s := FadeSteps(from, to);
    assert forall i :: 0 <= i < |s| ==> s[i] == from + Delta(from, to) * i;
    assert forall i :: 0 <= i < |t| ==> t[i] == from + Delta(from, to) * i;
  }
}
