/** The clamped linear ramp that animates the counters and progress bars:
    every 2000/60 ms an interval callback computes
    `Math.min(increment * currentStep, target)` with `increment = target / 60`,
    and clears itself once `currentStep >= 60`.

    A live interval is a `Timer`: the display slot it writes and the steps it
    has taken. */
module Ramp {
  import JsMath

  /** `steps`. */
  const Steps: nat := 60

  /** The value written at step `step` (1-based; step 0 is the initial value). */
  function Value(target: real, step: nat): real {
    JsMath.Min(target / (Steps as real) * (step as real), target)
  }

  /** The same value through `Math.round`, as the counters show it. */
  function Display(target: real, step: nat): int {
    JsMath.Round(Value(target, step))
  }

  /** Before any step the ramp is at zero. */
  lemma ValueAtStart(target: real)
    requires target >= 0.0
    ensures Value(target, 0) == 0.0
  {
  }

  /** For a non-negative target the ramp stays within `[0, target]`. */
  lemma ValueBounds(target: real, step: nat)
    requires target >= 0.0
    ensures 0.0 <= Value(target, step) <= target
  {
    var inc := target / (Steps as real);
    assert inc >= 0.0;
    assert inc * (step as real) >= 0.0;
  }

  /** The ramp never goes down. */
  lemma ValueMonotone(target: real, j: nat, k: nat)
    requires target >= 0.0 && j <= k
    ensures Value(target, j) <= Value(target, k)
  {
    var inc := target / (Steps as real);
    assert inc * (k as real) - inc * (j as real) == inc * ((k - j) as real);
    assert inc * ((k - j) as real) >= 0.0;
  }

  /** From step 60 on the ramp is exactly the target: the clamp removes any overshoot. */
  lemma ValueFinal(target: real, step: nat)
    requires target >= 0.0 && step >= Steps
    ensures Value(target, step) == target
  {
    var inc := target / (Steps as real);
    assert inc * (Steps as real) == target;
    assert inc * (step as real) == target + inc * ((step - Steps) as real);
    assert inc * ((step - Steps) as real) >= 0.0;
  }

  /** A positive target is not reached before step 60. */
  lemma ValueBeforeFinal(target: real, step: nat)
    requires target > 0.0 && step < Steps
    ensures Value(target, step) < target
  {
    var inc := target / (Steps as real);
    assert inc > 0.0;
    assert inc * (Steps as real) == target;
    assert target - inc * (step as real) == inc * ((Steps - step) as real);
    assert inc * ((Steps - step) as real) > 0.0;
  }

  /** A rounded counter with a whole-number target stays within `[0, target]`. */
  lemma DisplayBounds(target: nat, step: nat)
    ensures 0 <= Display(target as real, step) <= target
  {
    ValueBounds(target as real, step);
    JsMath.RoundBetween(Value(target as real, step), 0, target);
  }

  /** A rounded counter never goes down. */
  lemma DisplayMonotone(target: real, j: nat, k: nat)
    requires target >= 0.0 && j <= k
    ensures Display(target, j) <= Display(target, k)
  {
    ValueMonotone(target, j, k);
    JsMath.RoundMonotone(Value(target, j), Value(target, k));
  }

  /** A rounded counter with a whole-number target ends exactly on it. */
  lemma DisplayFinal(target: nat, step: nat)
    requires step >= Steps
    ensures Display(target as real, step) == target
  {
    ValueFinal(target as real, step);
    JsMath.RoundOfInteger(target);
  }

  /** A live interval: the slot it writes and the steps taken so far. */
  datatype Timer = Timer(slot: nat, step: nat)

  /** Every live interval has steps left to take. */
  predicate Live(ts: seq<Timer>) {
    forall tm :: tm in ts ==> tm.step < Steps
  }

  /** The intervals the `forEach` over `n` items starts: one per slot, each at step 0. */
  function Launch(n: nat): (r: seq<Timer>)
    ensures |r| == n && Live(r)
    ensures forall i :: 0 <= i < n ==> r[i] == Timer(i, 0)
  {
    seq(n, i requires 0 <= i < n => Timer(i, 0))
  }

  /** The interval list after interval `t` fires: its step grows by one, and it is
      cleared (removed) once that step reaches 60. The other intervals are untouched. */
  function AfterFiring(ts: seq<Timer>, t: nat): (r: seq<Timer>)
    requires t < |ts|
    ensures ts[t].step + 1 >= Steps ==> r == ts[..t] + ts[t + 1..]
    ensures ts[t].step + 1 < Steps ==> r == ts[t := Timer(ts[t].slot, ts[t].step + 1)]
    ensures forall u :: u in r ==> u in ts || u == Timer(ts[t].slot, ts[t].step + 1)
    ensures Live(ts) ==> Live(r)
  {
    var tm := ts[t];
    assert forall u :: u in ts[..t] + ts[t + 1..] ==> u in ts;
    if tm.step + 1 >= Steps then ts[..t] + ts[t + 1..]
    else ts[t := Timer(tm.slot, tm.step + 1)]
  }

  /** The ticks one interval still has to run. */
  function TicksLeft(tm: Timer): nat {
    if tm.step < Steps then Steps - tm.step else 0
  }

  /** The ticks the live intervals still have to run. */
  function Remaining(ts: seq<Timer>): nat {
    if ts == [] then 0 else TicksLeft(ts[0]) + Remaining(ts[1..])
  }

  lemma {:induction false} RemainingAppend(a: seq<Timer>, b: seq<Timer>)
    ensures Remaining(a + b) == Remaining(a) + Remaining(b)
  {
    if a == [] {
      assert a + b == b;
    } else {
      assert (a + b)[1..] == a[1..] + b;
      RemainingAppend(a[1..], b);
    }
  }

  lemma RemainingSplit(ts: seq<Timer>, t: nat)
    requires t < |ts|
    ensures Remaining(ts) == Remaining(ts[..t]) + TicksLeft(ts[t]) + Remaining(ts[t + 1..])
  {
    var left, right := ts[..t], ts[t + 1..];
    assert ts == left + ([ts[t]] + right);
    RemainingAppend(left, [ts[t]] + right);
    assert ([ts[t]] + right)[1..] == right;
  }

  /** Every firing uses up exactly one remaining tick, so every interval stops after
      at most 60 firings, and all of them after `Remaining` firings in all. */
  lemma FiringUsesOneTick(ts: seq<Timer>, t: nat)
    requires t < |ts| && Live(ts)
    ensures Remaining(AfterFiring(ts, t)) == Remaining(ts) - 1
  {
    assert ts[t] in ts;
    RemainingSplit(ts, t);
    var r := AfterFiring(ts, t);
    if ts[t].step + 1 >= Steps {
      RemainingAppend(ts[..t], ts[t + 1..]);
    } else {
      assert r[..t] == ts[..t];
      assert r[t + 1..] == ts[t + 1..];
      RemainingSplit(r, t);
    }
  }

  /** Freshly launched intervals have 60 ticks each to run. */
  lemma {:induction false} LaunchRemaining(n: nat)
    ensures Remaining(Launch(n)) == n * Steps
  {
    if n > 0 {
      assert Launch(n) == Launch(n - 1) + [Timer(n - 1, 0)];
      LaunchRemaining(n - 1);
      RemainingAppend(Launch(n - 1), [Timer(n - 1, 0)]);
    }
  }
}
