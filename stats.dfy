/** The home page's animated counters: four statistics, each counting up from 0 to
    its value along the 60-step ramp once the section scrolls into view. */
module Stats {
  import JsMath
  import opened Ramp

  /** A statistic; `title` is the source's `label`, a reserved word in Dafny. */
  datatype Stat = Stat(title: string, value: nat, suffix: string)

  const All: seq<Stat> := [
    Stat("Students Enrolled", 15000, "+"),
    Stat("Courses Available", 750, "+"),
    Stat("Success Rate", 95, "%"),
    Stat("Expert Instructors", 200, "+")
  ]

  /** The value of counter `i`. */
  function Target(i: nat): nat
    requires i < |All|
  {
    All[i].value
  }

  class StatsPanel {
    /** `animatedValues`: what each counter shows. */
    var animatedValues: seq<int>
    /** The intervals started by the effect and not yet cleared. */
    var timers: seq<Timer>

    /** One shown value per statistic, each between 0 and its value; every live
        interval writes an existing counter and has steps left. */
    ghost predicate Valid()
      reads this
    {
      && |animatedValues| == |All|
      && (forall i :: 0 <= i < |All| ==> 0 <= animatedValues[i] <= Target(i))
      && (forall tm :: tm in timers ==> tm.slot < |All|)
      && Live(timers)
    }

    /** `useState(stats.map(() => 0))`: every counter at 0, nothing running. */
    constructor()
      ensures Valid()
      ensures animatedValues == [0, 0, 0, 0] && timers == []
    {
      animatedValues := [0, 0, 0, 0];
      timers := [];
    }

    /** The effect run when `isVisible` changes: when visible, one interval per
        statistic starts at step 0; when hidden, nothing starts. Intervals already
        running are not cleared (the effect returns no cleanup). */
    method OnVisibility(isVisible: bool)
      requires Valid()
      modifies this
      ensures Valid()
      ensures animatedValues == old(animatedValues)
      ensures timers == if isVisible then old(timers) + Launch(|All|) else old(timers)
    {
      if !isVisible {
        return;
      }
      var i := 0;
      while i < |All|
        invariant 0 <= i <= |All|
        invariant animatedValues == old(animatedValues)
        invariant timers == old(timers) + Launch(i)
        invariant Valid()
      {
        timers := timers + [Timer(i, 0)];
        i := i + 1;
        assert Launch(i) == Launch(i - 1) + [Timer(i - 1, 0)];
      }
    }

    /** Interval `t` fires: it takes a step, writes the rounded ramp value at that
        step into its counter, and clears itself if this was step 60. */
    method Tick(t: nat)
      requires Valid() && t < |timers|
      modifies this
      ensures Valid()
      ensures animatedValues == Written(old(animatedValues), old(timers[t]))
      ensures timers == AfterFiring(old(timers), t)
      ensures Remaining(timers) == Remaining(old(timers)) - 1
    {
      var tm := timers[t];
      assert tm in timers;
      DisplayBounds(Target(tm.slot), tm.step + 1);
      FiringUsesOneTick(timers, t);
      animatedValues := Written(animatedValues, tm);
      timers := AfterFiring(timers, t);
    }
  }

  /** The counters after interval `tm` fires: its counter shows the rounded ramp at
      its next step, and every other counter is unchanged. */
  function Written(vs: seq<int>, tm: Timer): (r: seq<int>)
    requires tm.slot < |vs| && tm.slot < |All|
    ensures |r| == |vs| && r[tm.slot] == Display(Target(tm.slot) as real, tm.step + 1)
    ensures forall s :: 0 <= s < |vs| && s != tm.slot ==> r[s] == vs[s]
  {
    vs[tm.slot := Display(Target(tm.slot) as real, tm.step + 1)]
  }

  /** No two of the intervals `ts` write the same counter. */
  predicate DistinctSlots(ts: seq<Timer>) {
    forall i, j :: 0 <= i < j < |ts| ==> ts[i].slot != ts[j].slot
  }

  /** What counter `s` shows while the intervals `ts` run undisturbed: the rounded
      ramp at the step of its interval, or its final value once that interval has
      been cleared. */
  function ShownBy(ts: seq<Timer>, s: nat): int
    requires s < |All|
  {
    if ts == [] then Target(s)
    else if ts[0].slot == s then Display(Target(s) as real, ts[0].step)
    else ShownBy(ts[1..], s)
  }

  /** All four counters as `ShownBy` has them. */
  function Shown(ts: seq<Timer>): (r: seq<int>)
    ensures |r| == |All|
    ensures forall s :: 0 <= s < |All| ==> r[s] == ShownBy(ts, s)
  {
    seq(|All|, s requires 0 <= s < |All| => ShownBy(ts, s))
  }

  /** The counters and intervals agree with an undisturbed run. */
  predicate Settles(ts: seq<Timer>, vs: seq<int>) {
    DistinctSlots(ts) && vs == Shown(ts)
  }

  /** With no interval left for a counter, it shows its final value. */
  lemma {:induction false} ShownWithoutInterval(ts: seq<Timer>, s: nat)
    requires s < |All| && forall tm :: tm in ts ==> tm.slot != s
    ensures ShownBy(ts, s) == Target(s)
  {
    if ts != [] {
      assert ts[0] in ts;
      assert forall tm :: tm in ts[1..] ==> tm in ts;
      ShownWithoutInterval(ts[1..], s);
    }
  }

  /** Changing another counter's interval does not change what a counter shows. */
  lemma {:induction false} ShownOtherUpdate(ts: seq<Timer>, t: nat, x: Timer, s: nat)
    requires s < |All| && t < |ts| && ts[t].slot != s && x.slot != s
    ensures ShownBy(ts[t := x], s) == ShownBy(ts, s)
  {
    if t == 0 {
      assert ts[t := x][1..] == ts[1..];
    } else {
      assert ts[t := x][1..] == ts[1..][t - 1 := x];
      ShownOtherUpdate(ts[1..], t - 1, x, s);
    }
  }

  /** A counter's own interval, wherever it sits, decides what it shows. */
  lemma {:induction false} ShownOwnUpdate(ts: seq<Timer>, t: nat, x: Timer)
    requires t < |ts| && DistinctSlots(ts) && ts[t].slot < |All| && x.slot == ts[t].slot
    ensures ShownBy(ts[t := x], x.slot) == Display(Target(x.slot) as real, x.step)
  {
    if t > 0 {
      assert ts[0].slot != ts[t].slot;
      assert ts[t := x][1..] == ts[1..][t - 1 := x];
      ShownOwnUpdate(ts[1..], t - 1, x);
    }
  }

  /** Removing another counter's interval does not change what a counter shows. */
  lemma {:induction false} ShownOtherRemove(ts: seq<Timer>, t: nat, s: nat)
    requires s < |All| && t < |ts| && ts[t].slot != s
    ensures ShownBy(ts[..t] + ts[t + 1..], s) == ShownBy(ts, s)
  {
    if t == 0 {
      assert ts[..t] + ts[t + 1..] == ts[1..];
    } else {
      assert (ts[..t] + ts[t + 1..])[0] == ts[0];
      assert (ts[..t] + ts[t + 1..])[1..] == ts[1..][..t - 1] + ts[1..][t..];
      ShownOtherRemove(ts[1..], t - 1, s);
    }
  }

  /** Removing a counter's only interval leaves it at its final value. */
  lemma ShownOwnRemove(ts: seq<Timer>, t: nat)
    requires t < |ts| && DistinctSlots(ts) && ts[t].slot < |All|
    ensures ShownBy(ts[..t] + ts[t + 1..], ts[t].slot) == Target(ts[t].slot)
  {
    var r := ts[..t] + ts[t + 1..];
    forall tm | tm in r ensures tm.slot != ts[t].slot {
      var k :| 0 <= k < |r| && r[k] == tm;
      if k < t {
        assert r[k] == ts[k];
      } else {
        assert r[k] == ts[k + 1];
      }
    }
    ShownWithoutInterval(r, ts[t].slot);
  }

  /** Freshly launched intervals show 0 on every counter. */
  lemma ShownAtLaunch()
    ensures Settles(Launch(|All|), [0, 0, 0, 0])
  {
    var ts := Launch(|All|);
    forall s | 0 <= s < |All| ensures ShownBy(ts, s) == 0 {
      ValueAtStart(Target(s) as real);
      JsMath.RoundOfInteger(0);
      ShownOwnUpdate(ts, s, ts[s]);
      assert ts[s := ts[s]] == ts;
    }
  }

  /** Once no interval is left, every counter shows its final value. */
  lemma ShownAtEnd()
    ensures forall s :: 0 <= s < |All| ==> Shown([])[s] == Target(s)
  {
  }

  /** Whichever way interval `t` fires, the counters keep agreeing with an
      undisturbed run. */
  lemma SettlesAfterFiring(ts: seq<Timer>, vs: seq<int>, t: nat)
    requires t < |ts| && ts[t].slot < |All| && Settles(ts, vs)
    ensures Settles(AfterFiring(ts, t), Written(vs, ts[t]))
  {
    var tm := ts[t];
    var r := AfterFiring(ts, t);
    var vs' := Written(vs, tm);
    if tm.step + 1 >= Steps {
      DisplayFinal(Target(tm.slot), tm.step + 1);
      forall s | 0 <= s < |All| ensures ShownBy(r, s) == vs'[s] {
        if s == tm.slot {
          ShownOwnRemove(ts, t);
        } else {
          ShownOtherRemove(ts, t, s);
        }
      }
      forall i, j | 0 <= i < j < |r| ensures r[i].slot != r[j].slot {
        var i0 := if i < t then i else i + 1;
        var j0 := if j < t then j else j + 1;
        assert r[i] == ts[i0] && r[j] == ts[j0];
      }
    } else {
      var x := Timer(tm.slot, tm.step + 1);
      forall s | 0 <= s < |All| ensures ShownBy(r, s) == vs'[s] {
        if s == tm.slot {
          ShownOwnUpdate(ts, t, x);
        } else {
          ShownOtherUpdate(ts, t, x, s);
        }
      }
    }
  }

  /** The counters as the page shows them on first appearing: once the section is
      visible and every interval has fired to completion, each counter shows exactly
      its statistic's value, and no interval is left running. */
  method AnimateFromZero(p: StatsPanel)
    requires p.Valid() && p.timers == [] && p.animatedValues == [0, 0, 0, 0]
    modifies p
    ensures p.Valid() && p.timers == []
    ensures forall i :: 0 <= i < |All| ==> p.animatedValues[i] == Target(i)
  {
    p.OnVisibility(true);
    assert p.timers == Launch(|All|);
    ShownAtLaunch();
    while p.timers != []
      invariant p.Valid() && Settles(p.timers, p.animatedValues)
      decreases Remaining(p.timers)
    {
      assert p.timers[0] in p.timers;
      SettlesAfterFiring(p.timers, p.animatedValues, 0);
      p.Tick(0);
    }
    ShownAtEnd();
  }
}
