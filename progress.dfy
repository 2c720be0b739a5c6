/** The learning-progress dashboard: four progress bars and four counters that ramp
    up once the bars scroll into view, and a monthly study-hours chart whose bars
    are scaled against the busiest month. */
module Progress {
  import JsMath
  import opened Ramp

  /** A progress bar: `value` out of `maxValue`; `title` is the source's `label`. */
  datatype Goal = Goal(title: string, value: nat, maxValue: nat)

  /** A counter on the stats grid; `title` is the source's `label`. */
  datatype Counter = Counter(title: string, value: nat, suffix: string)

  /** A month of the study-hours chart. */
  datatype Month = Month(month: string, courses: nat, hours: nat)

  const Goals: seq<Goal> := [
    Goal("Courses Completed", 8, 12),
    Goal("Hours Studied", 156, 200),
    Goal("Assignments Done", 24, 30),
    Goal("Certificates Earned", 3, 5)
  ]

  const Counters: seq<Counter> := [
    Counter("Active Courses", 4, ""),
    Counter("Study Streak", 15, " days"),
    Counter("Goals Achieved", 7, "/10"),
    Counter("Skill Level", 85, "%")
  ]

  const Chart: seq<Month> := [
    Month("Jan", 2, 40), Month("Feb", 3, 55), Month("Mar", 1, 25),
    Month("Apr", 4, 70), Month("May", 2, 45), Month("Jun", 3, 60)
  ]

  /** `(value / maxValue) * 100`: the percentage a bar ramps up to. It is never
      negative, and it is at most 100 exactly when the goal is not exceeded. */
  function BarTarget(g: Goal): (r: real)
    requires g.maxValue > 0
    ensures r >= 0.0
    ensures r <= 100.0 <==> g.value <= g.maxValue
    ensures r == 100.0 <==> g.value == g.maxValue
  {
    (g.value as real) / (g.maxValue as real) * 100.0
  }

  /** Every seed goal has a positive maximum and is within it, so every bar
      target lies in `[0, 100]`. */
  lemma SeedGoalsWithin()
    ensures forall i :: 0 <= i < |Goals| ==>
      Goals[i].maxValue > 0 && 0.0 <= BarTarget(Goals[i]) <= 100.0
  {
  }

  /** The seed bar targets, percent by percent. */
  lemma SeedBarTargets()
    ensures BarTarget(Goals[0]) == 200.0 / 3.0
    ensures BarTarget(Goals[1]) == 78.0
    ensures BarTarget(Goals[2]) == 80.0
    ensures BarTarget(Goals[3]) == 60.0
  {
  }

  /** The target of bar `i`. */
  function GoalTarget(i: nat): (r: real)
    requires i < |Goals|
    ensures 0.0 <= r <= 100.0
  {
    SeedGoalsWithin();
    BarTarget(Goals[i])
  }

  /** `Math.max(...hours)` of a non-empty list of hours: one of them, and no
      smaller than any. */
  function MaxHours(hs: seq<nat>): (r: nat)
    requires |hs| > 0
    ensures r in hs
    ensures forall h :: h in hs ==> h <= r
  {
    if |hs| == 1 then hs[0]
    else
      var rest := MaxHours(hs[1..]);
      assert forall h :: h in hs ==> h == hs[0] || h in hs[1..];
      if hs[0] >= rest then hs[0] else rest
  }

  /** The chart's hours, month by month. */
  function Hours(ms: seq<Month>): (r: seq<nat>)
    ensures |r| == |ms|
    ensures forall i :: 0 <= i < |ms| ==> r[i] == ms[i].hours
  {
    seq(|ms|, i requires 0 <= i < |ms| => ms[i].hours)
  }

  /** The width of a chart bar, in percent: `hours / maxHours * 100` once visible,
      0 before. */
  function ChartWidth(hours: nat, maxHours: nat, isVisible: bool): real
    requires maxHours > 0
  {
    if isVisible then (hours as real) / (maxHours as real) * 100.0 else 0.0
  }

  /** A visible bar of `hours` against a maximum not below it is between 0 and 100
      percent wide, and exactly 100 when it is the maximum. */
  lemma WidthWithin(hours: nat, maxHours: nat)
    requires 0 < maxHours && hours <= maxHours
    ensures 0.0 <= ChartWidth(hours, maxHours, true) <= 100.0
    ensures ChartWidth(hours, maxHours, true) == 100.0 <==> hours == maxHours
  {
    var q := (hours as real) / (maxHours as real);
    assert q * (maxHours as real) == hours as real;
    assert q <= 1.0 by {
      if q > 1.0 {
        assert q * (maxHours as real) > maxHours as real;
      }
    }
    assert q == 1.0 <==> hours == maxHours;
  }

  /** Every chart bar is between 0 and 100 percent wide; once visible, a bar is
      exactly 100 percent wide if and only if its month is a busiest month, and
      some month is. */
  lemma ChartWidthsWithin(hs: seq<nat>, isVisible: bool)
    requires |hs| > 0 && MaxHours(hs) > 0
    ensures forall i :: 0 <= i < |hs| ==>
      0.0 <= ChartWidth(hs[i], MaxHours(hs), isVisible) <= 100.0
    ensures isVisible ==> forall i :: 0 <= i < |hs| ==>
      (ChartWidth(hs[i], MaxHours(hs), isVisible) == 100.0 <==> hs[i] == MaxHours(hs))
    ensures isVisible ==>
      exists i :: 0 <= i < |hs| && ChartWidth(hs[i], MaxHours(hs), isVisible) == 100.0
  {
    var m := MaxHours(hs);
    forall i | 0 <= i < |hs|
      ensures 0.0 <= ChartWidth(hs[i], m, isVisible) <= 100.0
      ensures isVisible ==> (ChartWidth(hs[i], m, isVisible) == 100.0 <==> hs[i] == m)
    {
      assert hs[i] in hs;
      WidthWithin(hs[i], m);
    }
    if isVisible {
      var k :| 0 <= k < |hs| && hs[k] == m;
      WidthWithin(hs[k], m);
    }
  }

  /** In the seed chart April is the busiest month (70 hours): its bar is the full
      width, and March's (25 hours) is 25/70 of it. */
  lemma SeedChart()
    ensures MaxHours(Hours(Chart)) == 70
    ensures ChartWidth(Chart[3].hours, 70, true) == 100.0
    ensures ChartWidth(Chart[2].hours, 70, true) == 2500.0 / 70.0
  {
    var hs := Hours(Chart);
    assert hs == [40, 55, 25, 70, 45, 60];
    assert 70 in hs;
  }

  class Dashboard {
    /** `animatedProgress`: each bar's width in percent, unrounded. */
    var animatedProgress: seq<real>
    /** `currentStats`: each counter's shown value. */
    var currentStats: seq<int>
    /** The live bar intervals. */
    var barTimers: seq<Timer>
    /** The live counter intervals. */
    var statTimers: seq<Timer>

    /** Every bar between 0 and its target (so within `[0, 100]`), every counter
        between 0 and its value, and every live interval on an existing slot with
        steps left. */
    ghost predicate Valid()
      reads this
    {
      && |animatedProgress| == |Goals| && |currentStats| == |Counters|
      && (forall i :: 0 <= i < |Goals| ==> 0.0 <= animatedProgress[i] <= GoalTarget(i))
      && (forall i :: 0 <= i < |Counters| ==> 0 <= currentStats[i] <= Counters[i].value)
      && (forall tm :: tm in barTimers ==> tm.slot < |Goals|)
      && (forall tm :: tm in statTimers ==> tm.slot < |Counters|)
      && Live(barTimers) && Live(statTimers)
    }

    /** Both state arrays start at `[0, 0, 0, 0]`; nothing runs. */
    constructor()
      ensures Valid()
      ensures animatedProgress == [0.0, 0.0, 0.0, 0.0] && currentStats == [0, 0, 0, 0]
      ensures barTimers == [] && statTimers == []
    {
      animatedProgress := [0.0, 0.0, 0.0, 0.0];
      currentStats := [0, 0, 0, 0];
      barTimers := [];
      statTimers := [];
    }

    /** The effect run when `isVisible` changes: when visible, one bar interval per
        goal, then one counter interval per counter, all at step 0; when hidden,
        nothing starts and nothing changes. No interval is cleared. */
    method OnVisibility(isVisible: bool)
      requires Valid()
      modifies this
      ensures Valid()
      ensures animatedProgress == old(animatedProgress) && currentStats == old(currentStats)
      ensures barTimers == if isVisible then old(barTimers) + Launch(|Goals|) else old(barTimers)
      ensures statTimers == if isVisible then old(statTimers) + Launch(|Counters|) else old(statTimers)
    {
      if !isVisible {
        return;
      }
      var i := 0;
      while i < |Goals|
        invariant 0 <= i <= |Goals|
        invariant animatedProgress == old(animatedProgress) && currentStats == old(currentStats)
        invariant barTimers == old(barTimers) + Launch(i)
        invariant statTimers == old(statTimers)
        invariant Valid()
      {
        barTimers := barTimers + [Timer(i, 0)];
        i := i + 1;
        assert Launch(i) == Launch(i - 1) + [Timer(i - 1, 0)];
      }
      var j := 0;
      while j < |Counters|
        invariant 0 <= j <= |Counters|
        invariant animatedProgress == old(animatedProgress) && currentStats == old(currentStats)
        invariant barTimers == old(barTimers) + Launch(|Goals|)
        invariant statTimers == old(statTimers) + Launch(j)
        invariant Valid()
      {
        statTimers := statTimers + [Timer(j, 0)];
        j := j + 1;
        assert Launch(j) == Launch(j - 1) + [Timer(j - 1, 0)];
      }
    }

    /** Bar interval `t` fires: only that bar's slot changes, to the (unrounded)
        ramp value at the next step; the interval clears itself after step 60. */
    method BarTick(t: nat)
      requires Valid() && t < |barTimers|
      modifies this
      ensures Valid()
      ensures var tm := old(barTimers[t]);
        animatedProgress == old(animatedProgress)[tm.slot := Value(GoalTarget(tm.slot), tm.step + 1)]
      ensures currentStats == old(currentStats) && statTimers == old(statTimers)
      ensures barTimers == AfterFiring(old(barTimers), t)
    {
      var tm := barTimers[t];
      assert tm in barTimers;
      ValueBounds(GoalTarget(tm.slot), tm.step + 1);
      animatedProgress := animatedProgress[tm.slot := Value(GoalTarget(tm.slot), tm.step + 1)];
      barTimers := AfterFiring(barTimers, t);
    }

    /** Counter interval `t` fires: only that counter's slot changes, to the rounded
        ramp value at the next step; the interval clears itself after step 60. */
    method StatTick(t: nat)
      requires Valid() && t < |statTimers|
      modifies this
      ensures Valid()
      ensures var tm := old(statTimers[t]);
        currentStats == old(currentStats)[tm.slot := Display(Counters[tm.slot].value as real, tm.step + 1)]
      ensures animatedProgress == old(animatedProgress) && barTimers == old(barTimers)
      ensures statTimers == AfterFiring(old(statTimers), t)
    {
      var tm := statTimers[t];
      assert tm in statTimers;
      DisplayBounds(Counters[tm.slot].value, tm.step + 1);
      currentStats := currentStats[tm.slot := Display(Counters[tm.slot].value as real, tm.step + 1)];
      statTimers := AfterFiring(statTimers, t);
    }

    /** The percentage printed under bar `i`: `Math.round(animatedProgress[i])`,
        always within `[0, 100]` and never past the rounded target. */
    function ShownPercent(i: nat): (r: int)
      reads this
      requires Valid() && i < |Goals|
      ensures 0 <= r <= JsMath.Round(GoalTarget(i)) <= 100
    {
      JsMath.RoundBetween(animatedProgress[i], 0, 100);
      JsMath.RoundMonotone(animatedProgress[i], GoalTarget(i));
      JsMath.RoundMonotone(0.0, animatedProgress[i]);
      JsMath.RoundOfInteger(0);
      JsMath.RoundMonotone(GoalTarget(i), 100.0);
      JsMath.RoundOfInteger(100);
      JsMath.Round(animatedProgress[i])
    }
  }

  /** While the dashboard is out of view nothing animates: any number of effect
      runs with `isVisible == false` start no interval and change no value. */
  method HiddenStaysStill(d: Dashboard, runs: nat)
    requires d.Valid()
    modifies d
    ensures d.Valid()
    ensures d.animatedProgress == old(d.animatedProgress) && d.currentStats == old(d.currentStats)
    ensures d.barTimers == old(d.barTimers) && d.statTimers == old(d.statTimers)
  {
    var k := 0;
    while k < runs
      invariant d.Valid()
      invariant d.animatedProgress == old(d.animatedProgress) && d.currentStats == old(d.currentStats)
      invariant d.barTimers == old(d.barTimers) && d.statTimers == old(d.statTimers)
    {
      d.OnVisibility(false);
      k := k + 1;
    }
  }
}
