/** The splash screen shown while the site loads: a progress bar that grows by 2
    percent every 60 ms until it is full, and a status line that rotates through
    four messages every 750 ms. */
module Loader {
  import Cycle

  const Messages: seq<string> := [
    "Loading courses...",
    "Preparing content...",
    "Initializing features...",
    "Almost ready..."
  ]

  /** The progress updater: full stays full, anything below grows by 2. */
  function NextProgress(prev: int): (r: int)
    ensures prev >= 100 ==> r == 100
    ensures prev < 100 ==> r == prev + 2
  {
    if prev >= 100 then 100 else prev + 2
  }

  /** The progress after `k` intervals from the initial 0. */
  function ProgressAfter(k: nat): int {
    if k == 0 then 0 else NextProgress(ProgressAfter(k - 1))
  }

  /** After `k` intervals the bar is at `min(2k, 100)`. */
  lemma {:induction false} ProgressClosedForm(k: nat)
    ensures ProgressAfter(k) == if 2 * k <= 100 then 2 * k else 100
  {
    if k > 0 {
      ProgressClosedForm(k - 1);
    }
  }

  /** From 0 the bar is always an even percentage within `[0, 100]`. */
  lemma ProgressEvenWithin(k: nat)
    ensures 0 <= ProgressAfter(k) <= 100 && ProgressAfter(k) % 2 == 0
  {
    ProgressClosedForm(k);
  }

  /** The bar never shrinks. */
  lemma ProgressMonotone(j: nat, k: nat)
    requires j <= k
    ensures ProgressAfter(j) <= ProgressAfter(k)
  {
    ProgressClosedForm(j);
    ProgressClosedForm(k);
  }

  /** The bar is full after exactly 50 intervals: not before, and from then on. */
  lemma FullExactlyFrom50(k: nat)
    ensures ProgressAfter(k) == 100 <==> k >= 50
  {
    ProgressClosedForm(k);
  }

  /** Every value the bar can take from 0 is kept even and within `[0, 100]` by one
      more interval; 100 is the only fixed point among them. */
  lemma NextKeepsEvenWithin(p: int)
    requires 0 <= p <= 100 && p % 2 == 0
    ensures 0 <= NextProgress(p) <= 100 && NextProgress(p) % 2 == 0
    ensures NextProgress(p) == p <==> p == 100
  {
  }

  class LoaderScreen {
    /** `progress`: the bar's width in percent. */
    var progress: int
    /** `currentStat`: which message is shown. */
    var currentStat: nat
    /** How many progress intervals have fired. */
    ghost var progressTicks: nat

    /** The bar is where that many intervals put it, and the message index selects
        one of the four messages. */
    ghost predicate Valid()
      reads this
    {
      progress == ProgressAfter(progressTicks) && currentStat < |Messages|
    }

    /** Both states start at 0. */
    constructor()
      ensures Valid()
      ensures progress == 0 && currentStat == 0 && progressTicks == 0
    {
      progress := 0;
      currentStat := 0;
      progressTicks := 0;
    }

    /** The 60 ms interval: `prev >= 100 ? 100 : prev + 2`. The bar stays even,
        within `[0, 100]`, and does not shrink. */
    method ProgressTick()
      requires Valid()
      modifies this
      ensures Valid()
      ensures progress == NextProgress(old(progress))
      ensures progressTicks == old(progressTicks) + 1 && currentStat == old(currentStat)
      ensures 0 <= progress <= 100 && progress % 2 == 0 && old(progress) <= progress
    {
      ProgressMonotone(progressTicks, progressTicks + 1);
      progress := NextProgress(progress);
      progressTicks := progressTicks + 1;
      ProgressEvenWithin(progressTicks);
    }

    /** The 750 ms interval: `(prev + 1) % stats.length`. */
    method StatusTick()
      requires Valid()
      modifies this
      ensures Valid()
      ensures currentStat == (old(currentStat) + 1) % |Messages|
      ensures progress == old(progress) && progressTicks == old(progressTicks)
    {
      currentStat := Cycle.Succ(currentStat, |Messages|);
    }

    /** `stats[currentStat]`: always one of the four messages. */
    function StatusText(): (r: string)
      reads this
      requires Valid()
      ensures r in Messages
    {
      Messages[currentStat]
    }
  }

  /** Four status intervals bring the message back to where it was. */
  lemma StatusReturnsAfterFour(i: nat)
    requires i < |Messages|
    ensures Cycle.Advance(i, |Messages|, 4) == i
  {
    Cycle.FullTurn(i, |Messages|);
  }

  /** A freshly mounted loader is full after 50 progress intervals, and stays full
      however many more fire. */
  method FillFromStart(extra: nat) returns (l: LoaderScreen)
    ensures l.Valid() && l.progress == 100 && l.progressTicks == 50 + extra
  {
    l := new LoaderScreen();
    var k := 0;
    while k < 50 + extra
      invariant 0 <= k <= 50 + extra
      invariant l.Valid() && l.progressTicks == k
    {
      l.ProgressTick();
      k := k + 1;
    }
    FullExactlyFrom50(l.progressTicks);
  }
}
