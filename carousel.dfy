/** The home-page course carousel: four slides, arrows, pagination dots and a
    five-second autoplay that hovering pauses. The interval callback is the
    method `IntervalElapsed`, called once per elapsed period. */
module Carousel {
  import Cycle

  /** The slides, by course title. */
  const Slides: seq<string> := [
    "Full Stack Web Development",
    "Data Science & Machine Learning",
    "Digital Marketing Mastery",
    "UI/UX Design Fundamentals"
  ]

  /** `courses.length`. */
  const SlideCount: nat := |Slides|

  class Slideshow {
    var currentIndex: nat
    var isAutoPlaying: bool

    ghost predicate Valid()
      reads this
    {
      currentIndex < SlideCount
    }

    /** Mounting: the first slide, autoplay on. */
    constructor ()
      ensures Valid() && currentIndex == 0 && isAutoPlaying
    {
      currentIndex, isAutoPlaying := 0, true;
    }

    /** The right arrow. */
    method NextSlide()
      requires Valid()
      modifies this
      ensures Valid()
      ensures currentIndex == Cycle.Succ(old(currentIndex), SlideCount)
      ensures isAutoPlaying == old(isAutoPlaying)
    {
      currentIndex := (currentIndex + 1) % SlideCount;
    }

    /** The left arrow. */
    method PrevSlide()
      requires Valid()
      modifies this
      ensures Valid()
      ensures currentIndex == Cycle.Pred(old(currentIndex), SlideCount)
      ensures isAutoPlaying == old(isAutoPlaying)
    {
      currentIndex := (currentIndex - 1 + SlideCount) % SlideCount;
    }

    /** A pagination dot; the dots pass their own position, so `index` names a slide. */
    method GoToSlide(index: nat)
      requires Valid() && index < SlideCount
      modifies this
      ensures Valid()
      ensures currentIndex == index
      ensures isAutoPlaying == old(isAutoPlaying)
    {
      currentIndex := index;
    }

    /** One autoplay period elapses. The interval exists only while autoplay is on
        (the effect returns early otherwise and clears the interval when the flag
        changes), so a paused carousel does not move. */
    method IntervalElapsed()
      requires Valid()
      modifies this
      ensures Valid()
      ensures currentIndex == if old(isAutoPlaying) then Cycle.Succ(old(currentIndex), SlideCount)
                              else old(currentIndex)
      ensures isAutoPlaying == old(isAutoPlaying)
    {
      if isAutoPlaying {
        currentIndex := (currentIndex + 1) % SlideCount;
      }
    }

    /** The pointer enters the carousel: autoplay pauses, the slide stays. */
    method MouseEnter()
      requires Valid()
      modifies this
      ensures Valid() && !isAutoPlaying && currentIndex == old(currentIndex)
    {
      isAutoPlaying := false;
    }

    /** The pointer leaves: autoplay resumes from the same slide. */
    method MouseLeave()
      requires Valid()
      modifies this
      ensures Valid() && isAutoPlaying && currentIndex == old(currentIndex)
    {
      isAutoPlaying := true;
    }

    /** Which dots are drawn as active: exactly one, the current slide's. */
    function DotStates(): (r: seq<bool>)
      reads this
      requires Valid()
      ensures |r| == SlideCount && r[currentIndex]
      ensures Cycle.CountActive(r) == 1
    {
      Cycle.ExactlyOneDot(currentIndex, SlideCount);
      Cycle.Dots(currentIndex, SlideCount)
    }

    /** The strip's shift in percent, `currentIndex * 100`: a whole number of
        widths that names the current item and keeps the last one in view. */
    function TrackOffset(): (r: nat)
      reads this
      requires Valid()
      ensures r % 100 == 0 && r / 100 == currentIndex
      ensures r <= (SlideCount - 1) * 100
    {
      Cycle.Offset(currentIndex)
    }

    /** The title on the visible slide: every slide is rendered side by side and the
        strip's shift decides which one is in view. */
    function CurrentTitle(): (r: string)
      reads this
      requires Valid()
      ensures r in Slides
      ensures r == Slides[TrackOffset() / 100]
    {
      Slides[currentIndex]
    }
  }

  /** Four presses of the right arrow, or four autoplay periods, return to the start;
      the left arrow from the first slide goes to the last. */
  lemma Wraparound(i: nat)
    requires i < SlideCount
    ensures Cycle.Advance(i, SlideCount, 4) == i
    ensures Cycle.Pred(0, SlideCount) == 3
  {
    Cycle.FullTurn(i, SlideCount);
  }

  /** While paused, any number of elapsed periods leaves the slide where it is. */
  method PausedStaysPut(s: Slideshow, periods: nat)
    requires s.Valid() && !s.isAutoPlaying
    modifies s
    ensures s.Valid() && s.currentIndex == old(s.currentIndex) && !s.isAutoPlaying
  {
    var k := 0;
    while k < periods
      invariant s.Valid() && !s.isAutoPlaying
      invariant s.currentIndex == old(s.currentIndex)
    {
      s.IntervalElapsed();
      k := k + 1;
    }
  }
}
