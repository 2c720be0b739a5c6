/** The testimonial rotator: three testimonials that advance every five
    seconds with no way to pause, and dots that jump to one. The interval
    callback is the method `Tick`. */
module Testimonials {
  import Cycle

  datatype Testimonial = Testimonial(name: string, rating: nat)

  const All: seq<Testimonial> := [
    Testimonial("Alex Rodriguez", 5),
    Testimonial("Maria Santos", 5),
    Testimonial("David Kim", 5)
  ]

  /** `testimonials.length`. */
  const Count: nat := |All|

  class Rotator {
    var currentIndex: nat

    ghost predicate Valid()
      reads this
    {
      currentIndex < Count
    }

    constructor ()
      ensures Valid() && currentIndex == 0
    {
      currentIndex := 0;
    }

    /** One five-second period elapses; the interval is set up once on mount and
        nothing stops it while the component lives. */
    method Tick()
      requires Valid()
      modifies this
      ensures Valid()
      ensures currentIndex == Cycle.Succ(old(currentIndex), Count)
    {
      currentIndex := (currentIndex + 1) % Count;
    }

    /** A dot click: the dots pass their own position. */
    method SelectDot(k: nat)
      requires Valid() && k < Count
      modifies this
      ensures Valid() && currentIndex == k
    {
      currentIndex := k;
    }

    /** Which dots are drawn as active: exactly one, the current testimonial's. */
    function DotStates(): (r: seq<bool>)
      reads this
      requires Valid()
      ensures |r| == Count && r[currentIndex]
      ensures Cycle.CountActive(r) == 1
    {
      Cycle.ExactlyOneDot(currentIndex, Count);
      Cycle.Dots(currentIndex, Count)
    }

    /** The strip's shift in percent, `currentIndex * 100`: a whole number of
        widths that names the current item and keeps the last one in view. */
    function TrackOffset(): (r: nat)
      reads this
      requires Valid()
      ensures r % 100 == 0 && r / 100 == currentIndex
      ensures r <= (Count - 1) * 100
    {
      Cycle.Offset(currentIndex)
    }
  }

  /** Three ticks return to the starting testimonial. */
  lemma ThreeTicksReturn(i: nat)
    requires i < Count
    ensures Cycle.Advance(i, Count, 3) == i
  {
    Cycle.FullTurn(i, Count);
  }

  datatype Icon = StarIcon

  /** `[...Array(rating)].map(...)`: one star per rating point. */
  function Stars(t: Testimonial): (r: seq<Icon>)
    ensures |r| == t.rating
  {
    seq(t.rating, _ => StarIcon)
  }

  /** Every seed testimonial shows five stars. */
  lemma SeedStars()
    ensures forall i :: 0 <= i < Count ==> |Stars(All[i])| == 5
  {
  }
}
