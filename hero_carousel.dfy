/** The slide index of components/HeroCarousel.tsx. The index cell belongs
    to the UI framework; the updaters handed to it are pure functions of the
    previous index, written here with the language's truncating remainder. */
module HeroCarousel {
  import opened JsValues

  /** `SLIDES.length`. */
  const SlideCount: int := 4

  /** `nextSlide`'s updater: `(prev + 1) % SLIDES.length`. */
  function NextSlide(prev: int): (r: int)
    ensures 0 <= prev ==> 0 <= r < SlideCount
    ensures 0 <= prev < SlideCount - 1 ==> r == prev + 1
    ensures prev == SlideCount - 1 ==> r == 0
  {
    TruncRem(prev + 1, SlideCount)
  }

  /** `prevSlide`'s updater: `(prev - 1 + SLIDES.length) % SLIDES.length`. */
  function PrevSlide(prev: int): (r: int)
    ensures 1 - SlideCount <= prev ==> 0 <= r < SlideCount
    ensures 0 < prev <= SlideCount ==> r == prev - 1
    ensures prev == 0 ==> r == SlideCount - 1
  {
    TruncRem(prev - 1 + SlideCount, SlideCount)
  }

  /** The arrows undo each other on every valid index. */
  lemma NextPrevInverse(i: int)
    requires 0 <= i < SlideCount
    ensures PrevSlide(NextSlide(i)) == i
    ensures NextSlide(PrevSlide(i)) == i
  {
  }

  /** Four steps forward come back to the start. */
  lemma FourNextsReturn(i: int)
    requires 0 <= i < SlideCount
    ensures NextSlide(NextSlide(NextSlide(NextSlide(i)))) == i
  {
  }

  /** The user's ways of moving the carousel. */
  datatype Control = Next | Prev | Dot(index: int)

  /** The dots are `SLIDES.map((_, index) => ...)`: one per slide. */
  predicate ValidControls(cs: seq<Control>)
  {
    forall i :: 0 <= i < |cs| && cs[i].Dot? ==> 0 <= cs[i].index < SlideCount
  }

  /** One move: an arrow steps, a dot jumps to its own position. */
  function Step(current: int, c: Control): (r: int)
    ensures c == Next ==> r == NextSlide(current)
    ensures c == Prev ==> r == PrevSlide(current)
    ensures c.Dot? ==> r == c.index
    ensures 0 <= current < SlideCount && (c.Dot? ==> 0 <= c.index < SlideCount) ==> 0 <= r < SlideCount
  {
    match c
    case Next => NextSlide(current)
    case Prev => PrevSlide(current)
    case Dot(index) => index
  }

  /** The index after a run of moves. */
  function Run(current: int, cs: seq<Control>): int
    decreases |cs|
  {
    if cs == [] then current else Run(Step(current, cs[0]), cs[1..])
  }

  /** The slides' visibility flags: `index === currentSlide`. */
  function ActiveFlags(current: int): (flags: seq<bool>)
    ensures |flags| == SlideCount
    ensures forall i :: 0 <= i < SlideCount ==> (flags[i] <==> i == current)
  {
    seq(SlideCount, i => i == current)
  }

  /** How many flags are set. */
  function CountSet(flags: seq<bool>): nat
    decreases |flags|
  {
    if flags == [] then 0 else (if flags[0] then 1 else 0) + CountSet(flags[1..])
  }

  /** From any valid index, whatever the user clicks, the index stays a valid
      slide position. */
  lemma {:induction false} RunStaysInRange(current: int, cs: seq<Control>)
    requires 0 <= current < SlideCount && ValidControls(cs)
    ensures 0 <= Run(current, cs) < SlideCount
    decreases |cs|
  {
    if cs != [] {
      assert ValidControls(cs[1..]) by {
        forall i | 0 <= i < |cs[1..]| && cs[1..][i].Dot?
          ensures 0 <= cs[1..][i].index < SlideCount
        {
          assert cs[1..][i] == cs[i + 1];
        }
      }
      RunStaysInRange(Step(current, cs[0]), cs[1..]);
    }
  }

  /** A sequence of flags with exactly one set position has one flag set. */
  lemma {:induction false} CountSingleFlag(flags: seq<bool>, k: int)
    requires 0 <= k < |flags|
    requires forall i :: 0 <= i < |flags| ==> (flags[i] <==> i == k)
    ensures CountSet(flags) == 1
    decreases |flags|
  {
    if k == 0 {
      NoFlagSet(flags[1..]);
    } else {
      CountSingleFlag(flags[1..], k - 1);
    }
  }

  lemma {:induction false} NoFlagSet(flags: seq<bool>)
    requires forall i :: 0 <= i < |flags| ==> !flags[i]
    ensures CountSet(flags) == 0
    decreases |flags|
  {
    if flags != [] {
      NoFlagSet(flags[1..]);
    }
  }

  /** Starting from the first slide, after any clicks exactly one slide is
      shown, and it is the one the index names. */
  lemma ExactlyOneSlideShown(cs: seq<Control>)
    requires ValidControls(cs)
    ensures CountSet(ActiveFlags(Run(0, cs))) == 1
    ensures 0 <= Run(0, cs) < SlideCount && ActiveFlags(Run(0, cs))[Run(0, cs)]
  {
    RunStaysInRange(0, cs);
    CountSingleFlag(ActiveFlags(Run(0, cs)), Run(0, cs));
  }
}
