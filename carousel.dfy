/**
 * The "Platform Features" carousel (components/FeatureCarousel.tsx).
 *
 * A cursor `currentIndex` over the fixed table of five features and a page
 * size `itemsPerPage` chosen from the viewport width. The click handlers
 * clamp the cursor with `min`/`max`; a resize changes only the page size and
 * leaves the cursor where it was, even when that is past the last full page.
 */
module Carousel {

  /** `features.length`: the feature table has five entries. */
  const FeatureCount := 5

  /** Viewport widths (px) at which three, resp. two, cards fit on a page. */
  const WideBreakpoint := 1280
  const MediumBreakpoint := 768

  /**
   * The index of the last full page for a page size: `features.length - itemsPerPage`.
   * A page started there ends on the last feature, and for the page sizes
   * `handleResize` chooses it is itself a feature.
   */
  function LastStart(perPage: int): (start: int)
    ensures start + perPage == FeatureCount
    ensures 1 <= perPage <= 3 ==> 2 <= start < FeatureCount
  {
    FeatureCount - perPage
  }

  /** A cursor that shows a full page of cards. */
  predicate InBounds(index: int, perPage: int)
  {
    0 <= index <= LastStart(perPage)
  }

  /** `handleResize`: the page size for a viewport width. */
  function PageSizeFor(width: int): (n: int)
    ensures 1 <= n <= 3
    ensures n == 3 <==> width >= WideBreakpoint
    ensures n == 2 <==> MediumBreakpoint <= width < WideBreakpoint
    ensures n == 1 <==> width < MediumBreakpoint
  {
    if width >= WideBreakpoint then 3
    else if width >= MediumBreakpoint then 2
    else 1
  }

  /** The updater passed by `nextSlide`: one card forward, never past the last full page. */
  function NextIndex(index: int, perPage: int): (r: int)
    ensures r <= LastStart(perPage)
    ensures index < LastStart(perPage) ==> r == index + 1
    ensures index >= LastStart(perPage) ==> r == LastStart(perPage)
    ensures InBounds(index, perPage) ==> InBounds(r, perPage)
  {
    if index + 1 < LastStart(perPage) then index + 1 else LastStart(perPage)
  }

  /** The updater passed by `prevSlide`: one card back, never below 0. */
  function PrevIndex(index: int): (r: int)
    ensures r >= 0
    ensures index > 0 ==> r == index - 1
    ensures index <= 0 ==> r == 0
    ensures forall perPage :: InBounds(index, perPage) ==> InBounds(r, perPage)
  {
    if index - 1 > 0 then index - 1 else 0
  }

  /** `disabled` of the previous button: an enabled button always moves a valid cursor one card back, a disabled one guards an update that would not move it. */
  predicate PrevDisabled(index: int)
    ensures index >= 0 && !PrevDisabled(index) ==> PrevIndex(index) == index - 1
    ensures PrevDisabled(index) ==> PrevIndex(index) == index
  {
    index == 0
  }

  /**
   * `disabled` of the next button: an enabled button always moves the cursor
   * one card forward, and a disabled one guards an update that would not.
   */
  predicate NextDisabled(index: int, perPage: int)
    ensures !NextDisabled(index, perPage) ==> NextIndex(index, perPage) == index + 1
    ensures NextDisabled(index, perPage) ==> NextIndex(index, perPage) <= index
  {
    index >= LastStart(perPage)
  }

  /**
   * `CarouselTrack`'s flex-basis, as a percentage of the track width.
   * For the page sizes `handleResize` produces, a page of cards fills 96 to
   * 100 per cent of the track (the rest is left to the 2rem gaps).
   */
  function BasisPercent(perPage: int): (percent: int)
    ensures percent == 32 || percent == 48 || percent == 100
    ensures 1 <= perPage <= 3 ==> 96 <= perPage * percent <= 100
    ensures percent == 100 <==> perPage != 2 && perPage != 3
  {
    if perPage == 3 then 32 else if perPage == 2 then 48 else 100
  }

  /** A click on one of the two arrow buttons. */
  datatype Click = Prev | Next

  /** The cursor after one handler runs. */
  function Apply(index: int, perPage: int, c: Click): int
  {
    match c
    case Prev => PrevIndex(index)
    case Next => NextIndex(index, perPage)
  }

  /** The cursor after the handlers for a series of clicks run, first click first. */
  function Clicks(index: int, perPage: int, cs: seq<Click>): int
    decreases |cs|
  {
    if cs == [] then index else Clicks(Apply(index, perPage, cs[0]), perPage, cs[1..])
  }

  /** With the page size fixed, any series of clicks keeps an in-bounds cursor in bounds. */
  lemma {:induction false} ClicksStayInBounds(index: int, perPage: int, cs: seq<Click>)
    requires InBounds(index, perPage)
    ensures InBounds(Clicks(index, perPage, cs), perPage)
    decreases |cs|
  {
    if cs != [] {
      ClicksStayInBounds(Apply(index, perPage, cs[0]), perPage, cs[1..]);
    }
  }

  /** From the initial cursor 0, for every page size `handleResize` can choose, clicks keep `0 <= currentIndex <= features.length - itemsPerPage`. */
  lemma ClicksFromStartStayInBounds(width: int, cs: seq<Click>)
    ensures 0 <= Clicks(0, PageSizeFor(width), cs) <= FeatureCount - PageSizeFor(width)
  {
    ClicksStayInBounds(0, PageSizeFor(width), cs);
  }

  /** `nextSlide` at the last full page leaves the cursor there, so it is idempotent there. */
  lemma NextAtLastStartIsIdempotent(perPage: int)
    ensures NextIndex(LastStart(perPage), perPage) == LastStart(perPage)
    ensures NextIndex(NextIndex(LastStart(perPage), perPage), perPage) == NextIndex(LastStart(perPage), perPage)
  {
  }

  /** `prevSlide` at 0 stays at 0. */
  lemma PrevAtZeroStays()
    ensures PrevIndex(0) == 0
  {
  }

  /** Away from the edges, `nextSlide` undoes `prevSlide` and `prevSlide` undoes `nextSlide`. */
  lemma NextPrevRoundTrip(index: int, perPage: int)
    requires InBounds(index, perPage)
    ensures 0 < index ==> NextIndex(PrevIndex(index), perPage) == index
    ensures index < LastStart(perPage) ==> PrevIndex(NextIndex(index, perPage)) == index
  {
  }

  /** For an in-bounds cursor, each button is disabled exactly when its handler would not move the cursor. */
  lemma DisabledIffNoMove(index: int, perPage: int)
    requires InBounds(index, perPage)
    ensures PrevDisabled(index) <==> PrevIndex(index) == index
    ensures NextDisabled(index, perPage) <==> NextIndex(index, perPage) == index
  {
  }

  /**
   * A cursor left on the fourth or fifth card of a narrow page is out of bounds
   * after widening to three cards per page: the next button is disabled, the
   * previous one is not, and a call of `nextSlide` pulls the cursor back to 2.
   */
  lemma WideningLeavesStaleCursor(index: int, width: int)
    requires InBounds(index, 1) && index > 2 && width >= WideBreakpoint
    ensures !InBounds(index, PageSizeFor(width))
    ensures NextDisabled(index, PageSizeFor(width)) && !PrevDisabled(index)
    ensures NextIndex(index, PageSizeFor(width)) == 2
  {
  }

  /** The `FeatureCarousel` component's state. */
  class FeatureCarousel {
    var currentIndex: int
    var itemsPerPage: int

    /**
     * Kept by every operation, resizes included: a page size `handleResize`
     * can choose, and a cursor that points at one of the features.
     */
    ghost predicate Valid()
      reads this
    {
      1 <= itemsPerPage <= 3 && 0 <= currentIndex < FeatureCount
    }

    /** `useState(0)` and `useState(1)`: the state of the first render. */
    constructor ()
      ensures Valid()
      ensures currentIndex == 0 && itemsPerPage == 1
    {
      currentIndex := 0;
      itemsPerPage := 1;
    }

    /** `handleResize`, run on mount and on every `resize` event: sets the page size and does not touch the cursor. */
    method HandleResize(width: int)
      requires Valid()
      modifies this
      ensures Valid()
      ensures itemsPerPage == PageSizeFor(width)
      ensures currentIndex == old(currentIndex)
    {
      if width >= WideBreakpoint {
        itemsPerPage := 3;
      } else if width >= MediumBreakpoint {
        itemsPerPage := 2;
      } else {
        itemsPerPage := 1;
      }
    }

    /** `nextSlide`. */
    method NextSlide()
      requires Valid()
      modifies this
      ensures Valid()
      ensures currentIndex == NextIndex(old(currentIndex), itemsPerPage)
      ensures itemsPerPage == old(itemsPerPage)
    {
      currentIndex := NextIndex(currentIndex, itemsPerPage);
    }

    /** `prevSlide`. */
    method PrevSlide()
      requires Valid()
      modifies this
      ensures Valid()
      ensures currentIndex == PrevIndex(old(currentIndex))
      ensures itemsPerPage == old(itemsPerPage)
    {
      currentIndex := PrevIndex(currentIndex);
    }

    /** A click on the next button: a disabled button does not run its handler. */
    method PressNext()
      requires Valid()
      modifies this
      ensures Valid()
      ensures currentIndex == if NextDisabled(old(currentIndex), itemsPerPage) then old(currentIndex) else old(currentIndex) + 1
      ensures itemsPerPage == old(itemsPerPage)
    {
      if !NextDisabled(currentIndex, itemsPerPage) {
        NextSlide();
      }
    }

    /** A click on the previous button: a disabled button does not run its handler. */
    method PressPrev()
      requires Valid()
      modifies this
      ensures Valid()
      ensures currentIndex == if PrevDisabled(old(currentIndex)) then old(currentIndex) else old(currentIndex) - 1
      ensures itemsPerPage == old(itemsPerPage)
    {
      if !PrevDisabled(currentIndex) {
        PrevSlide();
      }
    }
  }
}
