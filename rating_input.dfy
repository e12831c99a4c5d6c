/** The rating input of the book form: five ghosts, a `rating` cell that a
    click sets or clears, a `hover` cell the mouse sets while over a ghost,
    and a hidden form field carrying the rating. */
module RatingInput {
  import opened Wrappers
  import opened JsRuntime
  import Actions

  /** The number of ghosts the input renders. */
  const GhostCount: int := 5

  /** handleClick on the rating: the ghost already chosen clears it, any other ghost is chosen. */
  function Toggle(rating: int, index: int): (r: int)
    ensures rating == index ==> r == 0
    ensures rating != index ==> r == index
  {
    if rating == index then 0 else index
  }

  /** isActive: a ghost is lit when its index is at most the hovered ghost,
      or the rating when nothing is hovered. */
  predicate Lit(hover: int, rating: int, index: int) {
    index <= (if hover != 0 then hover else rating)
  }

  /** The rating after a sequence of clicks: 0, the starting rating, or one of the clicked ghosts. */
  function AfterClicks(rating: int, clicks: seq<int>): (r: int)
    ensures r == 0 || r == rating || r in clicks
    decreases clicks
  {
    if clicks == [] then rating else AfterClicks(Toggle(rating, clicks[0]), clicks[1..])
  }

  /** A rating from 0 to 5: the initial value the form passes, and every value a click can give. */
  predicate InRange(rating: int) {
    0 <= rating <= GhostCount
  }

  /** The ghosts only ever pass indices 1 to 5, so whatever the clicks the rating stays from 0 to 5. */
  lemma {:induction false} ClicksStayInRange(rating: int, clicks: seq<int>)
    requires InRange(rating)
    requires forall i :: 0 <= i < |clicks| ==> 1 <= clicks[i] <= GhostCount
    ensures InRange(AfterClicks(rating, clicks))
    decreases clicks
  {
    if clicks != [] {
      assert forall i :: 0 <= i < |clicks[1..]| ==> clicks[1..][i] == clicks[i + 1];
      ClicksStayInRange(Toggle(rating, clicks[0]), clicks[1..]);
    }
  }

  /** Clicking the same ghost twice: back where it started when that ghost was
      the rating, no rating otherwise. */
  lemma ClickTwice(rating: int, index: int)
    requires 1 <= index <= GhostCount
    ensures Toggle(Toggle(rating, index), index) == if rating == index then index else 0
  {
  }

  /** The component's state. */
  class RatingInput {
    var rating: int
    var hover: int

    /** The state starts with the given rating (0 by default) and nothing hovered. */
    constructor (initialValue: int)
      ensures rating == initialValue && hover == 0
    {
      rating := initialValue;
      hover := 0;
    }

    /** handleClick(index). */
    method Click(index: int)
      modifies this
      ensures rating == Toggle(old(rating), index)
      ensures hover == old(hover)
    {
      if rating == index {
        rating := 0;
      } else {
        rating := index;
      }
    }

    /** onMouseEnter of a ghost: hovering it. */
    method MouseEnter(index: int)
      modifies this
      ensures hover == index && rating == old(rating)
    {
      hover := index;
    }

    /** onMouseLeave of a ghost: nothing hovered, the rating untouched. */
    method MouseLeave()
      modifies this
      ensures hover == 0 && rating == old(rating)
      ensures forall i :: Lit(hover, rating, i) <==> i <= rating
    {
      hover := 0;
    }

    /** Whether ghost `index` (1 to 5) is lit. */
    predicate IsActive(index: int)
      reads this
    {
      Lit(hover, rating, index)
    }

    /** The value of the hidden `rating` field: String(rating). */
    function HiddenValue(): (v: string)
      reads this
      ensures v != "" && IsTrimmed(v)
    {
      IntToString(rating)
    }
  }

  /** With nothing hovered, clicking a ghost other than the rating lights
      exactly the ghosts up to it; clicking the rating turns all of them off. */
  lemma LitAfterClick(rating: int, index: int, i: int)
    requires 1 <= index <= GhostCount && 1 <= i <= GhostCount
    ensures rating != index ==> (Lit(0, Toggle(rating, index), i) <==> i <= index)
    ensures rating == index ==> !Lit(0, Toggle(rating, index), i)
  {
  }

  /** The hidden field always carries the rating: the form's number parser
      reads it back as that rating, 0 included. */
  lemma HiddenValueRoundTrip(input: RatingInput)
    requires -MaxExactInteger <= input.rating <= MaxExactInteger
    ensures Actions.N(Some(Actions.Text(input.HiddenValue()))) == Some(input.rating)
  {
    var numeral := IntToString(input.rating);
    assert [] + numeral + [] == numeral;
    Actions.NOfNumeral([], input.rating, []);
  }
}
