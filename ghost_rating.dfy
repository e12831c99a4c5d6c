/** The ghost rating radio group: `max` ghost buttons, a `hover` cell set
    while the mouse is over a button, and a click that reports the button's
    index to the optional `onChange` callback. What each button shows is a
    pure function of hover, value and index. */
module GhostRating {
  import opened Wrappers
  import opened JsRuntime

  /** `hover ?? value`: the hovered index while there is one, the value otherwise. */
  function Active(hover: Option<int>, value: int): (a: int)
    ensures hover.Some? ==> a == hover.value
    ensures hover.None? ==> a == value
  {
    if hover.Some? then hover.value else value
  }

  /** isOn: the button is lit. */
  predicate IsOn(idx: int, active: int) {
    idx <= active
  }

  /** aria-checked: the button is the selected value. */
  predicate IsChecked(idx: int, value: int) {
    idx == value
  }

  /** The aria-label and title: "1 fantasma", otherwise "{idx} fantasmas". */
  function Label(idx: int): (l: string)
    ensures idx == 1 ==> l == "1 fantasma"
    ensures idx != 1 ==> l == IntToString(idx) + " fantasmas"
  {
    IntToString(idx) + " " + (if idx == 1 then "fantasma" else "fantasmas")
  }

  /** Different buttons carry different labels. Numerals of different
      lengths give labels of different lengths, since only index 1 has the
      shorter word; numerals of the same length are the labels' prefixes. */
  lemma LabelsDiffer(a: int, b: int)
    requires a != b
    ensures Label(a) != Label(b)
  {
    var sa, sb := IntToString(a), IntToString(b);
    if Label(a) == Label(b) && |sa| == |sb| {
      assert sa == Label(a)[..|sa|];
      assert sb == Label(b)[..|sb|];
      IntToStringInjective(a, b);
    }
  }

  /** What one rendered button shows. */
  datatype Button = Button(idx: int, on: bool, checked: bool, ariaLabel: string)

  /** `Array.from({ length: max })`: no buttons for a max of 0 or less. */
  function ButtonCount(max: int): nat {
    if max > 0 then max else 0
  }

  /** The buttons for indices 1 to max. */
  function Buttons(active: int, value: int, max: int): (bs: seq<Button>)
    ensures |bs| == ButtonCount(max)
    ensures forall i :: 0 <= i < |bs| ==> bs[i].idx == i + 1
    ensures forall i :: 0 <= i < |bs| ==> (bs[i].on <==> i + 1 <= active)
    ensures forall i :: 0 <= i < |bs| ==> (bs[i].checked <==> i + 1 == value)
    ensures forall i :: 0 <= i < |bs| ==> bs[i].ariaLabel == Label(i + 1)
  {
    seq(ButtonCount(max), i requires 0 <= i =>
      Button(i + 1, IsOn(i + 1, active), IsChecked(i + 1, value), Label(i + 1)))
  }

  /** At most one button is checked, and one is exactly when the value is one of the indices. */
  lemma OneCheckedAtMost(active: int, value: int, max: int)
    ensures var bs := Buttons(active, value, max);
      forall i, j :: 0 <= i < |bs| && 0 <= j < |bs| && bs[i].checked && bs[j].checked ==> i == j
    ensures var bs := Buttons(active, value, max);
      (exists i :: 0 <= i < |bs| && bs[i].checked) <==> 1 <= value <= max
  {
    var bs := Buttons(active, value, max);
    if 1 <= value <= max {
      assert bs[value - 1].checked;
    }
  }

  /** The lit buttons form a prefix: every button before a lit one is lit. */
  lemma LitIsPrefix(active: int, value: int, max: int)
    ensures var bs := Buttons(active, value, max);
      forall i, j :: 0 <= i < j < |bs| && bs[j].on ==> bs[i].on
  {
  }

  /** The component's state and props. */
  class GhostRating {
    const value: int
    const max: int
    const hasOnChange: bool
    var hover: Option<int>

    /** value defaults to 0 and max to 5; nothing is hovered at first. */
    constructor (value: int, max: int, hasOnChange: bool)
      ensures this.value == value && this.max == max && this.hasOnChange == hasOnChange
      ensures hover == None
    {
      this.value := value;
      this.max := max;
      this.hasOnChange := hasOnChange;
      hover := None;
    }

    /** onMouseEnter of button idx. */
    method MouseEnter(idx: int)
      modifies this
      ensures hover == Some(idx)
      ensures ActiveIndex() == idx
    {
      hover := Some(idx);
    }

    /** onMouseLeave: nothing hovered, so the lit buttons follow the value again. */
    method MouseLeave()
      modifies this
      ensures hover == None
      ensures ActiveIndex() == value
    {
      hover := None;
    }

    /** onClick of button idx: `onChange?.(idx)` reports idx itself, even when
        it is already the value; there is no clearing to 0. Nothing in the
        component's own state changes. */
    method Click(idx: int) returns (reported: Option<int>)
      ensures hasOnChange ==> reported == Some(idx)
      ensures !hasOnChange ==> reported == None
    {
      if hasOnChange {
        reported := Some(idx);
      } else {
        reported := None;
      }
    }

    /** `active`. */
    function ActiveIndex(): (a: int)
      reads this
      ensures hover.Some? ==> a == hover.value
      ensures hover.None? ==> a == value
    {
      Active(hover, value)
    }

    /** The rendered buttons. */
    function View(): (bs: seq<Button>)
      reads this
      ensures |bs| == ButtonCount(max)
    {
      Buttons(ActiveIndex(), value, max)
    }
  }
}
