/**
 * The scroll-wheel picker (components/number-picker.tsx). Values are integer
 * counts of the picker's unit (half-kilograms where the weight stepper uses
 * it with min 0, max 200 kg and step 1 kg, that is 0, 400 and 2).
 *
 * The list shows 120 px of padding, then one 60 px row per value, then
 * 120 px of padding, in a 300 px window whose highlighted band is its middle
 * 60 px. Row `i` is centred in the band exactly when `scrollTop` is `60 * i`.
 * Scroll offsets are whole pixels.
 */
module NumberPicker {
  import opened Wrappers
  import Arrays

  /** The values `for (let i = min; i <= max; i += step)` visits. */
  function Range(min: int, max: int, step: int): (r: seq<int>)
    requires step > 0 || min > max
    ensures forall i :: 0 <= i < |r| ==> min <= r[i] <= max
    decreases max - min
  {
    if min > max then [] else [min] + Range(min + step, max, step)
  }

  /** The value list of a range: starts at `min`, grows by `step`, stays within `[min, max]`, and the next value would pass `max`. */
  lemma {:induction false} RangeShape(min: int, max: int, step: int)
    requires step > 0 || min > max
    ensures var r := Range(min, max, step);
      && (r == [] <==> min > max)
      && (r != [] ==> r[0] == min && max < r[|r| - 1] + step)
      && (forall i :: 0 <= i < |r| ==> min <= r[i] <= max)
      && (forall i :: 0 <= i < |r| - 1 ==> r[i + 1] == r[i] + step)
    decreases max - min
  {
    if min <= max {
      RangeShape(min + step, max, step);
    }
  }

  /** The values of a range are strictly increasing. */
  lemma RangeIncreasing(min: int, max: int, step: int)
    requires step > 0 || min > max
    ensures Arrays.StrictlyIncreasing(Range(min, max, step))
  {
    var r := Range(min, max, step);
    RangeShape(min, max, step);
    forall i, j | 0 <= i < j < |r|
      ensures r[i] < r[j]
    {
      StepsIncrease(r, step, i, j);
    }
  }

  lemma {:induction false} StepsIncrease(r: seq<int>, step: int, i: int, j: int)
    requires step > 0
    requires forall k :: 0 <= k < |r| - 1 ==> r[k + 1] == r[k] + step
    requires 0 <= i < j < |r|
    ensures r[i] < r[j]
    decreases j - i
  {
    if j > i + 1 {
      StepsIncrease(r, step, i, j - 1);
    }
  }

  /** The `values` loop. A non-positive step with `min <= max` would never end. */
  method GenerateValues(min: int, max: int, step: int) returns (values: seq<int>)
    requires step > 0 || min > max
    ensures values == Range(min, max, step)
  {
    values := [];
    var i := min;
    while i <= max
      invariant step > 0 || i > max
      invariant values + Range(i, max, step) == Range(min, max, step)
      decreases max - i
    {
      assert Range(i, max, step) == [i] + Range(i + step, max, step);
      values := values + [i];
      i := i + step;
    }
  }

  /** `Math.round(scrollTop / 60)` for a whole-pixel offset: the nearest row, halves rounding up. */
  function RoundedIndex(scrollTop: int): (r: int)
    ensures r * 60 - 30 <= scrollTop < r * 60 + 30
  {
    (scrollTop + 30) / 60
  }

  /** `Math.max(0, Math.min(index, len - 1))`. */
  function Clamp(index: int, len: int): (r: int)
    requires len > 0
    ensures 0 <= r < len
    ensures 0 <= index < len ==> r == index
    ensures index < 0 ==> r == 0
    ensures index >= len ==> r == len - 1
  {
    if index < 0 then 0 else if index > len - 1 then len - 1 else index
  }

  /** The row `handleScroll` selects for an offset. */
  function ScrollIndex(scrollTop: int, len: int): (r: int)
    requires len > 0
    ensures 0 <= r < len
    ensures 0 <= RoundedIndex(scrollTop) < len ==> r == RoundedIndex(scrollTop)
  {
    Clamp(RoundedIndex(scrollTop), len)
  }

  /** The offset the opening effect scrolls to for the selection at row `i`. */
  function InitialScrollTop(i: int): int
  {
    i * 60 - 60 * 2
  }

  /** The opening offset puts row `i - 2` in the band: a scroll event there selects two rows earlier. */
  lemma InitialScrollSelectsTwoEarlier(i: int, len: int)
    requires 2 <= i < len
    ensures ScrollIndex(InitialScrollTop(i), len) == i - 2
  {
  }

  /** The offset that centres row `i` in the band. */
  function CenteringScrollTop(i: int): int
  {
    i * 60
  }

  /** The centring offset and the scroll handler agree on every row. */
  lemma CenteringScrollRoundTrip(i: int, len: int)
    requires 0 <= i < len
    ensures ScrollIndex(CenteringScrollTop(i), len) == i
  {
  }

  /**
   * Opening on a selection at row `i >= 2` of a strictly increasing list
   * scrolls to an offset whose scroll event selects a different, smaller
   * value: the one two rows earlier.
   */
  lemma OpenedOffsetMovesSelection(values: seq<int>, i: int)
    requires Arrays.StrictlyIncreasing(values)
    requires 2 <= i < |values|
    ensures var k := Arrays.IndexOf(values, values[i]);
      && k == i
      && values[ScrollIndex(InitialScrollTop(k), |values|)] == values[i - 2] < values[i]
  {
    Arrays.IndexOfIncreasing(values, i);
  }

  /**
   * The row the selection moves to when the opening effect's offset for row
   * `i` is read back by the scroll handler. A changed selection re-runs the
   * effect, so opening repeats this step until the row no longer changes.
   */
  function DriftStep(i: int, len: int): (r: int)
    requires len > 0
    ensures 0 <= r < len
    ensures 2 <= i < len ==> r == i - 2
    ensures i < 2 ==> r == 0
  {
    if 2 <= i < len then InitialScrollSelectsTwoEarlier(i, len); ScrollIndex(InitialScrollTop(i), len)
    else ScrollIndex(InitialScrollTop(i), len)
  }

  /** The row after `k` rounds of effect and scroll event, starting from row `i`. */
  function Drifted(i: int, len: int, k: nat): int
    requires len > 0
    decreases k
  {
    if k == 0 then i else Drifted(DriftStep(i, len), len, k - 1)
  }

  /**
   * Each round moves the selection two rows up until it reaches the first
   * row, which is a fixed point: from row `i` the selection ends on row 0.
   */
  lemma {:induction false} RepeatedDrift(i: int, len: int, k: nat)
    requires 0 <= i < len
    ensures Drifted(i, len, k) == if i - 2 * k > 0 then i - 2 * k else 0
    decreases k
  {
    if k > 0 {
      RepeatedDrift(DriftStep(i, len), len, k - 1);
    }
  }

  /** With the centring offset, the scroll event at the opened position keeps the selection. */
  lemma CenteredOffsetKeepsSelection(values: seq<int>, i: int)
    requires Arrays.StrictlyIncreasing(values)
    requires 0 <= i < |values|
    ensures values[ScrollIndex(CenteringScrollTop(Arrays.IndexOf(values, values[i])), |values|)] == values[i]
  {
    Arrays.IndexOfIncreasing(values, i);
  }

  /**
   * The picker's state: the `value` prop, the value list built from the
   * props, the two state fields, the list's scroll offset, and the values
   * handed to `onChange`, in order.
   */
  class Picker {
    var value: int
    var values: seq<int>
    var isOpen: bool
    var selectedValue: int
    var scrollTop: int
    var emitted: seq<int>

    /** Mount: `selectedValue` starts at `value`, closed, nothing emitted. */
    constructor (value: int, min: int, max: int, step: int)
      requires step > 0 || min > max
      ensures this.value == value && values == Range(min, max, step)
      ensures !isOpen && selectedValue == value && scrollTop == 0 && emitted == []
    {
      var vs := GenerateValues(min, max, step);
      this.value := value;
      values := vs;
      isOpen := false;
      selectedValue := value;
      scrollTop := 0;
      emitted := [];
    }

    /** The effect: while open, a selection found at row `i` scrolls the list to `i * 60 - 120`. */
    method ScrollEffect()
      modifies this
      ensures value == old(value) && values == old(values) && isOpen == old(isOpen)
      ensures selectedValue == old(selectedValue) && emitted == old(emitted)
      ensures var i := Arrays.IndexOf(values, selectedValue);
        scrollTop == if isOpen && i != -1 then InitialScrollTop(i) else old(scrollTop)
    {
      if isOpen {
        var index := Arrays.IndexOf(values, selectedValue);
        if index != -1 {
          scrollTop := index * 60 - 60 * 2;
        }
      }
    }

    /** The display button: opens, then the effect runs. `selectedValue` is not resynchronised. */
    method Open()
      modifies this
      ensures isOpen
      ensures value == old(value) && values == old(values)
      ensures selectedValue == old(selectedValue) && emitted == old(emitted)
      ensures var i := Arrays.IndexOf(values, selectedValue);
        scrollTop == if i != -1 then InitialScrollTop(i) else old(scrollTop)
    {
      isOpen := true;
      ScrollEffect();
    }

    /**
     * `handleScroll` after the list reached `offset`: the row under the band,
     * clamped to the list, becomes the selection. With no values the list
     * is 240 px of padding in a 300 px window and cannot scroll.
     */
    method HandleScroll(offset: int)
      requires |values| > 0
      modifies this
      ensures value == old(value) && values == old(values) && isOpen == old(isOpen) && emitted == old(emitted)
      ensures scrollTop == offset
      ensures selectedValue == values[ScrollIndex(offset, |values|)]
      ensures selectedValue in values
    {
      scrollTop := offset;
      var index := (offset + 30) / 60;
      var clamped := if index < 0 then 0 else if index > |values| - 1 then |values| - 1 else index;
      selectedValue := values[clamped];
    }

    /** `handleConfirm`: emits the selection and closes. */
    method Confirm()
      modifies this
      ensures emitted == old(emitted) + [old(selectedValue)]
      ensures !isOpen
      ensures value == old(value) && values == old(values) && selectedValue == old(selectedValue)
      ensures scrollTop == old(scrollTop)
    {
      emitted := emitted + [selectedValue];
      isOpen := false;
    }

    /** The cancel button and a backdrop click: close only, keeping the selection. */
    method Close()
      modifies this
      ensures !isOpen
      ensures value == old(value) && values == old(values) && selectedValue == old(selectedValue)
      ensures emitted == old(emitted) && scrollTop == old(scrollTop)
    {
      isOpen := false;
    }

    /** A new `value` prop from the parent: `useState` ignores it after mount. */
    method SetValue(v: int)
      modifies this
      ensures value == v
      ensures values == old(values) && isOpen == old(isOpen) && selectedValue == old(selectedValue)
      ensures emitted == old(emitted) && scrollTop == old(scrollTop)
    {
      value := v;
    }
  }
}
