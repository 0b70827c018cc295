/**
 * The grid picker (components/grid-picker.tsx): a button showing `value`
 * that opens a grid of candidate values; a tap selects, "決定" confirms,
 * "キャンセル" or a tap on the backdrop cancels.
 *
 * Every value the page passes is a multiple of 0.5 (weights in kilograms,
 * repetitions), so values are integer counts of halves.
 */
module GridPicker {

  /** The picker's observable state: the `value` prop, the two state fields and what `onChange` received so far. */
  datatype GridState = GridState(value: int, isOpen: bool, selectedValue: int, emitted: seq<int>)

  /** Mount: `useState(false)` and `useState(value)`. */
  function Mounted(value: int): GridState
  {
    GridState(value, false, value, [])
  }

  /** The display button. */
  function Opened(g: GridState): GridState
  {
    g.(isOpen := true)
  }

  /** `handleSelect(val)`. */
  function Selected(g: GridState, val: int): GridState
  {
    g.(selectedValue := val)
  }

  /** `handleConfirm`. */
  function Confirmed(g: GridState): GridState
  {
    g.(emitted := g.emitted + [g.selectedValue], isOpen := false)
  }

  /** `handleCancel`, also run by a backdrop click. */
  function Cancelled(g: GridState): GridState
  {
    g.(selectedValue := g.value, isOpen := false)
  }

  /** The parent re-renders with a new `value`; the state fields keep theirs. */
  function Rerendered(g: GridState, value: int): GridState
  {
    g.(value := value)
  }

  /** The highlight test `Math.abs(val - selectedValue) < 0.01`, with both in halves. */
  function Highlighted(val: int, selected: int): (r: bool)
    ensures r <==> val == selected
  {
    var d := if val >= selected then val - selected else selected - val;
    100 * d < 2
  }

  /** A user gesture while the picker is shown. */
  datatype Gesture = Tap(val: int) | ConfirmButton | CancelButton

  function Step(g: GridState, x: Gesture): GridState
  {
    match x
    case Tap(val) => Selected(g, val)
    case ConfirmButton => Confirmed(g)
    case CancelButton => Cancelled(g)
  }

  function Steps(g: GridState, xs: seq<Gesture>): GridState
    decreases |xs|
  {
    if xs == [] then g else Steps(Step(g, xs[0]), xs[1..])
  }

  /** Taps only: the last one is selected, nothing is emitted and the picker stays as it was. */
  lemma {:induction false} TapsOnlySelect(g: GridState, xs: seq<Gesture>)
    requires forall i :: 0 <= i < |xs| ==> xs[i].Tap?
    ensures var r := Steps(g, xs);
      && r.emitted == g.emitted && r.isOpen == g.isOpen && r.value == g.value
      && r.selectedValue == (if xs == [] then g.selectedValue else xs[|xs| - 1].val)
    decreases |xs|
  {
    if xs != [] {
      TapsOnlySelect(Selected(g, xs[0].val), xs[1..]);
    }
  }

  /** Open, any taps, then confirm: exactly one emission, the last tapped value, and the picker is closed. */
  lemma TapsThenConfirm(g: GridState, taps: seq<Gesture>)
    requires forall i :: 0 <= i < |taps| ==> taps[i].Tap?
    requires taps != []
    ensures var r := Confirmed(Steps(Opened(g), taps));
      && r.emitted == g.emitted + [taps[|taps| - 1].val] && !r.isOpen
  {
    TapsOnlySelect(Opened(g), taps);
  }

  /** Open, any taps, then cancel: nothing emitted, the selection is back at `value`, closed. */
  lemma TapsThenCancel(g: GridState, taps: seq<Gesture>)
    requires forall i :: 0 <= i < |taps| ==> taps[i].Tap?
    ensures var r := Cancelled(Steps(Opened(g), taps));
      && r.emitted == g.emitted && r.selectedValue == g.value && !r.isOpen
  {
    TapsOnlySelect(Opened(g), taps);
  }

  /**
   * Opening does not resynchronise: after a new `value` from the parent,
   * the grid still highlights the old selection until a cancel.
   */
  lemma OpenKeepsStaleSelection(value: int, newValue: int)
    requires newValue != value
    ensures var g := Opened(Rerendered(Mounted(value), newValue));
      && g.selectedValue == value && !Highlighted(newValue, g.selectedValue)
      && Cancelled(g).selectedValue == newValue
  {
  }

  /** Every emission comes from a confirm: a gesture that is not a confirm emits nothing. */
  lemma OnlyConfirmEmits(g: GridState, x: Gesture)
    ensures |Step(g, x).emitted| == |g.emitted| + (if x.ConfirmButton? then 1 else 0)
    ensures Step(g, x).emitted[..|g.emitted|] == g.emitted
  {
  }

  /** The component, updated in place by its handlers. */
  class Picker {
    var value: int
    var isOpen: bool
    var selectedValue: int
    var emitted: seq<int>

    function State(): GridState
      reads this
    {
      GridState(value, isOpen, selectedValue, emitted)
    }

    constructor (value: int)
      ensures State() == Mounted(value)
    {
      this.value := value;
      isOpen := false;
      selectedValue := value;
      emitted := [];
    }

    method Open()
      modifies this
      ensures State() == Opened(old(State()))
    {
      isOpen := true;
    }

    method HandleSelect(val: int)
      modifies this
      ensures State() == Selected(old(State()), val)
    {
      selectedValue := val;
    }

    method HandleConfirm()
      modifies this
      ensures State() == Confirmed(old(State()))
    {
      emitted := emitted + [selectedValue];
      isOpen := false;
    }

    method HandleCancel()
      modifies this
      ensures State() == Cancelled(old(State()))
    {
      selectedValue := value;
      isOpen := false;
    }

    method SetValue(v: int)
      modifies this
      ensures State() == Rerendered(old(State()), v)
    {
      value := v;
    }
  }
}
