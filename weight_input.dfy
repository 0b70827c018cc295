/**
 * The weight stepper (components/weight-input.tsx): the step rule, the
 * increment and decrement guards, and the weight list its two loops build.
 * The stepper builds that list but never uses it (its picker gets a plain
 * 0 to 200 range in steps of 1); the page builds the same list with the same
 * two loops for its own weight buttons, so `WeightList` is modelled for the
 * page's sake. The stepper itself is not rendered by app/page.tsx.
 *
 * Weights are integer counts of half-kilograms: 1 kg is 2, 2.5 kg is 5,
 * 20 kg is 40 and 200 kg is 400.
 */
module WeightInput {
  import opened Wrappers
  import Arrays

  /** `getStep`: 1 kg below 20 kg, 2.5 kg from 20 kg on. */
  function GetStep(w: int): (r: int)
    ensures r > 0
    ensures w < 40 ==> r == 2
    ensures w >= 40 ==> r == 5
  {
    if w < 40 then 2 else 5
  }

  /** `increment`: always emits `weight + step`. */
  function Increment(w: int): (r: int)
    ensures r > w
    ensures r - w == GetStep(w)
  {
    w + GetStep(w)
  }

  /** `decrement`: emits `weight - step` only when that is not negative. */
  function Decrement(w: int): (r: Option<int>)
    ensures r.Some? <==> w >= GetStep(w)
    ensures r.Some? ==> 0 <= r.value < w && w - r.value == GetStep(w)
  {
    if w - GetStep(w) >= 0 then Some(w - GetStep(w)) else None
  }

  /** The 93 weights: 0 to 20 kg by 1 kg, then 22.5 to 200 kg by 2.5 kg. */
  function WeightList(): seq<int>
  {
    seq(21, i => 2 * i) + seq(72, i => 45 + 5 * i)
  }

  /** Membership in the weight list, stated without the list. */
  predicate OnGrid(w: int)
  {
    (0 <= w <= 40 && w % 2 == 0) || (45 <= w <= 400 && (w - 45) % 5 == 0)
  }

  /** `generateWeightValues`: two loops pushing onto an array. */
  method GenerateWeightValues() returns (values: seq<int>)
    ensures values == WeightList()
  {
    values := [];
    var i := 0;
    while i <= 40
      invariant 0 <= i <= 42 && i % 2 == 0
      invariant values == seq(i / 2, k => 2 * k)
    {
      values := values + [i];
      i := i + 2;
    }
    i := 45;
    while i <= 400
      invariant 45 <= i <= 405 && (i - 45) % 5 == 0
      invariant values == seq(21, k => 2 * k) + seq((i - 45) / 5, k => 45 + 5 * k)
    {
      values := values + [i];
      i := i + 5;
    }
  }

  /** The list has 93 strictly increasing entries from 0 to 200 kg. */
  lemma WeightListShape()
    ensures |WeightList()| == 93
    ensures WeightList()[0] == 0 && WeightList()[1] == 2 && WeightList()[20] == 40
    ensures WeightList()[21] == 45 && WeightList()[91] == 395 && WeightList()[92] == 400
    ensures Arrays.StrictlyIncreasing(WeightList())
    ensures forall i :: 0 <= i < 93 ==> 0 <= WeightList()[i] <= 400
  {
  }

  /** A weight is on the list exactly when it is on the 1 kg grid up to 20 kg or the 2.5 kg grid from 22.5 kg. */
  lemma WeightListMembership(w: int)
    ensures w in WeightList() <==> OnGrid(w)
  {
    var L := WeightList();
    if OnGrid(w) {
      if w <= 40 {
        assert L[w / 2] == w;
      } else {
        assert L[21 + (w - 45) / 5] == w;
      }
    }
  }

  /** Increment moves every list entry but the last to the next entry. */
  lemma IncrementFollowsList(i: int)
    requires 0 <= i < 92
    ensures Increment(WeightList()[i]) == WeightList()[i + 1]
  {
  }

  /** At 20 kg, decrement emits 17.5 kg, which is not on the list. */
  lemma DecrementLeavesList()
    ensures Decrement(40) == Some(35)
    ensures 35 !in WeightList()
  {
    WeightListMembership(35);
  }

  /** The step for a downward move: 1 kg up to and including 20 kg, 2.5 kg above. */
  function StepDown(w: int): int
  {
    if w <= 40 then 2 else 5
  }

  /** `decrement` with the step chosen by the side of 20 kg the move lands on. */
  function DecrementOnGrid(w: int): (r: Option<int>)
    ensures r.Some? <==> w >= StepDown(w)
    ensures r.Some? ==> 0 <= r.value < w
  {
    if w - StepDown(w) >= 0 then Some(w - StepDown(w)) else None
  }

  /** The corrected decrement moves every list entry but the first to the previous entry, and undoes increment. */
  lemma DecrementOnGridFollowsList(i: int)
    requires 0 <= i < 93
    ensures i == 0 ==> DecrementOnGrid(WeightList()[i]) == None
    ensures i > 0 ==> DecrementOnGrid(WeightList()[i]) == Some(WeightList()[i - 1])
    ensures i < 92 ==> DecrementOnGrid(Increment(WeightList()[i])) == Some(WeightList()[i])
  {
    if i < 92 {
      IncrementFollowsList(i);
    }
  }
}
