/**
 * The page's big weight buttons (app/page.tsx): each builds the weight list
 * with two push loops, looks the current weight up in it, and dispatches
 * SET_WEIGHT with the neighbouring entry. A weight that is not on the list
 * (reached with the 0.5 kg buttons) is first replaced by the closest entry.
 * `None` is "no dispatch". Weights are half-kilograms.
 *
 * The rules are stated over any strictly increasing list `vals` with at
 * least two entries, then applied to the weight list.
 */
module HomeWeight {
  import opened Wrappers
  import Arrays
  import WeightInput

  function Distance(a: int, w: int): int
  {
    if a >= w then a - w else w - a
  }

  /**
   * The position of `vals.reduce((prev, curr) => |curr - w| < |prev - w| ? curr : prev)`
   * among the first `n` entries: the reduce keeps its accumulator unless an
   * entry is strictly closer, so it lands on the first of the closest entries.
   */
  function ClosestIndex(vals: seq<int>, w: int, n: int): (r: int)
    requires 1 <= n <= |vals|
    ensures 0 <= r < n
    ensures forall i :: 0 <= i < n ==> Distance(vals[r], w) <= Distance(vals[i], w)
    ensures forall i :: 0 <= i < r ==> Distance(vals[i], w) > Distance(vals[r], w)
  {
    if n == 1 then 0
    else
      var p := ClosestIndex(vals, w, n - 1);
      if Distance(vals[n - 1], w) < Distance(vals[p], w) then n - 1 else p
  }

  /** The value the reduce returns. */
  function Closest(vals: seq<int>, w: int): int
    requires |vals| > 0
  {
    vals[ClosestIndex(vals, w, |vals|)]
  }

  /** The − button's rule: the previous entry, or for an off-list weight above 0 the entry before the closest one. */
  function PreviousEntry(vals: seq<int>, w: int): (r: Option<int>)
    requires |vals| > 0
    ensures r.Some? ==> r.value in vals
  {
    var currentIndex := Arrays.IndexOf(vals, w);
    if currentIndex > 0 then Some(vals[currentIndex - 1])
    else if currentIndex == -1 && w > 0 then
      var closestIndex := Arrays.IndexOf(vals, Closest(vals, w));
      if closestIndex > 0 then Some(vals[closestIndex - 1]) else None
    else None
  }

  /** The + button's rule: the next entry, or for an off-list weight the entry after the closest one. */
  function NextEntry(vals: seq<int>, w: int): (r: Option<int>)
    requires |vals| > 0
    ensures r.Some? ==> r.value in vals
  {
    var currentIndex := Arrays.IndexOf(vals, w);
    if currentIndex != -1 && currentIndex < |vals| - 1 then Some(vals[currentIndex + 1])
    else if currentIndex == -1 then
      var closestIndex := Arrays.IndexOf(vals, Closest(vals, w));
      if closestIndex < |vals| - 1 then Some(vals[closestIndex + 1]) else None
    else None
  }

  /** The − button's handler. */
  method DecreaseWeight(w: int) returns (r: Option<int>)
    ensures r == PreviousEntry(WeightInput.WeightList(), w)
  {
    var vals := WeightInput.GenerateWeightValues();
    var currentIndex := Arrays.IndexOf(vals, w);
    r := None;
    if currentIndex > 0 {
      r := Some(vals[currentIndex - 1]);
    } else if currentIndex == -1 && w > 0 {
      var closest := Closest(vals, w);
      var closestIndex := Arrays.IndexOf(vals, closest);
      if closestIndex > 0 {
        r := Some(vals[closestIndex - 1]);
      }
    }
  }

  /** The + button's handler. */
  method IncreaseWeight(w: int) returns (r: Option<int>)
    ensures r == NextEntry(WeightInput.WeightList(), w)
  {
    var vals := WeightInput.GenerateWeightValues();
    var currentIndex := Arrays.IndexOf(vals, w);
    r := None;
    if currentIndex != -1 && currentIndex < |vals| - 1 {
      r := Some(vals[currentIndex + 1]);
    } else if currentIndex == -1 {
      var closest := Closest(vals, w);
      var closestIndex := Arrays.IndexOf(vals, closest);
      if closestIndex < |vals| - 1 {
        r := Some(vals[closestIndex + 1]);
      }
    }
  }

  /** In a strictly increasing list, `indexOf` of the closest value is the reduce's position. */
  lemma ClosestPosition(vals: seq<int>, w: int)
    requires Arrays.StrictlyIncreasing(vals) && |vals| > 0
    ensures Arrays.IndexOf(vals, Closest(vals, w)) == ClosestIndex(vals, w, |vals|)
  {
    Arrays.IndexOfIncreasing(vals, ClosestIndex(vals, w, |vals|));
  }

  /** The closest entry is the first exactly when `w` is no further from the first entry than from the second. */
  lemma ClosestIsFirst(vals: seq<int>, w: int)
    requires Arrays.StrictlyIncreasing(vals) && |vals| >= 2
    ensures ClosestIndex(vals, w, |vals|) == 0 <==> 2 * w <= vals[0] + vals[1]
  {
    var k := ClosestIndex(vals, w, |vals|);
    if k != 0 {
      assert vals[1] <= vals[k];
    }
  }

  /** The closest entry is the last exactly when `w` is strictly nearer to it than to the one before. */
  lemma ClosestIsLast(vals: seq<int>, w: int)
    requires Arrays.StrictlyIncreasing(vals) && |vals| >= 2
    ensures ClosestIndex(vals, w, |vals|) == |vals| - 1 <==> 2 * w > vals[|vals| - 2] + vals[|vals| - 1]
  {
    var n := |vals|;
    var k := ClosestIndex(vals, w, n);
    if k != n - 1 {
      assert vals[k] <= vals[n - 2];
    }
  }

  /** On the list, − moves to the previous entry and does nothing at the first. */
  lemma PreviousOnList(vals: seq<int>, i: int)
    requires Arrays.StrictlyIncreasing(vals)
    requires 0 <= i < |vals|
    ensures PreviousEntry(vals, vals[i]) == if i > 0 then Some(vals[i - 1]) else None
  {
    Arrays.IndexOfIncreasing(vals, i);
  }

  /** On the list, + moves to the next entry and does nothing at the last. */
  lemma NextOnList(vals: seq<int>, i: int)
    requires Arrays.StrictlyIncreasing(vals)
    requires 0 <= i < |vals|
    ensures NextEntry(vals, vals[i]) == if i < |vals| - 1 then Some(vals[i + 1]) else None
  {
    Arrays.IndexOfIncreasing(vals, i);
  }

  /** Whenever − dispatches, it dispatches an entry strictly below the current weight. */
  lemma PreviousIsBelow(vals: seq<int>, w: int)
    requires Arrays.StrictlyIncreasing(vals) && |vals| > 0
    ensures PreviousEntry(vals, w).Some? ==> PreviousEntry(vals, w).value in vals && PreviousEntry(vals, w).value < w
  {
    var ci := Arrays.IndexOf(vals, w);
    if ci == -1 && w > 0 {
      ClosestPosition(vals, w);
      var k := ClosestIndex(vals, w, |vals|);
      if k > 0 {
        assert vals[k - 1] < vals[k];
      }
    } else if ci > 0 {
      assert vals[ci - 1] < vals[ci];
    }
  }

  /** Whenever + dispatches, it dispatches an entry strictly above the current weight. */
  lemma NextIsAbove(vals: seq<int>, w: int)
    requires Arrays.StrictlyIncreasing(vals) && |vals| > 0
    ensures NextEntry(vals, w).Some? ==> NextEntry(vals, w).value in vals && NextEntry(vals, w).value > w
  {
    var ci := Arrays.IndexOf(vals, w);
    if ci == -1 {
      ClosestPosition(vals, w);
      var k := ClosestIndex(vals, w, |vals|);
      if k < |vals| - 1 {
        assert vals[k] < vals[k + 1];
      }
    } else if ci < |vals| - 1 {
      assert vals[ci] < vals[ci + 1];
    }
  }

  /** When − does nothing: at the first entry, at or below 0, or nearer the first entry than the second. */
  lemma PreviousNone(vals: seq<int>, w: int)
    requires Arrays.StrictlyIncreasing(vals) && |vals| >= 2
    ensures PreviousEntry(vals, w).None? <==>
      w == vals[0] || (w !in vals && (w <= 0 || 2 * w <= vals[0] + vals[1]))
  {
    var ci := Arrays.IndexOf(vals, w);
    if ci == -1 {
      ClosestPosition(vals, w);
      ClosestIsFirst(vals, w);
    } else {
      Arrays.IndexOfIncreasing(vals, 0);
    }
  }

  /** When + does nothing: exactly when `w` is nearer the last entry than the one before (or beyond it). */
  lemma NextNone(vals: seq<int>, w: int)
    requires Arrays.StrictlyIncreasing(vals) && |vals| >= 2
    ensures NextEntry(vals, w).None? <==> 2 * w > vals[|vals| - 2] + vals[|vals| - 1]
  {
    var n := |vals|;
    var ci := Arrays.IndexOf(vals, w);
    if ci == -1 {
      ClosestPosition(vals, w);
      ClosestIsLast(vals, w);
    } else if ci < n - 1 {
      assert vals[ci] <= vals[n - 2];
    }
  }

  /** On the weight list: − is a no-op exactly at 0.5 kg and below, + exactly from 199 kg on. */
  lemma WeightButtonsStop(w: int)
    ensures PreviousEntry(WeightInput.WeightList(), w).None? <==> w <= 1
    ensures NextEntry(WeightInput.WeightList(), w).None? <==> w >= 398
  {
    WeightInput.WeightListShape();
    WeightInput.WeightListMembership(w);
    PreviousNone(WeightInput.WeightList(), w);
    NextNone(WeightInput.WeightList(), w);
  }

  /** 20 kg steps down to 19 kg and 22.5 kg to 20 kg. */
  lemma DownExamples()
    ensures PreviousEntry(WeightInput.WeightList(), 40) == Some(38)
    ensures PreviousEntry(WeightInput.WeightList(), 45) == Some(40)
  {
    WeightInput.WeightListShape();
    PreviousOnList(WeightInput.WeightList(), 20);
    PreviousOnList(WeightInput.WeightList(), 21);
  }

  /** An entry strictly closer than every other one is the one the reduce returns. */
  lemma UniqueClosest(vals: seq<int>, w: int, j: int)
    requires 0 <= j < |vals|
    requires forall i :: 0 <= i < |vals| && i != j ==> Distance(vals[j], w) < Distance(vals[i], w)
    ensures ClosestIndex(vals, w, |vals|) == j
  {
  }

  /** The entry closest to 20.5 kg is 20 kg, at position 20. */
  lemma ClosestToOffListWeight()
    ensures |WeightInput.WeightList()| == 93
    ensures ClosestIndex(WeightInput.WeightList(), 41, 93) == 20
  {
    var L := WeightInput.WeightList();
    WeightInput.WeightListShape();
    forall i | 0 <= i < 93 && i != 20
      ensures Distance(L[20], 41) < Distance(L[i], 41)
    {
      if i < 20 {
        assert L[i] < L[20];
      } else if i > 21 {
        assert L[21] < L[i];
      }
    }
    UniqueClosest(L, 41, 20);
  }

  /** An off-list 20.5 kg snaps to the closest entry, 20 kg, and steps down past it to 19 kg. */
  lemma OffListExample()
    ensures PreviousEntry(WeightInput.WeightList(), 41) == Some(38)
  {
    var L := WeightInput.WeightList();
    WeightInput.WeightListShape();
    WeightInput.WeightListMembership(41);
    ClosestToOffListWeight();
    ClosestPosition(L, 41);
  }
}
