/** The buttons of the rating widget. */
module RatingQuestion {
  import opened Wrappers

  const DefaultMinValue: int := 0
  const DefaultMaxValue: int := 10

  /** `Array.from({length: max - min + 1}, (_, i) => min + i)`; a negative length gives no buttons. */
  function Values(minValue: int, maxValue: int): (r: seq<int>)
    ensures |r| == if maxValue >= minValue then maxValue - minValue + 1 else 0
    ensures forall i :: 0 <= i < |r| ==> r[i] == minValue + i
  {
    var n := if maxValue - minValue + 1 > 0 then maxValue - minValue + 1 else 0;
    seq(n, i requires 0 <= i < n => minValue + i)
  }

  /** The offered values are exactly the integers from min to max. */
  lemma ValuesMembership(minValue: int, maxValue: int, v: int)
    ensures v in Values(minValue, maxValue) <==> minValue <= v <= maxValue
  {
    var r := Values(minValue, maxValue);
    if minValue <= v <= maxValue {
      assert r[v - minValue] == v;
    }
  }

  /** The offered values strictly increase. */
  lemma ValuesIncreasing(minValue: int, maxValue: int)
    ensures forall i, j :: 0 <= i < j < |Values(minValue, maxValue)| ==>
      Values(minValue, maxValue)[i] < Values(minValue, maxValue)[j]
  {
  }

  /** With the defaults the widget offers 0 through 10. */
  lemma DefaultValues()
    ensures Values(DefaultMinValue, DefaultMaxValue) == [0, 1, 2, 3, 4, 5, 6, 7, 8, 9, 10]
  {
  }

  /** `aria-checked={value === val}`. */
  predicate IsChecked(value: Option<int>, val: int) {
    value == Some(val)
  }

  /** Exactly the button equal to the answer is checked; none when there is no answer or it is off the scale. */
  lemma CheckedButton(value: Option<int>, minValue: int, maxValue: int)
    ensures var r := Values(minValue, maxValue);
      && (forall i, j :: 0 <= i < |r| && 0 <= j < |r| && IsChecked(value, r[i]) && IsChecked(value, r[j]) ==> i == j)
      && ((exists i :: 0 <= i < |r| && IsChecked(value, r[i])) <==> value.Some? && minValue <= value.value <= maxValue)
  {
    var r := Values(minValue, maxValue);
    if value.Some? && minValue <= value.value <= maxValue {
      assert IsChecked(value, r[value.value - minValue]);
    }
  }

  /** The value a click on button `i` passes to `onChange` is on the scale. */
  function OnButtonClick(minValue: int, maxValue: int, i: nat): (v: int)
    requires i < |Values(minValue, maxValue)|
    ensures minValue <= v <= maxValue
  {
    Values(minValue, maxValue)[i]
  }
}
