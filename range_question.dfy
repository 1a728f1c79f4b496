/** The answer-update rules of the two-handled range widget. */
module RangeQuestion {
  import opened Wrappers

  datatype RangeValue = RangeValue(min: int, max: int)

  const DefaultMinValue: int := 0
  const DefaultMaxValue: int := 100

  /** The range shown and edited: the answer if there is one, else the whole scale. */
  function CurrentValue(value: Option<RangeValue>, minValue: Option<int>, maxValue: Option<int>): (r: RangeValue)
    ensures value.Some? ==> r == value.value
    ensures value.None? ==> r.min == minValue.GetOr(DefaultMinValue) && r.max == maxValue.GetOr(DefaultMaxValue)
  {
    match value
    case Some(v) => v
    case None => RangeValue(minValue.GetOr(DefaultMinValue), maxValue.GetOr(DefaultMaxValue))
  }

  function Min(a: int, b: int): int { if a <= b then a else b }
  function Max(a: int, b: int): int { if a >= b then a else b }

  /** `handleMinChange`: the new lower end, never above the current upper end. */
  function HandleMinChange(current: RangeValue, newMin: int): (r: RangeValue)
    ensures r.max == current.max && r.min <= r.max
    ensures newMin <= current.max ==> r.min == newMin
    ensures newMin > current.max ==> r.min == current.max
  {
    current.(min := Min(newMin, current.max))
  }

  /** `handleMaxChange`: the new upper end, never below the current lower end. */
  function HandleMaxChange(current: RangeValue, newMax: int): (r: RangeValue)
    ensures r.min == current.min && r.min <= r.max
    ensures newMax >= current.min ==> r.max == newMax
    ensures newMax < current.min ==> r.max == current.min
  {
    current.(max := Max(newMax, current.min))
  }

  /** With no answer and no props the widget edits 0..100. */
  lemma DefaultRange()
    ensures CurrentValue(None, None, None) == RangeValue(0, 100)
    ensures HandleMinChange(CurrentValue(None, None, None), 150) == RangeValue(100, 100)
  {
  }
}
