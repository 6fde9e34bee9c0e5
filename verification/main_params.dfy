/** `adjust_param` from `src/main.cpp`: the earlier, free-function form of
    parameter tuning, with explicit increase/decrease flags and default
    bounds taken from `std::numeric_limits<float>`. */
module MainParams {
  import opened Controls

  /** `std::numeric_limits<float>::min()`: the smallest POSITIVE normal float, 2^-126. */
  const FLOAT_MIN_POSITIVE: real := 1.0 / 85070591730234615865843651857942052864.0

  /** `std::numeric_limits<float>::max()`: (2 - 2^-23) * 2^127. */
  const FLOAT_MAX: real := 340282346638528859811704183484516925440.0

  /** `std::numeric_limits<float>::lowest()`, the most negative float. */
  const FLOAT_LOWEST: real := -FLOAT_MAX

  /** `adjust_param` with explicit bounds: while the key is held, `increase`
      adds `step`, `decrease` subtracts it (both cancel), and the value is
      clamped with `max` before `min`. */
  function AdjustParam(
    value: real, l: KeyLayout, kb: Keyboard, key: char, step: real,
    increase: bool, decrease: bool, minVal: real, maxVal: real): (r: real)
    ensures !IsPressed(kb, ConvertKey(l, key)) ==> r == value
    ensures IsPressed(kb, ConvertKey(l, key)) ==>
      && (increase && !decrease ==> r == Clamp(minVal, maxVal, value + step))
      && (decrease && !increase ==> r == Clamp(minVal, maxVal, value - step))
      && (increase == decrease ==> r == Clamp(minVal, maxVal, value))
      && (minVal <= maxVal ==> minVal <= r <= maxVal)
      && (maxVal < minVal ==> r == maxVal)
  {
    if IsPressed(kb, ConvertKey(l, key)) then
      var v1 := if increase then value + step else value;
      var v2 := if decrease then v1 - step else v1;
      Clamp(minVal, maxVal, v2)
    else
      value
  }

  /** `adjust_param` called with its default bounds, as every call in
      `main` does. Because the default lower bound is the smallest positive
      float, holding the key always leaves a strictly positive value. */
  function AdjustParamDefaults(
    value: real, l: KeyLayout, kb: Keyboard, key: char, step: real,
    increase: bool, decrease: bool): (r: real)
    ensures IsPressed(kb, ConvertKey(l, key)) ==> FLOAT_MIN_POSITIVE <= r <= FLOAT_MAX && r > 0.0
    ensures !IsPressed(kb, ConvertKey(l, key)) ==> r == value
  {
    AdjustParam(value, l, kb, key, step, increase, decrease, FLOAT_MIN_POSITIVE, FLOAT_MAX)
  }

  /** With the default bounds a parameter at zero (the horizontal gravity
      starts there) cannot stay at zero or go negative: merely holding its
      key moves it to 2^-126, and decreasing it lands there too instead of
      at `-step`. */
  lemma DefaultLowerBoundRejectsZero(l: KeyLayout, kb: Keyboard, key: char, step: real)
    requires IsPressed(kb, ConvertKey(l, key)) && step > 0.0
    ensures AdjustParamDefaults(0.0, l, kb, key, step, false, false) == FLOAT_MIN_POSITIVE
    ensures AdjustParamDefaults(0.0, l, kb, key, step, false, true) == FLOAT_MIN_POSITIVE
    ensures AdjustParamDefaults(0.0, l, kb, key, step, false, true) != 0.0 - step
  {
  }

  /** `adjust_param` with `lowest()` as its default lower bound, the
      evidently intended full float range. */
  function AdjustParamLowestDefaults(
    value: real, l: KeyLayout, kb: Keyboard, key: char, step: real,
    increase: bool, decrease: bool): (r: real)
    ensures IsPressed(kb, ConvertKey(l, key)) ==> FLOAT_LOWEST <= r <= FLOAT_MAX
    ensures !IsPressed(kb, ConvertKey(l, key)) ==> r == value
  {
    AdjustParam(value, l, kb, key, step, increase, decrease, FLOAT_LOWEST, FLOAT_MAX)
  }

  /** With the full range as default, a held key moves a representable
      value by exactly one (non-negative) step in either direction, and
      zero or negative values stay reachable. */
  lemma LowestDefaultsMoveByStep(
    value: real, l: KeyLayout, kb: Keyboard, key: char, step: real, increase: bool, decrease: bool)
    requires IsPressed(kb, ConvertKey(l, key))
    requires FLOAT_LOWEST <= value <= FLOAT_MAX && step >= 0.0
    ensures increase == decrease ==> AdjustParamLowestDefaults(value, l, kb, key, step, increase, decrease) == value
    ensures decrease && !increase && FLOAT_LOWEST <= value - step ==>
      AdjustParamLowestDefaults(value, l, kb, key, step, increase, decrease) == value - step
    ensures increase && !decrease && value + step <= FLOAT_MAX ==>
      AdjustParamLowestDefaults(value, l, kb, key, step, increase, decrease) == value + step
  {
  }
}
