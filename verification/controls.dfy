/** Live parameter tuning from `src/controls.cpp`: mapping a parameter's
    key character to a keyboard key, and the per-frame adjust/reset/clamp
    rule. The keyboard is a snapshot of the set of pressed key codes; the
    SFML key codes are abstract ordinals given by a `KeyLayout`. */
module Controls {
  import opened Wrappers

  /** The ordinals of the `sf::Keyboard::Key` values the code uses. */
  datatype KeyLayout = KeyLayout(
    a: int, num0: int, unknown: int,
    add: int, equal: int, subtract: int, hyphen: int, backspace: int)

  /** The letter keys `a .. a+25`, the digit keys `num0 .. num0+9` and
      `unknown` do not overlap, as in SFML's key enumeration. */
  predicate Separated(l: KeyLayout) {
    && (l.a + 26 <= l.num0 || l.num0 + 10 <= l.a)
    && !(l.a <= l.unknown < l.a + 26)
    && !(l.num0 <= l.unknown < l.num0 + 10)
  }

  predicate IsUpper(c: char) {
    'A' <= c <= 'Z'
  }

  predicate IsDigit(c: char) {
    '0' <= c <= '9'
  }

  /** `Param::convert_key` (and the identical free function in `main.cpp`):
      upper-case letters and digits map onto their key runs, everything
      else (lower case included) to `Unknown`. */
  function ConvertKey(l: KeyLayout, c: char): int {
    if IsUpper(c) then c as int - 'A' as int + l.a
    else if IsDigit(c) then c as int - '0' as int + l.num0
    else l.unknown
  }

  /** The character a key code stands for, when it is a letter or digit key. */
  function KeyChar(l: KeyLayout, code: int): Option<char> {
    if l.a <= code < l.a + 26 then Some((code - l.a + 'A' as int) as char)
    else if l.num0 <= code < l.num0 + 10 then Some((code - l.num0 + '0' as int) as char)
    else None
  }

  /** Letters and digits map onto consecutive codes starting at `Key::A`
      and `Key::Num0`. */
  lemma ConvertKeyRuns(l: KeyLayout, c: char)
    ensures ConvertKey(l, 'A') == l.a && ConvertKey(l, '0') == l.num0
    ensures 'A' <= c < 'Z' ==> ConvertKey(l, (c as int + 1) as char) == ConvertKey(l, c) + 1
    ensures '0' <= c < '9' ==> ConvertKey(l, (c as int + 1) as char) == ConvertKey(l, c) + 1
  {
  }

  /** In a separated layout a character maps to `Unknown` exactly when it
      is neither an upper-case letter nor a digit, and the letter and digit
      keys decode back to the character they came from. */
  lemma ConvertKeyRoundTrip(l: KeyLayout, c: char)
    requires Separated(l)
    ensures ConvertKey(l, c) == l.unknown <==> !IsUpper(c) && !IsDigit(c)
    ensures IsUpper(c) || IsDigit(c) ==> KeyChar(l, ConvertKey(l, c)) == Some(c)
  {
  }

  /** Every letter or digit key is the image of its decoded character. */
  lemma KeyCharRoundTrip(l: KeyLayout, code: int)
    requires Separated(l) && KeyChar(l, code).Some?
    ensures IsUpper(KeyChar(l, code).value) || IsDigit(KeyChar(l, code).value)
    ensures ConvertKey(l, KeyChar(l, code).value) == code
  {
  }

  /** A snapshot of `sf::Keyboard::isKeyPressed`. */
  datatype Keyboard = Keyboard(pressed: set<int>)

  predicate IsPressed(kb: Keyboard, code: int) {
    code in kb.pressed
  }

  /** `std::min(hi, std::max(lo, v))`. Inside a non-empty range it is the
      clamp; when `lo > hi` the later `min` wins and the result is `hi`. */
  function Clamp(lo: real, hi: real, v: real): (r: real)
    ensures lo <= hi ==> lo <= r <= hi
    ensures lo <= v <= hi ==> r == v
    ensures v < lo && lo <= hi ==> r == lo
    ensures hi < v ==> r == hi
    ensures hi < lo ==> r == hi
  {
    var low := if lo < v then v else lo;
    if low < hi then low else hi
  }

  /** A tunable parameter. In the source `value` is a reference into the
      sandbox's parameter block; here the parameter owns it. */
  datatype Param = Param(
    name: string, key: char, defaultValue: real, value: real,
    stepSize: real, minValue: real, maxValue: real)

  /** `Param::update`: while the parameter's key is held, '+' or '=' adds
      `stepSize * dt`, '-' (keypad or main row) subtracts it, backspace
      resets to the default, and the result is clamped. Only the value
      ever changes. */
  function UpdateParam(p: Param, l: KeyLayout, kb: Keyboard, dt: real): (r: Param)
    ensures r.(value := p.value) == p
    ensures !IsPressed(kb, ConvertKey(l, p.key)) ==> r == p
    ensures IsPressed(kb, ConvertKey(l, p.key)) ==>
      var plus := IsPressed(kb, l.add) || IsPressed(kb, l.equal);
      var minus := IsPressed(kb, l.subtract) || IsPressed(kb, l.hyphen);
      && (IsPressed(kb, l.backspace) ==> r.value == Clamp(p.minValue, p.maxValue, p.defaultValue))
      && (!IsPressed(kb, l.backspace) && plus && !minus ==>
            r.value == Clamp(p.minValue, p.maxValue, p.value + p.stepSize * dt))
      && (!IsPressed(kb, l.backspace) && minus && !plus ==>
            r.value == Clamp(p.minValue, p.maxValue, p.value - p.stepSize * dt))
      && (!IsPressed(kb, l.backspace) && plus == minus ==>
            r.value == Clamp(p.minValue, p.maxValue, p.value))
      && (p.minValue <= p.maxValue ==> p.minValue <= r.value <= p.maxValue)
  {
    if IsPressed(kb, ConvertKey(l, p.key)) then
      var v1 := if IsPressed(kb, l.add) || IsPressed(kb, l.equal) then p.value + p.stepSize * dt else p.value;
      var v2 := if IsPressed(kb, l.subtract) || IsPressed(kb, l.hyphen) then v1 - p.stepSize * dt else v1;
      var v3 := if IsPressed(kb, l.backspace) then p.defaultValue else v2;
      p.(value := Clamp(p.minValue, p.maxValue, v3))
    else
      p
  }

  /** The state `ControlsDisplay::update` touches: the parameter list and
      the last frame time. */
  datatype ControlsDisplay = ControlsDisplay(params: seq<Param>, dt: real)

  /** `ControlsDisplay::update`: record `dt`, then update every parameter
      once, in order. */
  method UpdateDisplay(c: ControlsDisplay, l: KeyLayout, kb: Keyboard, dt: real)
    returns (r: ControlsDisplay)
    ensures r.dt == dt
    ensures |r.params| == |c.params|
    ensures forall i :: 0 <= i < |c.params| ==> r.params[i] == UpdateParam(c.params[i], l, kb, dt)
  {
    var params := c.params;
    var i := 0;
    while i < |params|
      invariant 0 <= i <= |params| == |c.params|
      invariant forall j :: 0 <= j < i ==> params[j] == UpdateParam(c.params[j], l, kb, dt)
      invariant forall j :: i <= j < |params| ==> params[j] == c.params[j]
    {
      params := params[i := UpdateParam(params[i], l, kb, dt)];
      i := i + 1;
    }
    r := ControlsDisplay(params, dt);
  }
}
