/** `QuantitySelector`: a number field between two buttons. The buttons step
    the value by one inside `[min, max]`; typed text is parsed on blur (or
    Enter), clamped into the bounds and written back. */
module QuantitySelector {
  import opened Opt
  import Text

  /** The props that drive the behaviour, with the defaults applied. */
  datatype Props = Props(value: int, min: int, max: int, disabled: bool)

  /** Default parameters apply to `undefined` only: min 1, max 99, enabled. */
  function WithDefaults(value: int, min: Option<int>, max: Option<int>, disabled: Option<bool>): (p: Props)
    ensures p.value == value
    ensures min.None? ==> p.min == 1
    ensures max.None? ==> p.max == 99
    ensures disabled.None? ==> !p.disabled
    ensures min.Some? ==> p.min == min.value
    ensures max.Some? ==> p.max == max.value
    ensures disabled.Some? ==> p.disabled == disabled.value
  {
    Props(value, min.GetOr(1), max.GetOr(99), disabled.GetOr(false))
  }

  /** `handleIncrement`: the value to hand to `onChange`, if any. */
  function Increment(p: Props): (r: Option<int>)
    ensures r.Some? <==> p.value < p.max
    ensures r.Some? ==> r.value == p.value + 1 && r.value <= p.max
  {
    if p.value < p.max then Some(p.value + 1) else None
  }

  /** `handleDecrement`. */
  function Decrement(p: Props): (r: Option<int>)
    ensures r.Some? <==> p.value > p.min
    ensures r.Some? ==> r.value == p.value - 1 && r.value >= p.min
  {
    if p.value > p.min then Some(p.value - 1) else None
  }

  predicate DecrementDisabled(p: Props) {
    p.disabled || p.value <= p.min
  }

  predicate IncrementDisabled(p: Props) {
    p.disabled || p.value >= p.max
  }

  /** A button that is not switched off as a whole is enabled exactly when its
      handler would emit a value. */
  lemma ButtonsMatchHandlers(p: Props)
    requires !p.disabled
    ensures !IncrementDisabled(p) <==> Increment(p).Some?
    ensures !DecrementDisabled(p) <==> Decrement(p).Some?
  {
  }

  /** The clamp of `handleBlur`: text that does not parse, or parses below
      `min`, gives `min`; above `max` gives `max`; otherwise the parsed value. */
  function Clamp(parsed: Option<int>, min: int, max: int): (n: int)
    ensures parsed.None? ==> n == min
    ensures parsed.Some? && parsed.value < min ==> n == min
    ensures parsed.Some? && min <= parsed.value && parsed.value > max ==> n == max
    ensures parsed.Some? && min <= parsed.value <= max ==> n == parsed.value
    ensures min <= max ==> min <= n <= max
  {
    if parsed.None? || parsed.value < min then min
    else if parsed.value > max then max
    else parsed.value
  }

  /** What a blur does: the text the field is reset to and the value handed
      to `onChange`, if any. */
  datatype BlurResult = BlurResult(text: string, emitted: Option<int>)

  /** `handleBlur` on the field's current text: the field is rewritten to the
      decimal spelling of the clamped value, which is emitted when it differs
      from the current value. */
  function Blur(p: Props, text: string): (b: BlurResult)
    ensures var n := Clamp(Text.ParseInt(text), p.min, p.max);
            && Text.IsDecimalOf(b.text, n) && Text.ParseInt(b.text) == Some(n)
            && (b.emitted.Some? <==> n != p.value)
            && (b.emitted.Some? ==> b.emitted.value == n)
    ensures p.min <= p.max && b.emitted.Some? ==> p.min <= b.emitted.value <= p.max
  {
    var n := Clamp(Text.ParseInt(text), p.min, p.max);
    Text.ParseIntRoundTrip(n);
    BlurResult(Text.IntToString(n), if n != p.value then Some(n) else None)
  }

  /** `handleKeyDown`: Enter is a blur, any other key does nothing. */
  function KeyDown(p: Props, text: string, key: string): (r: Option<BlurResult>)
    ensures key == "Enter" ==> r == Some(Blur(p, text))
    ensures key != "Enter" ==> r.None?
  {
    if key == "Enter" then Some(Blur(p, text)) else None
  }

  /** Blur is stable: once its value is taken up, a second blur of the text it
      wrote back changes nothing and emits nothing. */
  lemma BlurStable(p: Props, text: string)
    requires p.min <= p.max
    ensures var b := Blur(p, text);
            var n := Clamp(Text.ParseInt(text), p.min, p.max);
            Blur(p.(value := n), b.text) == BlurResult(b.text, None)
  {
    var n := Clamp(Text.ParseInt(text), p.min, p.max);
    var b := Blur(p, text);
    Text.ParseIntRoundTrip(n);
    assert Text.ParseInt(b.text) == Some(n);
  }

  /** A value already in range is kept by a blur of its own text. */
  lemma BlurKeepsInRange(p: Props)
    requires p.min <= p.value <= p.max
    ensures Blur(p, Text.IntToString(p.value)).emitted.None?
  {
    Text.ParseIntRoundTrip(p.value);
  }

  /** With the default bounds every emitted value is a quantity from 1 to 99. */
  lemma DefaultsEmitQuantities(value: int, text: string)
    ensures var p := WithDefaults(value, None, None, None);
            && (Increment(p).Some? && value >= 0 ==> 1 <= Increment(p).value <= 99)
            && (Decrement(p).Some? ==> 1 <= Decrement(p).value)
            && (Blur(p, text).emitted.Some? ==> 1 <= Blur(p, text).emitted.value <= 99)
  {
  }
}
