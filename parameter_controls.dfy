/** The parameter range editor (src/components/ParameterControls.tsx): every
    input edit replaces one field of one parameter's bounds, and the reset
    button emits the fixed defaults. Neither validates the range. */
module ParameterControls {
  import opened Types

  /** The keys of `ParameterRange`. */
  datatype Param = Temperature | TopP | MaxTokens

  /** The keys of one parameter's bounds. */
  datatype Field = Min | Max | Step

  function BoundOf(r: ParameterRange, p: Param): Bound
  {
    match p
    case Temperature => r.temperature
    case TopP => r.top_p
    case MaxTokens => r.max_tokens
  }

  function FieldOf(b: Bound, f: Field): real
  {
    match f
    case Min => b.min
    case Max => b.max
    case Step => b.step
  }

  /** The value the editor shows for field `f` of parameter `p`. */
  function Value(r: ParameterRange, p: Param, f: Field): real
  {
    FieldOf(BoundOf(r, p), f)
  }

  /** `{ ...bound, [field]: value }` */
  function WithField(b: Bound, f: Field, v: real): Bound
  {
    match f
    case Min => b.(min := v)
    case Max => b.(max := v)
    case Step => b.(step := v)
  }

  /** `updateParameter(param, field, value)`: the emitted range holds `value`
      at (`param`, `field`) and every other of its nine values unchanged. */
  function UpdateParameter(r: ParameterRange, p: Param, f: Field, v: real): (r': ParameterRange)
    ensures Value(r', p, f) == v
    ensures forall q, g :: q != p || g != f ==> Value(r', q, g) == Value(r, q, g)
  {
    var b := WithField(BoundOf(r, p), f, v);
    match p
    case Temperature => r.(temperature := b)
    case TopP => r.(top_p := b)
    case MaxTokens => r.(max_tokens := b)
  }

  /** Writing a field's current value back emits the same range. */
  lemma UpdateWithCurrentValue(r: ParameterRange, p: Param, f: Field)
    ensures UpdateParameter(r, p, f, Value(r, p, f)) == r
  {
  }

  /** A second edit of the same field overrides the first. */
  lemma UpdateLastWriteWins(r: ParameterRange, p: Param, f: Field, v: real, w: real)
    ensures UpdateParameter(UpdateParameter(r, p, f, v), p, f, w) == UpdateParameter(r, p, f, w)
  {
  }

  /** Edits of different fields do not interfere, whatever their order. */
  lemma UpdatesCommute(r: ParameterRange, p: Param, f: Field, v: real, q: Param, g: Field, w: real)
    requires p != q || f != g
    ensures UpdateParameter(UpdateParameter(r, p, f, v), q, g, w)
         == UpdateParameter(UpdateParameter(r, q, g, w), p, f, v)
  {
  }

  /** A sweep range whose bounds are ordered and whose steps are positive. */
  predicate WellFormed(r: ParameterRange)
  {
    forall p :: BoundOf(r, p).min <= BoundOf(r, p).max && BoundOf(r, p).step > 0.0
  }

  /** `resetToDefaults`: the literal defaults, whatever the current range. */
  function ResetToDefaults(current: ParameterRange): (r: ParameterRange)
    ensures Value(r, Temperature, Min) == 0.1 && Value(r, Temperature, Max) == 1.0 && Value(r, Temperature, Step) == 0.1
    ensures Value(r, TopP, Min) == 0.1 && Value(r, TopP, Max) == 1.0 && Value(r, TopP, Step) == 0.1
    ensures Value(r, MaxTokens, Min) == 100.0 && Value(r, MaxTokens, Max) == 1000.0 && Value(r, MaxTokens, Step) == 100.0
  {
    ParameterRange(
      Bound(0.1, 1.0, 0.1),
      Bound(0.1, 1.0, 0.1),
      Bound(100.0, 1000.0, 100.0))
  }

  /** The defaults are a well-formed sweep range. */
  lemma DefaultsWellFormed(current: ParameterRange)
    ensures WellFormed(ResetToDefaults(current))
  {
  }

  /** Resetting ignores the current range, so resetting twice is resetting once. */
  lemma ResetIgnoresInput(r1: ParameterRange, r2: ParameterRange)
    ensures ResetToDefaults(r1) == ResetToDefaults(r2)
    ensures ResetToDefaults(ResetToDefaults(r1)) == ResetToDefaults(r1)
  {
  }

  /** The editor does not validate: from the defaults, one edit yields a
      range with min above max, and another a zero step. */
  lemma UpdateDoesNotValidate(current: ParameterRange)
    ensures !WellFormed(UpdateParameter(ResetToDefaults(current), Temperature, Min, 2.0))
    ensures !WellFormed(UpdateParameter(ResetToDefaults(current), MaxTokens, Step, 0.0))
  {
  }
}
