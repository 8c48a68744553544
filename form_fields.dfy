/**
 * How the calculators turn form fields into numbers.
 *
 * A field reaches the model already parsed: `Some(x)` when the browser's
 * `parseFloat`/`parseInt` found a number, `None` when the field was empty or
 * did not start with a number (JavaScript's NaN). The page then writes
 * `parsed || 0`, which turns NaN (and 0) into 0, and divides every rate
 * field, entered in percent, by 100.
 */
module FormFields {
  import opened Wrappers

  /** `parseFloat(field) || 0`: an absent or unparseable amount counts as 0. */
  function NumberOr0(field: Option<real>): (x: real)
    ensures field.None? ==> x == 0.0
    ensures field.Some? ==> x == field.value
  {
    match field
    case None => 0.0
    case Some(v) => v
  }

  /** `(parseFloat(field) || 0) / 100`: a rate entered in percent, as a fraction. */
  function PercentOr0(field: Option<real>): (rate: real)
    ensures field.None? ==> rate == 0.0
    ensures field.Some? ==> 100.0 * rate == field.value
  {
    NumberOr0(field) / 100.0
  }

  /** `parseInt(field, 10) || 0`: an absent or unparseable whole number counts as 0. */
  function IntOr0(field: Option<int>): (n: int)
    ensures field.None? ==> n == 0
    ensures field.Some? ==> n == field.value
  {
    match field
    case None => 0
    case Some(v) => v
  }
}
