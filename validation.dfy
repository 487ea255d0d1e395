/**
 * Input validation shared by the CLI and the service installer. The regular
 * expression is opaque here: a pattern carries its source text (empty text
 * counts as "no pattern", as in Python) and the predicate `re.match` computes.
 */
module Validation {
  import opened Wrappers

  datatype Pattern = Pattern(text: string, matches: string -> bool)

  /** True when the pattern takes part in validation at all: Python skips a `None` or empty pattern. */
  predicate Active(pattern: Option<Pattern>) {
    pattern.Some? && pattern.value.text != []
  }

  /** `validate_input(value, pattern)`: rejects an empty value, then a value the pattern does not match. */
  function ValidateInput(value: string, pattern: Option<Pattern>): (ok: bool)
    ensures value == [] ==> !ok
    ensures !Active(pattern) ==> (ok <==> value != [])
    ensures Active(pattern) ==> (ok <==> value != [] && pattern.value.matches(value))
  {
    if value == [] then false
    else if Active(pattern) && !pattern.value.matches(value) then false
    else true
  }
}
