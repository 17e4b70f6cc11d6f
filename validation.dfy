/** The two input checks of the submit handler: `allNumbers` and
    `allPositive`, each an `every` over its arguments. */
module Validation {
  import opened JsNumbers

  /** `inputs.every(inp => Number.isFinite(inp))` */
  function AllNumbers(inputs: seq<JsNumber>): (r: bool)
    ensures r <==> forall i :: 0 <= i < |inputs| ==> IsFinite(inputs[i])
  {
    |inputs| == 0 || (IsFinite(inputs[0]) && AllNumbers(inputs[1..]))
  }

  /** `inputs.every(inp => inp > 0)` */
  function AllPositive(inputs: seq<JsNumber>): (r: bool)
    ensures r <==> forall i :: 0 <= i < |inputs| ==> GreaterThanZero(inputs[i])
  {
    |inputs| == 0 || (GreaterThanZero(inputs[0]) && AllPositive(inputs[1..]))
  }
}
