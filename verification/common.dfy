/** Small shared vocabulary: optional values, as JavaScript's `undefined` fields. */
module Common {

  datatype Option<+T> = None | Some(value: T) {
    function GetOr(default: T): T {
      match this
      case Some(v) => v
      case None => default
    }
  }

  /** JavaScript's `x || d` for an optional number: a missing value or 0 becomes `d`. */
  function NumberOr(x: Option<real>, d: real): (r: real)
    ensures x.None? ==> r == d
    ensures x.Some? && x.value != 0.0 ==> r == x.value
    ensures x.Some? && x.value == 0.0 ==> r == d
  {
    if x.Some? && x.value != 0.0 then x.value else d
  }
}
