/** Small shared vocabulary: optional values, integer extrema and sequence order. */
module Prelude {

  datatype Option<+T> = None | Some(value: T)

  function Max(x: int, y: int): (r: int)
    ensures r >= x && r >= y && (r == x || r == y)
  {
    if x >= y then x else y
  }

  function Min(x: int, y: int): (r: int)
    ensures r <= x && r <= y && (r == x || r == y)
  {
    if x <= y then x else y
  }
}
