/**
 * The exact comparison policy of the integer types (`ControlledComparable`
 * for `IntegerArithmeticType`) and the policy-based `min` and `max`.
 */
module Comparison {

  function IsLess(a: int, b: int): (r: bool)
    ensures r ==> a != b
  {
    a < b
  }

  /** `isGreater` is the converse of `isLess`. */
  function IsGreater(a: int, b: int): (r: bool)
    ensures r <==> IsLess(b, a)
  {
    a > b
  }

  /** Equality is exactly "neither greater nor less": the policy is a total order. */
  function IsEqual(a: int, b: int): (r: bool)
    ensures r <==> !IsGreater(a, b) && !IsLess(a, b)
  {
    a == b
  }

  /** `min(x, y)`: `y` when `x` is greater, otherwise `x`. */
  function Min(x: int, y: int): (r: int)
    ensures r == x || r == y
    ensures r <= x && r <= y
  {
    if IsGreater(x, y) then y else x
  }

  /** `max(x, y)`: `y` when `x` is less, otherwise `x`. */
  function Max(x: int, y: int): (r: int)
    ensures r == x || r == y
    ensures r >= x && r >= y
  {
    if IsLess(x, y) then y else x
  }

  /**
   * The integer policy is a strict total order: exactly one of `isLess`,
   * `isEqual` and `isGreater` holds, and `isLess` is transitive.
   */
  lemma PolicyIsTotalOrder(a: int, b: int, c: int)
    ensures IsLess(a, b) || IsEqual(a, b) || IsGreater(a, b)
    ensures !(IsLess(a, b) && IsGreater(a, b))
    ensures IsEqual(a, b) ==> !IsLess(a, b) && !IsGreater(a, b)
    ensures IsLess(a, b) && IsLess(b, c) ==> IsLess(a, c)
  {
  }
}
