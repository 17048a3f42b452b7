/**
 The rectangle contract as the sweep uses it: four inclusive sides over an
 unbounded integer coordinate, with `top` the larger y. The side-based
 constructor `new_from_sides(left, right, top, bottom)` of the contract is
 the datatype constructor `Rect(left, right, top, bottom)`.
 */
module Rectangles {

  datatype Rect = Rect(left: int, right: int, top: int, bottom: int)

  /** Sides in the expected order; the contract itself does not enforce it. */
  predicate WellFormed(r: Rect) {
    r.left <= r.right && r.bottom <= r.top
  }

  /** Sort key under which ascending order is descending `top`. */
  function ByDescendingTop(r: Rect): int {
    -r.top
  }

  /** The coordinate `min` and `max` the sweep uses. */
  function Min(a: int, b: int): int {
    if a <= b then a else b
  }

  function Max(a: int, b: int): int {
    if a <= b then b else a
  }
}
