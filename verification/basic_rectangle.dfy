/**
 The concrete rectangle of the library: 32-bit signed coordinates stored as
 the top-left corner `(x, y)` with a `width` and a `height`, and the four
 side accessors and the side-based constructor of the rectangle contract.

 Every addition and subtraction is the source's `i32` arithmetic, which
 must not leave the `i32` range; the requires clauses say so, including
 for the intermediate `x + width` and `y - height`.

 The accessors read the sides as inclusive (`right = x + width - 1`) while
 the constructor stores the exclusive width (`width = right - left`), so
 `right` and `bottom` do not survive a round trip. `CorrectedRight` and
 `CorrectedBottom` read the stored width and height as the constructor
 writes them, and with them the round trip is exact.
 */
module BasicRectangles {

  newtype i32 = v: int | -0x8000_0000 <= v < 0x8000_0000

  predicate InI32(v: int) {
    -0x8000_0000 <= v < 0x8000_0000
  }

  datatype BasicRectangle = BasicRectangle(x: i32, y: i32, width: i32, height: i32)

  function Left(b: BasicRectangle): i32 {
    b.x
  }

  function Right(b: BasicRectangle): i32
    requires InI32(b.x as int + b.width as int) && InI32(b.x as int + b.width as int - 1)
  {
    b.x + b.width - 1
  }

  function Top(b: BasicRectangle): i32 {
    b.y
  }

  function Bottom(b: BasicRectangle): i32
    requires InI32(b.y as int - b.height as int) && InI32(b.y as int - b.height as int + 1)
  {
    b.y - b.height + 1
  }

  /** The constructor as written: `left` and `top` come back exactly, but
      `right` comes back one less and `bottom` one more. */
  function NewFromSides(left: i32, right: i32, top: i32, bottom: i32): (r: BasicRectangle)
    requires InI32(right as int - left as int) && InI32(top as int - bottom as int)
    ensures Left(r) == left && Top(r) == top
    ensures r.x as int + r.width as int == right as int && r.y as int - r.height as int == bottom as int
    ensures InI32(right as int - 1) ==> Right(r) as int == right as int - 1
    ensures InI32(bottom as int + 1) ==> Bottom(r) as int == bottom as int + 1
  {
    BasicRectangle(left, top, right - left, top - bottom)
  }

  /** The accessors see a side distance one less than the stored extent. */
  lemma SpanIsExtentLessOne(b: BasicRectangle)
    requires InI32(b.x as int + b.width as int) && InI32(b.x as int + b.width as int - 1)
    requires InI32(b.y as int - b.height as int) && InI32(b.y as int - b.height as int + 1)
    ensures Right(b) as int - Left(b) as int == b.width as int - 1
    ensures Top(b) as int - Bottom(b) as int == b.height as int - 1
  {
  }

  /** The sides of the library's own round-trip example, `(0, 1, 2, 3)`, come
      back as `(0, 0, 2, 4)`; the library's test expects right 1 and bottom 3. */
  lemma RoundTripExampleFails()
    ensures Left(NewFromSides(0, 1, 2, 3)) == 0 && Top(NewFromSides(0, 1, 2, 3)) == 2
    ensures Right(NewFromSides(0, 1, 2, 3)) == 0
    ensures Bottom(NewFromSides(0, 1, 2, 3)) == 4
  {
    assert NewFromSides(0, 1, 2, 3) == BasicRectangle(0, 2, 1, -1);
  }

  /** `right` read as the constructor stores it: `x + width`. */
  function CorrectedRight(b: BasicRectangle): i32
    requires InI32(b.x as int + b.width as int)
  {
    b.x + b.width
  }

  /** `bottom` read as the constructor stores it: `y - height`. */
  function CorrectedBottom(b: BasicRectangle): i32
    requires InI32(b.y as int - b.height as int)
  {
    b.y - b.height
  }

  /** With the corrected accessors every side survives the round trip, for
      all sides whose differences fit in `i32`. */
  lemma CorrectedRoundTrip(left: i32, right: i32, top: i32, bottom: i32)
    requires InI32(right as int - left as int) && InI32(top as int - bottom as int)
    ensures var r := NewFromSides(left, right, top, bottom);
            Left(r) == left && CorrectedRight(r) == right && Top(r) == top && CorrectedBottom(r) == bottom
  {
  }
}
