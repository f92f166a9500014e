/** The colour value of the gocolor package: four channels held in Go's
    `uint32`, a validity rule checked at operation boundaries, the two named
    constants and channel-wise subtraction.  Go's `(Color, error)` returns are
    modelled by `Result`, and by `Returns` for the methods that hand back the
    pair itself. */
module Colors {

  const TwoTo32: int := 0x1_0000_0000

  /** Go's `uint32`. */
  type U32 = x: int | 0 <= x < TwoTo32

  /** `uint32` addition, which wraps around modulo 2^32. */
  function Add32(a: U32, b: U32): (r: U32)
    ensures a + b < TwoTo32 ==> r == a + b
    ensures a + b >= TwoTo32 ==> r == a + b - TwoTo32
  {
    (a + b) % TwoTo32
  }

  /** `uint32` subtraction: a "negative" difference wraps to a huge value. */
  function Sub32(a: U32, b: U32): (r: U32)
    ensures b <= a ==> r == a - b
    ensures a < b ==> r == a - b + TwoTo32
  {
    (a - b) % TwoTo32
  }

  datatype Color = Color(R: U32, G: U32, B: U32, A: U32) {

    /** Every channel, alpha included, fits in a byte.  Nothing enforces this
        at construction; operations check it. */
    predicate IsValid() {
      R <= 255 && G <= 255 && B <= 255 && A <= 255
    }

    /** The four raw channels; they determine the colour. */
    function RGBA(): (ch: (U32, U32, U32, U32))
      ensures Color(ch.0, ch.1, ch.2, ch.3) == this
    {
      (R, G, B, A)
    }

    /** Channel-wise `this - c2` in `uint32` arithmetic, alpha included.  It
        succeeds exactly when both operands are valid and no channel of `c2`
        exceeds the matching channel of `this`; a wrapped channel is what makes
        the result invalid otherwise. */
    function Subtract(c2: Color): (r: Result<Color>)
      ensures r.Ok? <==>
        IsValid() && c2.IsValid() && c2.R <= R && c2.G <= G && c2.B <= B && c2.A <= A
      ensures r.Ok? ==> r.value == Color(R - c2.R, G - c2.G, B - c2.B, A - c2.A)
      ensures !IsValid() ==> r == Err(Invalid(this))
      ensures IsValid() && !c2.IsValid() ==> r == Err(Invalid(c2))
      ensures r.Err? ==> r.error.Invalid? && !r.error.c.IsValid()
    {
      if !IsValid() then Err(Invalid(this))
      else if !c2.IsValid() then Err(Invalid(c2))
      else
        var res := Color(Sub32(R, c2.R), Sub32(G, c2.G), Sub32(B, c2.B), Sub32(A, c2.A));
        if !res.IsValid() then Err(Invalid(res)) else Ok(res)
    }
  }

  /** An opaque colour: alpha 255.  Out-of-range channels are kept as given. */
  function RGB(r: U32, g: U32, b: U32): (c: Color)
    ensures c.RGBA() == (r, g, b, 255)
    ensures c.IsValid() <==> r <= 255 && g <= 255 && b <= 255
  {
    RGBA(r, g, b, 255)
  }

  /** A colour with all four channels given; no range check. */
  function RGBA(r: U32, g: U32, b: U32, a: U32): (c: Color)
    ensures c.RGBA() == (r, g, b, a)
    ensures c.IsValid() <==> r <= 255 && g <= 255 && b <= 255 && a <= 255
  {
    Color(r, g, b, a)
  }

  const White: Color := RGB(255, 255, 255)
  const Black: Color := RGB(0, 0, 0)

  /** Go's zero value `Color{}`, returned beside every error. */
  const Zero: Color := Color(0, 0, 0, 0)

  datatype Error =
    | Invalid(c: Color)       // a colour with a channel above 255
    | PercentRange            // a tint or shade fraction outside [0, 1]
    | ScanFailed              // the digits did not scan as the hex pattern
    | BadLength(hex: string)  // the 8-digit path saw a length other than 9

  datatype Option<T> = None | Some(value: T)

  datatype Result<T> = Ok(value: T) | Err(error: Error)

  /** The Go pair `(c, err)` carries the outcome `r`: the value and a nil
      error, or the zero `Color{}` and the error. */
  predicate Returns(c: Color, err: Option<Error>, r: Result<Color>) {
    match r
    case Ok(v) => c == v && err == None
    case Err(e) => c == Zero && err == Some(e)
  }

  /** `White` and `Black` are both opaque and valid. */
  lemma NamedColors()
    ensures White == Color(255, 255, 255, 255) && White.IsValid()
    ensures Black == Color(0, 0, 0, 255) && Black.IsValid()
  {
  }

  /** The validity rule's boundary is 255, on every channel alone. */
  lemma ValidityBoundary()
    ensures Color(255, 255, 255, 255).IsValid()
    ensures !Color(256, 0, 0, 255).IsValid() && !Color(0, 256, 0, 255).IsValid()
    ensures !Color(0, 0, 256, 255).IsValid() && !Color(0, 0, 0, 256).IsValid()
  {
  }

  /** The subtraction vectors of the package's tests. */
  lemma SubtractExamples()
    ensures White.Subtract(White) == Ok(Zero)
    ensures RGB(255, 0, 0).Subtract(RGB(0, 0, 255)).Err?
    ensures Color(300, 0, 0, 0).Subtract(RGB(0, 0, 255)) == Err(Invalid(Color(300, 0, 0, 0)))
    ensures White.Subtract(Color(300, 0, 0, 0)) == Err(Invalid(Color(300, 0, 0, 0)))
    ensures White.RGBA() == (255, 255, 255, 255)
  {
  }
}
