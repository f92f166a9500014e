/** Properties of the tint and shade generator: both ends of the range, the
    colours that do not move, monotonicity in the fraction, the order of the
    palettes, and the package's test vectors. */
module TintShadeProperties {
  import opened Colors
  import opened Rounding
  import opened TintShade
  import HexCodec

  /** A channel tinted by 0 is unchanged, tinted by 1 it is 255. */
  lemma LightenEnds(x: int)
    requires 0 <= x <= 255
    ensures Lighten(x, 0.0) == x && Lighten(x, 1.0) == 255
  {
    DarkenEnds(255 - x);
  }

  /** A channel shaded by 0 is unchanged, shaded by 1 it is 0. */
  lemma DarkenEnds(x: int)
    requires 0 <= x <= 255
    ensures Darken(x, 0.0) == x && Darken(x, 1.0) == 0
  {
    assert x as real * 1.0 == x as real;
    assert Round(x as real) == x;
  }

  /** Tinting a valid colour by 0 leaves it unchanged; tinting by 1 gives
      `White`. */
  lemma TintEnds(c: Color)
    requires c.IsValid()
    ensures Tinted(c, 0.0) == Ok(c)
    ensures Tinted(c, 1.0) == Ok(White)
  {
    LightenEnds(c.R);
    LightenEnds(c.G);
    LightenEnds(c.B);
    LightenEnds(c.A);
  }

  /** Shading a valid colour by 0 leaves it unchanged; shading by 1 gives
      black with the colour's own alpha. */
  lemma ShadeEnds(c: Color)
    requires c.IsValid()
    ensures Shaded(c, 0.0) == Ok(c)
    ensures Shaded(c, 1.0) == Ok(Color(0, 0, 0, c.A))
  {
    DarkenEnds(c.R);
    DarkenEnds(c.G);
    DarkenEnds(c.B);
  }

  /** `White` has nothing left to tint and `Black` nothing left to shade. */
  lemma FixedPoints(p: real)
    requires 0.0 <= p <= 1.0
    ensures Tinted(White, p) == Ok(White)
    ensures Shaded(Black, p) == Ok(Black)
  {
    assert 0 as real * p == 0.0;
  }

  /** A larger fraction tints a channel at least as far. */
  lemma LightenMonotone(x: int, p: real, q: real)
    requires 0 <= x <= 255 && 0.0 <= p <= q <= 1.0
    ensures Lighten(x, p) <= Lighten(x, q)
  {
    DarkenMonotone(255 - x, p, q);
  }

  /** A larger fraction shades a channel at least as far. */
  lemma DarkenMonotone(x: int, p: real, q: real)
    requires 0 <= x <= 255 && 0.0 <= p <= q <= 1.0
    ensures Darken(x, q) <= Darken(x, p)
  {
    ShareMonotone(x, p, q);
  }

  /** Tints grow channel by channel with the fraction. */
  lemma TintMonotone(c: Color, p: real, q: real)
    requires c.IsValid() && 0.0 <= p <= q <= 1.0
    ensures Tinted(c, p).Ok? && Tinted(c, q).Ok?
    ensures Tinted(c, p).value.R <= Tinted(c, q).value.R
    ensures Tinted(c, p).value.G <= Tinted(c, q).value.G
    ensures Tinted(c, p).value.B <= Tinted(c, q).value.B
    ensures Tinted(c, p).value.A <= Tinted(c, q).value.A
  {
    LightenMonotone(c.R, p, q);
    LightenMonotone(c.G, p, q);
    LightenMonotone(c.B, p, q);
    LightenMonotone(c.A, p, q);
  }

  /** Shades fall channel by channel with the fraction. */
  lemma ShadeMonotone(c: Color, p: real, q: real)
    requires c.IsValid() && 0.0 <= p <= q <= 1.0
    ensures Shaded(c, p).Ok? && Shaded(c, q).Ok?
    ensures Shaded(c, q).value.R <= Shaded(c, p).value.R
    ensures Shaded(c, q).value.G <= Shaded(c, p).value.G
    ensures Shaded(c, q).value.B <= Shaded(c, p).value.B
  {
    DarkenMonotone(c.R, p, q);
    DarkenMonotone(c.G, p, q);
    DarkenMonotone(c.B, p, q);
  }

  /** Both palettes start at the colour itself. */
  lemma PalettesStart(c: Color, n: nat)
    requires c.IsValid() && 0 < n
    ensures Tinted(c, 0 as real / n as real) == Ok(c)
    ensures Shaded(c, 0 as real / n as real) == Ok(c)
  {
    assert 0 as real / n as real == 0.0;
    TintEnds(c);
    ShadeEnds(c);
  }

  /** The palette of `Tints(n)` lightens from one element to the next, alpha
      included. */
  lemma TintsOrdered(c: Color, i: nat, j: nat, n: nat)
    requires c.IsValid() && i <= j < n
    ensures Tinted(c, i as real / n as real).Ok? && Tinted(c, j as real / n as real).Ok?
    ensures Tinted(c, i as real / n as real).value.R <= Tinted(c, j as real / n as real).value.R
    ensures Tinted(c, i as real / n as real).value.G <= Tinted(c, j as real / n as real).value.G
    ensures Tinted(c, i as real / n as real).value.B <= Tinted(c, j as real / n as real).value.B
    ensures Tinted(c, i as real / n as real).value.A <= Tinted(c, j as real / n as real).value.A
  {
    FractionBounds(i, n);
    FractionBounds(j, n);
    FractionMonotone(i, j, n);
    TintMonotone(c, i as real / n as real, j as real / n as real);
  }

  /** The palette of `Shades(n)` darkens from one element to the next. */
  lemma ShadesOrdered(c: Color, i: nat, j: nat, n: nat)
    requires c.IsValid() && i <= j < n
    ensures Shaded(c, i as real / n as real).Ok? && Shaded(c, j as real / n as real).Ok?
    ensures Shaded(c, j as real / n as real).value.R <= Shaded(c, i as real / n as real).value.R
    ensures Shaded(c, j as real / n as real).value.G <= Shaded(c, i as real / n as real).value.G
    ensures Shaded(c, j as real / n as real).value.B <= Shaded(c, i as real / n as real).value.B
  {
    FractionBounds(i, n);
    FractionBounds(j, n);
    FractionMonotone(i, j, n);
    ShadeMonotone(c, i as real / n as real, j as real / n as real);
  }

  // ---------------------------------------------------------------------
  // The package's test vectors

  /** Tint and Shade refuse the fraction 1.1 and the colour with red 300. */
  lemma RefusalExamples()
    ensures Tinted(White, 1.1) == Err(PercentRange)
    ensures Tinted(Color(300, 0, 0, 0), 0.5) == Err(Invalid(Color(300, 0, 0, 0)))
    ensures Shaded(White, 1.1) == Err(PercentRange)
    ensures Shaded(Color(300, 0, 0, 0), 0.5) == Err(Invalid(Color(300, 0, 0, 0)))
  {
  }

  /** Half of 255, 127.5, rounds away from zero to 128. */
  lemma HalfOf255()
    ensures Bound(255 as real * 0.5) == 128
  {
    assert 255 as real * 0.5 == 127.5;
    assert Round(127.5) == 128;
  }

  /** Tint: `White` by 1 stays white. */
  lemma TintWhiteExample()
    ensures Tinted(White, 1.0) == Ok(RGB(255, 255, 255))
  {
    TintEnds(White);
  }

  /** Tint: red by 0.5 is (255, 128, 128). */
  lemma TintRedExample()
    ensures Tinted(RGB(255, 0, 0), 0.5) == Ok(RGB(255, 128, 128))
  {
    HalfOf255();
    assert Lighten(0, 0.5) == 128;
    assert Lighten(255, 0.5) == 255;
  }

  /** Shade: `White` by 1 is `Black`, red by 0.5 is (127, 0, 0), and a
      half-transparent red keeps its alpha of 128. */
  lemma ShadeExamples()
    ensures Shaded(White, 1.0) == Ok(Black)
    ensures Shaded(RGB(255, 0, 0), 0.5) == Ok(RGB(127, 0, 0))
    ensures Shaded(Color(255, 0, 0, 128), 0.5) == Ok(Color(127, 0, 0, 128))
  {
    ShadeEnds(White);
    HalfOf255();
    assert Darken(255, 0.5) == 127;
    assert Darken(0, 0.5) == 0;
  }

  /** Fifths of 255 are whole multiples of 51, so they round to themselves. */
  lemma Fifths(i: nat)
    requires i < 5
    ensures 0.0 <= i as real / 5 as real < 1.0
    ensures Bound(255 as real * (i as real / 5 as real)) == 51 * i
  {
    FractionBounds(i, 5);
    assert 255 as real * (i as real / 5 as real) == (51 * i) as real;
  }

  /** Element `i` of `Black.Tints(5)` is the grey with every colour channel
      51 * i. */
  lemma BlackTint(i: nat)
    requires i < 5
    ensures Tinted(Black, i as real / 5 as real) == Ok(RGB(51 * i, 51 * i, 51 * i))
  {
    Fifths(i);
  }

  /** Element `i` of `White.Shades(5)` is the grey with every colour channel
      255 - 51 * i. */
  lemma WhiteShade(i: nat)
    requires i < 5
    ensures Shaded(White, i as real / 5 as real) == Ok(RGB(255 - 51 * i, 255 - 51 * i, 255 - 51 * i))
  {
    Fifths(i);
  }

  /** An opaque grey prints its one channel three times. */
  lemma GreyHex(v: U32)
    requires v <= 255
    ensures HexCodec.ColorHex(RGB(v, v, v), []) ==
      "#" + HexCodec.Format2(v) + HexCodec.Format2(v) + HexCodec.Format2(v)
  {
  }

  /** The channels of the two palettes' greys as two hex digits. */
  lemma GreyDigits()
    ensures HexCodec.Format2(0x00) == "00" && HexCodec.Format2(0x33) == "33"
    ensures HexCodec.Format2(0x66) == "66" && HexCodec.Format2(0x99) == "99"
    ensures HexCodec.Format2(0xcc) == "cc" && HexCodec.Format2(0xff) == "ff"
  {
  }
}
