/** The tint and shade generator of gocolor: `diff`, `Tint` and
    `Shade`, which move a colour a fraction of the way toward `White` or
    `Black`, and `Tints` / `Shades`, which fill a palette with the fractions
    i / n.  The fraction, a `float64` in the package, is an exact real here. */
module TintShade {
  import opened Colors
  import opened Rounding

  /** `diff`: the channel-wise differences `c1 - c2`, exact in `float64` for
      `uint32` channels; between two valid colours each lies in [-255, 255]. */
  function Diff(c1: Color, c2: Color): (d: (real, real, real, real))
    ensures d.0 + c2.R as real == c1.R as real && d.1 + c2.G as real == c1.G as real
    ensures d.2 + c2.B as real == c1.B as real && d.3 + c2.A as real == c1.A as real
    ensures c1.IsValid() && c2.IsValid() ==>
      -255.0 <= d.0 <= 255.0 && -255.0 <= d.1 <= 255.0 &&
      -255.0 <= d.2 <= 255.0 && -255.0 <= d.3 <= 255.0
  {
    (c1.R as real - c2.R as real, c1.G as real - c2.G as real,
     c1.B as real - c2.B as real, c1.A as real - c2.A as real)
  }

  // ---------------------------------------------------------------------
  // One channel

  /** A byte channel moved the fraction `p` of the way down to 0, rounded:
      it stays between 0 and its old value. */
  function Darken(x: int, p: real): (r: int)
    requires 0 <= x <= 255 && 0.0 <= p <= 1.0
    ensures 0 <= r <= x
  {
    var v := x as real * p;
    ScaleBounds(x as real, p);
    assert 0.0 <= v <= x as real;
    RoundBetween(v, x);
    x - Bound(v)
  }

  /** A byte channel moved the fraction `p` of the way up to 255, rounded:
      the mirror image of `Darken`, it stays between its old value and 255. */
  function Lighten(x: int, p: real): (r: int)
    requires 0 <= x <= 255 && 0.0 <= p <= 1.0
    ensures x <= r <= 255
  {
    255 - Darken(255 - x, p)
  }

  /** One channel of `Tint`: adding the rounded share of the distance to 255
      never wraps, and gives `Lighten`. */
  lemma TintChannel(x: U32, d: real, p: real)
    requires x <= 255 && 0.0 <= p <= 1.0 && d + x as real == 255 as real
    ensures Add32(x, Bound(d * p)) == Lighten(x, p)
  {
    assert d == (255 - x) as real;
  }

  /** One colour channel of `Shade`: subtracting the rounded share of the
      channel never wraps, and gives `Darken`. */
  lemma ShadeChannel(x: U32, d: real, p: real)
    requires x <= 255 && 0.0 <= p <= 1.0 && d == x as real
    ensures Sub32(x, Bound(d * p)) == Darken(x, p)
  {
  }

  /** The alpha channel of `Shade`: its difference to `Black`'s 255 is never
      positive, so nothing is subtracted. */
  lemma ShadeAlpha(x: U32, d: real, p: real)
    requires x <= 255 && 0.0 <= p <= 1.0 && d + 255 as real == x as real
    ensures Sub32(x, Bound(d * p)) == x
  {
    ScaleBounds((255 - x) as real, p);
    assert d * p == -((255 - x) as real * p);
  }

  // ---------------------------------------------------------------------
  // Tint and Shade

  /** What `Tint` returns: an out-of-range fraction is refused first, an
      invalid colour next; otherwise every channel, alpha included, moves
      toward 255 and the result is valid. */
  function Tinted(c: Color, p: real): (r: Result<Color>)
    ensures p < 0.0 || p > 1.0 ==> r == Err(PercentRange)
    ensures 0.0 <= p <= 1.0 && !c.IsValid() ==> r == Err(Invalid(c))
    ensures r.Ok? <==> 0.0 <= p <= 1.0 && c.IsValid()
    ensures r.Ok? ==> r.value.IsValid()
    ensures r.Ok? ==>
      c.R <= r.value.R && c.G <= r.value.G && c.B <= r.value.B && c.A <= r.value.A
  {
    if p < 0.0 || p > 1.0 then Err(PercentRange)
    else if !c.IsValid() then Err(Invalid(c))
    else Ok(Color(Lighten(c.R, p), Lighten(c.G, p), Lighten(c.B, p), Lighten(c.A, p)))
  }

  /** What `Shade` returns: the same checks in the same order; otherwise red,
      green and blue move toward 0 and alpha is unchanged. */
  function Shaded(c: Color, p: real): (r: Result<Color>)
    ensures p < 0.0 || p > 1.0 ==> r == Err(PercentRange)
    ensures 0.0 <= p <= 1.0 && !c.IsValid() ==> r == Err(Invalid(c))
    ensures r.Ok? <==> 0.0 <= p <= 1.0 && c.IsValid()
    ensures r.Ok? ==> r.value.IsValid() && r.value.A == c.A
    ensures r.Ok? ==> r.value.R <= c.R && r.value.G <= c.G && r.value.B <= c.B
  {
    if p < 0.0 || p > 1.0 then Err(PercentRange)
    else if !c.IsValid() then Err(Invalid(c))
    else Ok(Color(Darken(c.R, p), Darken(c.G, p), Darken(c.B, p), c.A))
  }

  /** `Color.Tint`: the differences to `White`, then each field of the copy
      increased in `uint32` arithmetic. */
  method Tint(c: Color, percent: real) returns (newc: Color, err: Option<Error>)
    ensures Returns(newc, err, Tinted(c, percent))
  {
    if percent < 0.0 || percent > 1.0 {
      return Zero, Some(PercentRange);
    }
    if !c.IsValid() {
      return Zero, Some(Invalid(c));
    }
    var d := Diff(White, c);
    var r, g, b, a := d.0, d.1, d.2, d.3;
    TintChannel(c.R, r, percent);
    TintChannel(c.G, g, percent);
    TintChannel(c.B, b, percent);
    TintChannel(c.A, a, percent);
    newc := c;
    newc := newc.(R := Add32(newc.R, Bound(r * percent)));
    newc := newc.(G := Add32(newc.G, Bound(g * percent)));
    newc := newc.(B := Add32(newc.B, Bound(b * percent)));
    newc := newc.(A := Add32(newc.A, Bound(a * percent)));
    err := None;
  }

  /** `Color.Shade`: the differences to `Black`, then each field of the copy
      decreased in `uint32` arithmetic.  Alpha's difference is never positive,
      so its bound is 0 and alpha is kept. */
  method Shade(c: Color, percent: real) returns (newc: Color, err: Option<Error>)
    ensures Returns(newc, err, Shaded(c, percent))
  {
    if percent < 0.0 || percent > 1.0 {
      return Zero, Some(PercentRange);
    }
    if !c.IsValid() {
      return Zero, Some(Invalid(c));
    }
    var d := Diff(c, Black);
    var r, g, b, a := d.0, d.1, d.2, d.3;
    ShadeChannel(c.R, r, percent);
    ShadeChannel(c.G, g, percent);
    ShadeChannel(c.B, b, percent);
    ShadeAlpha(c.A, a, percent);
    newc := c;
    newc := newc.(R := Sub32(newc.R, Bound(r * percent)));
    newc := newc.(G := Sub32(newc.G, Bound(g * percent)));
    newc := newc.(B := Sub32(newc.B, Bound(b * percent)));
    newc := newc.(A := Sub32(newc.A, Bound(a * percent)));
    err := None;
  }

  // ---------------------------------------------------------------------
  // Palettes

  /** `Color.Tints(n)`: a slice of `n` colours, element `i` the tint at
      `i / n`; the first failure returns nil and the error. */
  method Tints(c: Color, n: nat) returns (sh: seq<Color>, err: Option<Error>)
    ensures err.Some? <==> n > 0 && !c.IsValid()
    ensures err.Some? ==> sh == [] && err == Some(Invalid(c))
    ensures err.None? ==>
      |sh| == n && forall i :: 0 <= i < n ==> Tinted(c, i as real / n as real) == Ok(sh[i])
  {
    var a := new Color[n](_ => Zero);
    var i := 0;
    while i < n
      invariant 0 <= i <= n
      invariant i > 0 ==> c.IsValid()
      invariant forall j :: 0 <= j < i ==> Tinted(c, j as real / n as real) == Ok(a[j])
    {
      FractionBounds(i, n);
      var t, e := Tint(c, i as real / n as real);
      a[i] := t;
      if e.Some? {
        return [], e;
      }
      i := i + 1;
    }
    return a[..], None;
  }

  /** `Color.Shades(n)`: the same with `Shade`. */
  method Shades(c: Color, n: nat) returns (sh: seq<Color>, err: Option<Error>)
    ensures err.Some? <==> n > 0 && !c.IsValid()
    ensures err.Some? ==> sh == [] && err == Some(Invalid(c))
    ensures err.None? ==>
      |sh| == n && forall i :: 0 <= i < n ==> Shaded(c, i as real / n as real) == Ok(sh[i])
  {
    var a := new Color[n](_ => Zero);
    var i := 0;
    while i < n
      invariant 0 <= i <= n
      invariant i > 0 ==> c.IsValid()
      invariant forall j :: 0 <= j < i ==> Shaded(c, j as real / n as real) == Ok(a[j])
    {
      FractionBounds(i, n);
      var t, e := Shade(c, i as real / n as real);
      a[i] := t;
      if e.Some? {
        return [], e;
      }
      i := i + 1;
    }
    return a[..], None;
  }
}
