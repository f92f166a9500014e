/** The hex codec of gocolor: `Rmh`, `addh` and `norm`, the scanner and
    printer behind the patterns `#%02x%02x%02x` and `#%02x%02x%02x%02x`, the
    package function `Hex` with its 8-digit helper `ahex`, and the formatting
    methods `Color.Hex` and `Color.HexA`.  It reads and writes the `#RGB`,
    `#RGBA`, `#RRGGBB` and `#RRGGBBAA` notations of section 5.2 of CSS Color
    Module Level 4, with the '#' optional on input. */
module HexCodec {
  import opened Colors

  // ---------------------------------------------------------------------
  // Hex digits

  /** The digits `%x` accepts when scanning. */
  predicate IsHexDigit(ch: char) {
    '0' <= ch <= '9' || 'a' <= ch <= 'f' || 'A' <= ch <= 'F'
  }

  /** The digits `%x` prints. */
  predicate IsLowerHexDigit(ch: char) {
    '0' <= ch <= '9' || 'a' <= ch <= 'f'
  }

  /** The first `m` characters of `s` are hex digits. */
  predicate HexPrefix(s: string, m: nat) {
    m <= |s| && forall i :: 0 <= i < m ==> IsHexDigit(s[i])
  }

  predicate AllHex(s: string) {
    HexPrefix(s, |s|)
  }

  function DigitValue(ch: char): (v: nat)
    requires IsHexDigit(ch)
    ensures v < 16
  {
    if '0' <= ch <= '9' then ch as int - '0' as int
    else if 'a' <= ch <= 'f' then ch as int - 'a' as int + 10
    else ch as int - 'A' as int + 10
  }

  /** The lower-case digit printed for `d`. */
  function Digit(d: nat): (ch: char)
    requires d < 16
    ensures IsLowerHexDigit(ch) && IsHexDigit(ch) && DigitValue(ch) == d
  {
    if d < 10 then ('0' as int + d) as char else ('a' as int + d - 10) as char
  }

  /** The value of a two-digit group. */
  function PairValue(hi: char, lo: char): (v: nat)
    requires IsHexDigit(hi) && IsHexDigit(lo)
    ensures v < 256
  {
    16 * DigitValue(hi) + DigitValue(lo)
  }

  /** Characters `k` and `k + 1` of `s` are two hex digits that denote `v`. */
  predicate Encodes(s: string, k: nat, v: nat) {
    k + 1 < |s| && IsHexDigit(s[k]) && IsHexDigit(s[k + 1]) && PairValue(s[k], s[k + 1]) == v
  }

  // ---------------------------------------------------------------------
  // Printing: `%02x`

  /** `%x`: the lower-case hex digits of `n`, without leading zeros. */
  function HexDigits(n: nat): (s: string)
    ensures forall i :: 0 <= i < |s| ==> IsLowerHexDigit(s[i])
    ensures |s| == 1 <==> n < 16
    ensures |s| == 2 <==> 16 <= n < 256
    ensures |s| >= 1
    decreases n
  {
    if n < 16 then [Digit(n)] else HexDigits(n / 16) + [Digit(n % 16)]
  }

  /** `%02x`: the digits of `n`, zero-padded to at least two.  A byte takes
      exactly two digits, whose value is the byte; a wider value takes more. */
  function Format2(n: nat): (s: string)
    ensures forall i :: 0 <= i < |s| ==> IsLowerHexDigit(s[i])
    ensures |s| >= 2
    ensures n < 256 <==> |s| == 2
    ensures n < 256 ==> Encodes(s, 0, n)
  {
    var d := HexDigits(n);
    assert 16 <= n < 256 ==> HexDigits(n / 16) == [Digit(n / 16)];
    if |d| < 2 then ['0'] + d else d
  }

  /** `Color.HexA`: '#' and the four channels, alpha last. */
  function ColorHexA(c: Color): (s: string)
    ensures |s| >= 9 && s[0] == '#'
    ensures forall i :: 1 <= i < |s| ==> IsLowerHexDigit(s[i])
    ensures c.IsValid() <==> |s| == 9
    ensures c.IsValid() ==>
      Encodes(s, 1, c.R) && Encodes(s, 3, c.G) && Encodes(s, 5, c.B) && Encodes(s, 7, c.A)
  {
    "#" + Format2(c.R) + Format2(c.G) + Format2(c.B) + Format2(c.A)
  }

  /** `Color.Hex(noAlpha...)`: six digits when alpha is 255 or the first
      optional flag is set, otherwise eight. */
  function ColorHex(c: Color, noAlpha: seq<bool>): (s: string)
    ensures |s| >= 7 && s[0] == '#'
    ensures forall i :: 1 <= i < |s| ==> IsLowerHexDigit(s[i])
    ensures c.IsValid() ==>
      |s| == if c.A == 255 || (|noAlpha| > 0 && noAlpha[0]) then 7 else 9
    ensures c.IsValid() ==> Encodes(s, 1, c.R) && Encodes(s, 3, c.G) && Encodes(s, 5, c.B)
    ensures c.IsValid() && |s| == 9 ==> Encodes(s, 7, c.A)
  {
    if c.A != 255 && (|noAlpha| == 0 || !noAlpha[0]) then ColorHexA(c)
    else "#" + Format2(c.R) + Format2(c.G) + Format2(c.B)
  }

  // ---------------------------------------------------------------------
  // The '#' and the shorthand forms

  /** `Rmh`: strips one leading '#' and reports whether there was one. */
  function Rmh(s: string): (r: (string, bool))
    ensures r.1 <==> |s| > 0 && s[0] == '#'
    ensures s == (if r.1 then "#" else "") + r.0
  {
    if |s| > 0 && s[0] == '#' then (s[1..], true) else (s, false)
  }

  /** `addh`: puts a '#' in front, unless `s` starts with one and is more than
      that '#' alone (so `"#"` becomes `"##"`). */
  function Addh(s: string): (r: string)
    ensures |r| >= 1 && r[0] == '#'
    ensures r == s <==> |s| > 1 && s[0] == '#'
    ensures r != s ==> r == "#" + s
  {
    if |s| > 1 && s[0] == '#' then s else "#" + s
  }

  /** Every character written twice, in order. */
  function Doubled(s: string): (r: string)
    ensures |r| == 2 * |s|
    ensures forall j :: 0 <= j < |r| ==> r[j] == s[j / 2]
  {
    if s == [] then [] else Doubled(s[..|s| - 1]) + [s[|s| - 1], s[|s| - 1]]
  }

  /** What `norm` does to a body without its '#'. */
  function Expand(body: string): string {
    if |body| == 3 || |body| == 4 then Doubled(body) else body
  }

  /** `norm`: a 3- or 4-digit body becomes a 6- or 8-digit one; a leading
      '#' is kept. */
  function Normalized(s: string): (r: string)
    ensures var body := Rmh(s).0;
      (body == [] || body[0] != '#') ==>
        r == (if Rmh(s).1 then "#" else "") + Expand(body)
  {
    var body := Rmh(s).0;
    var expanded := Expand(body);
    if Rmh(s).1 then Addh(expanded) else expanded
  }

  /** `norm`, step by step: the byte buffer filled in a loop, then the
      deferred function that puts the '#' back. */
  method Norm(s: string) returns (result: string)
    ensures result == Normalized(s)
  {
    var stripped := Rmh(s);
    var body, didrm := stripped.0, stripped.1;
    if |body| == 3 || |body| == 4 {
      var bf: string := [];
      var i := 0;
      while i < |body|
        invariant 0 <= i <= |body|
        invariant bf == Doubled(body[..i])
      {
        assert body[..i + 1][..i] == body[..i];
        bf := bf + [body[i], body[i]];
        i := i + 1;
      }
      assert body[..i] == body;
      result := bf;
    } else {
      result := body;
    }
    if didrm {
      result := Addh(result);
    }
  }

  /** On inputs with at most one leading '#', normalising twice is
      normalising once; so `ahex` normalising again changes nothing. */
  lemma NormalizedIdempotent(s: string)
    requires var body := Rmh(s).0; body == [] || body[0] != '#'
    ensures Normalized(Normalized(s)) == Normalized(s)
  {
    var body := Rmh(s).0;
    var e := Expand(body);
    assert |e| != 3 && |e| != 4;
    assert e == [] || e[0] == body[0];
    if Rmh(s).1 {
      assert Normalized(s) == "#" + e;
      assert Rmh("#" + e) == (e, true);
    } else {
      assert Normalized(s) == e;
      assert Rmh(e) == (e, false);
    }
  }

  // ---------------------------------------------------------------------
  // Scanning: `fmt.Sscanf` with `#%02x...`

  function Prepend(v: U32, r: Option<seq<U32>>): Option<seq<U32>> {
    match r
    case None => None
    case Some(rest) => Some([v] + rest)
  }

  /** `n` verbs `%02x`: each reads one or two hex digits greedily and fails
      unless it finds at least one; what follows the last group is not read. */
  function Groups(s: string, n: nat): (r: Option<seq<U32>>)
    ensures r.Some? ==> |r.value| == n && forall k :: 0 <= k < n ==> r.value[k] <= 255
    decreases n
  {
    if n == 0 then Some([])
    else if |s| == 0 || !IsHexDigit(s[0]) then None
    else if |s| >= 2 && IsHexDigit(s[1]) then Prepend(PairValue(s[0], s[1]), Groups(s[2..], n - 1))
    else Prepend(DigitValue(s[0]), Groups(s[1..], n - 1))
  }

  /** `fmt.Sscanf(s, "#" + n times "%02x", ...)`: the literal '#', then the
      groups; `None` is a scan error. */
  function Scan(s: string, n: nat): (r: Option<seq<U32>>)
    ensures r.Some? ==> |r.value| == n && forall k :: 0 <= k < n ==> r.value[k] <= 255
  {
    if |s| == 0 || s[0] != '#' then None else Groups(s[1..], n)
  }

  /** The scan of `n` groups succeeds exactly when the first `2n - 1`
      characters are hex digits: every group but the last must take two. */
  lemma {:induction false} GroupsAccept(s: string, n: nat)
    requires n >= 1
    ensures Groups(s, n).Some? <==> HexPrefix(s, 2 * n - 1)
  {
    if |s| == 0 || !IsHexDigit(s[0]) || n == 1 {
    } else if |s| >= 2 && IsHexDigit(s[1]) {
      GroupsAccept(s[2..], n - 1);
      if HexPrefix(s[2..], 2 * n - 3) {
        forall i | 2 <= i < 2 * n - 1 ensures IsHexDigit(s[i]) {
          assert s[i] == s[2..][i - 2];
        }
      }
    } else {
      assert Groups(s[1..], n - 1).None?;
      assert !HexPrefix(s, 2 * n - 1) by {
        assert |s| < 2 || !IsHexDigit(s[1]);
      }
    }
  }

  /** A scan over `2n` hex digits reads them in pairs. */
  lemma {:induction false} GroupsPairs(s: string, n: nat, k: nat)
    requires k < n && HexPrefix(s, 2 * n)
    ensures Groups(s, n).Some? && Groups(s, n).value[k] == PairValue(s[2 * k], s[2 * k + 1])
  {
    assert IsHexDigit(s[0]) && IsHexDigit(s[1]);
    var t := s[2..];
    assert HexPrefix(t, 2 * (n - 1)) by {
      forall i | 0 <= i < 2 * (n - 1) ensures IsHexDigit(t[i]) {
        assert t[i] == s[i + 2];
      }
    }
    if k > 0 {
      GroupsPairs(t, n - 1, k - 1);
    } else if n > 1 {
      GroupsAccept(t, n - 1);
    }
  }

  // ---------------------------------------------------------------------
  // Parsing

  /** Scanning `h` into three or four channels, as `Hex` and `ahex` do; with
      three, alpha is 255. */
  function ScanColor(h: string, n: nat): (r: Result<Color>)
    requires n == 3 || n == 4
    ensures r.Ok? <==> Scan(h, n).Some?
    ensures r.Ok? ==> r.value.IsValid() && (n == 3 ==> r.value.A == 255)
    ensures r.Err? ==> r == Err(ScanFailed)
  {
    match Scan(h, n)
    case None => Err(ScanFailed)
    case Some(v) => Ok(Color(v[0], v[1], v[2], if n == 4 then v[3] else 255))
  }

  /** `ahex`: normalise again, demand total length 9, scan four groups. */
  function DecodedAlpha(hex: string): (r: Result<Color>)
    ensures r.Ok? ==> r.value.IsValid()
    ensures var h := Addh(Normalized(hex));
      if |h| != 9 then r == Err(BadLength(h)) else r.Ok? <==> Scan(h, 4).Some?
  {
    var h := Addh(Normalized(hex));
    if |h| != 9 then Err(BadLength(h)) else ScanColor(h, 4)
  }

  /** `Hex`: normalise, take the 8-digit path past 7 characters, otherwise
      scan three groups and make the colour opaque. */
  function Decoded(hex: string): (r: Result<Color>)
    ensures r.Ok? ==> r.value.IsValid()
    ensures r.Ok? && |Addh(Normalized(hex))| <= 7 ==> r.value.A == 255
  {
    var h := Addh(Normalized(hex));
    if |h| > 7 then DecodedAlpha(h) else ScanColor(h, 3)
  }

  /** `ahex`, step by step. */
  method AHex(hex: string) returns (c: Color, err: Option<Error>)
    ensures Returns(c, err, DecodedAlpha(hex))
  {
    var h := Norm(hex);
    h := Addh(h);
    if |h| != 9 {
      return Zero, Some(BadLength(h));
    }
    var scanned := Scan(h, 4);
    if scanned.None? {
      return Zero, Some(ScanFailed);
    }
    var r, g, b, a := scanned.value[0], scanned.value[1], scanned.value[2], scanned.value[3];
    return Color(r, g, b, a), None;
  }

  /** `Hex`, step by step. */
  method Hex(hex: string) returns (c: Color, err: Option<Error>)
    ensures Returns(c, err, Decoded(hex))
  {
    var h := Norm(hex);
    h := Addh(h);
    if |h| > 7 {
      c, err := AHex(h);
      return;
    }
    var scanned := Scan(h, 3);
    if scanned.None? {
      return Zero, Some(ScanFailed);
    }
    var r, g, b := scanned.value[0], scanned.value[1], scanned.value[2];
    return Color(r, g, b, 255), None;
  }

  // ---------------------------------------------------------------------
  // What parsing accepts

  /** The bodies `Hex` accepts, '#' removed: 3 or 4 hex digits; 5 or 6
      characters whose first five are hex digits; 8 characters whose first
      seven are.  A last character that is not a digit is never read. */
  predicate Accepted(body: string) {
    ((|body| == 3 || |body| == 4) && AllHex(body)) ||
    ((|body| == 5 || |body| == 6) && HexPrefix(body, 5)) ||
    (|body| == 8 && HexPrefix(body, 7))
  }

  /** With one optional '#', the string both parsers scan is '#' and the
      expanded body. */
  lemma Prepared(hex: string)
    requires var body := Rmh(hex).0; body != [] && body[0] != '#'
    ensures Addh(Normalized(hex)) == "#" + Expand(Rmh(hex).0)
  {
    var body := Rmh(hex).0;
    var e := Expand(body);
    assert e[0] == body[0];
  }

  /** What `Hex` does once the input is '#' and the expanded body `e`:
      three groups when `e` has at most six characters, else `ahex`, which
      demands exactly eight and scans four groups. */
  function DecodedBody(e: string): Result<Color> {
    if |e| <= 6 then ScanColor("#" + e, 3)
    else if |e| != 8 then Err(BadLength("#" + e))
    else ScanColor("#" + e, 4)
  }

  /** On an input with one optional '#', `Hex` is `DecodedBody` of the
      expanded body. */
  lemma DecodedByLength(hex: string)
    requires var body := Rmh(hex).0; body != [] && body[0] != '#'
    ensures Decoded(hex) == DecodedBody(Expand(Rmh(hex).0))
  {
    var e := Expand(Rmh(hex).0);
    Prepared(hex);
    if |e| > 6 {
      var h := "#" + e;
      assert Rmh(h) == (e, true);
      assert Expand(e) == e;
      Prepared(h);
    }
  }

  /** The scan after the literal '#' is the scan of the rest. */
  lemma ScanAfterHash(e: string, n: nat)
    ensures Scan("#" + e, n) == Groups(e, n)
  {
    assert ("#" + e)[1..] == e;
  }

  /** The doubled body, cut after its first `m` characters, is all hex
      digits exactly when the body is, provided the cut keeps the last
      body character. */
  lemma DoubledHex(body: string, m: nat)
    requires 2 * |body| - 1 <= m <= 2 * |body|
    ensures HexPrefix(Doubled(body), m) <==> AllHex(body)
  {
    var e := Doubled(body);
    if HexPrefix(e, m) {
      forall i | 0 <= i < |body| ensures IsHexDigit(body[i]) {
        var j := 2 * i;
        assert j < m;
        assert IsHexDigit(e[j]);
        assert j / 2 == i;
      }
    } else if AllHex(body) {
      forall j | 0 <= j < m ensures IsHexDigit(e[j]) {
        assert e[j] == body[j / 2];
      }
    }
  }

  /** `Hex` rejects the empty body: `""` and `"#"`. */
  lemma EmptyRejected(hex: string)
    requires Rmh(hex).0 == []
    ensures Decoded(hex) == Err(ScanFailed)
  {
    var h := Addh(Normalized(hex));
    assert h == "#" || h == "##";
    assert Groups(h[1..], 3).None?;
  }

  /** The expanded bodies that scan: 5 or 6 characters whose first five are
      hex digits, or 8 whose first seven are. */
  predicate Scannable(e: string) {
    ((|e| == 5 || |e| == 6) && HexPrefix(e, 5)) || (|e| == 8 && HexPrefix(e, 7))
  }

  lemma BodyAccepts(e: string)
    ensures DecodedBody(e).Ok? <==> Scannable(e)
  {
    if |e| <= 6 {
      ScanAfterHash(e, 3);
      GroupsAccept(e, 3);
    } else if |e| == 8 {
      ScanAfterHash(e, 4);
      GroupsAccept(e, 4);
    }
  }

  /** A body is `Accepted` exactly when its expansion is `Scannable`. */
  lemma ExpandScannable(body: string)
    ensures Scannable(Expand(body)) <==> Accepted(body)
  {
    if |body| == 3 {
      DoubledHex(body, 5);
    } else if |body| == 4 {
      DoubledHex(body, 7);
    }
  }

  /** Which inputs `Hex` accepts, for every input with at most one leading
      '#': exactly those whose body is `Accepted`. */
  lemma DecodedAccepts(hex: string)
    requires var body := Rmh(hex).0; body == [] || body[0] != '#'
    ensures Decoded(hex).Ok? <==> Accepted(Rmh(hex).0)
  {
    var body := Rmh(hex).0;
    if body == [] {
      EmptyRejected(hex);
    } else {
      DecodedByLength(hex);
      BodyAccepts(Expand(body));
      ExpandScannable(body);
    }
  }

  /** Six or eight hex digits after the '#' are read in pairs. */
  lemma BodyPairs(e: string)
    requires (|e| == 6 || |e| == 8) && AllHex(e)
    ensures DecodedBody(e) ==
      Ok(Color(PairValue(e[0], e[1]), PairValue(e[2], e[3]), PairValue(e[4], e[5]),
               if |e| == 8 then PairValue(e[6], e[7]) else 255))
  {
    var n := |e| / 2;
    ScanAfterHash(e, n);
    GroupsPairs(e, n, 0);
    GroupsPairs(e, n, 1);
    GroupsPairs(e, n, 2);
    if n == 4 {
      GroupsPairs(e, n, 3);
    }
  }

  /** `Hex` on an expanded body of 6 or 8 hex digits yields its digit pairs. */
  lemma DecodedPairs(hex: string)
    requires var body := Rmh(hex).0; body != [] && body[0] != '#'
    requires var e := Expand(Rmh(hex).0); (|e| == 6 || |e| == 8) && AllHex(e)
    ensures var e := Expand(Rmh(hex).0);
      Decoded(hex) == Ok(Color(PairValue(e[0], e[1]), PairValue(e[2], e[3]), PairValue(e[4], e[5]),
                               if |e| == 8 then PairValue(e[6], e[7]) else 255))
  {
    DecodedByLength(hex);
    BodyPairs(Expand(Rmh(hex).0));
  }

  /** A 3- or 4-digit shorthand stands for each digit doubled; alpha is 255
      unless a fourth digit gives it. */
  lemma DecodedShorthand(hex: string)
    requires var body := Rmh(hex).0; (|body| == 3 || |body| == 4) && AllHex(body)
    ensures var b := Rmh(hex).0;
      Decoded(hex) == Ok(Color(PairValue(b[0], b[0]), PairValue(b[1], b[1]), PairValue(b[2], b[2]),
                               if |b| == 4 then PairValue(b[3], b[3]) else 255))
  {
    var b := Rmh(hex).0;
    DoubledHex(b, 2 * |b|);
    DecodedPairs(hex);
  }

  /** Six or eight hex digits are read in pairs: RGB with alpha 255, or RGBA. */
  lemma DecodedFull(hex: string)
    requires var body := Rmh(hex).0; (|body| == 6 || |body| == 8) && AllHex(body)
    ensures var b := Rmh(hex).0;
      Decoded(hex) == Ok(Color(PairValue(b[0], b[1]), PairValue(b[2], b[3]), PairValue(b[4], b[5]),
                               if |b| == 8 then PairValue(b[6], b[7]) else 255))
  {
    DecodedPairs(hex);
  }

  // ---------------------------------------------------------------------
  // Round trips

  /** Formatting a valid colour and parsing the text gives the colour back. */
  lemma RoundTrip(c: Color)
    requires c.IsValid()
    ensures Decoded(ColorHex(c, [])) == Ok(c)
  {
    var s := ColorHex(c, []);
    assert Rmh(s).0 == s[1..];
    DecodedFull(s);
  }

  /** With the alpha digits suppressed, parsing gives the colour made opaque. */
  lemma RoundTripNoAlpha(c: Color)
    requires c.IsValid()
    ensures Decoded(ColorHex(c, [true])) == Ok(c.(A := 255))
  {
    var s := ColorHex(c, [true]);
    assert Rmh(s).0 == s[1..];
    DecodedFull(s);
  }

  /** `ahex` reads the eight-digit form of every valid colour. */
  lemma RoundTripAlpha(c: Color)
    requires c.IsValid()
    ensures DecodedAlpha(ColorHexA(c)) == Ok(c)
  {
    var s := ColorHexA(c);
    var e := s[1..];
    assert Rmh(s) == (e, true);
    assert Expand(e) == e;
    Prepared(s);
    ScanAfterHash(e, 4);
    GroupsPairs(e, 4, 0);
    GroupsPairs(e, 4, 1);
    GroupsPairs(e, 4, 2);
    GroupsPairs(e, 4, 3);
  }

  // ---------------------------------------------------------------------
  // The package's test vectors

  lemma NormalizedShortExamples()
    ensures Normalized("fff") == "ffffff"
  {
    assert Rmh("fff").0 == "fff";
    assert Doubled("fff") == "ffffff";
  }

  lemma NormalizedShortHashExamples()
    ensures Normalized("#fff") == "#ffffff"
  {
    assert Rmh("#fff").0 == "fff";
    assert Doubled("fff") == "ffffff";
  }

  lemma NormalizedAlphaExamples()
    ensures Normalized("fffa") == "ffffffaa"
    ensures Normalized("#fff0") == "#ffffff00"
  {
    assert Rmh("fffa").0 == "fffa";
    assert Rmh("#fff0").0 == "fff0";
    assert Doubled("fffa") == "ffffffaa";
    assert Doubled("fff0") == "ffffff00";
  }

  lemma NormalizedLongExamples()
    ensures Normalized("ffffff") == "ffffff"
    ensures Normalized("#ffffff") == "#ffffff"
  {
    assert Rmh("ffffff").0 == "ffffff";
    assert Rmh("#ffffff").0 == "ffffff";
  }

  lemma DecodedOpaqueExamples()
    ensures Decoded("#ffffff") == Ok(White)
    ensures Decoded("#000000") == Ok(Black)
  {
    assert Rmh("#ffffff").0 == "ffffff";
    DecodedFull("#ffffff");
    assert Rmh("#000000").0 == "000000";
    DecodedFull("#000000");
  }

  lemma DecodedShorthandExample()
    ensures Decoded("#fff") == Ok(White)
  {
    assert Rmh("#fff").0 == "fff";
    DecodedShorthand("#fff");
  }

  /** Upper-case digits read as the same values as lower-case ones. */
  lemma CaseInsensitive(k: nat)
    requires k < 6
    ensures DigitValue(('a' as int + k) as char) == DigitValue(('A' as int + k) as char) == 10 + k
  {
  }

  /** So `"#FFF"` parses like `"#fff"`. */
  lemma DecodedUpperCaseExample()
    ensures Decoded("#FFF") == Ok(White)
  {
    assert Rmh("#FFF").0 == "FFF";
    DecodedShorthand("#FFF");
  }

  /** And `"#FF0000"` parses to red, as `"#ff0000"` does. */
  lemma DecodedUpperCaseFullExample()
    ensures Decoded("#FF0000") == Ok(RGB(255, 0, 0))
  {
    assert Rmh("#FF0000").0 == "FF0000";
    DecodedFull("#FF0000");
  }

  lemma DecodedAlphaInputExamples()
    ensures Decoded("#ff000000") == Ok(RGBA(255, 0, 0, 0))
    ensures Decoded("ff000000") == Ok(RGBA(255, 0, 0, 0))
  {
    assert Rmh("#ff000000").0 == "ff000000";
    DecodedFull("#ff000000");
    assert Rmh("ff000000").0 == "ff000000";
    DecodedFull("ff000000");
  }

  lemma DecodedRejects()
    ensures Decoded("") == Err(ScanFailed)
    ensures Decoded("#00").Err?
    ensures Decoded("#dfdsfadsfdsa").Err?
  {
    EmptyRejected("");
    assert Rmh("#00").0 == "00";
    DecodedAccepts("#00");
    assert Rmh("#dfdsfadsfdsa").0 == "dfdsfadsfdsa";
    DecodedAccepts("#dfdsfadsfdsa");
  }

  lemma DecodedAlphaExamples()
    ensures DecodedAlpha("#ffffff80") == Ok(RGBA(255, 255, 255, 128))
  {
    assert Rmh("#ffffff80").0 == "ffffff80";
    Prepared("#ffffff80");
    BodyPairs("ffffff80");
  }

  lemma DecodedAlphaRejects()
    ensures DecodedAlpha("#ffffff").Err?
    ensures DecodedAlpha("#ffffff80ff").Err?
    ensures DecodedAlpha("#ffffghff").Err?
  {
    assert Rmh("#ffffff").0 == "ffffff";
    Prepared("#ffffff");
    assert Rmh("#ffffff80ff").0 == "ffffff80ff";
    Prepared("#ffffff80ff");
    assert Rmh("#ffffghff").0 == "ffffghff";
    Prepared("#ffffghff");
    ScanAfterHash("ffffghff", 4);
    GroupsAccept("ffffghff", 4);
    assert !IsHexDigit("ffffghff"[4]);
  }

  lemma DecodedFiveDigits()
    ensures Decoded("#fffff") == Ok(RGB(255, 255, 15))
  {
    assert Rmh("#fffff").0 == "fffff";
    DecodedByLength("#fffff");
    ScanAfterHash("fffff", 3);
  }

  lemma DecodedIgnoresLastCharacter()
    ensures Decoded("#fffffz") == Ok(RGB(255, 255, 15))
  {
    assert Rmh("#fffffz").0 == "fffffz";
    DecodedByLength("#fffffz");
    ScanAfterHash("fffffz", 3);
  }

  lemma DecodedDoubleHash()
    ensures Decoded("##ffffff") == Ok(White)
  {
    assert Rmh("##ffffff").0 == "#ffffff";
    assert Normalized("##ffffff") == "#ffffff";
    ScanAfterHash("ffffff", 3);
    GroupsPairs("ffffff", 3, 0);
    GroupsPairs("ffffff", 3, 1);
    GroupsPairs("ffffff", 3, 2);
  }

  lemma ColorHexOpaqueExamples()
    ensures ColorHex(RGB(255, 255, 255), []) == "#ffffff"
    ensures ColorHex(RGB(0, 0, 0), []) == "#000000"
    ensures ColorHex(Color(255, 0, 0, 255), []) == "#ff0000"
  {
    assert Format2(255) == "ff";
    assert Format2(0) == "00";
  }

  lemma ColorHexAlphaExamples()
    ensures ColorHex(Color(255, 255, 255, 128), []) == "#ffffff80"
    ensures ColorHex(RGBA(255, 255, 255, 128), [false]) == "#ffffff80"
    ensures ColorHex(Color(255, 255, 255, 128), [true]) == "#ffffff"
  {
    assert Format2(255) == "ff";
    assert Format2(128) == "80";
  }
}
