/**
  Captions of the floating gallery: a title and a description are picked for
  each image file name by a 32-bit string hash, reduced to an index into two
  eight-entry tables.

  The page hashes with `a = ((a << 5) - a) + code; return a & a`, starting
  from 0, over the UTF-16 code units of the name. JavaScript's bitwise
  operators work on signed 32-bit integers, so both `<<` and `&` wrap their
  result into that range; that wrapping is written out here as `ToInt32`.
 */
module ImageCaptions {

  /** A UTF-16 code unit, as `charCodeAt` returns it. */
  type CodeUnit = c: int | 0 <= c < 0x1_0000

  const TwoTo32: int := 0x1_0000_0000

  /** ECMAScript ToInt32: the signed 32-bit integer congruent to `x` modulo 2^32. */
  function ToInt32(x: int): (r: int)
    ensures -0x8000_0000 <= r < 0x8000_0000
    ensures (r - x) % TwoTo32 == 0
  {
    var m := x % TwoTo32;
    if m >= 0x8000_0000 then m - TwoTo32 else m
  }

  /** Numbers congruent modulo 2^32 have the same 32-bit value. */
  lemma ToInt32Congruent(x: int, y: int)
    requires (x - y) % TwoTo32 == 0
    ensures ToInt32(x) == ToInt32(y)
  {
    var q := (x - y) / TwoTo32;
    assert x - y == q * TwoTo32;
    assert x % TwoTo32 == y % TwoTo32;
  }

  lemma ScaledMultiple(d: int, k: int)
    requires d % TwoTo32 == 0
    ensures (k * d) % TwoTo32 == 0
  {
    var q := d / TwoTo32;
    assert d == q * TwoTo32;
    assert k * d == (k * q) * TwoTo32;
  }

  /** One step of the page's reduce: `(a << 5) - a + code`, then `& a`. */
  function HashStep(a: int, c: CodeUnit): (r: int)
    ensures -0x8000_0000 <= r < 0x8000_0000
  {
    ToInt32(ToInt32(a * 32) - a + c)
  }

  /** The hash of a whole name, folding `HashStep` from the left starting at 0. */
  function HashOf(s: seq<CodeUnit>): (h: int)
    ensures -0x8000_0000 <= h < 0x8000_0000
  {
    if s == [] then 0 else HashStep(HashOf(s[..|s| - 1]), s[|s| - 1])
  }

  /** The reduce over the name, one code unit at a time. */
  method FilenameHash(s: seq<CodeUnit>) returns (h: int)
    ensures h == HashOf(s)
  {
    h := 0;
    for i := 0 to |s|
      invariant h == HashOf(s[..i])
    {
      assert s[..i + 1][..i] == s[..i];
      h := HashStep(h, s[i]);
    }
    assert s[..|s|] == s;
  }

  /** The polynomial `sum s[i] * 31^(|s|-1-i)` over unbounded integers. */
  function Poly(s: seq<CodeUnit>): int {
    if s == [] then 0 else 31 * Poly(s[..|s| - 1]) + s[|s| - 1]
  }

  /** Each step multiplies by 31 and adds the code unit, modulo 2^32. */
  lemma HashStepIsTimes31(a: int, c: CodeUnit)
    ensures HashStep(a, c) == ToInt32(31 * a + c)
  {
    var lo := ToInt32(a * 32);
    assert (lo - a * 32) % TwoTo32 == 0;
    ToInt32Congruent(lo - a + c, 31 * a + c);
  }

  /** The hash is the 32-bit wrap of the polynomial string hash. */
  lemma {:induction false} HashIsPolynomial(s: seq<CodeUnit>)
    ensures HashOf(s) == ToInt32(Poly(s))
  {
    if s != [] {
      var init, c := s[..|s| - 1], s[|s| - 1];
      HashIsPolynomial(init);
      HashStepIsTimes31(HashOf(init), c);
      var p := Poly(init);
      ScaledMultiple(ToInt32(p) - p, 31);
      assert (31 * ToInt32(p) + c) - (31 * p + c) == 31 * (ToInt32(p) - p);
      ToInt32Congruent(31 * ToInt32(p) + c, 31 * p + c);
    }
  }

  /** `Math.abs(hash) % 8`: an index into the eight-entry tables. */
  function CaptionIndex(h: int): (i: nat)
    ensures i < 8
  {
    (if h < 0 then -h else h) % 8
  }

  const Titles: seq<string> := [
    "Detailed Portrait Work",
    "Vibrant Color Design",
    "Black & Gray Masterpiece",
    "Geometric Precision",
    "Realistic Portrait",
    "Custom Artwork",
    "Fine Line Work",
    "Bold Color Piece"
  ]

  const Descriptions: seq<string> := [
    "Intricate details and expert shading",
    "Bold colors and striking composition",
    "Classic black and gray technique",
    "Precise geometric patterns",
    "Lifelike portrait artistry",
    "Unique custom design",
    "Delicate fine line technique",
    "Vibrant and eye-catching"
  ]

  /** The title of an image: a table entry chosen by the hash of its name. */
  method ImageTitle(filename: seq<CodeUnit>) returns (title: string)
    ensures title in Titles
    ensures title == Titles[CaptionIndex(ToInt32(Poly(filename)))]
  {
    var h := FilenameHash(filename);
    HashIsPolynomial(filename);
    title := Titles[CaptionIndex(h)];
  }

  /** The description of an image: the entry at the same index of the other table. */
  method ImageDescription(filename: seq<CodeUnit>) returns (description: string)
    ensures description in Descriptions
    ensures description == Descriptions[CaptionIndex(ToInt32(Poly(filename)))]
  {
    var h := FilenameHash(filename);
    HashIsPolynomial(filename);
    description := Descriptions[CaptionIndex(h)];
  }
}
