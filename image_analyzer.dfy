/**
 * The image colour microservice: dominant colours by quantising every channel
 * to the nearest multiple of 32 (Python's `round`, ties to even) and ranking
 * the quantised colours with `Counter.most_common`; `'{:02x}'` hex rendering;
 * the three-colour palette with its defaults; and the fixed colour list used
 * when the imaging library is missing.
 */
module ImageAnalyzer {
  import opened Optional
  import opened Sorting
  import opened Counting

  /** An RGB pixel as the imaging library yields it after `convert('RGB')`. */
  datatype Rgb = Rgb(r: nat, g: nat, b: nat)

  /** The colours returned when the imaging library cannot be imported. */
  const FallbackColors: seq<string> := ["#1DB954", "#191414", "#FFFFFF", "#B3B3B3", "#535353"]

  /** `q` is what `round(c / 32) * 32` gives: a multiple of 32 nearest to `c`,
      and of two equally near ones the one whose quotient is even. */
  predicate RoundsTo(c: nat, q: int) {
    q % 32 == 0 && c - 16 <= q <= c + 16 && ((q == c - 16 || q == c + 16) ==> (q / 32) % 2 == 0)
  }

  /** `round(c / 32) * 32` */
  function Quantize(c: nat): (q: nat)
    ensures RoundsTo(c, q)
  {
    var quot := c / 32;
    var rem := c % 32;
    if rem < 16 || (rem == 16 && quot % 2 == 0) then quot * 32 else (quot + 1) * 32
  }

  /** Half-to-even rounding has exactly one result. */
  lemma QuantizeUnique(c: nat, q: int)
    ensures RoundsTo(c, q) <==> q == Quantize(c)
  {
    var p := Quantize(c);
    if RoundsTo(c, q) {
      var a, b := q / 32, p / 32;
      assert q == 32 * a && p == 32 * b;
    }
  }

  /** No multiple of 32 is nearer to `c` than its quantised value. */
  lemma QuantizeNearest(c: nat, m: int)
    requires m % 32 == 0
    ensures -16 <= Quantize(c) - c <= 16
    ensures (if m >= c then m - c else c - m) >= (if Quantize(c) >= c then Quantize(c) - c else c - Quantize(c))
  {
    var q := Quantize(c);
    var a, b := m / 32, q / 32;
    assert m == 32 * a && q == 32 * b;
    if a < b {
      assert a + 1 <= b;
    } else if b < a {
      assert b + 1 <= a;
    }
  }

  /** Ties go to the even level: 16 gives 0, 48 gives 64, 80 gives 64 and 208 gives 192. */
  lemma QuantizeTies()
    ensures Quantize(16) == 0 && Quantize(48) == 64 && Quantize(80) == 64 && Quantize(208) == 192
  {
  }

  /** A channel value lands on one of the nine levels 0, 32, ..., 256; every
      value from 240 up lands on 256, outside the byte range. */
  lemma QuantizeRange(c: nat)
    requires c <= 255
    ensures Quantize(c) % 32 == 0 && Quantize(c) <= 256
    ensures Quantize(c) == 256 <==> c >= 240
  {
  }

  function QuantizePixel(p: Rgb): (q: Rgb)
    ensures RoundsTo(p.r, q.r) && RoundsTo(p.g, q.g) && RoundsTo(p.b, q.b)
  {
    Rgb(Quantize(p.r), Quantize(p.g), Quantize(p.b))
  }

  /** The quantised pixels, one per pixel, in the same order. */
  function Quantized(pixels: seq<Rgb>): (q: seq<Rgb>)
    ensures |q| == |pixels|
    ensures forall i :: 0 <= i < |pixels| ==> q[i] == QuantizePixel(pixels[i])
  {
    seq(|pixels|, i requires 0 <= i < |pixels| => QuantizePixel(pixels[i]))
  }

  /** `[color for color, count in Counter(quantized).most_common(n)]` */
  function Dominant(pixels: seq<Rgb>, n: nat): (r: seq<Rgb>)
    ensures |r| <= n
    ensures forall i :: 0 <= i < |r| ==> r[i] in Quantized(pixels)
  {
    MostCommonCounts(Quantized(pixels), n);
    Keys(MostCommon(Quantized(pixels), n))
  }

  /** `get_dominant_colors`: the loop that quantises every pixel, then the ranking. */
  method GetDominantColors(pixels: seq<Rgb>, numColors: nat) returns (dominant: seq<Rgb>)
    ensures dominant == Dominant(pixels, numColors)
  {
    var quantized: seq<Rgb> := [];
    var i := 0;
    while i < |pixels|
      invariant 0 <= i <= |pixels|
      invariant |quantized| == i
      invariant forall k :: 0 <= k < i ==> quantized[k] == QuantizePixel(pixels[k])
    {
      var p := pixels[i];
      quantized := quantized + [Rgb(Quantize(p.r), Quantize(p.g), Quantize(p.b))];
      i := i + 1;
    }
    assert quantized == Quantized(pixels);
    dominant := Keys(MostCommon(quantized, numColors));
  }

  /** What the dominant colours are: at most `n` distinct quantised colours of
      the image, by non-increasing number of pixels; a colour left out has no
      more pixels than the last one kept; and colours with the same number of
      pixels keep the order in which they first occur. */
  lemma DominantProperties(pixels: seq<Rgb>, n: nat)
    ensures |Dominant(pixels, n)| <= n
    ensures |Dominant(pixels, n)| == 0 <==> pixels == [] || n == 0
    ensures AllDistinct(Dominant(pixels, n))
    ensures forall i :: 0 <= i < |Dominant(pixels, n)| ==> Dominant(pixels, n)[i] in Quantized(pixels)
    ensures forall i, j :: 0 <= i < j < |Dominant(pixels, n)| ==>
              Count(Quantized(pixels), Dominant(pixels, n)[i]) >= Count(Quantized(pixels), Dominant(pixels, n)[j])
    ensures forall x :: x in Quantized(pixels) && x !in Dominant(pixels, n) ==>
              |Dominant(pixels, n)| == n && (n > 0 ==> Count(Quantized(pixels), x) <= Count(Quantized(pixels), Dominant(pixels, n)[n - 1]))
    ensures forall c: nat :: Filter(MostCommon(Quantized(pixels), n), HasCount(c)) <= Filter(Tally(Quantized(pixels)), HasCount(c))
  {
    DominantRanked(pixels, n);
    forall x | x in Quantized(pixels) && x !in Dominant(pixels, n)
      ensures |Dominant(pixels, n)| == n &&
              (n > 0 ==> Count(Quantized(pixels), x) <= Count(Quantized(pixels), Dominant(pixels, n)[n - 1]))
    {
      DominantLeftOut(pixels, n, x);
    }
    forall c: nat ensures Filter(MostCommon(Quantized(pixels), n), HasCount(c)) <= Filter(Tally(Quantized(pixels)), HasCount(c)) {
      RankedTies(Tally(Quantized(pixels)), n, c);
    }
  }

  /** A colour left out has no more pixels than the last one kept. */
  lemma DominantLeftOut(pixels: seq<Rgb>, n: nat, x: Rgb)
    requires x in Quantized(pixels) && x !in Dominant(pixels, n)
    ensures |Dominant(pixels, n)| == n
    ensures n > 0 ==> Count(Quantized(pixels), x) <= Count(Quantized(pixels), Dominant(pixels, n)[n - 1])
  {
    var q := Quantized(pixels);
    MostCommonLeftOut(q, n, x);
    MostCommonCounts(q, n);
  }

  /** At most `n` distinct colours of the image, none unless there are pixels
      and `n > 0`, by non-increasing number of pixels. */
  lemma DominantRanked(pixels: seq<Rgb>, n: nat)
    ensures |Dominant(pixels, n)| <= n
    ensures |Dominant(pixels, n)| == 0 <==> pixels == [] || n == 0
    ensures AllDistinct(Dominant(pixels, n))
    ensures forall i :: 0 <= i < |Dominant(pixels, n)| ==> Dominant(pixels, n)[i] in Quantized(pixels)
    ensures forall i, j :: 0 <= i < j < |Dominant(pixels, n)| ==>
              Count(Quantized(pixels), Dominant(pixels, n)[i]) >= Count(Quantized(pixels), Dominant(pixels, n)[j])
  {
    var q := Quantized(pixels);
    MostCommonCounts(q, n);
    MostCommonDistinct(q, n);
    MostCommonNonEmpty(q, n);
  }

  /** A hexadecimal digit, lower case. */
  function HexChar(d: nat): (c: char)
    requires d < 16
    ensures IsHexChar(c)
  {
    if d < 10 then ('0' as int + d) as char else ('a' as int + d - 10) as char
  }

  predicate IsHexChar(c: char) {
    '0' <= c <= '9' || 'a' <= c <= 'f'
  }

  function HexValue(c: char): (d: nat)
    requires IsHexChar(c)
    ensures d < 16
  {
    if c <= '9' then c as int - '0' as int else c as int - 'a' as int + 10
  }

  /** `'{:x}'.format(n)`: lower-case hexadecimal without leading zeros. */
  function HexDigits(n: nat): (r: string)
    ensures |r| >= 1
    ensures forall i :: 0 <= i < |r| ==> IsHexChar(r[i])
    ensures n < 16 <==> |r| == 1
    ensures n < 256 <==> |r| <= 2
  {
    if n < 16 then [HexChar(n)] else HexDigits(n / 16) + [HexChar(n % 16)]
  }

  /** Reads a string of hexadecimal digits back as a number. */
  function ParseHex(s: string): nat
    requires forall i :: 0 <= i < |s| ==> IsHexChar(s[i])
  {
    if s == [] then 0
    else
      assert IsHexChar(s[|s| - 1]);
      ParseHex(s[..|s| - 1]) * 16 + HexValue(s[|s| - 1])
  }

  /** `'{:02x}'.format(n)`: zero-padded to width 2 when shorter. */
  function Hex2(n: nat): (r: string)
    ensures forall i :: 0 <= i < |r| ==> IsHexChar(r[i])
    ensures |r| >= 2
    ensures n < 256 <==> |r| == 2
  {
    if n < 16 then ['0', HexChar(n)] else HexDigits(n)
  }

  lemma {:induction false} ParseHexDigits(n: nat)
    ensures ParseHex(HexDigits(n)) == n
  {
    if n >= 16 {
      ParseHexDigits(n / 16);
      var r := HexDigits(n);
      assert r[..|r| - 1] == HexDigits(n / 16);
    }
  }

  /** Reading the padded field back gives the number. */
  lemma ParseHex2(n: nat)
    ensures ParseHex(Hex2(n)) == n
  {
    if n < 16 {
      var r := Hex2(n);
      assert r[..1] == ['0'];
      assert ParseHex(['0']) == 0 by {
        assert ['0'][..0] == [];
      }
    } else {
      ParseHexDigits(n);
    }
  }

  /** `rgb_to_hex` */
  function RgbToHex(c: Rgb): (h: string)
    ensures |h| >= 7 && h[0] == '#'
    ensures (c.r <= 255 && c.g <= 255 && c.b <= 255) <==> |h| == 7
  {
    "#" + Hex2(c.r) + Hex2(c.g) + Hex2(c.b)
  }

  /** For byte channels the seven characters are '#' and three two-digit
      fields that read back as the channels. */
  lemma RgbToHexRoundTrip(c: Rgb)
    requires c.r <= 255 && c.g <= 255 && c.b <= 255
    ensures forall i :: 1 <= i < 7 ==> IsHexChar(RgbToHex(c)[i])
    ensures ParseHex(RgbToHex(c)[1..3]) == c.r
    ensures ParseHex(RgbToHex(c)[3..5]) == c.g
    ensures ParseHex(RgbToHex(c)[5..7]) == c.b
  {
    var h := RgbToHex(c);
    assert h[1..3] == Hex2(c.r) && h[3..5] == Hex2(c.g) && h[5..7] == Hex2(c.b);
    ParseHex2(c.r);
    ParseHex2(c.g);
    ParseHex2(c.b);
  }

  /** A white pixel quantises to level 256 on every channel, which renders
      as the three-digit field "100", so the result is ten characters long. */
  lemma WhiteRendersLong()
    ensures RgbToHex(QuantizePixel(Rgb(255, 255, 255))) == "#100100100"
  {
    assert Hex2(256) == "100" by {
      assert HexDigits(16) == "10";
    }
  }

  function HexList(colors: seq<Rgb>): (hs: seq<string>)
    ensures |hs| == |colors|
    ensures forall i :: 0 <= i < |colors| ==> hs[i] == RgbToHex(colors[i])
  {
    seq(|colors|, i requires 0 <= i < |colors| => RgbToHex(colors[i]))
  }

  /** `analyze_image_colors`: `pilAvailable` is whether the imaging library was
      imported; `pixels` is the downloaded image resized to 150x150, or `None`
      when downloading or decoding raised (re-raised as "Image analysis
      failed"). */
  method AnalyzeImageColors(pilAvailable: bool, pixels: Option<seq<Rgb>>, numColors: nat)
    returns (r: Option<seq<string>>)
    ensures !pilAvailable ==> r == Some(FallbackColors)
    ensures pilAvailable && pixels.None? ==> r.None?
    ensures pilAvailable && pixels.Some? ==> r == Some(HexList(Dominant(pixels.value, numColors)))
  {
    if !pilAvailable {
      return Some(FallbackColors);
    }
    if pixels.None? {
      return None;
    }
    var dominant := GetDominantColors(pixels.value, numColors);
    return Some(HexList(dominant));
  }

  datatype Palette = Palette(dominantColors: seq<string>, primary: string, secondary: string, accent: string)

  /** The palette of a colour list: the first three colours, each replaced by
      its default when the list is too short. */
  function PaletteOf(colors: seq<string>): (p: Palette)
    ensures p.dominantColors == colors
    ensures p.primary == if |colors| > 0 then colors[0] else "#000000"
    ensures p.secondary == if |colors| > 1 then colors[1] else "#FFFFFF"
    ensures p.accent == if |colors| > 2 then colors[2] else "#808080"
  {
    Palette(colors,
            if |colors| > 0 then colors[0] else "#000000",
            if |colors| > 1 then colors[1] else "#FFFFFF",
            if |colors| > 2 then colors[2] else "#808080")
  }

  /** `get_color_palette`: five colours asked for. */
  method GetColorPalette(pilAvailable: bool, pixels: Option<seq<Rgb>>) returns (r: Option<Palette>)
    ensures r.None? <==> pilAvailable && pixels.None?
    ensures !pilAvailable ==> r == Some(PaletteOf(FallbackColors))
    ensures pilAvailable && pixels.Some? ==> r == Some(PaletteOf(HexList(Dominant(pixels.value, 5))))
  {
    var colors := AnalyzeImageColors(pilAvailable, pixels, 5);
    if colors.None? {
      return None;
    }
    return Some(PaletteOf(colors.value));
  }

  /** Without the imaging library the palette is the first three fixed colours. */
  lemma FallbackPalette()
    ensures PaletteOf(FallbackColors) == Palette(FallbackColors, "#1DB954", "#191414", "#FFFFFF")
  {
  }

  /** An image without pixels gets the three default colours. */
  lemma EmptyImagePalette()
    ensures PaletteOf(HexList(Dominant([], 5))) == Palette([], "#000000", "#FFFFFF", "#808080")
  {
    DominantProperties([], 5);
  }

  /** The primary colour of an image with pixels renders a quantised colour
      that no other quantised colour outnumbers. */
  lemma PrimaryIsMostFrequent(pixels: seq<Rgb>)
    requires pixels != []
    ensures exists c :: c in Quantized(pixels) && PaletteOf(HexList(Dominant(pixels, 5))).primary == RgbToHex(c) &&
              forall x :: x in Quantized(pixels) ==> Count(Quantized(pixels), x) <= Count(Quantized(pixels), c)
  {
    var q := Quantized(pixels);
    var d := Dominant(pixels, 5);
    DominantProperties(pixels, 5);
    var c := d[0];
    forall x | x in q ensures Count(q, x) <= Count(q, c) {
      if x in d {
        var i :| 0 <= i < |d| && d[i] == x;
        if i > 0 {
          assert Count(q, d[0]) >= Count(q, d[i]);
        }
      } else {
        assert Count(q, d[0]) >= Count(q, d[4]) by {
          if |d| > 1 {
            assert 0 < 4 < |d|;
          }
        }
      }
    }
    assert PaletteOf(HexList(d)).primary == RgbToHex(c);
  }
}
