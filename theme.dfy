/**
 * The brand colour: reading a `#rrggbb` colour and deriving the eleven shades of the
 * primary palette by mixing the colour with white (lighter shades) or black (darker
 * shades).  Channel values are integers; `Math.round` is exact half-up rounding.
 */
module Theme {
  import opened Wrappers
  import Decimal

  datatype Rgb = Rgb(r: int, g: int, b: int)

  predicate InRange(c: Rgb) {
    0 <= c.r <= 255 && 0 <= c.g <= 255 && 0 <= c.b <= 255
  }

  /** `[a-f\d]` under the case-insensitive flag. */
  predicate IsHexDigit(c: char) {
    '0' <= c <= '9' || 'a' <= c <= 'f' || 'A' <= c <= 'F'
  }

  predicate AllHex(s: string) {
    forall i :: 0 <= i < |s| ==> IsHexDigit(s[i])
  }

  function HexValue(c: char): (v: nat)
    requires IsHexDigit(c)
    ensures v < 16
  {
    if '0' <= c <= '9' then c as int - '0' as int
    else if 'a' <= c <= 'f' then c as int - 'a' as int + 10
    else c as int - 'A' as int + 10
  }

  /** `parseInt(pair, 16)` of two hex digits. */
  function HexByte(hi: char, lo: char): (v: nat)
    requires IsHexDigit(hi) && IsHexDigit(lo)
    ensures v < 256
  {
    HexValue(hi) * 16 + HexValue(lo)
  }

  /** `hexToRgb`: six hex digits, optionally after `#`; anything else is null. */
  function HexToRgb(hex: string): (c: Option<Rgb>)
    ensures c.Some? ==> InRange(c.value)
  {
    var digits := if |hex| == 7 && hex[0] == '#' then hex[1..] else hex;
    if |digits| == 6 && AllHex(digits)
    then Some(Rgb(HexByte(digits[0], digits[1]), HexByte(digits[2], digits[3]), HexByte(digits[4], digits[5])))
    else None
  }

  /** Exactly the texts the pattern `^#?([a-f\d]{2}){3}$` (case-insensitive) accepts. */
  predicate HexColour(hex: string) {
    (|hex| == 6 && AllHex(hex)) || (|hex| == 7 && hex[0] == '#' && AllHex(hex[1..]))
  }

  lemma HexToRgbAccepts(hex: string)
    ensures HexToRgb(hex).Some? <==> HexColour(hex)
  {
    if |hex| == 6 && hex[0] == '#' {
      assert !IsHexDigit(hex[0]);
    }
  }

  /** Lower-case hex digit of a value below 16. */
  function HexDigit(v: nat): (c: char)
    requires v < 16
    ensures IsHexDigit(c) && HexValue(c) == v
  {
    if v < 10 then (v + '0' as int) as char else (v - 10 + 'a' as int) as char
  }

  function HexPair(v: nat): (s: string)
    requires v < 256
    ensures |s| == 2 && AllHex(s) && HexByte(s[0], s[1]) == v
  {
    [HexDigit(v / 16), HexDigit(v % 16)]
  }

  /** The `#rrggbb` text of a colour. */
  function ToHex(c: Rgb): (s: string)
    requires InRange(c)
  {
    "#" + HexPair(c.r) + HexPair(c.g) + HexPair(c.b)
  }

  /** Reading back a written colour gives the colour, with or without the `#`. */
  lemma HexRoundTrip(c: Rgb)
    requires InRange(c)
    ensures HexColour(ToHex(c))
    ensures HexToRgb(ToHex(c)) == Some(c)
    ensures HexToRgb(ToHex(c)[1..]) == Some(c)
  {
    var s := ToHex(c);
    var d := s[1..];
    assert d == HexPair(c.r) + HexPair(c.g) + HexPair(c.b);
    assert d[0..2] == HexPair(c.r) && d[2..4] == HexPair(c.g) && d[4..6] == HexPair(c.b);
    assert forall i :: 0 <= i < 6 ==> IsHexDigit(d[i]) by {
      forall i | 0 <= i < 6 ensures IsHexDigit(d[i]) {
        if i < 2 { assert d[i] == HexPair(c.r)[i]; }
        else if i < 4 { assert d[i] == HexPair(c.g)[i - 2]; }
        else { assert d[i] == HexPair(c.b)[i - 4]; }
      }
    }
    assert d[0] == HexPair(c.r)[0] && d[1] == HexPair(c.r)[1];
    assert d[2] == HexPair(c.g)[0] && d[3] == HexPair(c.g)[1];
    assert d[4] == HexPair(c.b)[0] && d[5] == HexPair(c.b)[1];
  }

  function UpperChar(c: char): char {
    if 'a' <= c <= 'z' then (c as int - 32) as char else c
  }

  function Upper(s: string): (r: string)
    ensures |r| == |s| && forall i :: 0 <= i < |s| ==> r[i] == UpperChar(s[i])
  {
    seq(|s|, i requires 0 <= i < |s| => UpperChar(s[i]))
  }

  lemma UpperDigits(digits: string)
    ensures AllHex(Upper(digits)) <==> AllHex(digits)
    ensures AllHex(digits) ==> forall i :: 0 <= i < |digits| ==> HexValue(Upper(digits)[i]) == HexValue(digits[i])
  {
    var up := Upper(digits);
    assert forall i :: 0 <= i < |digits| ==> (IsHexDigit(up[i]) <==> IsHexDigit(digits[i]));
  }

  /** Upper and lower case digits read alike. */
  lemma HexIgnoresCase(hex: string)
    ensures HexToRgb(Upper(hex)) == HexToRgb(hex)
  {
    var up := Upper(hex);
    if |hex| == 7 && hex[0] == '#' {
      assert up[1..] == Upper(hex[1..]);
      UpperDigits(hex[1..]);
    } else {
      UpperDigits(hex);
    }
  }

  // ---------------------------------------------------------------------------
  // Mixing
  // ---------------------------------------------------------------------------

  /** `Math.round(start + (end - start) * (percent / 100))`. */
  function Mix(start: int, end: int, percent: int): int {
    (start as real + (end - start) as real * (percent as real / 100.0) + 0.5).Floor
  }

  lemma FloorMonotone(x: real, y: real)
    requires x <= y
    ensures x.Floor <= y.Floor
  {
  }

  /** No mixing gives the start, full mixing the end. */
  lemma MixEndpoints(start: int, end: int)
    ensures Mix(start, end, 0) == start
    ensures Mix(start, end, 100) == end
  {
    assert (start as real + (end - start) as real * (0 as real / 100.0) + 0.5) == start as real + 0.5;
    assert (start as real + (end - start) as real * (100 as real / 100.0) + 0.5) == end as real + 0.5;
  }

  /** Mixing further toward the end moves the value toward the end, never back. */
  lemma MixMonotone(start: int, end: int, p: int, q: int)
    requires p <= q
    ensures start <= end ==> Mix(start, end, p) <= Mix(start, end, q)
    ensures start >= end ==> Mix(start, end, p) >= Mix(start, end, q)
  {
    var x := start as real + (end - start) as real * (p as real / 100.0) + 0.5;
    var y := start as real + (end - start) as real * (q as real / 100.0) + 0.5;
    if start <= end {
      assert (end - start) as real * (p as real / 100.0) <= (end - start) as real * (q as real / 100.0);
      FloorMonotone(x, y);
    } else {
      assert (end - start) as real * (p as real / 100.0) >= (end - start) as real * (q as real / 100.0);
      FloorMonotone(y, x);
    }
  }

  /** Between 0 and 100 percent the mix lies between the start and the end. */
  lemma MixBetween(start: int, end: int, percent: int)
    requires 0 <= percent <= 100
    ensures start <= end ==> start <= Mix(start, end, percent) <= end
    ensures end <= start ==> end <= Mix(start, end, percent) <= start
  {
    MixEndpoints(start, end);
    MixMonotone(start, end, 0, percent);
    MixMonotone(start, end, percent, 100);
  }

  /** `mixColor`: each channel mixed toward the target's channel. */
  function MixColor(base: Rgb, target: Rgb, percent: int): Rgb {
    Rgb(Mix(base.r, target.r, percent), Mix(base.g, target.g, percent), Mix(base.b, target.b, percent))
  }

  const White := Rgb(255, 255, 255)
  const Black := Rgb(0, 0, 0)

  /** The eleven shades, lightest to darkest. */
  datatype Palette = Palette(
    p50: Rgb, p100: Rgb, p200: Rgb, p300: Rgb, p400: Rgb, p500: Rgb,
    p600: Rgb, p700: Rgb, p800: Rgb, p900: Rgb, p950: Rgb)

  /** 95, 90, 75, 50 and 25 percent white; the colour itself; 10, 30, 50, 70 and 85 percent black. */
  function Shades(base: Rgb): Palette {
    Palette(
      MixColor(base, White, 95), MixColor(base, White, 90), MixColor(base, White, 75),
      MixColor(base, White, 50), MixColor(base, White, 25),
      base,
      MixColor(base, Black, 10), MixColor(base, Black, 30), MixColor(base, Black, 50),
      MixColor(base, Black, 70), MixColor(base, Black, 85))
  }

  /** The `r g b` text a CSS variable holds. */
  function Render(c: Rgb): string {
    Decimal.IntToString(c.r) + " " + Decimal.IntToString(c.g) + " " + Decimal.IntToString(c.b)
  }

  const ShadeNames: seq<string> := [
    "--primary-50", "--primary-100", "--primary-200", "--primary-300", "--primary-400", "--primary-500",
    "--primary-600", "--primary-700", "--primary-800", "--primary-900", "--primary-950"]

  function Variables(p: Palette): seq<(string, string)> {
    var shades := [p.p50, p.p100, p.p200, p.p300, p.p400, p.p500, p.p600, p.p700, p.p800, p.p900, p.p950];
    seq(11, i requires 0 <= i < 11 => (ShadeNames[i], Render(shades[i])))
  }

  /** `generatePalette`: the CSS variables of the eleven shades, or null when the colour does not parse. */
  function GeneratePalette(hex: string): (r: Option<seq<(string, string)>>)
    ensures r.None? <==> HexToRgb(hex).None?
    ensures r.Some? ==> |r.value| == 11 && forall i :: 0 <= i < 11 ==> r.value[i].0 == ShadeNames[i]
  {
    match HexToRgb(hex)
    case None => None
    case Some(base) => Some(Variables(Shades(base)))
  }

  /** `--primary-500` is the colour itself, as `r g b`. */
  lemma BaseShadeIsColour(hex: string)
    requires HexToRgb(hex).Some?
    ensures GeneratePalette(hex).value[5] == ("--primary-500", Render(HexToRgb(hex).value))
  {
  }

  /** One channel's shades: lighter toward 50, darker toward 950, all within 0..255. */
  lemma {:induction false} ChannelOrdered(c: int)
    requires 0 <= c <= 255
    ensures 255 >= Mix(c, 255, 95) >= Mix(c, 255, 90) >= Mix(c, 255, 75) >= Mix(c, 255, 50) >= Mix(c, 255, 25) >= c
    ensures c >= Mix(c, 0, 10) >= Mix(c, 0, 30) >= Mix(c, 0, 50) >= Mix(c, 0, 70) >= Mix(c, 0, 85) >= 0
  {
    MixEndpoints(c, 255);
    MixEndpoints(c, 0);
    MixMonotone(c, 255, 0, 25);
    MixMonotone(c, 255, 25, 50);
    MixMonotone(c, 255, 50, 75);
    MixMonotone(c, 255, 75, 90);
    MixMonotone(c, 255, 90, 95);
    MixMonotone(c, 255, 95, 100);
    MixMonotone(c, 0, 0, 10);
    MixMonotone(c, 0, 10, 30);
    MixMonotone(c, 0, 30, 50);
    MixMonotone(c, 0, 50, 70);
    MixMonotone(c, 0, 70, 85);
    MixMonotone(c, 0, 85, 100);
  }

  predicate NotDarker(a: Rgb, b: Rgb) {
    a.r >= b.r && a.g >= b.g && a.b >= b.b
  }

  /**
   * Per channel the shades run 50 ≥ 100 ≥ … ≥ 400 ≥ colour ≥ 600 ≥ … ≥ 950: mixing with white
   * never darkens, mixing with black never lightens, and every shade is a valid colour.
   */
  lemma ShadesOrdered(base: Rgb)
    requires InRange(base)
    ensures var p := Shades(base);
            && NotDarker(p.p50, p.p100) && NotDarker(p.p100, p.p200) && NotDarker(p.p200, p.p300)
            && NotDarker(p.p300, p.p400) && NotDarker(p.p400, p.p500) && NotDarker(p.p500, p.p600)
            && NotDarker(p.p600, p.p700) && NotDarker(p.p700, p.p800) && NotDarker(p.p800, p.p900)
            && NotDarker(p.p900, p.p950)
            && InRange(p.p50) && InRange(p.p950)
  {
    ChannelOrdered(base.r);
    ChannelOrdered(base.g);
    ChannelOrdered(base.b);
  }

  /** The default brand colour `#2563eb` parses to (37, 99, 235). */
  lemma DefaultColour()
    ensures HexToRgb("#2563eb") == Some(Rgb(37, 99, 235))
  {
    var d := "#2563eb"[1..];
    assert d == "2563eb";
    assert AllHex(d);
  }
}
