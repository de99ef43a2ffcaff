/** The sixteen canvas colours, their hex notation, and the quantizer onto them. */
module Palette {
  import opened Bytes
  import opened Canvas

  datatype Rgb = Rgb(r: byte, g: byte, b: byte)

  const PALETTE: seq<Rgb> := [
    Rgb(0xff, 0xff, 0xff), Rgb(0xe4, 0xe4, 0xe4), Rgb(0x88, 0x88, 0x88), Rgb(0x22, 0x22, 0x22),
    Rgb(0xff, 0xb4, 0x70), Rgb(0x9a, 0x63, 0x24), Rgb(0x80, 0x00, 0x00), Rgb(0xba, 0x2d, 0x2d),
    Rgb(0xff, 0xd6, 0x00), Rgb(0x80, 0x80, 0x00), Rgb(0x46, 0x99, 0x90), Rgb(0x42, 0xd4, 0xf4),
    Rgb(0x43, 0x63, 0xd8), Rgb(0x00, 0x00, 0x75), Rgb(0xf0, 0x32, 0xe6), Rgb(0xfa, 0xbe, 0xd4)]

  const COLORS := 16

  /** The square of the difference of two channel values. */
  function Square(a: byte, b: byte): (d: nat)
    ensures d <= 65025
    ensures d == 0 <==> a == b
  {
    SquareOfDistance(if a < b then b - a else a - b);
    (a - b) * (a - b)
  }

  lemma SquareOfDistance(d: byte)
    ensures d * d <= 65025 && (d == 0 || d * d > 0)
  {
    assert d * d <= d * 255 <= 65025;
  }

  /** The weighted squared distance the quantizer minimizes. */
  function Distance(a: Rgb, b: Rgb): (d: nat)
    ensures d == 0 <==> a == b
    ensures d == 2 * ((a.r - b.r) * (a.r - b.r)) + 4 * ((a.g - b.g) * (a.g - b.g)) + 3 * ((a.b - b.b) * (a.b - b.b))
    ensures d < U32 - 1
  {
    2 * Square(a.r, b.r) + 4 * Square(a.g, b.g) + 3 * Square(a.b, b.b)
  }

  /** `best` is the first palette entry at least distance from `c`. */
  ghost predicate IsNearest(c: Rgb, best: nat) {
    && best < COLORS
    && (forall i :: 0 <= i < COLORS ==> Distance(c, PALETTE[best]) <= Distance(c, PALETTE[i]))
    && (forall i :: 0 <= i < best ==> Distance(c, PALETTE[best]) < Distance(c, PALETTE[i]))
  }

  method NearestColor(c: Rgb) returns (best: byte)
    ensures IsNearest(c, best) && best == Nearest(c)
  {
    hide Distance;
    best := 0;
    var bestD := U32 - 1;
    for i := 0 to COLORS
      invariant i > 0 ==> best < i && bestD == Distance(c, PALETTE[best])
      invariant i == 0 ==> bestD == U32 - 1
      invariant forall k :: 0 <= k < i ==> bestD <= Distance(c, PALETTE[k])
      invariant i > 0 ==> forall k :: 0 <= k < best ==> bestD < Distance(c, PALETTE[k])
    {
      var d := Distance(c, PALETTE[i]);
      if d < bestD {
        best, bestD := i, d;
      }
    }
    NearestOnlyOne(c, best, Nearest(c));
  }

  /** The same as a function: the first minimum from index `i` on. */
  function Nearest(c: Rgb): (best: nat)
    ensures IsNearest(c, best)
  {
    NearestFrom(c, COLORS - 1)
  }

  function NearestFrom(c: Rgb, last: nat): (best: nat)
    requires last < COLORS
    ensures best <= last
    ensures forall i :: 0 <= i <= last ==> Distance(c, PALETTE[best]) <= Distance(c, PALETTE[i])
    ensures forall i :: 0 <= i < best ==> Distance(c, PALETTE[best]) < Distance(c, PALETTE[i])
  {
    if last == 0 then 0
    else
      var b := NearestFrom(c, last - 1);
      if Distance(c, PALETTE[last]) < Distance(c, PALETTE[b]) then last else b
  }

  lemma NearestOnlyOne(c: Rgb, a: nat, b: nat)
    requires IsNearest(c, a) && IsNearest(c, b)
    ensures a == b
  {
    hide Distance;
    var da, db := Distance(c, PALETTE[a]), Distance(c, PALETTE[b]);
    assert da == db;
    assert a < b ==> db < da;
    assert b < a ==> da < db;
  }

  /** Quantizing a palette colour gives its own index: no two entries are the same. */
  lemma PaletteFixed(i: nat)
    requires i < COLORS
    ensures Nearest(PALETTE[i]) == i
  {
    var c := PALETTE[i];
    PaletteDistinct(i);
    assert forall k :: 0 <= k < COLORS && k != i ==> Distance(c, PALETTE[k]) > 0;
    NearestOnlyOne(c, Nearest(c), i);
  }

  lemma PaletteDistinct(i: nat)
    requires i < COLORS
    ensures forall k :: 0 <= k < COLORS && k != i ==> PALETTE[k] != PALETTE[i]
  {}

  // ---- Hex notation ----

  function HexNibble(c: char): Option<byte> {
    if '0' <= c <= '9' then Some(c as int - '0' as int)
    else if 'a' <= c <= 'f' then Some(c as int - 'a' as int + 10)
    else if 'A' <= c <= 'F' then Some(c as int - 'A' as int + 10)
    else None
  }

  function HexPair(hi: char, lo: char): Option<byte> {
    match (HexNibble(hi), HexNibble(lo))
    case (Some(h), Some(l)) => if h < 16 && l < 16 then Some(h * 16 + l) else None
    case _ => None
  }

  function ParseHex(s: string): Option<Rgb> {
    if |s| != 7 || s[0] != '#' then None
    else
      match (HexPair(s[1], s[2]), HexPair(s[3], s[4]), HexPair(s[5], s[6]))
      case (Some(r), Some(g), Some(b)) => Some(Rgb(r, g, b))
      case _ => None
  }

  /** Resolves a legend hex to the nearest palette index. */
  function PaletteColor(hex: string): (r: Option<byte>)
    ensures r.Some? ==> r.value < COLORS
  {
    match ParseHex(hex)
    case None => None
    case Some(c) => Some(Nearest(c))
  }

  const HEX_DIGITS := "0123456789abcdef"

  /** "#rrggbb" in lower case, as the printer writes it. */
  function HexOf(c: Rgb): (s: string)
    ensures |s| == 7 && forall i :: 1 <= i < 7 ==> s[i] in "0123456789abcdef"
  {
    ['#', HEX_DIGITS[c.r / 16], HEX_DIGITS[c.r % 16], HEX_DIGITS[c.g / 16], HEX_DIGITS[c.g % 16],
     HEX_DIGITS[c.b / 16], HEX_DIGITS[c.b % 16]]
  }

  lemma NibbleRoundTrip(v: nat)
    requires v < 16
    ensures HexNibble(HEX_DIGITS[v]) == Some(v)
    ensures HEX_DIGITS[v] in HEX_DIGITS
  {}

  lemma PairRoundTrip(v: byte)
    ensures HexPair(HEX_DIGITS[v / 16], HEX_DIGITS[v % 16]) == Some(v)
  {
    hide HexNibble;
    var hi, lo := v / 16, v % 16;
    assert hi < 16 && hi * 16 + lo == v;
    NibbleRoundTrip(hi);
    NibbleRoundTrip(lo);
  }

  /** The digit of value `v`, in either case. */
  predicate IsDigit(c: char, v: nat)
    requires v < 16
  {
    c == "0123456789abcdef"[v] || c == "0123456789ABCDEF"[v]
  }

  lemma NibbleIsDigit(c: char, v: nat)
    requires v < 16
    ensures HexNibble(c) == Some(v) <==> IsDigit(c, v)
  {}

  lemma PairIsDigits(hi: char, lo: char, v: byte)
    ensures HexPair(hi, lo) == Some(v) <==> IsDigit(hi, v / 16) && IsDigit(lo, v % 16)
  {
    hide HexNibble, IsDigit;
    NibbleIsDigit(hi, v / 16);
    NibbleIsDigit(lo, v % 16);
  }

  /** Exactly "#" and two digits of either case for each channel read as a colour, high digit first, in the
      order red, green, blue. */
  lemma HexReads(s: string, c: Rgb)
    ensures ParseHex(s) == Some(c) <==>
            && |s| == 7 && s[0] == '#'
            && IsDigit(s[1], c.r / 16) && IsDigit(s[2], c.r % 16)
            && IsDigit(s[3], c.g / 16) && IsDigit(s[4], c.g % 16)
            && IsDigit(s[5], c.b / 16) && IsDigit(s[6], c.b % 16)
  {
    hide HexPair, IsDigit;
    if |s| == 7 {
      PairIsDigits(s[1], s[2], c.r);
      PairIsDigits(s[3], s[4], c.g);
      PairIsDigits(s[5], s[6], c.b);
    }
  }

  lemma HexRoundTrip(c: Rgb)
    ensures ParseHex(HexOf(c)) == Some(c)
  {
    hide HexPair, HexNibble;
    PairRoundTrip(c.r);
    PairRoundTrip(c.g);
    PairRoundTrip(c.b);
  }

  /** What the legend prints for a palette index reads back as that index. */
  lemma PaletteColorRoundTrip(i: nat)
    requires i < COLORS
    ensures PaletteColor(HexOf(PALETTE[i])) == Some(i)
  {
    HexRoundTrip(PALETTE[i]);
    PaletteFixed(i);
  }

  /** parseHex: both digits of each channel in turn. */
  method ParseHexDigits(s: string) returns (r: Option<Rgb>)
    ensures r == ParseHex(s)
  {
    if |s| != 7 || s[0] != '#' {
      return None;
    }
    var v: seq<byte> := [];
    for i := 0 to 3
      invariant |v| == i
      invariant forall k :: 0 <= k < i ==> HexPair(s[1 + 2 * k], s[2 + 2 * k]) == Some(v[k])
    {
      var hi, lo := HexNibble(s[1 + 2 * i]), HexNibble(s[2 + 2 * i]);
      if hi.None? || lo.None? {
        return None;
      }
      v := v + [hi.value * 16 + lo.value];
    }
    return Some(Rgb(v[0], v[1], v[2]));
  }
}
