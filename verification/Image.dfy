/** Image import: fit to a box, average each source box, blend over the empty canvas, quantize. */
module Image {
  import opened Bytes
  import opened Canvas
  import Palette
  import opened Shapes
  import opened TextArt

  // ---- Products and quotients ----

  /** Flooring division, as what it promises. */
  lemma Quotient(n: nat, d: nat, q: int)
    requires d > 0
    ensures q == n / d <==> q * d <= n < q * d + d
  {
    var t := n / d;
    assert n == t * d + n % d;
    if q < t {
      ProductStep(q, t, d);
    } else if t < q {
      ProductStep(t, q, d);
    }
  }

  lemma ProductOrder(a: nat, b: nat, c: nat)
    requires c > 0
    ensures a <= b <==> a * c <= b * c
    ensures a < b <==> a * c < b * c
  {
    if a < b {
      ProductStep(a, b, c);
    } else if b < a {
      ProductStep(b, a, c);
    }
  }

  // ---- The fitted size ----

  /** Fits the box, never upscales, never vanishes. */
  predicate Fits(w: nat, h: nat, maxW: nat, maxH: nat, dw: int, dh: int) {
    && 1 <= dw <= maxW && 1 <= dh <= maxH
    && dw <= w && dh <= h
    && (w <= maxW && h <= maxH ==> dw == w && dh == h)
  }

  /** One side is at a limit and the other is the exact aspect rounded down, but at least one pixel. */
  predicate KeepsAspect(w: nat, h: nat, maxW: nat, maxH: nat, dw: int, dh: int) {
    || (dw == w && dh == h)
    || (dw == maxW && (dh * w <= h * dw < dh * w + w || (dh == 1 && h * dw < w)))
    || (dh == maxH && (dw * h <= w * dh < dw * h + h || (dw == 1 && w * dh < h)))
  }

  method FitScale(w: nat, h: nat, maxW: nat, maxH: nat) returns (dw: nat, dh: nat)
    requires w > 0 && h > 0 && maxW > 0 && maxH > 0
    ensures Fits(w, h, maxW, maxH, dw, dh) && KeepsAspect(w, h, maxW, maxH, dw, dh)
  {
    dw, dh := w, h;
    if dw > maxW || dh > maxH {
      if dw * maxH > dh * maxW {
        Shrinks(w, h, maxW, maxH);
        dh := dh * maxW / dw;
        dw := maxW;
      } else {
        Shrinks(h, w, maxH, maxW);
        dw := dw * maxH / dh;
        dh := maxH;
      }
      if dw == 0 {
        dw := 1;
      }
      if dh == 0 {
        dh := 1;
      }
    }
  }

  /** The side that binds shrinks to its limit and the other stays within both of its own. */
  lemma Shrinks(long: nat, short: nat, maxLong: nat, maxShort: nat)
    requires long > 0 && short > 0 && maxLong > 0 && maxShort > 0
    requires long > maxLong || short > maxShort
    requires long * maxShort >= short * maxLong
    ensures maxLong <= long
    ensures var q := short * maxLong / long;
            0 <= q <= maxShort && q <= short && q * long <= short * maxLong < q * long + long
  {
    if maxLong > long {
      ProductStep(long, maxLong, short);
      ProductStep(maxShort, short, long);
    }
    var q := short * maxLong / long;
    Quotient(short * maxLong, long, q);
    ProductOrder(q, maxShort, long);
    ProductOrder(maxLong, long, short);
    ProductOrder(q, short, long);
  }

  // ---- The boxes ----

  /** Where the k-th of `d` boxes over `n` source pixels starts. */
  function Start(k: nat, n: nat, d: nat): nat
    requires d > 0
  {
    k * n / d
  }

  /** With no more boxes than pixels, every box holds a pixel, and the last ends at the last pixel. */
  lemma BoxNonEmpty(k: nat, n: nat, d: nat)
    requires 0 < d <= n && k < d
    ensures Start(k, n, d) < Start(k + 1, n, d) <= n
    ensures Start(0, n, d) == 0 && Start(d, n, d) == n
  {
    var a, b := Start(k, n, d), Start(k + 1, n, d);
    Quotient(k * n, d, a);
    Quotient((k + 1) * n, d, b);
    assert (k + 1) * n == k * n + n;
    ProductOrder(a, b, d);
    ProductOrder(k + 1, d, n);
    ProductOrder(b, n, d);
    Quotient(0, d, 0);
    Quotient(d * n, d, n);
  }

  /** The box of the i-th source pixel. */
  function BoxOf(i: nat, n: nat, d: nat): nat
    requires n > 0 && d > 0
  {
    (i * d + d - 1) / n
  }

  /** Every source pixel lies in exactly one box. */
  lemma InOneBox(i: nat, n: nat, d: nat, k: nat)
    requires 0 < d <= n && i < n
    ensures BoxOf(i, n, d) < d
    ensures Start(k, n, d) <= i < Start(k + 1, n, d) <==> k == BoxOf(i, n, d)
  {
    hide Start;
    Quotient(i * d + d - 1, n, k);
    assert (k + 1) * n == k * n + n;
    StartAtMost(k, n, d, i);
    StartAtMost(k + 1, n, d, i);
    BoxOfBelow(i, n, d);
  }

  lemma BoxOfBelow(i: nat, n: nat, d: nat)
    requires 0 < d <= n && i < n
    ensures BoxOf(i, n, d) < d
  {
    var q := BoxOf(i, n, d);
    Quotient(i * d + d - 1, n, q);
    ProductStep(i, n, d);
    ProductOrder(q, d, n);
  }

  /** A box starts at or before pixel i just when its exact bound is below the next pixel. */
  lemma StartAtMost(k: nat, n: nat, d: nat, i: nat)
    requires d > 0
    ensures Start(k, n, d) <= i <==> k * n < i * d + d
  {
    var s := Start(k, n, d);
    Quotient(k * n, d, s);
    if s <= i {
      ProductOrder(s, i, d);
    } else {
      ProductStep(i, s, d);
    }
  }

  // ---- Averages ----

  /** A premultiplied pixel as image.Color.RGBA returns it: sixteen bits a channel, none above alpha. */
  datatype RawPixel = RawPixel(r: nat, g: nat, b: nat, a: nat)
  type Pixel = p: RawPixel | p.r <= p.a && p.g <= p.a && p.b <= p.a && p.a <= 0xffff witness RawPixel(0, 0, 0, 0)

  datatype Channel = R | G | B | A

  type Source = (nat, nat) -> Pixel

  /** A channel's upper eight bits. */
  function Value(p: Pixel, ch: Channel): (v: byte)
    ensures v <= p.a / 256
  {
    match ch
    case R => p.r / 256
    case G => p.g / 256
    case B => p.b / 256
    case A => p.a / 256
  }

  function RowSum(at: Source, ch: Channel, y: nat, x0: nat, x1: nat): nat
    decreases x1
  {
    if x1 <= x0 then 0 else RowSum(at, ch, y, x0, x1 - 1) + Value(at(x1 - 1, y), ch)
  }

  function BoxSum(at: Source, ch: Channel, x0: nat, x1: nat, y0: nat, y1: nat): nat
    decreases y1
  {
    if y1 <= y0 then 0 else BoxSum(at, ch, x0, x1, y0, y1 - 1) + RowSum(at, ch, y1 - 1, x0, x1)
  }

  lemma {:induction false} RowSumBounds(at: Source, ch: Channel, y: nat, x0: nat, x1: nat)
    requires x0 <= x1
    ensures RowSum(at, ch, y, x0, x1) <= RowSum(at, A, y, x0, x1) <= 255 * (x1 - x0)
    decreases x1
  {
    if x0 < x1 {
      RowSumBounds(at, ch, y, x0, x1 - 1);
    }
  }

  lemma {:induction false} BoxSumBounds(at: Source, ch: Channel, x0: nat, x1: nat, y0: nat, y1: nat)
    requires x0 <= x1 && y0 <= y1
    ensures BoxSum(at, ch, x0, x1, y0, y1) <= BoxSum(at, A, x0, x1, y0, y1) <= 255 * ((x1 - x0) * (y1 - y0))
    decreases y1
  {
    if y0 < y1 {
      BoxSumBounds(at, ch, x0, x1, y0, y1 - 1);
      RowSumBounds(at, ch, y1 - 1, x0, x1);
      assert (x1 - x0) * (y1 - y0) == (x1 - x0) * (y1 - 1 - y0) + (x1 - x0);
    }
  }

  lemma {:induction false} RowSumSplits(at: Source, ch: Channel, y: nat, x0: nat, x1: nat, x2: nat)
    requires x0 <= x1 <= x2
    ensures RowSum(at, ch, y, x0, x2) == RowSum(at, ch, y, x0, x1) + RowSum(at, ch, y, x1, x2)
    decreases x2
  {
    if x1 < x2 {
      RowSumSplits(at, ch, y, x0, x1, x2 - 1);
    }
  }

  lemma {:induction false} BoxSumSplitsAcross(at: Source, ch: Channel, x0: nat, x1: nat, x2: nat, y0: nat, y1: nat)
    requires x0 <= x1 <= x2
    ensures BoxSum(at, ch, x0, x2, y0, y1) == BoxSum(at, ch, x0, x1, y0, y1) + BoxSum(at, ch, x1, x2, y0, y1)
    decreases y1
  {
    if y0 < y1 {
      BoxSumSplitsAcross(at, ch, x0, x1, x2, y0, y1 - 1);
      RowSumSplits(at, ch, y1 - 1, x0, x1, x2);
    }
  }

  lemma {:induction false} BoxSumSplitsDown(at: Source, ch: Channel, x0: nat, x1: nat, y0: nat, y1: nat, y2: nat)
    requires y0 <= y1 <= y2
    ensures BoxSum(at, ch, x0, x1, y0, y2) == BoxSum(at, ch, x0, x1, y0, y1) + BoxSum(at, ch, x0, x1, y1, y2)
    decreases y2
  {
    if y1 < y2 {
      BoxSumSplitsDown(at, ch, x0, x1, y0, y1, y2 - 1);
    }
  }

  /** The sums of the first `k` boxes of row `y` of the grid. */
  function StripSum(at: Source, ch: Channel, w: nat, h: nat, dw: nat, dh: nat, y: nat, k: nat): nat
    requires dw > 0 && dh > 0
  {
    if k == 0 then 0
    else StripSum(at, ch, w, h, dw, dh, y, k - 1)
         + BoxSum(at, ch, Start(k - 1, w, dw), Start(k, w, dw), Start(y, h, dh), Start(y + 1, h, dh))
  }

  /** The sums of all boxes of the first `n` rows of the grid. */
  function GridSum(at: Source, ch: Channel, w: nat, h: nat, dw: nat, dh: nat, n: nat): nat
    requires dw > 0 && dh > 0
  {
    if n == 0 then 0 else GridSum(at, ch, w, h, dw, dh, n - 1) + StripSum(at, ch, w, h, dw, dh, n - 1, dw)
  }

  lemma {:induction false} StripIsWhole(at: Source, ch: Channel, w: nat, h: nat, dw: nat, dh: nat, y: nat, k: nat)
    requires 0 < dw <= w && 0 < dh <= h && k <= dw
    ensures StripSum(at, ch, w, h, dw, dh, y, k)
         == BoxSum(at, ch, 0, Start(k, w, dw), Start(y, h, dh), Start(y + 1, h, dh))
  {
    hide Start;
    if k == 0 {
      BoxNonEmpty(0, w, dw);
      BoxSumSplitsAcross(at, ch, 0, 0, 0, Start(y, h, dh), Start(y + 1, h, dh));
    } else {
      StripIsWhole(at, ch, w, h, dw, dh, y, k - 1);
      BoxNonEmpty(k - 1, w, dw);
      BoxSumSplitsAcross(at, ch, 0, Start(k - 1, w, dw), Start(k, w, dw), Start(y, h, dh), Start(y + 1, h, dh));
    }
  }

  /** No source pixel is lost or counted twice: the boxes' sums add up to the image's. */
  lemma {:induction false} BoxesConserve(at: Source, ch: Channel, w: nat, h: nat, dw: nat, dh: nat, n: nat)
    requires 0 < dw <= w && 0 < dh <= h && n <= dh
    ensures GridSum(at, ch, w, h, dw, dh, n) == BoxSum(at, ch, 0, w, 0, Start(n, h, dh))
    ensures n == dh ==> GridSum(at, ch, w, h, dw, dh, n) == BoxSum(at, ch, 0, w, 0, h)
  {
    hide Start;
    BoxNonEmpty(0, h, dh);
    if n > 0 {
      BoxesConserve(at, ch, w, h, dw, dh, n - 1);
      BoxNonEmpty(n - 1, h, dh);
      BoxNonEmpty(0, w, dw);
      StripIsWhole(at, ch, w, h, dw, dh, n - 1, dw);
      BoxSumSplitsDown(at, ch, 0, w, 0, Start(n - 1, h, dh), Start(n, h, dh));
    }
  }

  function BoxAverage(at: Source, ch: Channel, x0: nat, x1: nat, y0: nat, y1: nat): (v: byte)
    requires x0 < x1 && y0 < y1
  {
    AverageBounds(at, ch, x0, x1, y0, y1);
    BoxSum(at, ch, x0, x1, y0, y1) / ((x1 - x0) * (y1 - y0))
  }

  /** The average of a channel over destination pixel (x, y)'s box. */
  function Average(at: Source, ch: Channel, w: nat, h: nat, dw: nat, dh: nat, x: nat, y: nat): (v: byte)
    requires 0 < dw <= w && 0 < dh <= h && x < dw && y < dh
  {
    hide Start;
    BoxNonEmpty(x, w, dw);
    BoxNonEmpty(y, h, dh);
    BoxAverage(at, ch, Start(x, w, dw), Start(x + 1, w, dw), Start(y, h, dh), Start(y + 1, h, dh))
  }

  /** The averages of a premultiplied box are premultiplied. */
  lemma AverageBelowAlpha(at: Source, ch: Channel, w: nat, h: nat, dw: nat, dh: nat, x: nat, y: nat)
    requires 0 < dw <= w && 0 < dh <= h && x < dw && y < dh
    ensures Average(at, ch, w, h, dw, dh, x, y) <= Average(at, A, w, h, dw, dh, x, y)
  {
    BoxNonEmpty(x, w, dw);
    BoxNonEmpty(y, h, dh);
    AverageBounds(at, ch, Start(x, w, dw), Start(x + 1, w, dw), Start(y, h, dh), Start(y + 1, h, dh));
  }

  lemma AverageBounds(at: Source, ch: Channel, x0: nat, x1: nat, y0: nat, y1: nat)
    requires x0 < x1 && y0 < y1
    ensures (x1 - x0) * (y1 - y0) > 0
    ensures BoxSum(at, ch, x0, x1, y0, y1) / ((x1 - x0) * (y1 - y0))
         <= BoxSum(at, A, x0, x1, y0, y1) / ((x1 - x0) * (y1 - y0)) <= 255
  {
    hide BoxSum;
    var n := (x1 - x0) * (y1 - y0);
    ProductStep(0, x1 - x0, y1 - y0);
    BoxSumBounds(at, ch, x0, x1, y0, y1);
    QuotientOrder(BoxSum(at, ch, x0, x1, y0, y1), BoxSum(at, A, x0, x1, y0, y1), n);
    QuotientOrder(BoxSum(at, A, x0, x1, y0, y1), 255 * n, n);
    Quotient(255 * n, n, 255);
  }

  lemma QuotientOrder(a: nat, b: nat, d: nat)
    requires a <= b && d > 0
    ensures a / d <= b / d
  {
    Quotient(a, d, a / d);
    Quotient(b, d, b / d);
    if b / d < a / d {
      ProductStep(b / d, a / d, d);
    }
  }

  // ---- Blending ----

  const EMPTY_CANVAS := 0x1c

  /** uint8(v). */
  function Truncate8(v: nat): byte {
    v % 256
  }

  /** One channel over the empty canvas, as the code computes it. */
  function Blend(v: byte, a: byte): byte {
    if a == 255 then v else Truncate8(v + (EMPTY_CANVAS * (255 - a) + 127) / 255)
  }

  /** On premultiplied input the byte never overflows, and the result is the exact composite
      v + canvas * (1 - a/255) rounded to the nearest byte. */
  lemma BlendIsComposite(v: byte, a: byte)
    requires v <= a
    ensures -127 <= 255 * Blend(v, a) - (255 * v + 28 * (255 - a)) <= 127
    ensures Blend(v, a) >= v
  {
    hide Truncate8;
    var n := EMPTY_CANVAS * (255 - a) + 127;
    var q := n / 255;
    assert 255 * q <= n < 255 * q + 255;
    Fits8(v + q);
  }

  lemma Fits8(v: nat)
    requires v < 256
    ensures Truncate8(v) == v
  {}

  /** So every channel an imported pixel is quantized from is the composite of its box, unwrapped. */
  lemma ImportComposites(at: Source, ch: Channel, w: nat, h: nat, dw: nat, dh: nat, x: nat, y: nat)
    requires 0 < dw <= w && 0 < dh <= h && x < dw && y < dh
    ensures var v, a := Average(at, ch, w, h, dw, dh, x, y), Average(at, A, w, h, dw, dh, x, y);
            -127 <= 255 * Blend(v, a) - (255 * v + 28 * (255 - a)) <= 127
  {
    hide Average, Blend;
    AverageBelowAlpha(at, ch, w, h, dw, dh, x, y);
    BlendIsComposite(Average(at, ch, w, h, dw, dh, x, y), Average(at, A, w, h, dw, dh, x, y));
  }

  /** The colour destination pixel (x, y) is quantized to. */
  function ColorAt(at: Source, w: nat, h: nat, dw: nat, dh: nat, x: nat, y: nat): byte
    requires 0 < dw <= w && 0 < dh <= h && x < dw && y < dh
  {
    var a := Average(at, A, w, h, dw, dh, x, y);
    Palette.Nearest(Palette.Rgb(Blend(Average(at, R, w, h, dw, dh, x, y), a),
                                Blend(Average(at, G, w, h, dw, dh, x, y), a),
                                Blend(Average(at, B, w, h, dw, dh, x, y), a)))
  }

  /** Below this alpha, about a tenth, the canvas shows through untouched. */
  const OPAQUE := 26

  ghost predicate Imported(at: Source, w: nat, h: nat, dw: nat, dh: nat, p: Placement)
    requires 0 < dw <= w && 0 < dh <= h
  {
    && 0 <= p.x < dw && 0 <= p.y < dh
    && Average(at, A, w, h, dw, dh, p.x, p.y) >= 26
    && p.color == ColorAt(at, w, h, dw, dh, p.x, p.y)
  }

  ghost predicate ImportedBefore(at: Source, w: nat, h: nat, dw: nat, dh: nat, x1: int, y1: int, ps: seq<Placement>)
    requires 0 < dw <= w && 0 < dh <= h
  {
    && Scanline(ps)
    && forall p :: p in ps <==> Imported(at, w, h, dw, dh, p) && Earlier(p.x, p.y, x1, y1)
  }

  /** The accumulators over one source box. */
  datatype Sums = Sums(r: nat, g: nat, b: nat, a: nat, n: nat)

  function BoxSums(at: Source, x0: nat, x1: nat, y0: nat, y1: nat): Sums
    requires x0 <= x1 && y0 <= y1
  {
    Sums(BoxSum(at, R, x0, x1, y0, y1), BoxSum(at, G, x0, x1, y0, y1), BoxSum(at, B, x0, x1, y0, y1),
         BoxSum(at, A, x0, x1, y0, y1), (x1 - x0) * (y1 - y0))
  }

  function PlusRow(s: Sums, at: Source, y: nat, x0: nat, x1: nat): Sums
    requires x0 <= x1
  {
    Sums(s.r + RowSum(at, R, y, x0, x1), s.g + RowSum(at, G, y, x0, x1), s.b + RowSum(at, B, y, x0, x1),
         s.a + RowSum(at, A, y, x0, x1), s.n + (x1 - x0))
  }

  lemma BoxSumsNextRow(at: Source, x0: nat, x1: nat, y0: nat, y: nat)
    requires x0 <= x1 && y0 <= y
    ensures PlusRow(BoxSums(at, x0, x1, y0, y), at, y, x0, x1) == BoxSums(at, x0, x1, y0, y + 1)
  {
    assert (x1 - x0) * (y + 1 - y0) == (x1 - x0) * (y - y0) + (x1 - x0);
  }

  /** A box of one pixel sums to the upper bytes of its channels, each under its own name. */
  lemma SinglePixel(at: Source, x: nat, y: nat)
    ensures BoxSums(at, x, x + 1, y, y + 1)
         == Sums(at(x, y).r / 256, at(x, y).g / 256, at(x, y).b / 256, at(x, y).a / 256, 1)
  {
    forall ch
      ensures BoxSum(at, ch, x, x + 1, y, y + 1) == Value(at(x, y), ch)
    {
      assert RowSum(at, ch, y, x, x + 1) == RowSum(at, ch, y, x, x) + Value(at(x, y), ch);
      assert BoxSum(at, ch, x, x + 1, y, y + 1) == BoxSum(at, ch, x, x + 1, y, y) + RowSum(at, ch, y, x, x + 1);
    }
  }

  /** The average is the mean of the box, rounded down. */
  lemma AverageIsMean(at: Source, ch: Channel, w: nat, h: nat, dw: nat, dh: nat, x: nat, y: nat)
    requires 0 < dw <= w && 0 < dh <= h && x < dw && y < dh
    ensures var x0, x1, y0, y1 := x * w / dw, (x + 1) * w / dw, y * h / dh, (y + 1) * h / dh;
            var n, v := (x1 - x0) * (y1 - y0), Average(at, ch, w, h, dw, dh, x, y);
            n > 0 && n * v <= BoxSum(at, ch, x0, x1, y0, y1) < n * v + n
  {
    hide BoxSum;
    BoxNonEmpty(x, w, dw);
    BoxNonEmpty(y, h, dh);
    var x0, x1, y0, y1 := x * w / dw, (x + 1) * w / dw, y * h / dh, (y + 1) * h / dh;
    AverageBounds(at, ch, x0, x1, y0, y1);
    Quotient(BoxSum(at, ch, x0, x1, y0, y1), (x1 - x0) * (y1 - y0), Average(at, ch, w, h, dw, dh, x, y));
  }

  /** An image that needs no shrinking keeps every pixel: its averages are its own channels. */
  lemma NativeAverage(at: Source, w: nat, h: nat, x: nat, y: nat)
    requires x < w && y < h
    ensures Average(at, R, w, h, w, h, x, y) == at(x, y).r / 256
    ensures Average(at, G, w, h, w, h, x, y) == at(x, y).g / 256
    ensures Average(at, B, w, h, w, h, x, y) == at(x, y).b / 256
    ensures Average(at, A, w, h, w, h, x, y) == at(x, y).a / 256
  {
    hide BoxSum, Average;
    Quotient(x * w, w, x);
    Quotient((x + 1) * w, w, x + 1);
    Quotient(y * h, h, y);
    Quotient((y + 1) * h, h, y + 1);
    SinglePixel(at, x, y);
    forall ch
      ensures Average(at, ch, w, h, w, h, x, y) == BoxSum(at, ch, x, x + 1, y, y + 1)
    {
      AverageIsMean(at, ch, w, h, w, h, x, y);
    }
  }

  lemma {:induction false} SolidRow(at: Source, p: Pixel, ch: Channel, y: nat, x0: nat, x1: nat)
    requires x0 <= x1 && forall x :: x0 <= x < x1 ==> at(x, y) == p
    ensures RowSum(at, ch, y, x0, x1) == (x1 - x0) * Value(p, ch)
    decreases x1
  {
    hide Value;
    if x0 < x1 {
      SolidRow(at, p, ch, y, x0, x1 - 1);
      assert (x1 - x0) * Value(p, ch) == (x1 - 1 - x0) * Value(p, ch) + Value(p, ch);
    }
  }

  lemma {:induction false} SolidBox(at: Source, p: Pixel, ch: Channel, x0: nat, x1: nat, y0: nat, y1: nat)
    requires x0 <= x1 && y0 <= y1 && forall x, y :: x0 <= x < x1 && y0 <= y < y1 ==> at(x, y) == p
    ensures BoxSum(at, ch, x0, x1, y0, y1) == (x1 - x0) * (y1 - y0) * Value(p, ch)
    decreases y1
  {
    hide Value, RowSum;
    if y0 < y1 {
      SolidBox(at, p, ch, x0, x1, y0, y1 - 1);
      SolidRow(at, p, ch, y1 - 1, x0, x1);
      assert (x1 - x0) * (y1 - y0) == (x1 - x0) * (y1 - 1 - y0) + (x1 - x0);
      Distributes((x1 - x0) * (y1 - 1 - y0), x1 - x0, Value(p, ch));
    }
  }

  lemma Distributes(a: nat, b: nat, c: nat)
    ensures (a + b) * c == a * c + b * c
  {}

  /** An image of one opaque colour, in the sixteen bits a channel that an eight-bit colour is read as. */
  ghost predicate Solid(at: Source, w: nat, h: nat, c: Palette.Rgb) {
    forall x: nat, y: nat :: x < w && y < h ==> at(x, y) == RawPixel(257 * c.r, 257 * c.g, 257 * c.b, 0xffff)
  }

  lemma SolidAverage(at: Source, w: nat, h: nat, dw: nat, dh: nat, x: nat, y: nat, p: Pixel, ch: Channel)
    requires 0 < dw <= w && 0 < dh <= h && x < dw && y < dh
    requires forall u: nat, v: nat :: u < w && v < h ==> at(u, v) == p
    ensures Average(at, ch, w, h, dw, dh, x, y) == Value(p, ch)
  {
    hide BoxSum, Average, Value;
    var x0, x1, y0, y1 := x * w / dw, (x + 1) * w / dw, y * h / dh, (y + 1) * h / dh;
    BoxNonEmpty(x, w, dw);
    BoxNonEmpty(y, h, dh);
    SolidBox(at, p, ch, x0, x1, y0, y1);
    AverageIsMean(at, ch, w, h, dw, dh, x, y);
    MeanOfSame((x1 - x0) * (y1 - y0), Value(p, ch), Average(at, ch, w, h, dw, dh, x, y));
  }

  lemma MeanOfSame(n: nat, q: nat, v: nat)
    requires n > 0 && n * v <= n * q < n * v + n
    ensures v == q
  {
    if v < q {
      ProductStep(v, q, n);
    } else if q < v {
      ProductStep(q, v, n);
    }
  }

  /** So an image of one opaque colour imports, at every cell, as the palette colour nearest to it. */
  lemma SolidImports(at: Source, w: nat, h: nat, dw: nat, dh: nat, c: Palette.Rgb, p: Placement)
    requires 0 < dw <= w && 0 < dh <= h && Solid(at, w, h, c)
    ensures Imported(at, w, h, dw, dh, p) <==> 0 <= p.x < dw && 0 <= p.y < dh && p.color == Palette.Nearest(c)
  {
    hide Average, Palette.Nearest;
    if 0 <= p.x < dw && 0 <= p.y < dh {
      var q: Pixel := RawPixel(257 * c.r, 257 * c.g, 257 * c.b, 0xffff);
      SolidAverage(at, w, h, dw, dh, p.x, p.y, q, R);
      SolidAverage(at, w, h, dw, dh, p.x, p.y, q, G);
      SolidAverage(at, w, h, dw, dh, p.x, p.y, q, B);
      SolidAverage(at, w, h, dw, dh, p.x, p.y, q, A);
    }
  }

  method SumBox(at: Source, x0: nat, x1: nat, y0: nat, y1: nat) returns (s: Sums)
    requires x0 <= x1 && y0 <= y1
    ensures s == BoxSums(at, x0, x1, y0, y1)
  {
    hide Value, BoxSums;
    s := Sums(0, 0, 0, 0, 0);
    BoxSumsStart(at, x0, x1, y0);
    for yy := y0 to y1
      invariant s == BoxSums(at, x0, x1, y0, yy)
    {
      ghost var above := s;
      for xx := x0 to x1
        invariant s == PlusRow(above, at, yy, x0, xx)
      {
        var p := at(xx, yy);
        s := Sums(s.r + Value(p, R), s.g + Value(p, G), s.b + Value(p, B), s.a + Value(p, A), s.n + 1);
      }
      BoxSumsNextRow(at, x0, x1, y0, yy);
    }
  }

  lemma BoxSumsStart(at: Source, x0: nat, x1: nat, y0: nat)
    requires x0 <= x1
    ensures BoxSums(at, x0, x1, y0, y0) == Sums(0, 0, 0, 0, 0)
  {}

  /** The drawing of an image, or nothing when the image is empty. */
  method ImageToBlueprint(at: Source, w: nat, h: nat, maxW: nat, maxH: nat) returns (r: Option<Blueprint>)
    requires maxW > 0 && maxH > 0
    ensures r.None? <==> w == 0 || h == 0
    ensures r.Some? ==>
              && Fits(w, h, maxW, maxH, r.value.w, r.value.h) && KeepsAspect(w, h, maxW, maxH, r.value.w, r.value.h)
              && Scanline(r.value.placements)
              && forall p :: p in r.value.placements <==> Imported(at, w, h, r.value.w, r.value.h, p)
    ensures r.Some? ==>
              forall c :: Solid(at, w, h, c) ==>
                forall p :: p in r.value.placements <==>
                            0 <= p.x < r.value.w && 0 <= p.y < r.value.h && p.color == Palette.Nearest(c)
  {
    hide ImportedBefore, Imported, Start, Average, Scanline, Blend, Solid;
    if w == 0 || h == 0 {
      return None;
    }
    var dw, dh := FitScale(w, h, maxW, maxH);
    var ps: seq<Placement> := [];
    NothingImported(at, w, h, dw, dh);
    for y := 0 to dh
      invariant ImportedBefore(at, w, h, dw, dh, 0, y, ps)
    {
      for x := 0 to dw
        invariant ImportedBefore(at, w, h, dw, dh, x, y, ps)
      {
        var c := ImportPixel(at, w, h, dw, dh, x, y);
        ImportedNext(at, w, h, dw, dh, x, y, ps);
        if c.Some? {
          ps := ps + [Placement(x, y, c.value)];
        }
      }
      ImportedRow(at, w, h, dw, dh, y, ps);
    }
    AllImported(at, w, h, dw, dh, ps);
    forall c, p | Solid(at, w, h, c)
      ensures Imported(at, w, h, dw, dh, p) <==> 0 <= p.x < dw && 0 <= p.y < dh && p.color == Palette.Nearest(c)
    {
      SolidImports(at, w, h, dw, dh, c, p);
    }
    return Some(Blueprint(dw, dh, ps));
  }

  /** One destination pixel; nothing for a pixel to skip. */
  method ImportPixel(at: Source, w: nat, h: nat, dw: nat, dh: nat, x: nat, y: nat) returns (c: Option<byte>)
    requires 0 < dw <= w && 0 < dh <= h && x < dw && y < dh
    ensures c == if Average(at, A, w, h, dw, dh, x, y) < 26 then None
                 else Some(ColorAt(at, w, h, dw, dh, x, y))
  {
    hide BoxSum, Start, Blend;
    var y0, y1 := Start(y, h, dh), Start(y + 1, h, dh);
    var x0, x1 := Start(x, w, dw), Start(x + 1, w, dw);
    BoxNonEmpty(x, w, dw);
    BoxNonEmpty(y, h, dh);
    var s := SumBox(at, x0, x1, y0, y1);
    var n := s.n;
    c := None;
    AverageBounds(at, R, x0, x1, y0, y1);
    AverageBounds(at, G, x0, x1, y0, y1);
    AverageBounds(at, B, x0, x1, y0, y1);
    if n != 0 {
      var ar, ag, ab, aa := s.r / n, s.g / n, s.b / n, s.a / n;
      if aa >= OPAQUE {
        var best := Palette.NearestColor(Palette.Rgb(Blend(ar, aa), Blend(ag, aa), Blend(ab, aa)));
        c := Some(best);
      }
    }
  }

  lemma NothingImported(at: Source, w: nat, h: nat, dw: nat, dh: nat)
    requires 0 < dw <= w && 0 < dh <= h
    ensures ImportedBefore(at, w, h, dw, dh, 0, 0, [])
  {
    hide Average, ColorAt;
  }

  lemma ImportedNext(at: Source, w: nat, h: nat, dw: nat, dh: nat, x: nat, y: nat, ps: seq<Placement>)
    requires 0 < dw <= w && 0 < dh <= h && x < dw && y < dh && ImportedBefore(at, w, h, dw, dh, x, y, ps)
    ensures ImportedBefore(at, w, h, dw, dh, x + 1, y,
                           if Average(at, A, w, h, dw, dh, x, y) < OPAQUE then ps
                           else ps + [Placement(x, y, ColorAt(at, w, h, dw, dh, x, y))])
  {
    hide Average, ColorAt;
    if Average(at, A, w, h, dw, dh, x, y) >= OPAQUE {
      var q := Placement(x, y, ColorAt(at, w, h, dw, dh, x, y));
      assert forall p :: p in ps + [q] <==> p in ps || p == q;
      assert forall i :: 0 <= i < |ps| ==> ps[i] in ps;
    }
  }

  lemma ImportedRow(at: Source, w: nat, h: nat, dw: nat, dh: nat, y: nat, ps: seq<Placement>)
    requires 0 < dw <= w && 0 < dh <= h && ImportedBefore(at, w, h, dw, dh, dw, y, ps)
    ensures ImportedBefore(at, w, h, dw, dh, 0, y + 1, ps)
  {
    hide Average, ColorAt;
  }

  lemma AllImported(at: Source, w: nat, h: nat, dw: nat, dh: nat, ps: seq<Placement>)
    requires 0 < dw <= w && 0 < dh <= h && ImportedBefore(at, w, h, dw, dh, 0, dh, ps)
    ensures Scanline(ps) && forall p :: p in ps <==> Imported(at, w, h, dw, dh, p)
  {
    hide Average, ColorAt;
  }
}
