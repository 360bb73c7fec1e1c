/** Image views, pixel formats and bilinear sampling. */
module Images {
  import opened Common

  newtype byte = x: int | 0 <= x < 256

  datatype PixelFormat = Rgb8 | Bgr8 | Rgba8 | Bgra8 | Mono8

  datatype ColorHandling = Preserve | ConvertToRgb

  datatype Pixel = Pixel(c0: real, c1: real, c2: real)

  function Channel(p: Pixel, c: nat): real {
    if c == 0 then p.c0 else if c == 1 then p.c1 else p.c2
  }

  function ChannelCount(f: PixelFormat): nat {
    match f
    case Mono8 => 1
    case Rgb8 => 3
    case Bgr8 => 3
    case Rgba8 => 4
    case Bgra8 => 4
  }

  /** A missing buffer is an empty one. */
  datatype ImageView = ImageView(data: seq<byte>, width: nat, height: nat, stride: nat, format: PixelFormat)

  predicate ValidView(v: ImageView) {
    v.data != [] && v.width > 0 && v.height > 0 && v.stride >= v.width * ChannelCount(v.format)
  }

  /** The buffer holds all rows; the executor accepts only payloads of exactly this size. */
  predicate Backed(v: ImageView) {
    |v.data| >= v.stride * v.height
  }

  function Offset(v: ImageView, x: nat, y: nat, k: nat): nat {
    y * v.stride + x * ChannelCount(v.format) + k
  }

  /** No sample inside the view reads outside stride * height. */
  lemma OffsetInBounds(v: ImageView, x: nat, y: nat, k: nat)
    requires ValidView(v) && x < v.width && y < v.height && k < ChannelCount(v.format)
    ensures Offset(v, x, y, k) < v.stride * v.height
  {
    RowMajor(x, v.width, k, ChannelCount(v.format));
    RowMajor(y, v.height, x * ChannelCount(v.format) + k, v.stride);
  }

  function ByteAt(v: ImageView, x: nat, y: nat, k: nat): (r: real)
    requires ValidView(v) && Backed(v) && x < v.width && y < v.height && k < ChannelCount(v.format)
    ensures 0.0 <= r <= 255.0
  {
    OffsetInBounds(v, x, y, k);
    v.data[Offset(v, x, y, k)] as real
  }

  function SampleChannels(v: ImageView, x: nat, y: nat, handling: ColorHandling): Pixel
    requires ValidView(v) && Backed(v) && x < v.width && y < v.height
  {
    match v.format
    case Mono8 =>
      var m := ByteAt(v, x, y, 0);
      Pixel(m, m, m)
    case Rgb8 => Pixel(ByteAt(v, x, y, 0), ByteAt(v, x, y, 1), ByteAt(v, x, y, 2))
    case Rgba8 => Pixel(ByteAt(v, x, y, 0), ByteAt(v, x, y, 1), ByteAt(v, x, y, 2))
    case _ =>
      if handling == Preserve then Pixel(ByteAt(v, x, y, 0), ByteAt(v, x, y, 1), ByteAt(v, x, y, 2))
      else Pixel(ByteAt(v, x, y, 2), ByteAt(v, x, y, 1), ByteAt(v, x, y, 0))
  }

  /** A pixel's channels are its bytes in the buffer, row by row: in stored order, or blue and red
      exchanged when a BGR format is converted; a mono byte stands for all three. */
  lemma PixelIsStored(v: ImageView, x: nat, y: nat, handling: ColorHandling)
    requires ValidView(v) && Backed(v) && x < v.width && y < v.height
    ensures var n := match v.format case Mono8 => 1 case Rgb8 => 3 case Bgr8 => 3 case Rgba8 => 4 case Bgra8 => 4;
            var at := y * v.stride + x * n;
            var p := SampleChannels(v, x, y, handling);
            && at + n <= |v.data|
            && (v.format == Mono8 ==> p == Pixel(v.data[at] as real, v.data[at] as real, v.data[at] as real))
            && (v.format != Mono8 ==>
                  var stored := Pixel(v.data[at] as real, v.data[at + 1] as real, v.data[at + 2] as real);
                  p == if handling == ConvertToRgb && (v.format == Bgr8 || v.format == Bgra8)
                       then Pixel(stored.c2, stored.c1, stored.c0) else stored)
  {
    var n := ChannelCount(v.format);
    OffsetInBounds(v, x, y, n - 1);
    assert Offset(v, x, y, n - 1) + 1 == y * v.stride + x * n + n;
  }

  // Bilinear sampling with replicated edges

  datatype Weights = Weights(w00: real, w10: real, w01: real, w11: real)

  function WeightsOf(fx: real, fy: real): Weights {
    Weights((1.0 - fx) * (1.0 - fy), fx * (1.0 - fy), (1.0 - fx) * fy, fx * fy)
  }

  function Combine(a: real, b: real, c: real, d: real, w: Weights): real {
    a * w.w00 + b * w.w10 + c * w.w01 + d * w.w11
  }

  function CombinePixels(a: Pixel, b: Pixel, c: Pixel, d: Pixel, w: Weights): Pixel {
    Pixel(Combine(a.c0, b.c0, c.c0, d.c0, w), Combine(a.c1, b.c1, c.c1, d.c1, w), Combine(a.c2, b.c2, c.c2, d.c2, w))
  }

  /** A coordinate clamped to the pixels 0 .. n - 1: the pixel below, the one above, and how far
      between the two it lies. */
  datatype Split = Split(low: nat, high: nat, fraction: real)

  function SplitCoordinate(s: real, n: nat): (r: Split)
    requires n > 0
    ensures r.low < n && r.high < n && r.low <= r.high <= r.low + 1
    ensures 0.0 <= r.fraction < 1.0
  {
    var clamped := Clamp(s, 0.0, (n - 1) as real);
    var low := clamped.Floor;
    Split(low, Min(low + 1, n - 1), clamped - low as real)
  }

  function BilinearSample(v: ImageView, sx: real, sy: real, handling: ColorHandling): Pixel
    requires ValidView(v) && Backed(v)
  {
    var x, y := SplitCoordinate(sx, v.width), SplitCoordinate(sy, v.height);
    CombinePixels(
      SampleChannels(v, x.low, y.low, handling), SampleChannels(v, x.high, y.low, handling),
      SampleChannels(v, x.low, y.high, handling), SampleChannels(v, x.high, y.high, handling),
      WeightsOf(x.fraction, y.fraction))
  }

  // Sampling is a convex combination

  lemma WeightsAreConvex(fx: real, fy: real)
    requires 0.0 <= fx <= 1.0 && 0.0 <= fy <= 1.0
    ensures var w := WeightsOf(fx, fy);
            w.w00 >= 0.0 && w.w10 >= 0.0 && w.w01 >= 0.0 && w.w11 >= 0.0 && w.w00 + w.w10 + w.w01 + w.w11 == 1.0
  {
    NonNegativeProduct(1.0 - fx, 1.0 - fy);
    NonNegativeProduct(fx, 1.0 - fy);
    NonNegativeProduct(1.0 - fx, fy);
    NonNegativeProduct(fx, fy);
  }

  lemma SumBounds(p: real, q: real, r: real, s: real, p': real, q': real, r': real, s': real)
    requires p <= p' && q <= q' && r <= r' && s <= s'
    ensures p + q + r + s <= p' + q' + r' + s'
  {
  }

  lemma ConvexBounds(a: real, b: real, c: real, d: real, w: Weights, lo: real, hi: real)
    requires w.w00 >= 0.0 && w.w10 >= 0.0 && w.w01 >= 0.0 && w.w11 >= 0.0 && w.w00 + w.w10 + w.w01 + w.w11 == 1.0
    requires lo <= a <= hi && lo <= b <= hi && lo <= c <= hi && lo <= d <= hi
    ensures lo <= Combine(a, b, c, d, w) <= hi
  {
    CombineMonotone(lo, lo, lo, lo, a, b, c, d, w);
    CombineMonotone(a, b, c, d, hi, hi, hi, hi, w);
    SumOfShares(w.w00, w.w10, w.w01, w.w11, lo);
    SumOfShares(w.w00, w.w10, w.w01, w.w11, hi);
  }

  lemma CombineMonotone(a: real, b: real, c: real, d: real, a': real, b': real, c': real, d': real, w: Weights)
    requires w.w00 >= 0.0 && w.w10 >= 0.0 && w.w01 >= 0.0 && w.w11 >= 0.0
    requires a <= a' && b <= b' && c <= c' && d <= d'
    ensures Combine(a, b, c, d, w) <= Combine(a', b', c', d', w)
  {
    var p, q, r, s := a * w.w00, b * w.w10, c * w.w01, d * w.w11;
    var p', q', r', s' := a' * w.w00, b' * w.w10, c' * w.w01, d' * w.w11;
    ProductMonotone(a, a', w.w00, p, p');
    ProductMonotone(b, b', w.w10, q, q');
    ProductMonotone(c, c', w.w01, r, r');
    ProductMonotone(d, d', w.w11, s, s');
    SumBounds(p, q, r, s, p', q', r', s');
    assert Combine(a, b, c, d, w) == p + q + r + s;
    assert Combine(a', b', c', d', w) == p' + q' + r' + s';
  }

  lemma ProductMonotone(a: real, b: real, w: real, p: real, q: real)
    requires a <= b && w >= 0.0 && p == a * w && q == b * w
    ensures p <= q
  {
    NonNegativeProduct(b - a, w);
  }

  lemma SumOfShares(p: real, q: real, r: real, s: real, v: real)
    requires p + q + r + s == 1.0
    ensures v * p + v * q + v * r + v * s == v
  {
    assert v * p + v * q + v * r + v * s == v * (p + q + r + s);
  }

  /** Every channel of a sample lies between the least and the greatest of the four pixels around
      the position, and so in [0, 255]. */
  lemma SampleIsConvex(v: ImageView, sx: real, sy: real, handling: ColorHandling, lo: real, hi: real)
    requires ValidView(v) && Backed(v)
    requires var x, y := SplitCoordinate(sx, v.width), SplitCoordinate(sy, v.height);
             forall px, py | px in {x.low, x.high} && py in {y.low, y.high} ::
               var p := SampleChannels(v, px, py, handling);
               lo <= p.c0 <= hi && lo <= p.c1 <= hi && lo <= p.c2 <= hi
    ensures var p := BilinearSample(v, sx, sy, handling);
            lo <= p.c0 <= hi && lo <= p.c1 <= hi && lo <= p.c2 <= hi
  {
    hide Combine, WeightsOf, SampleChannels;
    var x, y := SplitCoordinate(sx, v.width), SplitCoordinate(sy, v.height);
    var w := WeightsOf(x.fraction, y.fraction);
    WeightsAreConvex(x.fraction, y.fraction);
    var a, b := SampleChannels(v, x.low, y.low, handling), SampleChannels(v, x.high, y.low, handling);
    var c, d := SampleChannels(v, x.low, y.high, handling), SampleChannels(v, x.high, y.high, handling);
    ConvexBounds(a.c0, b.c0, c.c0, d.c0, w, lo, hi);
    ConvexBounds(a.c1, b.c1, c.c1, d.c1, w, lo, hi);
    ConvexBounds(a.c2, b.c2, c.c2, d.c2, w, lo, hi);
  }

  lemma SampleIsByteRange(v: ImageView, sx: real, sy: real, handling: ColorHandling)
    requires ValidView(v) && Backed(v)
    ensures var p := BilinearSample(v, sx, sy, handling);
            0.0 <= p.c0 <= 255.0 && 0.0 <= p.c1 <= 255.0 && 0.0 <= p.c2 <= 255.0
  {
    hide BilinearSample;
    SampleIsConvex(v, sx, sy, handling, 0.0, 255.0);
  }

  // Sampling is bilinear

  /** A surface that is linear along each axis. */
  function Surface(base: real, dx: real, dy: real, dxy: real, x: real, y: real): real {
    base + dx * x + dy * y + dxy * x * y
  }

  /** The four weights give back the three steps from the first corner, each to its share. */
  lemma CombineSteps(a: real, stepX: real, stepY: real, twist: real, fx: real, fy: real)
    ensures Combine(a, a + stepX, a + stepY, a + stepX + stepY + twist, WeightsOf(fx, fy))
         == a + stepX * fx + stepY * fy + twist * (fx * fy)
  {
    var u, v := 1.0 - fx, 1.0 - fy;
    assert a * (u * v) + a * (fx * v) + a * (u * fy) + a * (fx * fy) == a;
    assert stepX * (fx * v) + stepX * (fx * fy) == stepX * fx;
    assert stepY * (u * fy) + stepY * (fx * fy) == stepY * fy;
  }

  /** At the far edge both pixels are the same, but then the fraction is zero. */
  lemma SplitAddsUp(s: real, n: nat) returns (width: real)
    requires n > 0
    ensures var r := SplitCoordinate(s, n);
            && width == r.high as real - r.low as real
            && r.low as real + width * r.fraction == Clamp(s, 0.0, (n - 1) as real)
  {
    var r := SplitCoordinate(s, n);
    width := r.high as real - r.low as real;
    assert width == 1.0 || (width == 0.0 && r.fraction == 0.0);
  }

  /** Moving by (p, q) on the surface: a step along each axis and their product. */
  lemma SurfaceSteps(base: real, dx: real, dy: real, dxy: real, x: real, y: real, p: real, q: real,
                     stepX: real, stepY: real, twist: real)
    requires stepX == (dx + dxy * y) * p && stepY == (dy + dxy * x) * q && twist == dxy * (p * q)
    ensures var a := Surface(base, dx, dy, dxy, x, y);
            && Surface(base, dx, dy, dxy, x + p, y) == a + stepX
            && Surface(base, dx, dy, dxy, x, y + q) == a + stepY
            && Surface(base, dx, dy, dxy, x + p, y + q) == a + stepX + stepY + twist
  {
    assert stepX == dx * p + dxy * y * p;
    assert stepY == dy * q + dxy * x * q;
    assert dx * (x + p) == dx * x + dx * p;
    assert dy * (y + q) == dy * y + dy * q;
    assert dxy * (x + p) * y == dxy * x * y + dxy * y * p;
    assert dxy * x * (y + q) == dxy * x * y + dxy * x * q;
    assert dxy * (x + p) * (y + q) == dxy * x * y + dxy * y * p + dxy * x * q + twist;
  }

  lemma Regroup(u: real, p: real, fx: real, x: real)
    requires x == u * p
    ensures x * fx == u * (p * fx)
  {
  }

  lemma RegroupTwist(w: real, p: real, q: real, fx: real, fy: real, twist: real)
    requires twist == w * (p * q)
    ensures twist * (fx * fy) == w * ((p * fx) * (q * fy))
  {
    assert (p * q) * (fx * fy) == (p * fx) * (q * fy);
    Regroup(w, p * q, fx * fy, twist);
  }

  lemma SurfaceCorners(base: real, dx: real, dy: real, dxy: real, x: real, y: real, p: real, q: real,
                       fx: real, fy: real, px: real, py: real)
    requires px == x + p * fx && py == y + q * fy
    ensures Combine(Surface(base, dx, dy, dxy, x, y), Surface(base, dx, dy, dxy, x + p, y),
                    Surface(base, dx, dy, dxy, x, y + q), Surface(base, dx, dy, dxy, x + p, y + q), WeightsOf(fx, fy))
         == Surface(base, dx, dy, dxy, px, py)
  {
    hide Combine, WeightsOf, Surface;
    var stepX, stepY, twist := (dx + dxy * y) * p, (dy + dxy * x) * q, dxy * (p * q);
    SurfaceSteps(base, dx, dy, dxy, x, y, p, q, stepX, stepY, twist);
    CombineSteps(Surface(base, dx, dy, dxy, x, y), stepX, stepY, twist, fx, fy);
    SurfaceShares(base, dx, dy, dxy, x, y, p, q, fx, fy, stepX * fx, stepY * fy, twist * (fx * fy), stepX, stepY, twist);
  }

  lemma SurfaceShares(base: real, dx: real, dy: real, dxy: real, x: real, y: real, p: real, q: real, fx: real, fy: real,
                      shareX: real, shareY: real, share: real, stepX: real, stepY: real, twist: real)
    requires stepX == (dx + dxy * y) * p && stepY == (dy + dxy * x) * q && twist == dxy * (p * q)
    requires shareX == stepX * fx && shareY == stepY * fy && share == twist * (fx * fy)
    ensures Surface(base, dx, dy, dxy, x + p * fx, y + q * fy)
         == Surface(base, dx, dy, dxy, x, y) + shareX + shareY + share
  {
    hide Surface;
    Regroup(dx + dxy * y, p, fx, stepX);
    Regroup(dy + dxy * x, q, fy, stepY);
    RegroupTwist(dxy, p, q, fx, fy, twist);
    SurfaceSteps(base, dx, dy, dxy, x, y, p * fx, q * fy, shareX, shareY, share);
  }

  lemma ChannelOfSample(v: ImageView, sx: real, sy: real, handling: ColorHandling, c: nat)
    requires ValidView(v) && Backed(v) && c < 3
    ensures var x, y := SplitCoordinate(sx, v.width), SplitCoordinate(sy, v.height);
            Channel(BilinearSample(v, sx, sy, handling), c)
            == Combine(Channel(SampleChannels(v, x.low, y.low, handling), c),
                       Channel(SampleChannels(v, x.high, y.low, handling), c),
                       Channel(SampleChannels(v, x.low, y.high, handling), c),
                       Channel(SampleChannels(v, x.high, y.high, handling), c), WeightsOf(x.fraction, y.fraction))
  {
    hide Combine, WeightsOf, SampleChannels, SplitCoordinate;
  }

  /** If a channel of the image is linear along each axis, with a product term, the sample is its
      value at the sampled position, clamped to the image. Four corners determine such a surface,
      so this determines the four weights. */
  lemma SampleOfSurface(v: ImageView, sx: real, sy: real, handling: ColorHandling, c: nat,
                        base: real, dx: real, dy: real, dxy: real)
    requires ValidView(v) && Backed(v) && c < 3
    requires forall x: nat, y: nat | x < v.width && y < v.height ::
               Channel(SampleChannels(v, x, y, handling), c) == Surface(base, dx, dy, dxy, x as real, y as real)
    ensures Channel(BilinearSample(v, sx, sy, handling), c)
         == Surface(base, dx, dy, dxy, Clamp(sx, 0.0, (v.width - 1) as real), Clamp(sy, 0.0, (v.height - 1) as real))
  {
    hide Combine, WeightsOf, Surface, SampleChannels, SplitCoordinate, BilinearSample, Channel, Clamp;
    var x, y := SplitCoordinate(sx, v.width), SplitCoordinate(sy, v.height);
    ChannelOfSample(v, sx, sy, handling, c);
    var p := SplitAddsUp(sx, v.width);
    var q := SplitAddsUp(sy, v.height);
    var xl, yl := x.low as real, y.low as real;
    assert x.high as real == xl + p && y.high as real == yl + q;
    assert Channel(SampleChannels(v, x.low, y.low, handling), c) == Surface(base, dx, dy, dxy, xl, yl);
    assert Channel(SampleChannels(v, x.high, y.low, handling), c) == Surface(base, dx, dy, dxy, xl + p, yl);
    assert Channel(SampleChannels(v, x.low, y.high, handling), c) == Surface(base, dx, dy, dxy, xl, yl + q);
    assert Channel(SampleChannels(v, x.high, y.high, handling), c) == Surface(base, dx, dy, dxy, xl + p, yl + q);
    SurfaceCorners(base, dx, dy, dxy, xl, yl, p, q, x.fraction, y.fraction,
                   Clamp(sx, 0.0, (v.width - 1) as real), Clamp(sy, 0.0, (v.height - 1) as real));
  }

  /** The same for a linear gradient. */
  lemma SampleOfGradient(v: ImageView, sx: real, sy: real, handling: ColorHandling, c: nat, base: real, dx: real, dy: real)
    requires ValidView(v) && Backed(v) && c < 3
    requires forall x: nat, y: nat | x < v.width && y < v.height ::
               Channel(SampleChannels(v, x, y, handling), c) == base + dx * x as real + dy * y as real
    ensures Channel(BilinearSample(v, sx, sy, handling), c)
         == base + dx * Clamp(sx, 0.0, (v.width - 1) as real) + dy * Clamp(sy, 0.0, (v.height - 1) as real)
  {
    hide Combine, WeightsOf, SampleChannels, SplitCoordinate, BilinearSample, Channel, Clamp;
    SampleOfSurface(v, sx, sy, handling, c, base, dx, dy, 0.0);
  }

  // Sizes that match

  /** Pixel centres: where destination pixel `o` of `dst` samples a source of `src` pixels. */
  function SourceCoordinate(o: nat, src: nat, dst: nat): real
    requires dst > 0
  {
    (o as real + 0.5) * src as real / dst as real - 0.5
  }

  lemma CoordinateIsIdentity(o: nat, n: nat)
    requires o < n
    ensures SourceCoordinate(o, n, n) == o as real
    ensures SplitCoordinate(o as real, n).low == o && SplitCoordinate(o as real, n).fraction == 0.0
  {
    CancelFactor(o as real + 0.5, n as real);
  }

  lemma CancelFactor(a: real, b: real)
    requires b > 0.0
    ensures a * b / b == a
  {
  }

  lemma CombineAtCorner(a: real, b: real, c: real, d: real)
    ensures Combine(a, b, c, d, WeightsOf(0.0, 0.0)) == a
  {
  }

  /** When source and destination have the same size, sampling returns the pixel itself. */
  lemma SameSizeIsIdentity(v: ImageView, ox: nat, oy: nat, handling: ColorHandling)
    requires ValidView(v) && Backed(v) && ox < v.width && oy < v.height
    ensures BilinearSample(v, SourceCoordinate(ox, v.width, v.width), SourceCoordinate(oy, v.height, v.height), handling)
         == SampleChannels(v, ox, oy, handling)
  {
    hide SampleChannels, SourceCoordinate, Combine, WeightsOf;
    CoordinateIsIdentity(ox, v.width);
    CoordinateIsIdentity(oy, v.height);
    var x, y := SplitCoordinate(ox as real, v.width), SplitCoordinate(oy as real, v.height);
    var a, b := SampleChannels(v, x.low, y.low, handling), SampleChannels(v, x.high, y.low, handling);
    var c, d := SampleChannels(v, x.low, y.high, handling), SampleChannels(v, x.high, y.high, handling);
    CombineAtCorner(a.c0, b.c0, c.c0, d.c0);
    CombineAtCorner(a.c1, b.c1, c.c1, d.c1);
    CombineAtCorner(a.c2, b.c2, c.c2, d.c2);
  }

  // The same picture in different encodings

  predicate IsColor(f: PixelFormat) {
    f != Mono8
  }

  /** Where a format keeps red, green and blue. */
  function Position(f: PixelFormat, channel: nat): nat
    requires IsColor(f) && channel < 3
  {
    if f == Rgb8 || f == Rgba8 then channel else 2 - channel
  }

  /** Two views show the same picture: the same size and the same red, green and blue everywhere,
      whatever the formats, the strides, the padding and the alpha. */
  ghost predicate SamePicture(a: ImageView, b: ImageView) {
    && ValidView(a) && Backed(a) && ValidView(b) && Backed(b) && IsColor(a.format) && IsColor(b.format)
    && a.width == b.width && a.height == b.height
    && forall x: nat, y: nat, channel: nat | x < a.width && y < a.height && channel < 3 ::
         ByteAt(a, x, y, Position(a.format, channel)) == ByteAt(b, x, y, Position(b.format, channel))
  }

  lemma SamplesAgree(a: ImageView, b: ImageView, x: nat, y: nat)
    requires SamePicture(a, b) && x < a.width && y < a.height
    ensures SampleChannels(a, x, y, ConvertToRgb) == SampleChannels(b, x, y, ConvertToRgb)
  {
    hide ByteAt;
    assert ByteAt(a, x, y, Position(a.format, 0)) == ByteAt(b, x, y, Position(b.format, 0));
    assert ByteAt(a, x, y, Position(a.format, 1)) == ByteAt(b, x, y, Position(b.format, 1));
    assert ByteAt(a, x, y, Position(a.format, 2)) == ByteAt(b, x, y, Position(b.format, 2));
  }

  lemma BilinearAgrees(a: ImageView, b: ImageView, sx: real, sy: real)
    requires SamePicture(a, b)
    ensures BilinearSample(a, sx, sy, ConvertToRgb) == BilinearSample(b, sx, sy, ConvertToRgb)
  {
    hide SampleChannels, CombinePixels, WeightsOf;
    var x, y := SplitCoordinate(sx, a.width), SplitCoordinate(sy, a.height);
    SamplesAgree(a, b, x.low, y.low);
    SamplesAgree(a, b, x.high, y.low);
    SamplesAgree(a, b, x.low, y.high);
    SamplesAgree(a, b, x.high, y.high);
  }
}
