/** From an image to a normalised float tensor: the scalar reference loop and the form that
    handles four pixels at a time. Both are proved to fill the same tensor. */
module Preprocess {
  import opened Common
  import opened Images

  datatype TensorLayout = Nchw | Nhwc

  datatype Interpolation = Bilinear

  datatype Config = Config(
    width: nat,
    height: nat,
    layout: TensorLayout,
    scale: real,
    mean: Pixel,
    std: Pixel,
    swapRb: bool,
    handling: ColorHandling,
    accepted: seq<PixelFormat>,
    interpolation: Interpolation)

  datatype PreprocessError = InvalidView | EmptyTarget | ZeroStd | FormatRejected | InterpolationUnsupported | TooLarge

  function Check(v: ImageView, cfg: Config): Option<PreprocessError> {
    if !ValidView(v) then Some(InvalidView)
    else if cfg.width == 0 || cfg.height == 0 then Some(EmptyTarget)
    else if cfg.std.c0 == 0.0 || cfg.std.c1 == 0.0 || cfg.std.c2 == 0.0 then Some(ZeroStd)
    else if v.format !in cfg.accepted then Some(FormatRejected)
    else if cfg.interpolation != Bilinear then Some(InterpolationUnsupported)
    else None
  }

  /** The scalar form also refuses a tensor whose size does not fit the machine word. */
  function ScalarCheck(v: ImageView, cfg: Config): Option<PreprocessError> {
    if Check(v, cfg) == None && 3 * Plane(cfg) > SIZE_MAX then Some(TooLarge) else Check(v, cfg)
  }

  predicate Ready(v: ImageView, cfg: Config) {
    Check(v, cfg) == None && Backed(v)
  }

  // The tensor

  function Normalised(value: real, scale: real, mean: real, std: real): real
    requires std != 0.0
  {
    (value * scale - mean) / std
  }

  function Swapped(p: Pixel, swap: bool): Pixel {
    if swap then Pixel(p.c2, p.c1, p.c0) else p
  }

  function NormalisedPixel(p: Pixel, cfg: Config): Pixel
    requires cfg.std.c0 != 0.0 && cfg.std.c1 != 0.0 && cfg.std.c2 != 0.0
  {
    Pixel(Normalised(p.c0, cfg.scale, cfg.mean.c0, cfg.std.c0),
          Normalised(p.c1, cfg.scale, cfg.mean.c1, cfg.std.c1),
          Normalised(p.c2, cfg.scale, cfg.mean.c2, cfg.std.c2))
  }

  /** The three values of destination pixel (ox, oy). */
  function Target(v: ImageView, cfg: Config, ox: nat, oy: nat): Pixel
    requires Ready(v, cfg)
  {
    var sx, sy := SourceCoordinate(ox, v.width, cfg.width), SourceCoordinate(oy, v.height, cfg.height);
    NormalisedPixel(Swapped(BilinearSample(v, sx, sy, cfg.handling), cfg.swapRb), cfg)
  }

  /** Destination pixels are numbered row by row. */
  function TargetAt(v: ImageView, cfg: Config, p: nat): Pixel
    requires Ready(v, cfg)
  {
    Target(v, cfg, p % cfg.width, p / cfg.width)
  }

  function Plane(cfg: Config): nat {
    cfg.width * cfg.height
  }

  /** Which pixel and which channel a cell of the tensor belongs to. */
  function PixelOf(cfg: Config, i: nat): nat
    requires i < 3 * Plane(cfg)
  {
    if cfg.layout == Nhwc then i / 3
    else if i < Plane(cfg) then i
    else if i < 2 * Plane(cfg) then i - Plane(cfg)
    else i - 2 * Plane(cfg)
  }

  function ChannelOf(cfg: Config, i: nat): nat {
    if cfg.layout == Nhwc then i % 3
    else if i < Plane(cfg) then 0
    else if i < 2 * Plane(cfg) then 1
    else 2
  }

  function CellIndex(cfg: Config, p: nat, c: nat): nat
    requires p < Plane(cfg) && c < 3
  {
    if cfg.layout == Nhwc then 3 * p + c else if c == 0 then p else if c == 1 then Plane(cfg) + p else 2 * Plane(cfg) + p
  }

  function Tensor(v: ImageView, cfg: Config): seq<real>
    requires Ready(v, cfg)
  {
    seq(3 * Plane(cfg), i requires 0 <= i < 3 * Plane(cfg) =>
      Channel(TargetAt(v, cfg, PixelOf(cfg, i)), ChannelOf(cfg, i)))
  }

  /** Pixels and channels on the one side and cells on the other correspond one to one. */
  lemma CellsCorrespond(cfg: Config, p: nat, c: nat, i: nat)
    requires p < Plane(cfg) && c < 3 && i < 3 * Plane(cfg)
    ensures CellIndex(cfg, p, c) < 3 * Plane(cfg)
    ensures CellIndex(cfg, p, c) == i <==> PixelOf(cfg, i) == p && ChannelOf(cfg, i) == c
    ensures PixelOf(cfg, i) < Plane(cfg) && ChannelOf(cfg, i) < 3
  {
    hide Plane;
  }

  /** The two layouts hold the same values: the NHWC tensor is the transpose of the NCHW one. */
  lemma LayoutsAreTransposed(v: ImageView, cfg: Config, p: nat, c: nat)
    requires Ready(v, cfg) && p < Plane(cfg) && c < 3
    ensures var planar, interleaved := cfg.(layout := Nchw), cfg.(layout := Nhwc);
            && CellIndex(planar, p, c) < |Tensor(v, planar)| && CellIndex(interleaved, p, c) < |Tensor(v, interleaved)|
            && Tensor(v, planar)[CellIndex(planar, p, c)] == Tensor(v, interleaved)[CellIndex(interleaved, p, c)]
  {
    hide Target, BilinearSample;
    var planar, interleaved := cfg.(layout := Nchw), cfg.(layout := Nhwc);
    assert Plane(planar) == Plane(cfg) == Plane(interleaved);
    CellsCorrespond(planar, p, c, CellIndex(planar, p, c));
    CellsCorrespond(interleaved, p, c, CellIndex(interleaved, p, c));
    SameTarget(v, planar, interleaved, p);
  }

  lemma SameTarget(v: ImageView, a: Config, b: Config, p: nat)
    requires Ready(v, a) && Ready(v, b) && b == a.(layout := b.layout)
    ensures TargetAt(v, a, p) == TargetAt(v, b, p)
  {
    hide BilinearSample, SourceCoordinate;
  }

  /** Two encodings of one picture give the same tensor when colours are converted to RGB. */
  lemma EncodingsAgree(a: ImageView, b: ImageView, cfg: Config)
    requires SamePicture(a, b) && Ready(a, cfg) && Ready(b, cfg) && cfg.handling == ConvertToRgb
    ensures Tensor(a, cfg) == Tensor(b, cfg)
  {
    hide BilinearSample, SourceCoordinate, NormalisedPixel;
    forall p: nat ensures TargetAt(a, cfg, p) == TargetAt(b, cfg, p) {
      BilinearAgrees(a, b, SourceCoordinate(p % cfg.width, a.width, cfg.width),
                     SourceCoordinate(p / cfg.width, a.height, cfg.height));
    }
  }

  /** When the sizes match, the tensor holds the normalised source pixels themselves. */
  lemma SameSizeTensor(v: ImageView, cfg: Config, ox: nat, oy: nat)
    requires Ready(v, cfg) && cfg.width == v.width && cfg.height == v.height && ox < v.width && oy < v.height
    ensures Target(v, cfg, ox, oy) == NormalisedPixel(Swapped(SampleChannels(v, ox, oy, cfg.handling), cfg.swapRb), cfg)
  {
    hide BilinearSample, SourceCoordinate, NormalisedPixel, SampleChannels;
    SameSizeIsIdentity(v, ox, oy, cfg.handling);
  }

  /** The source coordinate of the centre of destination pixel `o`. */
  ghost predicate IsCentre(s: real, o: nat, src: nat, dst: nat)
    requires dst > 0
  {
    s == (o as real + 0.5) * src as real / dst as real - 0.5
  }

  lemma CentreOf(o: nat, src: nat, dst: nat, s: real)
    requires dst > 0 && IsCentre(s, o, src, dst)
    ensures s == SourceCoordinate(o, src, dst)
  {
  }

  lemma TargetChannel(v: ImageView, cfg: Config, ox: nat, oy: nat, c: nat, sx: real, sy: real)
    requires Ready(v, cfg) && c < 3
    requires sx == SourceCoordinate(ox, v.width, cfg.width) && sy == SourceCoordinate(oy, v.height, cfg.height)
    ensures Channel(cfg.std, c) != 0.0
    ensures Channel(Target(v, cfg, ox, oy), c)
         == (Channel(BilinearSample(v, sx, sy, cfg.handling), if cfg.swapRb then 2 - c else c) * cfg.scale
             - Channel(cfg.mean, c)) / Channel(cfg.std, c)
  {
    hide BilinearSample, Plane, NormalisedPixel, Swapped, SourceCoordinate;
    NormalisedChannel(BilinearSample(v, sx, sy, cfg.handling), cfg, c);
  }

  lemma NormalisedChannel(p: Pixel, cfg: Config, c: nat)
    requires cfg.std.c0 != 0.0 && cfg.std.c1 != 0.0 && cfg.std.c2 != 0.0 && c < 3
    ensures Channel(cfg.std, c) != 0.0
    ensures Channel(NormalisedPixel(Swapped(p, cfg.swapRb), cfg), c)
         == (Channel(p, if cfg.swapRb then 2 - c else c) * cfg.scale - Channel(cfg.mean, c)) / Channel(cfg.std, c)
  {
  }

  lemma CellValue(v: ImageView, cfg: Config, p: nat, c: nat)
    requires Ready(v, cfg) && p < Plane(cfg) && c < 3
    ensures CellIndex(cfg, p, c) < |Tensor(v, cfg)| == 3 * Plane(cfg)
    ensures Tensor(v, cfg)[CellIndex(cfg, p, c)] == Channel(TargetAt(v, cfg, p), c)
  {
    hide TargetAt;
    CellsCorrespond(cfg, p, c, 0);
    CellsCorrespond(cfg, p, c, CellIndex(cfg, p, c));
  }

  /** Where a cell lies: plane by plane, or three to a pixel. */
  lemma CellPlace(cfg: Config, p: nat, c: nat)
    requires p < Plane(cfg) && c < 3
    ensures CellIndex(cfg, p, c) == if cfg.layout == Nchw then c * Plane(cfg) + p else p * 3 + c
  {
    hide Plane;
  }

  /** Every cell: the bilinear sample at the pixel's centre, red and blue exchanged if asked for,
      scaled, centred and divided by the deviation of its channel. */
  lemma TensorExactly(v: ImageView, cfg: Config, ox: nat, oy: nat, c: nat, sx: real, sy: real)
    requires Ready(v, cfg) && ox < cfg.width && oy < cfg.height && c < 3
    requires IsCentre(sx, ox, v.width, cfg.width) && IsCentre(sy, oy, v.height, cfg.height)
    ensures var plane, p := cfg.width * cfg.height, oy * cfg.width + ox;
            var i := if cfg.layout == Nchw then c * plane + p else p * 3 + c;
            var sample := BilinearSample(v, sx, sy, cfg.handling);
            && |Tensor(v, cfg)| == 3 * plane && 0 <= i < 3 * plane
            && Channel(cfg.std, c) != 0.0
            && Tensor(v, cfg)[i] == (Channel(sample, if cfg.swapRb then 2 - c else c) * cfg.scale - Channel(cfg.mean, c))
                                    / Channel(cfg.std, c)
  {
    hide BilinearSample, Tensor, Target, CellIndex, IsCentre, SourceCoordinate;
    var p := oy * cfg.width + ox;
    CentreOf(ox, v.width, cfg.width, sx);
    CentreOf(oy, v.height, cfg.height, sy);
    PixelNumber(cfg, ox, oy);
    TargetChannel(v, cfg, ox, oy, c, sx, sy);
    CellValue(v, cfg, p, c);
    CellPlace(cfg, p, c);
  }

  /** The first of the failing checks decides, and the two forms differ in the last one only. */
  lemma ChecksExactly(v: ImageView, cfg: Config)
    ensures var n := match v.format case Mono8 => 1 case Rgb8 => 3 case Bgr8 => 3 case Rgba8 => 4 case Bgra8 => 4;
            Check(v, cfg)
            == if v.data == [] || v.width == 0 || v.height == 0 || v.stride < v.width * n then Some(InvalidView)
               else if cfg.width == 0 || cfg.height == 0 then Some(EmptyTarget)
               else if cfg.std.c0 == 0.0 || cfg.std.c1 == 0.0 || cfg.std.c2 == 0.0 then Some(ZeroStd)
               else if !exists k | 0 <= k < |cfg.accepted| :: cfg.accepted[k] == v.format then Some(FormatRejected)
               else None
    ensures ScalarCheck(v, cfg)
         == if Check(v, cfg) == None && 3 * (cfg.width * cfg.height) > 0xFFFF_FFFF_FFFF_FFFF then Some(TooLarge)
            else Check(v, cfg)
  {
  }

  // Writing cells

  /** All cells of pixels before `p` are final and were written once; no other cell was written. */
  ghost predicate DoneUpTo(v: ImageView, cfg: Config, cells: seq<real>, writes: seq<nat>, p: nat)
    requires Ready(v, cfg)
  {
    && |cells| == |writes| == 3 * Plane(cfg)
    && forall i | 0 <= i < 3 * Plane(cfg) ::
         if PixelOf(cfg, i) < p then
           cells[i] == Channel(TargetAt(v, cfg, PixelOf(cfg, i)), ChannelOf(cfg, i)) && writes[i] == 1
         else
           writes[i] == 0
  }

  lemma AllDone(v: ImageView, cfg: Config, cells: seq<real>, writes: seq<nat>)
    requires Ready(v, cfg) && DoneUpTo(v, cfg, cells, writes, Plane(cfg))
    ensures cells == Tensor(v, cfg)
    ensures forall i | 0 <= i < |writes| :: writes[i] == 1
  {
    hide TargetAt;
    forall i | 0 <= i < 3 * Plane(cfg)
      ensures cells[i] == Channel(TargetAt(v, cfg, PixelOf(cfg, i)), ChannelOf(cfg, i)) && writes[i] == 1
    {
      CellsCorrespond(cfg, 0, 0, i);
    }
  }

  /** Cell `i` holds its channel of `value` and was written once more than before. */
  ghost predicate Received(cfg: Config, value: Pixel, i: nat, cell: real, before: nat, after: nat) {
    cell == Channel(value, ChannelOf(cfg, i)) && after == before + 1
  }

  method WritePixel(cfg: Config, out: array<real>, p: nat, value: Pixel, ghost writes: seq<nat>)
    returns (ghost counted: seq<nat>)
    requires out.Length == |writes| == 3 * Plane(cfg) && p < Plane(cfg)
    modifies out
    ensures |counted| == |writes|
    ensures forall i | 0 <= i < |writes| :: PixelOf(cfg, i) == p ==> Received(cfg, value, i, out[i], writes[i], counted[i])
    ensures forall i | 0 <= i < |writes| :: PixelOf(cfg, i) != p ==> out[i] == old(out[i]) && counted[i] == writes[i]
  {
    hide Plane;
    var plane := Plane(cfg);
    if cfg.layout == Nchw {
      counted := WriteThree(out, 0 * plane + p, 1 * plane + p, 2 * plane + p, value, writes);
    } else {
      var idx := p * 3;
      counted := WriteThree(out, idx + 0, idx + 1, idx + 2, value, writes);
    }
  }

  method WriteThree(out: array<real>, i0: nat, i1: nat, i2: nat, value: Pixel, ghost writes: seq<nat>)
    returns (ghost counted: seq<nat>)
    requires i0 < i1 < i2 < out.Length == |writes|
    modifies out
    ensures |counted| == |writes|
    ensures out[i0] == value.c0 && out[i1] == value.c1 && out[i2] == value.c2
    ensures counted[i0] == writes[i0] + 1 && counted[i1] == writes[i1] + 1 && counted[i2] == writes[i2] + 1
    ensures forall i | 0 <= i < |writes| && i != i0 && i != i1 && i != i2 ::
              out[i] == old(out[i]) && counted[i] == writes[i]
  {
    out[i0] := value.c0;
    out[i1] := value.c1;
    out[i2] := value.c2;
    counted := writes[i0 := writes[i0] + 1][i1 := writes[i1] + 1][i2 := writes[i2] + 1];
  }

  lemma PixelNumber(cfg: Config, ox: nat, oy: nat)
    requires ox < cfg.width && oy < cfg.height
    ensures oy * cfg.width + ox < Plane(cfg)
    ensures (oy * cfg.width + ox) % cfg.width == ox && (oy * cfg.width + ox) / cfg.width == oy
  {
    RowMajor(oy, cfg.height, ox, cfg.width);
    assert oy * cfg.width + ox == cfg.width * oy + ox;
    DivMod(oy, ox, cfg.width);
  }

  // One pixel, as both forms compute it

  method ScalarPixel(v: ImageView, cfg: Config, ox: nat, oy: nat, sy: real) returns (p: Pixel)
    requires Ready(v, cfg) && sy == SourceCoordinate(oy, v.height, cfg.height)
    ensures p == Target(v, cfg, ox, oy)
  {
    hide BilinearSample, SourceCoordinate, Normalised;
    var sx := SourceCoordinate(ox, v.width, cfg.width);
    p := BilinearSample(v, sx, sy, cfg.handling);
    if cfg.swapRb {
      p := Pixel(p.c2, p.c1, p.c0);
    }
    p := Pixel(Normalised(p.c0, cfg.scale, cfg.mean.c0, cfg.std.c0),
               Normalised(p.c1, cfg.scale, cfg.mean.c1, cfg.std.c1),
               Normalised(p.c2, cfg.scale, cfg.mean.c2, cfg.std.c2));
  }

  /** The rest of a row, pixel by pixel. */
  method ScalarRow(v: ImageView, cfg: Config, out: array<real>, oy: nat, first: nat, ghost writes: seq<nat>)
    returns (ghost counted: seq<nat>)
    requires Ready(v, cfg) && oy < cfg.height && first <= cfg.width
    requires DoneUpTo(v, cfg, out[..], writes, oy * cfg.width + first)
    modifies out
    ensures DoneUpTo(v, cfg, out[..], counted, oy * cfg.width + cfg.width)
  {
    hide Target, Plane;
    counted := writes;
    var sy := SourceCoordinate(oy, v.height, cfg.height);
    var ox := first;
    while ox < cfg.width
      invariant ox <= cfg.width
      invariant DoneUpTo(v, cfg, out[..], counted, oy * cfg.width + ox)
    {
      var p := ScalarPixel(v, cfg, ox, oy, sy);
      PixelNumber(cfg, ox, oy);
      counted := WritePixel(cfg, out, oy * cfg.width + ox, p, counted);
      ox := ox + 1;
    }
  }

  /** The reference: row by row, pixel by pixel. */
  method PreprocessScalar(v: ImageView, cfg: Config)
    returns (error: Option<PreprocessError>, out: array<real>, ghost writes: seq<nat>)
    requires ValidView(v) ==> Backed(v)
    ensures error == ScalarCheck(v, cfg)
    ensures error == None ==> out[..] == Tensor(v, cfg)
    ensures error == None ==> |writes| == 3 * Plane(cfg) && forall i | 0 <= i < |writes| :: writes[i] == 1
  {
    error := ScalarCheck(v, cfg);
    writes := [];
    if error != None {
      out := new real[0];
      return;
    }
    hide Target, Plane;
    out, writes := NewTensor(v, cfg);
    for oy := 0 to cfg.height
      invariant fresh(out) && DoneUpTo(v, cfg, out[..], writes, oy * cfg.width)
    {
      writes := ScalarRow(v, cfg, out, oy, 0, writes);
      NextRow(oy, cfg.width);
    }
    PlaneIsRows(cfg);
    AllDone(v, cfg, out[..], writes);
  }

  lemma PlaneIsRows(cfg: Config)
    ensures Plane(cfg) == cfg.height * cfg.width
  {
  }

  /** The output buffer, resized and cleared. */
  method NewTensor(v: ImageView, cfg: Config) returns (out: array<real>, ghost writes: seq<nat>)
    requires Ready(v, cfg)
    ensures fresh(out) && DoneUpTo(v, cfg, out[..], writes, 0)
  {
    hide Target;
    var plane := Plane(cfg);
    out := new real[plane * 3](_ => 0.0);
    writes := seq(plane * 3, _ => 0);
  }

  lemma NextRow(oy: nat, width: nat)
    ensures oy * width + width == (oy + 1) * width
  {
  }

  // Four pixels at a time

  /** A vector register of four lanes. */
  datatype Lanes = Lanes(l0: real, l1: real, l2: real, l3: real)

  function Lane(a: Lanes, k: nat): real {
    if k == 0 then a.l0 else if k == 1 then a.l1 else if k == 2 then a.l2 else a.l3
  }

  function Broadcast(x: real): Lanes {
    Lanes(x, x, x, x)
  }

  function Mul(a: Lanes, b: Lanes): Lanes {
    Lanes(a.l0 * b.l0, a.l1 * b.l1, a.l2 * b.l2, a.l3 * b.l3)
  }

  function Sub(a: Lanes, b: Lanes): Lanes {
    Lanes(a.l0 - b.l0, a.l1 - b.l1, a.l2 - b.l2, a.l3 - b.l3)
  }

  lemma MultiplyByInverse(value: real, scale: real, mean: real, std: real)
    requires std != 0.0
    ensures (value * scale - mean) * (1.0 / std) == Normalised(value, scale, mean, std)
  {
    InverseIsQuotient(value * scale - mean, std);
  }

  lemma InverseIsQuotient(a: real, b: real)
    requires b != 0.0
    ensures a * (1.0 / b) == a / b
  {
    var r := 1.0 / b;
    assert r * b == 1.0;
    assert (a * r) * b == a;
  }

  /** The vector arithmetic multiplies by the inverse where the scalar one divides. */
  method NormaliseLanes(a: Lanes, scale: real, mean: real, std: real) returns (r: Lanes)
    requires std != 0.0
    ensures forall k | 0 <= k < 4 :: Lane(r, k) == Normalised(Lane(a, k), scale, mean, std)
  {
    hide Normalised;
    r := Mul(Sub(Mul(a, Broadcast(scale)), Broadcast(mean)), Broadcast(1.0 / std));
    MultiplyByInverse(a.l0, scale, mean, std);
    MultiplyByInverse(a.l1, scale, mean, std);
    MultiplyByInverse(a.l2, scale, mean, std);
    MultiplyByInverse(a.l3, scale, mean, std);
  }

  method LoadLanes(buf: array<real>) returns (r: Lanes)
    requires buf.Length == 4
    ensures forall k | 0 <= k < 4 :: Lane(r, k) == buf[k]
  {
    r := Lanes(buf[0], buf[1], buf[2], buf[3]);
  }

  function LanePixel(r: Lanes, g: Lanes, b: Lanes, k: nat): Pixel {
    Pixel(Lane(r, k), Lane(g, k), Lane(b, k))
  }

  /** Samples the four pixels from `ox` on and normalises them in vector registers. */
  method BlockPixels(v: ImageView, cfg: Config, ox: nat, oy: nat, sy: real) returns (r: Lanes, g: Lanes, b: Lanes)
    requires Ready(v, cfg) && sy == SourceCoordinate(oy, v.height, cfg.height)
    ensures forall k | 0 <= k < 4 :: LanePixel(r, g, b, k) == Target(v, cfg, ox + k, oy)
  {
    hide BilinearSample, SourceCoordinate, Normalised;
    var rbuf, gbuf, bbuf := new real[4], new real[4], new real[4];
    for k := 0 to 4
      invariant forall j | 0 <= j < k :: Pixel(rbuf[j], gbuf[j], bbuf[j]) == SampleAt(v, cfg, ox + j, sy)
    {
      var sx := SourceCoordinate(ox + k, v.width, cfg.width);
      var p := BilinearSample(v, sx, sy, cfg.handling);
      if cfg.swapRb {
        p := Pixel(p.c2, p.c1, p.c0);
      }
      rbuf[k], gbuf[k], bbuf[k] := p.c0, p.c1, p.c2;
    }
    var rRaw := LoadLanes(rbuf);
    var gRaw := LoadLanes(gbuf);
    var bRaw := LoadLanes(bbuf);
    r := NormaliseLanes(rRaw, cfg.scale, cfg.mean.c0, cfg.std.c0);
    g := NormaliseLanes(gRaw, cfg.scale, cfg.mean.c1, cfg.std.c1);
    b := NormaliseLanes(bRaw, cfg.scale, cfg.mean.c2, cfg.std.c2);
    forall k | 0 <= k < 4 ensures LanePixel(r, g, b, k) == Target(v, cfg, ox + k, oy) {
      assert Pixel(rbuf[k], gbuf[k], bbuf[k]) == SampleAt(v, cfg, ox + k, sy);
    }
  }

  function SampleAt(v: ImageView, cfg: Config, ox: nat, sy: real): Pixel
    requires Ready(v, cfg)
  {
    Swapped(BilinearSample(v, SourceCoordinate(ox, v.width, cfg.width), sy, cfg.handling), cfg.swapRb)
  }

  /** A vector store of four consecutive cells. */
  method StoreLanes(out: array<real>, base: nat, a: Lanes, ghost writes: seq<nat>) returns (ghost counted: seq<nat>)
    requires base + 4 <= out.Length == |writes|
    modifies out
    ensures |counted| == |writes|
    ensures forall k | 0 <= k < 4 :: out[base + k] == Lane(a, k) && counted[base + k] == writes[base + k] + 1
    ensures forall i | 0 <= i < |writes| && !(base <= i < base + 4) :: out[i] == old(out[i]) && counted[i] == writes[i]
  {
    out[base], out[base + 1], out[base + 2], out[base + 3] := a.l0, a.l1, a.l2, a.l3;
    counted := writes[base := writes[base] + 1][base + 1 := writes[base + 1] + 1]
      [base + 2 := writes[base + 2] + 1][base + 3 := writes[base + 3] + 1];
  }

  /** Writes four consecutive pixels: three vector stores, or twelve single cells. */
  method WriteBlock(cfg: Config, out: array<real>, p: nat, r: Lanes, g: Lanes, b: Lanes, ghost writes: seq<nat>)
    returns (ghost counted: seq<nat>)
    requires out.Length == |writes| == 3 * Plane(cfg) && p + 4 <= Plane(cfg)
    modifies out
    ensures |counted| == |writes|
    ensures forall i | 0 <= i < |writes| :: p <= PixelOf(cfg, i) < p + 4 ==>
              Received(cfg, LanePixel(r, g, b, PixelOf(cfg, i) - p), i, out[i], writes[i], counted[i])
    ensures forall i | 0 <= i < |writes| :: !(p <= PixelOf(cfg, i) < p + 4) ==>
              out[i] == old(out[i]) && counted[i] == writes[i]
  {
    if cfg.layout == Nchw {
      counted := WriteBlockPlanar(cfg, out, p, r, g, b, writes);
    } else {
      counted := writes;
      for k := 0 to 4
        invariant |counted| == |writes|
        invariant forall i | 0 <= i < |writes| :: p <= PixelOf(cfg, i) < p + k ==>
                    Received(cfg, LanePixel(r, g, b, PixelOf(cfg, i) - p), i, out[i], writes[i], counted[i])
        invariant forall i | 0 <= i < |writes| :: !(p <= PixelOf(cfg, i) < p + k) ==>
                    out[i] == old(out[i]) && counted[i] == writes[i]
      {
        counted := WritePixel(cfg, out, p + k, LanePixel(r, g, b, k), counted);
      }
    }
  }

  method WriteBlockPlanar(cfg: Config, out: array<real>, p: nat, r: Lanes, g: Lanes, b: Lanes, ghost writes: seq<nat>)
    returns (ghost counted: seq<nat>)
    requires out.Length == |writes| == 3 * Plane(cfg) && p + 4 <= Plane(cfg) && cfg.layout == Nchw
    modifies out
    ensures |counted| == |writes|
    ensures forall i | 0 <= i < |writes| :: p <= PixelOf(cfg, i) < p + 4 ==>
              Received(cfg, LanePixel(r, g, b, PixelOf(cfg, i) - p), i, out[i], writes[i], counted[i])
    ensures forall i | 0 <= i < |writes| :: !(p <= PixelOf(cfg, i) < p + 4) ==>
              out[i] == old(out[i]) && counted[i] == writes[i]
  {
    hide Plane, Lane;
    var plane := Plane(cfg);
    counted := StoreLanes(out, 0 * plane + p, r, writes);
    counted := StoreLanes(out, 1 * plane + p, g, counted);
    counted := StoreLanes(out, 2 * plane + p, b, counted);
    forall i | 0 <= i < |writes| && p <= PixelOf(cfg, i) < p + 4
      ensures Received(cfg, LanePixel(r, g, b, PixelOf(cfg, i) - p), i, out[i], writes[i], counted[i])
    {
      var k := PixelOf(cfg, i) - p;
      assert i == 0 * plane + p + k || i == 1 * plane + p + k || i == 2 * plane + p + k;
    }
  }

  /** The blocks of a row: as many whole groups of four pixels as fit. */
  method BlockedRow(v: ImageView, cfg: Config, out: array<real>, oy: nat, ghost writes: seq<nat>)
    returns (ox: nat, ghost counted: seq<nat>)
    requires Ready(v, cfg) && oy < cfg.height
    requires DoneUpTo(v, cfg, out[..], writes, oy * cfg.width)
    modifies out
    ensures ox <= cfg.width < ox + 4 && DoneUpTo(v, cfg, out[..], counted, oy * cfg.width + ox)
  {
    hide Target, Plane;
    counted := writes;
    var sy := SourceCoordinate(oy, v.height, cfg.height);
    ox := 0;
    while ox + 4 <= cfg.width
      invariant ox <= cfg.width
      invariant DoneUpTo(v, cfg, out[..], counted, oy * cfg.width + ox)
    {
      var r, g, b := BlockPixels(v, cfg, ox, oy, sy);
      PixelNumber(cfg, ox, oy);
      PixelNumber(cfg, ox + 1, oy);
      PixelNumber(cfg, ox + 2, oy);
      PixelNumber(cfg, ox + 3, oy);
      ghost var p := oy * cfg.width + ox;
      assert forall k | 0 <= k < 4 :: LanePixel(r, g, b, k) == TargetAt(v, cfg, p + k);
      counted := WriteBlock(cfg, out, oy * cfg.width + ox, r, g, b, counted);
      ox := ox + 4;
    }
  }

  /** The fast form: each row in blocks of four, then the rest of the row pixel by pixel. It
      fills exactly the tensor of the reference, and writes every cell once. It does not repeat the
      size check of the reference. */
  method PreprocessNeon(v: ImageView, cfg: Config)
    returns (error: Option<PreprocessError>, out: array<real>, ghost writes: seq<nat>)
    requires ValidView(v) ==> Backed(v)
    ensures error == Check(v, cfg)
    ensures error == None ==> out[..] == Tensor(v, cfg)
    ensures error == None ==> |writes| == 3 * Plane(cfg) && forall i | 0 <= i < |writes| :: writes[i] == 1
  {
    error := Check(v, cfg);
    writes := [];
    if error != None {
      out := new real[0];
      return;
    }
    hide Target, Plane;
    out, writes := NewTensor(v, cfg);
    for oy := 0 to cfg.height
      invariant fresh(out) && DoneUpTo(v, cfg, out[..], writes, oy * cfg.width)
    {
      var ox;
      ox, writes := BlockedRow(v, cfg, out, oy, writes);
      writes := ScalarRow(v, cfg, out, oy, ox, writes);
      NextRow(oy, cfg.width);
    }
    PlaneIsRows(cfg);
    AllDone(v, cfg, out[..], writes);
  }
}
