/** Undoing the stretch resize: detections in model coordinates are mapped back to the source
    image. Suppression is unaffected by the mapping. */
module Stretch {
  import opened Common
  import opened Sorting
  import opened Detections

  datatype Transform = Transform(
    scaleX: real,
    scaleY: real,
    padX: real,
    padY: real,
    sourceWidth: nat,
    sourceHeight: nat,
    modelWidth: nat,
    modelHeight: nat)

  function MakeStretchTransform(sourceWidth: nat, sourceHeight: nat, modelWidth: nat, modelHeight: nat): Transform {
    Transform(
      if sourceWidth > 0 && modelWidth > 0 then modelWidth as real / sourceWidth as real else 1.0,
      if sourceHeight > 0 && modelHeight > 0 then modelHeight as real / sourceHeight as real else 1.0,
      0.0, 0.0, sourceWidth, sourceHeight, modelWidth, modelHeight)
  }

  function ClampBox(d: Detection, maxW: real, maxH: real): Detection {
    var xMin, yMin := Clamp(d.x, 0.0, maxW), Clamp(d.y, 0.0, maxH);
    var xMax, yMax := Clamp(d.x + d.w, 0.0, maxW), Clamp(d.y + d.h, 0.0, maxH);
    d.(x := xMin, y := yMin, w := RMax(0.0, xMax - xMin), h := RMax(0.0, yMax - yMin))
  }

  /** The whole box lies in the rectangle from the origin to (w, h). */
  predicate Inside(d: Detection, w: real, h: real) {
    d.x >= 0.0 && d.y >= 0.0 && d.w >= 0.0 && d.h >= 0.0 && d.x + d.w <= w && d.y + d.h <= h
  }

  function Unscaled(d: Detection, t: Transform): Detection {
    var e := if t.scaleX > 0.0 then d.(x := (d.x - t.padX) / t.scaleX, w := d.w / t.scaleX) else d;
    if t.scaleY > 0.0 then e.(y := (e.y - t.padY) / t.scaleY, h := e.h / t.scaleY) else e
  }

  function ClampedToSource(d: Detection, t: Transform): Detection {
    var w, h := t.sourceWidth as real, t.sourceHeight as real;
    d.(x := Clamp(d.x, 0.0, w), y := Clamp(d.y, 0.0, h), w := Clamp(d.w, 0.0, w), h := Clamp(d.h, 0.0, h))
  }

  function MappedBack(d: Detection, t: Transform): Detection {
    ClampedToSource(Unscaled(d, t), t)
  }

  function MapAll(s: seq<Detection>, f: Detection -> Detection): (r: seq<Detection>)
    ensures |r| == |s| && forall i | 0 <= i < |s| :: r[i] == f(s[i])
  {
    if s == [] then [] else [f(s[0])] + MapAll(s[1..], f)
  }

  /** The source rewrites the detections in place, one after the other. */
  method MapDetections(dets: seq<Detection>, t: Transform) returns (r: seq<Detection>)
    ensures r == MapAll(dets, d => MappedBack(d, t))
  {
    r := dets;
    for i := 0 to |dets|
      invariant |r| == |dets|
      invariant forall j | 0 <= j < i :: r[j] == MappedBack(dets[j], t)
      invariant forall j | i <= j < |dets| :: r[j] == dets[j]
    {
      var d := r[i];
      if t.scaleX > 0.0 {
        d := d.(x := (d.x - t.padX) / t.scaleX, w := d.w / t.scaleX);
      }
      if t.scaleY > 0.0 {
        d := d.(y := (d.y - t.padY) / t.scaleY, h := d.h / t.scaleY);
      }
      var maxX, maxY := t.sourceWidth as real, t.sourceHeight as real;
      d := d.(x := Clamp(d.x, 0.0, maxX), y := Clamp(d.y, 0.0, maxY));
      d := d.(w := Clamp(d.w, 0.0, maxX), h := Clamp(d.h, 0.0, maxY));
      r := r[i := d];
    }
  }

  // Overlap is a ratio between 0 and 1

  lemma OverlapBounds(aLow: real, aSize: real, bLow: real, bSize: real)
    requires aSize >= 0.0 && bSize >= 0.0
    ensures var o := Overlap(aLow, aLow + aSize, bLow, bLow + bSize);
            0.0 <= o <= aSize && o <= bSize
  {
  }

  lemma ProductMonotone(a: real, b: real, c: real, d: real)
    requires 0.0 <= a <= c && 0.0 <= b <= d
    ensures 0.0 <= a * b <= c * d
  {
    assert c * d - a * b == c * (d - b) + (c - a) * b;
    NonNegativeProduct(c, d - b);
    NonNegativeProduct(c - a, b);
    NonNegativeProduct(a, b);
  }

  lemma ProductWithin(x: real, y: real, w: real, h: real, area: real, inter: real)
    requires 0.0 <= x <= w && 0.0 <= y <= h && area == w * h && inter == x * y
    ensures 0.0 <= inter <= area
  {
    ProductMonotone(x, y, w, h);
  }

  lemma IntersectionBounds(a: Detection, b: Detection)
    requires a.w >= 0.0 && a.h >= 0.0 && b.w >= 0.0 && b.h >= 0.0
    ensures 0.0 <= Intersection(a, b) <= Area(a) && Intersection(a, b) <= Area(b)
  {
    hide Overlap;
    OverlapBounds(a.x, a.w, b.x, b.w);
    OverlapBounds(a.y, a.h, b.y, b.h);
    var ow, oh := Overlap(a.x, a.x + a.w, b.x, b.x + b.w), Overlap(a.y, a.y + a.h, b.y, b.y + b.h);
    ProductWithin(ow, oh, a.w, a.h, Area(a), Intersection(a, b));
    ProductWithin(ow, oh, b.w, b.h, Area(b), Intersection(a, b));
  }

  lemma IouInUnitInterval(a: Detection, b: Detection)
    requires a.w >= 0.0 && a.h >= 0.0 && b.w >= 0.0 && b.h >= 0.0
    ensures 0.0 <= Iou(a, b) <= 1.0
  {
    IntersectionBounds(a, b);
    RatioInUnitInterval(Intersection(a, b), Area(a) + Area(b) - Intersection(a, b));
  }

  lemma RatioInUnitInterval(part: real, whole: real)
    requires 0.0 <= part <= whole
    ensures 0.0 <= Ratio(part, whole) <= 1.0
  {
  }

  // Scaling

  function Scaled(d: Detection, p: real, q: real): Detection {
    d.(x := d.x * p, y := d.y * q, w := d.w * p, h := d.h * q)
  }

  lemma OrderScales(a: real, b: real, p: real)
    requires p > 0.0
    ensures a < b <==> a * p < b * p
    ensures a == b ==> a * p == b * p
  {
    if a < b {
      assert (b - a) * p > 0.0;
    } else if b < a {
      assert (a - b) * p > 0.0;
    }
  }

  lemma MaxMinScale(a: real, b: real, p: real)
    requires p > 0.0
    ensures RMax(a * p, b * p) == RMax(a, b) * p && RMin(a * p, b * p) == RMin(a, b) * p
  {
    OrderScales(a, b, p);
    OrderScales(b, a, p);
  }

  lemma OverlapScales(aLow: real, aHigh: real, bLow: real, bHigh: real, p: real,
                      cLow: real, cHigh: real, dLow: real, dHigh: real)
    requires p > 0.0 && cLow == aLow * p && cHigh == aHigh * p && dLow == bLow * p && dHigh == bHigh * p
    ensures Overlap(cLow, cHigh, dLow, dHigh) == Overlap(aLow, aHigh, bLow, bHigh) * p
  {
    MaxMinScale(aHigh, bHigh, p);
    MaxMinScale(aLow, bLow, p);
    var high, low := RMin(aHigh, bHigh), RMax(aLow, bLow);
    DifferenceScales(high, low, p);
    MaxMinScale(0.0, high - low, p);
  }

  lemma DifferenceScales(a: real, b: real, p: real)
    ensures a * p - b * p == (a - b) * p
  {
  }

  lemma RatioScales(part: real, whole: real, k: real)
    requires k > 0.0
    ensures Ratio(part * k, whole * k) == Ratio(part, whole)
  {
    OrderScales(0.0, whole, k);
    if whole > 0.0 {
      QuotientScales(part, whole, k);
    }
  }

  lemma QuotientScales(a: real, b: real, k: real)
    requires b > 0.0 && b * k > 0.0
    ensures (a * k) / (b * k) == a / b
  {
    var r := a / b;
    assert a == r * b;
    assert a * k == r * (b * k);
  }

  lemma SumScales(a: real, b: real, p: real)
    ensures a * p + b * p == (a + b) * p
  {
  }

  lemma ProductsScale(a: real, b: real, p: real, q: real, k: real, c: real, d: real)
    requires k == p * q && c == a * p && d == b * q
    ensures c * d == (a * b) * k
  {
  }

  lemma IntersectionScales(a: Detection, b: Detection, c: Detection, d: Detection, p: real, q: real, k: real)
    requires p > 0.0 && q > 0.0 && k == p * q && c == Scaled(a, p, q) && d == Scaled(b, p, q)
    ensures Intersection(c, d) == Intersection(a, b) * k
  {
    hide Overlap;
    SumScales(a.x, a.w, p);
    SumScales(b.x, b.w, p);
    SumScales(a.y, a.h, q);
    SumScales(b.y, b.h, q);
    OverlapScales(a.x, a.x + a.w, b.x, b.x + b.w, p, c.x, c.x + c.w, d.x, d.x + d.w);
    OverlapScales(a.y, a.y + a.h, b.y, b.y + b.h, q, c.y, c.y + c.h, d.y, d.y + d.h);
    ProductsScale(Overlap(a.x, a.x + a.w, b.x, b.x + b.w), Overlap(a.y, a.y + a.h, b.y, b.y + b.h), p, q, k,
                  Overlap(c.x, c.x + c.w, d.x, d.x + d.w), Overlap(c.y, c.y + c.h, d.y, d.y + d.h));
  }

  lemma AreaScales(a: Detection, c: Detection, p: real, q: real, k: real)
    requires k == p * q && c == Scaled(a, p, q)
    ensures Area(c) == Area(a) * k
  {
    ProductsScale(a.w, a.h, p, q, k, c.w, c.h);
  }

  lemma ScaledRatio(areaA: real, areaB: real, inter: real, areaC: real, areaD: real, inter': real, k: real)
    requires k > 0.0 && areaC == areaA * k && areaD == areaB * k && inter' == inter * k
    ensures Ratio(inter', areaC + areaD - inter') == Ratio(inter, areaA + areaB - inter)
  {
    assert areaC + areaD - inter' == (areaA + areaB - inter) * k;
    RatioScales(inter, areaA + areaB - inter, k);
  }

  lemma ProductPositive(a: real, b: real)
    requires a > 0.0 && b > 0.0
    ensures a * b > 0.0
  {
  }

  /** The overlap ratio does not change under positive scaling along each axis. */
  lemma IouIgnoresScale(a: Detection, b: Detection, p: real, q: real)
    requires p > 0.0 && q > 0.0
    ensures Iou(Scaled(a, p, q), Scaled(b, p, q)) == Iou(a, b)
  {
    hide Intersection, Area, Ratio, Scaled;
    ProductPositive(p, q);
    var k := p * q;
    var c, d := Scaled(a, p, q), Scaled(b, p, q);
    AreaScales(a, c, p, q, k);
    AreaScales(b, d, p, q, k);
    IntersectionScales(a, b, c, d, p, q, k);
    ScaledRatio(Area(a), Area(b), Intersection(a, b), Area(c), Area(d), Intersection(c, d), k);
  }

  // Suppression commutes with every mapping that keeps class, score and overlap

  ghost predicate KeepsOverlap(f: Detection -> Detection, s: seq<Detection>) {
    && (forall a | a in s :: f(a).classId == a.classId && f(a).score == a.score)
    && (forall a, b | a in s && b in s :: Iou(f(a), f(b)) == Iou(a, b))
  }

  lemma {:induction false} UnsuppressedCommutes(f: Detection -> Detection, d: Detection, s: seq<Detection>, threshold: real)
    requires KeepsOverlap(f, [d] + s)
    ensures Unsuppressed(f(d), MapAll(s, f), threshold) == MapAll(Unsuppressed(d, s, threshold), f)
    ensures forall a | a in Unsuppressed(d, s, threshold) :: a in s
  {
    if s != [] {
      assert d in [d] + s && s[0] in [d] + s;
      assert forall a | a in [d] + s[1..] :: a in [d] + s;
      UnsuppressedCommutes(f, d, s[1..], threshold);
      assert MapAll(s, f)[1..] == MapAll(s[1..], f);
      assert Suppresses(f(d), f(s[0]), threshold) == Suppresses(d, s[0], threshold);
    }
  }

  lemma {:induction false} GreedyCommutes(f: Detection -> Detection, s: seq<Detection>, threshold: real)
    requires KeepsOverlap(f, s)
    ensures Greedy(MapAll(s, f), threshold) == MapAll(Greedy(s, threshold), f)
    decreases |s|
  {
    if s != [] {
      assert [s[0]] + s[1..] == s;
      UnsuppressedCommutes(f, s[0], s[1..], threshold);
      assert MapAll(s, f)[1..] == MapAll(s[1..], f);
      GreedyCommutes(f, Unsuppressed(s[0], s[1..], threshold), threshold);
    }
  }

  lemma UnscaledIsScaled(d: Detection, t: Transform)
    requires t.scaleX > 0.0 && t.scaleY > 0.0 && t.padX == 0.0 && t.padY == 0.0
    ensures Unscaled(d, t) == Scaled(d, 1.0 / t.scaleX, 1.0 / t.scaleY)
  {
  }

  lemma StretchScalePositive(sourceWidth: nat, sourceHeight: nat, modelWidth: nat, modelHeight: nat)
    ensures var t := MakeStretchTransform(sourceWidth, sourceHeight, modelWidth, modelHeight);
            t.scaleX > 0.0 && t.scaleY > 0.0 && t.padX == 0.0 && t.padY == 0.0
  {
    if sourceWidth > 0 && modelWidth > 0 {
      QuotientPositive(modelWidth as real, sourceWidth as real);
    }
    if sourceHeight > 0 && modelHeight > 0 {
      QuotientPositive(modelHeight as real, sourceHeight as real);
    }
  }

  lemma QuotientPositive(a: real, b: real)
    requires a > 0.0 && b > 0.0
    ensures a / b > 0.0
  {
  }

  lemma UnscaledKeepsIou(sw: nat, sh: nat, mw: nat, mh: nat, a: Detection, b: Detection)
    ensures var t := MakeStretchTransform(sw, sh, mw, mh);
            Iou(Unscaled(a, t), Unscaled(b, t)) == Iou(a, b)
  {
    hide Iou;
    var t := MakeStretchTransform(sw, sh, mw, mh);
    StretchScalePositive(sw, sh, mw, mh);
    QuotientPositive(1.0, t.scaleX);
    QuotientPositive(1.0, t.scaleY);
    UnscaledIsScaled(a, t);
    UnscaledIsScaled(b, t);
    IouIgnoresScale(a, b, 1.0 / t.scaleX, 1.0 / t.scaleY);
  }

  /** For every source and model size and every list of boxes, suppressing and then undoing the
      stretch keeps the same boxes as undoing the stretch and then suppressing. */
  lemma SuppressionCommutesWithUnscaling(
    sw: nat, sh: nat, mw: nat, mh: nat, s: seq<Detection>, threshold: real, maxDetections: int)
    ensures var t := MakeStretchTransform(sw, sh, mw, mh);
            var f := d => Unscaled(d, t);
            Limited(Greedy(MapAll(s, f), threshold), maxDetections)
            == MapAll(Limited(Greedy(s, threshold), maxDetections), f)
  {
    var t := MakeStretchTransform(sw, sh, mw, mh);
    var f := d => Unscaled(d, t);
    forall a, b | a in s && b in s ensures Iou(f(a), f(b)) == Iou(a, b) {
      UnscaledKeepsIou(sw, sh, mw, mh, a, b);
    }
    GreedyCommutes(f, s, threshold);
  }

  // The final clamp

  lemma UnscaledEdge(low: real, size: real, model: real, source: real, adapter: real)
    requires model > 0.0 && source > 0.0 && adapter >= 0.0
    requires 0.0 <= low && 0.0 <= size && low + size <= adapter && adapter <= model
    ensures var s := model / source;
            s > 0.0 && 0.0 <= low / s && 0.0 <= size / s && low / s + size / s <= source
  {
    var s := model / source;
    QuotientPositive(model, source);
    QuotientMonotone(0.0, low, s);
    QuotientMonotone(0.0, size, s);
    QuotientMonotone(low + size, model, s);
    assert low / s + size / s == (low + size) / s;
    assert model == s * source;
    assert model / s == source;
  }

  lemma QuotientMonotone(a: real, b: real, s: real)
    requires a <= b && s > 0.0
    ensures a / s <= b / s
  {
    assert (b - a) / s >= 0.0;
  }

  /** When the adapter clamps to a rectangle no larger than the model's input, every mapped box
      lies in the source image and the final clamp changes nothing. */
  lemma MappedInsideSource(sw: nat, sh: nat, mw: nat, mh: nat, d: Detection, aw: real, ah: real)
    requires sw > 0 && sh > 0 && mw > 0 && mh > 0
    requires 0.0 <= aw <= mw as real && 0.0 <= ah <= mh as real && Inside(d, aw, ah)
    ensures var t := MakeStretchTransform(sw, sh, mw, mh);
            Inside(Unscaled(d, t), sw as real, sh as real) && MappedBack(d, t) == Unscaled(d, t)
  {
    UnscaledEdge(d.x, d.w, mw as real, sw as real, aw);
    UnscaledEdge(d.y, d.h, mh as real, sh as real, ah);
  }

  /** For boxes inside such a rectangle, suppression also commutes with the whole mapping, the final
      clamp included. */
  lemma SuppressionCommutesWithMapping(
    sw: nat, sh: nat, mw: nat, mh: nat, s: seq<Detection>, aw: real, ah: real, threshold: real, maxDetections: int)
    requires sw > 0 && sh > 0 && mw > 0 && mh > 0 && 0.0 <= aw <= mw as real && 0.0 <= ah <= mh as real
    requires forall d | d in s :: Inside(d, aw, ah)
    ensures var t := MakeStretchTransform(sw, sh, mw, mh);
            var f := d => MappedBack(d, t);
            Limited(Greedy(MapAll(s, f), threshold), maxDetections)
            == MapAll(Limited(Greedy(s, threshold), maxDetections), f)
  {
    hide Iou, Inside;
    var t := MakeStretchTransform(sw, sh, mw, mh);
    var f := d => MappedBack(d, t);
    forall a | a in s ensures f(a) == Unscaled(a, t) {
      MappedInsideSource(sw, sh, mw, mh, a, aw, ah);
    }
    forall a, b | a in s && b in s ensures Iou(f(a), f(b)) == Iou(a, b) {
      UnscaledKeepsIou(sw, sh, mw, mh, a, b);
    }
    GreedyCommutes(f, s, threshold);
  }

  /** Exactly then: a wider or higher adapter rectangle has a box that ends outside the source
      image, and one that the final clamp changes. */
  lemma MappedInsideSourceExactly(sw: nat, sh: nat, mw: nat, mh: nat, aw: real, ah: real)
    requires sw > 0 && sh > 0 && mw > 0 && mh > 0 && aw >= 0.0 && ah >= 0.0
    ensures (forall d | Inside(d, aw, ah) ::
               Inside(MappedBack(d, MakeStretchTransform(sw, sh, mw, mh)), sw as real, sh as real))
       <==> aw <= mw as real && ah <= mh as real
    ensures (forall d | Inside(d, aw, ah) ::
               MappedBack(d, MakeStretchTransform(sw, sh, mw, mh)) == Unscaled(d, MakeStretchTransform(sw, sh, mw, mh)))
       <==> aw <= mw as real && ah <= mh as real
    ensures (forall d | Inside(d, aw, ah) ::
               Inside(Unscaled(d, MakeStretchTransform(sw, sh, mw, mh)), sw as real, sh as real))
       <==> aw <= mw as real && ah <= mh as real
  {
    hide MappedBack, Unscaled, Inside;
    var t := MakeStretchTransform(sw, sh, mw, mh);
    if aw <= mw as real && ah <= mh as real {
      forall d | Inside(d, aw, ah)
        ensures Inside(Unscaled(d, t), sw as real, sh as real) && MappedBack(d, t) == Unscaled(d, t)
      {
        MappedInsideSource(sw, sh, mw, mh, d, aw, ah);
      }
    } else {
      var far := LeavesSource(sw, sh, mw, mh, aw, ah);
      var full := Detection(0, 0.0, 0.0, 0.0, aw, ah);
      FullLeavesSource(sw, sh, mw, mh, aw, ah);
      assert Inside(far, aw, ah) && Inside(full, aw, ah);
    }
  }

  /** A box at the far edge of the adapter rectangle, as wide (or high) as the model's input:
      clamping its position and its size separately does not bring its end back. */
  lemma LeavesSource(sw: nat, sh: nat, mw: nat, mh: nat, aw: real, ah: real) returns (far: Detection)
    requires sw > 0 && sh > 0 && mw > 0 && mh > 0 && aw >= 0.0 && ah >= 0.0
    requires aw > mw as real || ah > mh as real
    ensures Inside(far, aw, ah)
    ensures !Inside(MappedBack(far, MakeStretchTransform(sw, sh, mw, mh)), sw as real, sh as real)
  {
    if aw > mw as real {
      far := Detection(0, 0.0, aw - mw as real, 0.0, mw as real, 0.0);
      FarEdge(aw - mw as real, mw as real, sw as real);
    } else {
      far := Detection(0, 0.0, 0.0, ah - mh as real, 0.0, mh as real);
      FarEdge(ah - mh as real, mh as real, sh as real);
    }
  }

  lemma FarEdge(beyond: real, model: real, source: real)
    requires beyond > 0.0 && model > 0.0 && source > 0.0
    ensures model / source > 0.0
    ensures Clamp((beyond - 0.0) / (model / source), 0.0, source) > 0.0
    ensures Clamp(model / (model / source), 0.0, source) == source
  {
    QuotientPositive(model, source);
    QuotientPositive(beyond, model / source);
    assert model == (model / source) * source;
    assert model / (model / source) == source;
  }

  lemma FullLeavesSource(sw: nat, sh: nat, mw: nat, mh: nat, aw: real, ah: real)
    requires sw > 0 && sh > 0 && mw > 0 && mh > 0 && aw >= 0.0 && ah >= 0.0
    requires aw > mw as real || ah > mh as real
    ensures var full, t := Detection(0, 0.0, 0.0, 0.0, aw, ah), MakeStretchTransform(sw, sh, mw, mh);
            && Inside(full, aw, ah) && !Inside(Unscaled(full, t), sw as real, sh as real)
            && MappedBack(full, t) != Unscaled(full, t)
  {
    var t := MakeStretchTransform(sw, sh, mw, mh);
    StretchScalePositive(sw, sh, mw, mh);
    if aw / t.scaleX <= sw as real {
      FullEdge(aw, mw as real, sw as real);
    }
    if ah / t.scaleY <= sh as real {
      FullEdge(ah, mh as real, sh as real);
    }
  }

  lemma FullEdge(adapter: real, model: real, source: real)
    requires model > 0.0 && source > 0.0 && model / source > 0.0
    requires adapter / (model / source) <= source
    ensures adapter <= model
  {
    var s := model / source;
    var r := adapter / s;
    assert adapter == r * s;
    assert (source - r) * s >= 0.0;
    assert source * s == model;
  }

  /** Clamping a box that meets the rectangle gives their intersection. */
  lemma ClampBoxIsIntersection(d: Detection, w: real, h: real, x: real, y: real)
    requires w >= 0.0 && h >= 0.0 && d.w >= 0.0 && d.h >= 0.0
    requires d.x <= w && d.x + d.w >= 0.0 && d.y <= h && d.y + d.h >= 0.0
    ensures Contains(ClampBox(d, w, h), x, y) <==> Contains(d, x, y) && 0.0 <= x <= w && 0.0 <= y <= h
  {
  }

  /** Clamping a box that misses the rectangle leaves nothing of it. */
  lemma ClampBoxVanishes(d: Detection, w: real, h: real)
    requires w >= 0.0 && h >= 0.0 && d.w >= 0.0 && d.h >= 0.0
    requires !exists x, y :: Contains(d, x, y) && 0.0 <= x <= w && 0.0 <= y <= h
    ensures Area(ClampBox(d, w, h)) == 0.0
  {
    var x, y := RMax(d.x, 0.0), RMax(d.y, 0.0);
    assert !(Contains(d, x, y) && 0.0 <= x <= w && 0.0 <= y <= h);
  }

  lemma ClampBoxInside(d: Detection, w: real, h: real)
    requires w >= 0.0 && h >= 0.0
    ensures Inside(ClampBox(d, w, h), w, h)
    ensures Inside(d, w, h) ==> ClampBox(d, w, h) == d
  {
  }
}
