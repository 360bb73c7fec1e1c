/** From the raw output tensor of a YOLOv8 model to detections in model coordinates. */
module YoloAdapter {
  import opened Common
  import opened Sorting
  import opened Detections
  import opened Stretch

  datatype Config = Config(
    confidenceThreshold: real,
    iouThreshold: real,
    maxDetections: int,
    numClasses: int,
    inputWidth: real,
    inputHeight: real,
    normalizedCoordinates: bool)

  datatype TensorView = TensorView(data: seq<real>, shape: seq<int>)

  datatype PostprocessError = InvalidRank | UnsupportedShape | TooFewChannels

  datatype Layout = Layout(channels: int, anchors: int, channelsFirst: bool)

  datatype Output = Output(detections: seq<Detection>, confidenceSignal: real)

  // Layout

  /** Of a rank-3 shape, the axis with the expected number of channels is the channel axis, the
      first of the two when both have it; with neither, the shorter one. */
  function LayoutOf(shape: seq<int>, numClasses: int): Result<Layout, PostprocessError> {
    if |shape| < 2 then Err(InvalidRank)
    else if |shape| > 3 then Err(UnsupportedShape)
    else
      var l :=
        if |shape| == 2 then Layout(shape[0], shape[1], true)
        else if shape[1] == 4 + numClasses then Layout(shape[1], shape[2], true)
        else if shape[2] == 4 + numClasses then Layout(shape[2], shape[1], false)
        else if shape[1] <= shape[2] then Layout(shape[1], shape[2], true)
        else Layout(shape[2], shape[1], false);
      if l.channels < 5 then Err(TooFewChannels) else Ok(l)
  }

  predicate Covers(data: seq<real>, l: Layout) {
    l.anchors > 0 ==> |data| >= l.channels * l.anchors
  }

  function Index(l: Layout, c: nat, a: nat): (i: int)
    requires c < l.channels && a < l.anchors
    ensures 0 <= i < l.channels * l.anchors
  {
    RowMajor(c, l.channels, a, l.anchors);
    RowMajor(a, l.anchors, c, l.channels);
    if l.channelsFirst then c * l.anchors + a else a * l.channels + c
  }

  /** Every cell of the tensor belongs to exactly one channel and anchor: row by row when channels
      come first, column by column when they come last. */
  lemma IndexInverts(l: Layout, c: nat, a: nat)
    requires c < l.channels && a < l.anchors
    ensures l.channelsFirst ==> Index(l, c, a) / l.anchors == c && Index(l, c, a) % l.anchors == a
    ensures !l.channelsFirst ==> Index(l, c, a) / l.channels == a && Index(l, c, a) % l.channels == c
  {
    DivMod(c, a, l.anchors);
    DivMod(a, c, l.channels);
  }

  /** The cells are consecutive in the tensor's data. */
  lemma AtIsCell(data: seq<real>, l: Layout, c: nat, a: nat)
    requires Covers(data, l) && c < l.channels && a < l.anchors
    ensures var i := if l.channelsFirst then c * l.anchors + a else a * l.channels + c;
            0 <= i < |data| && At(data, l, c, a) == data[i]
  {
    RowMajor(c, l.channels, a, l.anchors);
    RowMajor(a, l.anchors, c, l.channels);
  }

  function At(data: seq<real>, l: Layout, c: nat, a: nat): real
    requires Covers(data, l) && c < l.channels && a < l.anchors
  {
    data[Index(l, c, a)]
  }

  // One anchor

  function ClassScore(data: seq<real>, l: Layout, a: nat, c: nat): real
    requires Covers(data, l) && a < l.anchors && 4 + c < l.channels
  {
    At(data, l, 4 + c, a)
  }

  datatype Choice = Choice(score: real, classId: int)

  /** The best of the first `n` classes: scores have to be positive, and the first of equal ones
      wins. */
  function BestClass(data: seq<real>, l: Layout, a: nat, n: nat): Choice
    requires Covers(data, l) && a < l.anchors && 4 + n <= l.channels
  {
    if n == 0 then Choice(0.0, 0)
    else
      var best := BestClass(data, l, a, n - 1);
      var s := ClassScore(data, l, a, n - 1);
      if s > best.score then Choice(s, n - 1) else best
  }

  /** The chosen score is the greatest class score or zero, and it belongs to the first class
      that reaches it. */
  lemma {:induction false} BestClassIsFirstMaximum(data: seq<real>, l: Layout, a: nat, n: nat)
    requires Covers(data, l) && a < l.anchors && 4 + n <= l.channels
    ensures var best := BestClass(data, l, a, n);
            && best.score >= 0.0
            && (forall c | 4 <= c < 4 + n :: At(data, l, c, a) <= best.score)
            && (best.score == 0.0 ==> best.classId == 0)
            && (best.score > 0.0 ==>
                  && 0 <= best.classId < n && At(data, l, 4 + best.classId, a) == best.score
                  && forall c | 4 <= c < 4 + best.classId :: At(data, l, c, a) < best.score)
  {
    if n > 0 {
      BestClassIsFirstMaximum(data, l, a, n - 1);
    }
  }

  /** The model emits centres; a detection holds the top-left corner. */
  function CentredBox(cx: real, cy: real, w: real, h: real): Detection {
    Detection(0, 0.0, cx - w * 0.5, cy - h * 0.5, w, h)
  }

  function InPixels(cfg: Config, v: real, size: real): real {
    if cfg.normalizedCoordinates then v * size else v
  }

  function BoxOf(cfg: Config, cx: real, cy: real, w: real, h: real): Detection {
    var mw, mh := RMax(1.0, cfg.inputWidth), RMax(1.0, cfg.inputHeight);
    ClampBox(CentredBox(InPixels(cfg, cx, mw), InPixels(cfg, cy, mh), InPixels(cfg, w, mw), InPixels(cfg, h, mh)), mw, mh)
  }

  function Decoded(cfg: Config, data: seq<real>, l: Layout, a: nat): Detection
    requires Covers(data, l) && a < l.anchors && l.channels >= 5
  {
    var best := BestClass(data, l, a, l.channels - 4);
    BoxOf(cfg, At(data, l, 0, a), At(data, l, 1, a), At(data, l, 2, a), At(data, l, 3, a))
      .(score := best.score, classId := best.classId)
  }

  /** The detections of the first `n` anchors that reach the confidence threshold. */
  function Candidates(cfg: Config, data: seq<real>, l: Layout, n: nat): seq<Detection>
    requires Covers(data, l) && l.channels >= 5 && (n > 0 ==> n <= l.anchors)
  {
    if n == 0 then []
    else
      var d := Decoded(cfg, data, l, n - 1);
      Candidates(cfg, data, l, n - 1) + if d.score < cfg.confidenceThreshold then [] else [d]
  }

  // The whole adapter

  method BestClassOf(data: seq<real>, l: Layout, a: nat) returns (best: Choice)
    requires Covers(data, l) && a < l.anchors && l.channels >= 5
    ensures best == BestClass(data, l, a, l.channels - 4)
  {
    best := Choice(0.0, 0);
    for c := 0 to l.channels - 4
      invariant best == BestClass(data, l, a, c)
    {
      var s := ClassScore(data, l, a, c);
      if s > best.score {
        best := Choice(s, c);
      }
    }
  }

  /** The data must cover the declared shape, as the tensors of the session do. The
      result is the greedy suppression of a score-sorted permutation of the candidates. */
  method Postprocess(cfg: Config, output: TensorView) returns (r: Result<Output, PostprocessError>)
    requires LayoutOf(output.shape, cfg.numClasses).Ok? ==>
               Covers(output.data, LayoutOf(output.shape, cfg.numClasses).value)
    ensures r.Ok? <==> LayoutOf(output.shape, cfg.numClasses).Ok?
    ensures r.Err? ==> LayoutOf(output.shape, cfg.numClasses) == Err(r.error)
    ensures r.Ok? ==>
              var l := LayoutOf(output.shape, cfg.numClasses).value;
              exists sorted: seq<Detection> | SortedVersion(Candidates(cfg, output.data, l, Max(0, l.anchors)), sorted) ::
              && r.value.detections == Limited(Greedy(sorted, cfg.iouThreshold), cfg.maxDetections)
              && r.value.confidenceSignal == (if sorted == [] then 0.0 else sorted[0].score)
  {
    if |output.shape| < 2 {
      return Err(InvalidRank);
    }
    var channels, anchors, channelsFirst := output.shape[0], output.shape[1], true;
    if |output.shape| == 3 {
      var expected := 4 + cfg.numClasses;
      if output.shape[1] == expected {
        channels, anchors, channelsFirst := output.shape[1], output.shape[2], true;
      } else if output.shape[2] == expected {
        anchors, channels, channelsFirst := output.shape[1], output.shape[2], false;
      } else if output.shape[1] <= output.shape[2] {
        channels, anchors, channelsFirst := output.shape[1], output.shape[2], true;
      } else {
        anchors, channels, channelsFirst := output.shape[1], output.shape[2], false;
      }
    } else if |output.shape| != 2 {
      return Err(UnsupportedShape);
    }
    if channels < 5 {
      return Err(TooFewChannels);
    }
    var l := Layout(channels, anchors, channelsFirst);
    var dets := CollectCandidates(cfg, output.data, l);
    var keep := Nms(dets, cfg.iouThreshold, cfg.maxDetections);
    r := Ok(Output(keep, if keep == [] then 0.0 else keep[0].score));
  }

  method DecodeBox(cfg: Config, centreX: real, centreY: real, width: real, height: real) returns (d: Detection)
    ensures d == BoxOf(cfg, centreX, centreY, width, height)
  {
    hide CentredBox, ClampBox, InPixels;
    var modelW, modelH := RMax(1.0, cfg.inputWidth), RMax(1.0, cfg.inputHeight);
    var cx, cy := InPixels(cfg, centreX, modelW), InPixels(cfg, centreY, modelH);
    var w, h := InPixels(cfg, width, modelW), InPixels(cfg, height, modelH);
    d := CentredBox(cx, cy, w, h);
    d := ClampBox(d, modelW, modelH);
  }

  method CollectCandidates(cfg: Config, data: seq<real>, l: Layout) returns (dets: seq<Detection>)
    requires Covers(data, l) && l.channels >= 5
    ensures dets == Candidates(cfg, data, l, Max(0, l.anchors))
  {
    hide At, BoxOf, BestClass;
    dets := [];
    var a := 0;
    while a < l.anchors
      invariant 0 <= a <= Max(0, l.anchors)
      invariant dets == Candidates(cfg, data, l, a)
    {
      var best := BestClassOf(data, l, a);
      if !(best.score < cfg.confidenceThreshold) {
        var d := DecodeBox(cfg, At(data, l, 0, a), At(data, l, 1, a), At(data, l, 2, a), At(data, l, 3, a));
        dets := dets + [d.(score := best.score, classId := best.classId)];
      }
      a := a + 1;
    }
  }

  /** Every candidate lies in the model rectangle and reaches the confidence threshold. */
  lemma {:induction false} CandidatesInside(cfg: Config, data: seq<real>, l: Layout, n: nat)
    requires Covers(data, l) && l.channels >= 5 && (n > 0 ==> n <= l.anchors)
    ensures forall d | d in Candidates(cfg, data, l, n) ::
              && Inside(d, RMax(1.0, cfg.inputWidth), RMax(1.0, cfg.inputHeight))
              && d.score >= cfg.confidenceThreshold && d.score >= 0.0
  {
    hide Decoded, Inside;
    if n > 0 {
      CandidatesInside(cfg, data, l, n - 1);
      DecodedInside(cfg, data, l, n - 1);
    }
  }

  lemma DecodedInside(cfg: Config, data: seq<real>, l: Layout, a: nat)
    requires Covers(data, l) && l.channels >= 5 && a < l.anchors
    ensures Inside(Decoded(cfg, data, l, a), RMax(1.0, cfg.inputWidth), RMax(1.0, cfg.inputHeight))
    ensures Decoded(cfg, data, l, a).score >= 0.0
  {
    var mw, mh := RMax(1.0, cfg.inputWidth), RMax(1.0, cfg.inputHeight);
    BestClassIsFirstMaximum(data, l, a, l.channels - 4);
    BoxInside(cfg, At(data, l, 0, a), At(data, l, 1, a), At(data, l, 2, a), At(data, l, 3, a));
  }

  lemma BoxInside(cfg: Config, cx: real, cy: real, w: real, h: real)
    ensures Inside(BoxOf(cfg, cx, cy, w, h), RMax(1.0, cfg.inputWidth), RMax(1.0, cfg.inputHeight))
  {
    var mw, mh := RMax(1.0, cfg.inputWidth), RMax(1.0, cfg.inputHeight);
    ClampBoxInside(CentredBox(InPixels(cfg, cx, mw), InPixels(cfg, cy, mh), InPixels(cfg, w, mw), InPixels(cfg, h, mh)),
                   mw, mh);
  }

  /** A box that needs no clamping keeps the centre and the size that the model emitted, taken as
      pixels or, when they are normalised, as shares of the model's input. */
  lemma BoxKeepsCentre(cfg: Config, cx: real, cy: real, w: real, h: real, sx: real, sy: real)
    requires sx == (if cfg.normalizedCoordinates then RMax(1.0, cfg.inputWidth) else 1.0)
    requires sy == (if cfg.normalizedCoordinates then RMax(1.0, cfg.inputHeight) else 1.0)
    requires Inside(Detection(0, 0.0, cx * sx - w * sx / 2.0, cy * sy - h * sy / 2.0, w * sx, h * sy),
                    RMax(1.0, cfg.inputWidth), RMax(1.0, cfg.inputHeight))
    ensures BoxOf(cfg, cx, cy, w, h)
         == Detection(0, 0.0, cx * sx - w * sx / 2.0, cy * sy - h * sy / 2.0, w * sx, h * sy)
  {
    hide ClampBox;
    var mw, mh := RMax(1.0, cfg.inputWidth), RMax(1.0, cfg.inputHeight);
    var d := CentredBox(InPixels(cfg, cx, mw), InPixels(cfg, cy, mh), InPixels(cfg, w, mw), InPixels(cfg, h, mh));
    PixelScale(cfg, cx, mw, sx);
    PixelScale(cfg, cy, mh, sy);
    PixelScale(cfg, w, mw, sx);
    PixelScale(cfg, h, mh, sy);
    assert d == Detection(0, 0.0, cx * sx - w * sx / 2.0, cy * sy - h * sy / 2.0, w * sx, h * sy);
    ClampBoxInside(d, mw, mh);
  }

  lemma PixelScale(cfg: Config, v: real, size: real, s: real)
    requires s == if cfg.normalizedCoordinates then size else 1.0
    ensures InPixels(cfg, v, size) == v * s
  {
  }

  /** A decoded anchor takes its box from the first four channels and its class from the rest. */
  lemma DecodedExactly(cfg: Config, data: seq<real>, l: Layout, a: nat)
    requires Covers(data, l) && a < l.anchors && l.channels >= 5
    ensures var d := Decoded(cfg, data, l, a);
            var best := BestClass(data, l, a, l.channels - 4);
            && d.score == best.score && d.classId == best.classId
            && d.(score := 0.0, classId := 0)
               == BoxOf(cfg, At(data, l, 0, a), At(data, l, 1, a), At(data, l, 2, a), At(data, l, 3, a))
  {
    hide BestClass, InPixels, At, Clamp;
  }

  /** Exactly the anchors that reach the threshold become candidates, in their order. */
  lemma {:induction false} CandidatesExactly(cfg: Config, data: seq<real>, l: Layout, n: nat, d: Detection)
    requires Covers(data, l) && l.channels >= 5 && (n > 0 ==> n <= l.anchors)
    ensures d in Candidates(cfg, data, l, n) <==>
            exists a: nat | a < n :: Decoded(cfg, data, l, a) == d && d.score >= cfg.confidenceThreshold
    ensures |Candidates(cfg, data, l, n)| <= n
    ensures n > 0 ==> Candidates(cfg, data, l, n - 1) <= Candidates(cfg, data, l, n)
  {
    hide Decoded;
    if n > 0 {
      CandidatesExactly(cfg, data, l, n - 1, d);
    }
  }

  // From the candidates to the source image

  lemma {:induction false} SurvivorsAreMembers(s: seq<Detection>, threshold: real, d: Detection)
    requires d in Survivors(s, threshold)
    ensures d in s
  {
    if d !in Survivors(s[..|s| - 1], threshold) {
      assert d == s[|s| - 1];
    } else {
      SurvivorsAreMembers(s[..|s| - 1], threshold, d);
    }
  }

  lemma SelectedAreMembers(dets: seq<Detection>, sorted: seq<Detection>, threshold: real, maxDetections: int, d: Detection)
    requires SortedVersion(dets, sorted) && d in Limited(Greedy(sorted, threshold), maxDetections)
    ensures d in dets
  {
    hide Greedy, Survivors;
    SurvivorsAreGreedy(sorted, threshold);
    SurvivorsAreMembers(sorted, threshold, d);
    assert d in multiset(sorted);
  }

  /** If the adapter's rectangle does not exceed the preprocessing size, every detection the
      adapter returns is mapped into the source image, and the final clamp leaves it alone. */
  lemma DetectionsMappedInside(cfg: Config, data: seq<real>, l: Layout, sorted: seq<Detection>, d: Detection,
                               sw: nat, sh: nat, mw: nat, mh: nat)
    requires Covers(data, l) && l.channels >= 5
    requires SortedVersion(Candidates(cfg, data, l, Max(0, l.anchors)), sorted)
    requires d in Limited(Greedy(sorted, cfg.iouThreshold), cfg.maxDetections)
    requires sw > 0 && sh > 0 && mw > 0 && mh > 0
    requires RMax(1.0, cfg.inputWidth) <= mw as real && RMax(1.0, cfg.inputHeight) <= mh as real
    ensures var t := MakeStretchTransform(sw, sh, mw, mh);
            Inside(MappedBack(d, t), sw as real, sh as real) && MappedBack(d, t) == Unscaled(d, t)
  {
    hide Candidates, Greedy, Limited, Inside, MappedBack, Unscaled, SortedVersion;
    var dets := Candidates(cfg, data, l, Max(0, l.anchors));
    SelectedAreMembers(dets, sorted, cfg.iouThreshold, cfg.maxDetections, d);
    CandidatesInside(cfg, data, l, Max(0, l.anchors));
    MappedInsideSource(sw, sh, mw, mh, d, RMax(1.0, cfg.inputWidth), RMax(1.0, cfg.inputHeight));
  }

  // The two layouts

  ghost predicate Transposed(data: seq<real>, l: Layout, other: seq<real>, m: Layout) {
    && l.channels == m.channels && l.anchors == m.anchors && Covers(data, l) && Covers(other, m)
    && forall c: nat, a: nat | c < l.channels && a < l.anchors :: At(data, l, c, a) == At(other, m, c, a)
  }

  lemma {:induction false} SameBestClass(data: seq<real>, l: Layout, other: seq<real>, m: Layout, a: nat, n: nat)
    requires Transposed(data, l, other, m) && a < l.anchors && 4 + n <= l.channels
    ensures BestClass(data, l, a, n) == BestClass(other, m, a, n)
  {
    if n > 0 {
      SameBestClass(data, l, other, m, a, n - 1);
    }
  }

  /** A tensor and its transpose, each read in its own layout, give the same candidates. */
  lemma {:induction false} LayoutsAgree(cfg: Config, data: seq<real>, l: Layout, other: seq<real>, m: Layout, n: nat)
    requires Transposed(data, l, other, m) && l.channels >= 5 && (n > 0 ==> n <= l.anchors)
    ensures Candidates(cfg, data, l, n) == Candidates(cfg, other, m, n)
  {
    if n > 0 {
      LayoutsAgree(cfg, data, l, other, m, n - 1);
      SameBestClass(data, l, other, m, n - 1, l.channels - 4);
    }
  }

  /** The layout of every shape: two axes are channels and anchors; of three the first is ignored and
      the channel axis is the one of the expected size, or else the shorter one. */
  lemma LayoutExactly(shape: seq<int>, numClasses: int)
    ensures var r := LayoutOf(shape, numClasses);
            && (|shape| < 2 ==> r == Err(InvalidRank))
            && (|shape| > 3 ==> r == Err(UnsupportedShape))
            && (|shape| == 2 ==> r == if shape[0] < 5 then Err(TooFewChannels) else Ok(Layout(shape[0], shape[1], true)))
            && (|shape| == 3 ==>
                  var first := shape[1] == 4 + numClasses || (shape[2] != 4 + numClasses && shape[1] <= shape[2]);
                  r == if first && shape[1] >= 5 then Ok(Layout(shape[1], shape[2], true))
                       else if !first && shape[2] >= 5 then Ok(Layout(shape[2], shape[1], false))
                       else Err(TooFewChannels))
  {
  }

  /** With the expected number of channels, the channels-first form is always recognised, and the
      channels-last form is recognised exactly when the number of anchors differs from it. */
  lemma LayoutRecognised(batch: int, anchors: int, numClasses: int)
    requires numClasses >= 1
    ensures LayoutOf([batch, 4 + numClasses, anchors], numClasses) == Ok(Layout(4 + numClasses, anchors, true))
    ensures LayoutOf([batch, anchors, 4 + numClasses], numClasses) == Ok(Layout(4 + numClasses, anchors, false))
       <==> anchors != 4 + numClasses
  {
  }
}
