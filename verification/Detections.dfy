/** Boxes, their overlap, and greedy non-maximum suppression per class. */
module Detections {
  import opened Common
  import opened Sorting

  /** `x` and `y` are the top-left corner. */
  datatype Detection = Detection(classId: int, score: real, x: real, y: real, w: real, h: real)

  // Overlap

  function Overlap(aLow: real, aHigh: real, bLow: real, bHigh: real): real {
    RMax(0.0, RMin(aHigh, bHigh) - RMax(aLow, bLow))
  }

  function Intersection(a: Detection, b: Detection): real {
    Overlap(a.x, a.x + a.w, b.x, b.x + b.w) * Overlap(a.y, a.y + a.h, b.y, b.y + b.h)
  }

  function Area(d: Detection): real {
    d.w * d.h
  }

  function Ratio(part: real, whole: real): real {
    if whole > 0.0 then part / whole else 0.0
  }

  function Iou(a: Detection, b: Detection): real {
    var inter := Intersection(a, b);
    Ratio(inter, Area(a) + Area(b) - inter)
  }

  predicate Suppresses(a: Detection, b: Detection, threshold: real) {
    a.classId == b.classId && Iou(a, b) > threshold
  }

  // The specification of suppression

  /** What is left of `s` once the boxes that `d` suppresses are gone. */
  function Unsuppressed(d: Detection, s: seq<Detection>, threshold: real): (r: seq<Detection>)
    ensures |r| <= |s|
  {
    if s == [] then []
    else if Suppresses(d, s[0], threshold) then Unsuppressed(d, s[1..], threshold)
    else [s[0]] + Unsuppressed(d, s[1..], threshold)
  }

  /** Keep the first box, drop what it suppresses, go on with the rest. */
  function Greedy(s: seq<Detection>, threshold: real): seq<Detection>
    decreases |s|
  {
    if s == [] then [] else [s[0]] + Greedy(Unsuppressed(s[0], s[1..], threshold), threshold)
  }

  /** A limit takes effect only after a box was kept, so a limit of zero still keeps one. */
  function Limited(s: seq<Detection>, maxDetections: int): seq<Detection> {
    if maxDetections < 0 || |s| <= Max(1, maxDetections) then s else s[..Max(1, maxDetections)]
  }

  // Suppression from left to right

  predicate SuppressedBy(kept: seq<Detection>, d: Detection, threshold: real) {
    exists i | 0 <= i < |kept| :: Suppresses(kept[i], d, threshold)
  }

  function Survivors(s: seq<Detection>, threshold: real): (r: seq<Detection>)
    ensures |r| <= |s|
  {
    if s == [] then []
    else
      var kept := Survivors(s[..|s| - 1], threshold);
      if SuppressedBy(kept, s[|s| - 1], threshold) then kept else kept + [s[|s| - 1]]
  }

  function UnsuppressedByAll(kept: seq<Detection>, s: seq<Detection>, threshold: real): seq<Detection> {
    if s == [] then []
    else if SuppressedBy(kept, s[0], threshold) then UnsuppressedByAll(kept, s[1..], threshold)
    else [s[0]] + UnsuppressedByAll(kept, s[1..], threshold)
  }

  lemma {:induction false} UnsuppressedStep(kept: seq<Detection>, d: Detection, s: seq<Detection>, threshold: real)
    ensures Unsuppressed(d, UnsuppressedByAll(kept, s, threshold), threshold) == UnsuppressedByAll(kept + [d], s, threshold)
  {
    if s != [] {
      UnsuppressedStep(kept, d, s[1..], threshold);
      var longer := kept + [d];
      assert longer[|kept|] == d && forall i | 0 <= i < |kept| :: longer[i] == kept[i];
      assert SuppressedBy(longer, s[0], threshold) <==> SuppressedBy(kept, s[0], threshold) || Suppresses(d, s[0], threshold);
    }
  }

  lemma {:induction false} GreedyContinues(done: seq<Detection>, s: seq<Detection>, threshold: real)
    ensures Survivors(done + s, threshold)
         == Survivors(done, threshold) + Greedy(UnsuppressedByAll(Survivors(done, threshold), s, threshold), threshold)
    decreases |s|
  {
    hide SuppressedBy, Suppresses;
    if s == [] {
      assert done + s == done;
    } else {
      var kept := Survivors(done, threshold);
      var next := done + [s[0]];
      assert next[..|next| - 1] == done;
      assert done + s == next + s[1..];
      GreedyContinues(next, s[1..], threshold);
      UnsuppressedStep(kept, s[0], s[1..], threshold);
    }
  }

  lemma {:induction false} NothingSuppresses(s: seq<Detection>, threshold: real)
    ensures UnsuppressedByAll([], s, threshold) == s
  {
    if s != [] {
      NothingSuppresses(s[1..], threshold);
    }
  }

  /** Deciding box by box from left to right gives the recursive specification. */
  lemma SurvivorsAreGreedy(s: seq<Detection>, threshold: real)
    ensures Survivors(s, threshold) == Greedy(s, threshold)
  {
    GreedyContinues([], s, threshold);
    NothingSuppresses(s, threshold);
    assert [] + s == s;
  }

  // Properties of suppression

  ghost predicate NoneSuppressed(kept: seq<Detection>, threshold: real) {
    forall i, j | 0 <= i < j < |kept| :: !Suppresses(kept[i], kept[j], threshold)
  }

  lemma {:induction false} SurvivorsDisjoint(s: seq<Detection>, threshold: real)
    ensures NoneSuppressed(Survivors(s, threshold), threshold)
  {
    if s != [] {
      var kept, d := Survivors(s[..|s| - 1], threshold), s[|s| - 1];
      SurvivorsDisjoint(s[..|s| - 1], threshold);
      if !SuppressedBy(kept, d, threshold) {
        forall i, j | 0 <= i < j < |kept + [d]| ensures !Suppresses((kept + [d])[i], (kept + [d])[j], threshold) {
          assert (kept + [d])[i] == kept[i];
        }
      }
    }
  }

  /** Two kept boxes of one class never overlap above the threshold: the area of their common part
      is at most that share of the area they cover together. */
  lemma KeptBoxesDisjoint(s: seq<Detection>, threshold: real, i: nat, j: nat)
    requires i < |Greedy(s, threshold)| && j < |Greedy(s, threshold)| && i != j
    requires Greedy(s, threshold)[i].classId == Greedy(s, threshold)[j].classId
    ensures var a, b := Greedy(s, threshold)[i], Greedy(s, threshold)[j];
            && Iou(a, b) <= threshold
            && forall r | IsCommonPart(r, a, b) && UnionArea(r, a, b) > 0.0 ::
                 (r.w * r.h) / UnionArea(r, a, b) <= threshold
  {
    SurvivorsAreGreedy(s, threshold);
    SurvivorsDisjoint(s, threshold);
    var k := Survivors(s, threshold);
    IouSymmetric(k[i], k[j]);
    assert !Suppresses(k[Min(i, j)], k[Max(i, j)], threshold);
    forall r | IsCommonPart(r, k[i], k[j]) && UnionArea(r, k[i], k[j]) > 0.0
      ensures (r.w * r.h) / UnionArea(r, k[i], k[j]) <= threshold
    {
      IouIsAreaRatio(k[i], k[j], r);
    }
  }

  /** Each box in turn is either kept or suppressed by a box of its class kept before it. */
  lemma KeptOrSuppressed(s: seq<Detection>, threshold: real, i: nat)
    requires i < |s|
    ensures var before, after := Greedy(s[..i], threshold), Greedy(s[..i + 1], threshold);
            if exists k | 0 <= k < |before| :: before[k].classId == s[i].classId && Iou(before[k], s[i]) > threshold
            then after == before else after == before + [s[i]]
  {
    SurvivorsAreGreedy(s[..i], threshold);
    SurvivorsAreGreedy(s[..i + 1], threshold);
    assert s[..i + 1][..i] == s[..i];
    var before := Survivors(s[..i], threshold);
    assert SuppressedBy(before, s[i], threshold) <==>
           exists k | 0 <= k < |before| :: before[k].classId == s[i].classId && Iou(before[k], s[i]) > threshold;
  }

  lemma {:induction false} SurvivorsGrow(s: seq<Detection>, threshold: real, i: nat)
    requires i <= |s|
    ensures Survivors(s[..i], threshold) <= Survivors(s, threshold)
  {
    if i == |s| {
      assert s[..i] == s;
    } else {
      SurvivorsGrow(s[..|s| - 1], threshold, i);
      assert s[..|s| - 1][..i] == s[..i];
    }
  }

  function OfClass(s: seq<Detection>, classId: int): seq<Detection> {
    if s == [] then []
    else OfClass(s[..|s| - 1], classId) + if s[|s| - 1].classId == classId then [s[|s| - 1]] else []
  }

  lemma {:induction false} OfClassAppend(s: seq<Detection>, d: Detection, classId: int)
    ensures OfClass(s + [d], classId) == OfClass(s, classId) + if d.classId == classId then [d] else []
  {
    assert (s + [d])[..|s|] == s;
  }

  lemma {:induction false} OfClassMember(s: seq<Detection>, classId: int, d: Detection)
    ensures d in OfClass(s, classId) <==> d in s && d.classId == classId
  {
    if s != [] {
      OfClassMember(s[..|s| - 1], classId, d);
      assert s == s[..|s| - 1] + [s[|s| - 1]];
    }
  }

  lemma SuppressionWithinClass(kept: seq<Detection>, d: Detection, threshold: real)
    ensures SuppressedBy(kept, d, threshold) <==> SuppressedBy(OfClass(kept, d.classId), d, threshold)
  {
    var own := OfClass(kept, d.classId);
    if SuppressedBy(kept, d, threshold) {
      var i :| 0 <= i < |kept| && Suppresses(kept[i], d, threshold);
      OfClassMember(kept, d.classId, kept[i]);
      var j :| 0 <= j < |own| && own[j] == kept[i];
      assert Suppresses(own[j], d, threshold);
    }
    if SuppressedBy(own, d, threshold) {
      var j :| 0 <= j < |own| && Suppresses(own[j], d, threshold);
      OfClassMember(kept, d.classId, own[j]);
      var i :| 0 <= i < |kept| && kept[i] == own[j];
      assert Suppresses(kept[i], d, threshold);
    }
  }

  lemma {:induction false} SurvivorsByClass(s: seq<Detection>, threshold: real, classId: int)
    ensures OfClass(Survivors(s, threshold), classId) == Survivors(OfClass(s, classId), threshold)
  {
    if s != [] {
      var before, d := s[..|s| - 1], s[|s| - 1];
      SurvivorsByClass(before, threshold, classId);
      var kept := Survivors(before, threshold);
      OfClassAppend(kept, d, classId);
      if d.classId == classId {
        SuppressionWithinClass(kept, d, threshold);
        var own := OfClass(before, classId);
        assert OfClass(s, classId) == own + [d] && (own + [d])[..|own|] == own;
      } else {
        assert OfClass(s, classId) == OfClass(before, classId);
        assert OfClass(kept + [d], classId) == OfClass(kept, classId);
      }
    }
  }

  /** Without a limit, what is kept of a class depends on the boxes of that class alone. */
  lemma ClassesIndependent(s: seq<Detection>, threshold: real, classId: int)
    ensures OfClass(Greedy(s, threshold), classId) == Greedy(OfClass(s, classId), threshold)
  {
    SurvivorsAreGreedy(s, threshold);
    SurvivorsAreGreedy(OfClass(s, classId), threshold);
    SurvivorsByClass(s, threshold, classId);
  }

  /** The limit cuts off a tail and nothing else. */
  lemma LimitedIsPrefix(s: seq<Detection>, maxDetections: int)
    ensures var r := Limited(s, maxDetections);
            && r <= s
            && |r| == if maxDetections < 0 then |s| else if maxDetections == 0 then Min(1, |s|) else Min(maxDetections, |s|)
  {
  }

  // The algorithm with its array of flags

  function ScoreNotLess(a: Detection, b: Detection): bool {
    a.score >= b.score
  }

  /** The library sort may order equal scores either way; only this much is used of it. */
  ghost predicate SortedVersion(dets: seq<Detection>, sorted: seq<Detection>) {
    && multiset(sorted) == multiset(dets) && |sorted| == |dets|
    && forall i, j | 0 <= i < j < |sorted| :: sorted[i].score >= sorted[j].score
  }

  method SortByScore(dets: seq<Detection>) returns (sorted: seq<Detection>)
    ensures SortedVersion(dets, sorted)
  {
    SortSorts(dets, ScoreNotLess);
    sorted := Sort(dets, ScoreNotLess);
    forall i, j | 0 <= i < j < |sorted| ensures sorted[i].score >= sorted[j].score {
      assert ScoreNotLess(sorted[i], sorted[j]);
    }
  }

  /** The result is the greedy selection from some score-sorted permutation of the input, cut at
      the limit. */
  method Nms(dets: seq<Detection>, threshold: real, maxDetections: int) returns (keep: seq<Detection>)
    ensures exists sorted | SortedVersion(dets, sorted) :: keep == Limited(Greedy(sorted, threshold), maxDetections)
  {
    var s := SortByScore(dets);
    keep := NmsSorted(s, threshold, maxDetections);
    SurvivorsAreGreedy(s, threshold);
  }

  method NmsSorted(s: seq<Detection>, threshold: real, maxDetections: int) returns (keep: seq<Detection>)
    ensures keep == Limited(Survivors(s, threshold), maxDetections)
  {
    hide SuppressedBy, Survivors;
    keep := [];
    EmptySuppressesNothing(s, threshold);
    var removed := new bool[|s|](_ => false);
    for i := 0 to |s|
      invariant keep == Survivors(s[..i], threshold)
      invariant i == 0 ==> keep == []
      invariant maxDetections >= 0 && keep != [] ==> |keep| < maxDetections
      invariant forall j | i <= j < |s| :: removed[j] <==> SuppressedBy(keep, s[j], threshold)
    {
      SurvivorsStep(s, threshold, i);
      if !removed[i] {
        ghost var before := keep;
        keep := keep + [s[i]];
        if maxDetections >= 0 && |keep| >= maxDetections {
          LimitReached(s, threshold, i + 1, maxDetections);
          return;
        }
        MarkSuppressed(s, i, threshold, removed, before);
      }
    }
    assert s[..|s|] == s;
  }

  lemma SurvivorsStep(s: seq<Detection>, threshold: real, i: nat)
    requires i < |s|
    ensures var kept := Survivors(s[..i], threshold);
            Survivors(s[..i + 1], threshold) == if SuppressedBy(kept, s[i], threshold) then kept else kept + [s[i]]
  {
    assert s[..i + 1][..i] == s[..i];
  }

  lemma LimitReached(s: seq<Detection>, threshold: real, i: nat, maxDetections: int)
    requires i <= |s| && maxDetections >= 0
    requires |Survivors(s[..i], threshold)| == Max(1, maxDetections)
    ensures Survivors(s[..i], threshold) == Limited(Survivors(s, threshold), maxDetections)
  {
    SurvivorsGrow(s, threshold, i);
  }

  lemma EmptySuppressesNothing(s: seq<Detection>, threshold: real)
    ensures forall j | 0 <= j < |s| :: !SuppressedBy([], s[j], threshold)
  {
  }

  /** Flags the later boxes that box `i` suppresses. */
  method MarkSuppressed(s: seq<Detection>, i: nat, threshold: real, removed: array<bool>, ghost before: seq<Detection>)
    requires i < |s| == removed.Length
    requires forall m | i < m < |s| :: removed[m] <==> SuppressedBy(before, s[m], threshold)
    modifies removed
    ensures forall m | i < m < |s| :: removed[m] <==> SuppressedBy(before + [s[i]], s[m], threshold)
  {
    for j := i + 1 to |s|
      invariant forall m | i < m < j :: removed[m] <==> SuppressedBy(before + [s[i]], s[m], threshold)
      invariant forall m | j <= m < |s| :: removed[m] <==> SuppressedBy(before, s[m], threshold)
    {
      SuppressedByAppend(before, s[i], s[j], threshold);
      if !removed[j] && s[i].classId == s[j].classId && Iou(s[i], s[j]) > threshold {
        removed[j] := true;
      }
    }
  }

  lemma SuppressedByAppend(kept: seq<Detection>, k: Detection, d: Detection, threshold: real)
    ensures SuppressedBy(kept + [k], d, threshold) <==> SuppressedBy(kept, d, threshold) || Suppresses(k, d, threshold)
  {
    var longer := kept + [k];
    assert longer[|kept|] == k && forall i | 0 <= i < |kept| :: longer[i] == kept[i];
  }

  // What the overlap ratio measures

  predicate Contains(d: Detection, x: real, y: real) {
    d.x <= x <= d.x + d.w && d.y <= y <= d.y + d.h
  }

  /** The box `r` has exactly the points that lie in both boxes, and there are some. */
  ghost predicate IsCommonPart(r: Detection, a: Detection, b: Detection) {
    && r.w >= 0.0 && r.h >= 0.0
    && forall x: real, y: real :: Contains(r, x, y) <==> Contains(a, x, y) && Contains(b, x, y)
  }

  /** The area that two boxes cover together when `r` is their common part. */
  function UnionArea(r: Detection, a: Detection, b: Detection): real {
    a.w * a.h + b.w * b.h - r.w * r.h
  }

  lemma CommonPartIsOverlap(a: Detection, b: Detection, r: Detection)
    requires IsCommonPart(r, a, b)
    ensures Overlap(a.x, a.x + a.w, b.x, b.x + b.w) == r.w
    ensures Overlap(a.y, a.y + a.h, b.y, b.y + b.h) == r.h
  {
    assert Contains(r, r.x, r.y) && Contains(r, r.x + r.w, r.y + r.h);
    assert Contains(r, RMax(a.x, b.x), RMax(a.y, b.y));
    assert Contains(r, RMin(a.x + a.w, b.x + b.w), RMin(a.y + a.h, b.y + b.h));
  }

  /** The ratio is the area of the common part over the area covered together. */
  lemma IouIsAreaRatio(a: Detection, b: Detection, r: Detection)
    requires IsCommonPart(r, a, b) && UnionArea(r, a, b) > 0.0
    ensures Iou(a, b) == (r.w * r.h) / UnionArea(r, a, b)
  {
    hide Overlap, IsCommonPart;
    CommonPartIsOverlap(a, b, r);
  }

  /** Boxes without a common point have ratio zero. */
  lemma IouOfDisjoint(a: Detection, b: Detection)
    requires !exists x: real, y: real :: Contains(a, x, y) && Contains(b, x, y)
    ensures Iou(a, b) == 0.0
  {
    var x, y := RMax(a.x, b.x), RMax(a.y, b.y);
    assert !(Contains(a, x, y) && Contains(b, x, y));
    assert Intersection(a, b) == 0.0;
  }

  /** So have boxes that cover no area. */
  lemma IouOfNothing(a: Detection, b: Detection, r: Detection)
    requires IsCommonPart(r, a, b) && UnionArea(r, a, b) <= 0.0
    ensures Iou(a, b) == 0.0
  {
    hide Overlap, IsCommonPart;
    CommonPartIsOverlap(a, b, r);
  }

  // Overlap arithmetic

  lemma OverlapSymmetric(aLow: real, aHigh: real, bLow: real, bHigh: real)
    ensures Overlap(aLow, aHigh, bLow, bHigh) == Overlap(bLow, bHigh, aLow, aHigh)
  {
  }

  lemma IntersectionSymmetric(a: Detection, b: Detection)
    ensures Intersection(a, b) == Intersection(b, a)
  {
    hide Overlap;
    OverlapSymmetric(a.x, a.x + a.w, b.x, b.x + b.w);
    OverlapSymmetric(a.y, a.y + a.h, b.y, b.y + b.h);
  }

  lemma IouSymmetric(a: Detection, b: Detection)
    ensures Iou(a, b) == Iou(b, a)
  {
    hide Intersection, Area, Ratio;
    IntersectionSymmetric(a, b);
  }
}
