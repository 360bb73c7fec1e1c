/** Resolving dynamic tensor dimensions from a concrete element count, and the byte size of a
    resolved shape with its overflow checks. */
module Shapes {
  import opened Common

  const FLOAT_BYTES: nat := 4

  datatype ShapeError = EmptyShape | ZeroDimension | CountMismatch | Ambiguous | NonPositive

  /** The product of the positive dimensions. */
  function Known(s: seq<int>): (r: nat)
    ensures r > 0
  {
    if s == [] then 1
    else
      var last := s[|s| - 1];
      PositiveProduct(Known(s[..|s| - 1]), if last > 0 then last else 1);
      Known(s[..|s| - 1]) * if last > 0 then last else 1
  }

  lemma PositiveProduct(a: int, b: int)
    requires a > 0 && b > 0
    ensures a * b > 0
  {
  }

  /** The indices of the dimensions for which `open` holds. */
  function Open(s: seq<int>, open: int -> bool): (r: seq<nat>)
    ensures forall k | 0 <= k < |r| :: r[k] < |s| && open(s[r[k]])
    ensures |r| <= |s|
  {
    if s == [] then []
    else Open(s[..|s| - 1], open) + if open(s[|s| - 1]) then [|s| - 1] else []
  }

  function Negative(d: int): bool { d < 0 }

  function NotPositive(d: int): bool { d <= 0 }

  predicate HasZero(s: seq<int>) {
    exists i | 0 <= i < |s| :: s[i] == 0
  }

  // The specification

  predicate AllPositive(s: seq<int>) {
    forall i | 0 <= i < |s| :: s[i] > 0
  }

  /** A shape that completes the model's: it keeps every fixed dimension, has only positive ones,
      and holds exactly `count` elements. */
  ghost predicate Completes(model: seq<int>, count: nat, shape: seq<int>) {
    && |shape| == |model| && AllPositive(shape)
    && (forall i | 0 <= i < |model| && model[i] >= 0 :: shape[i] == model[i])
    && Known(shape) == count
  }

  /** When the program finds the shape: no zero, and either nothing is open, or one dimension is,
      next to at least one fixed one, and the rest divides a positive count. */
  predicate Resolvable(model: seq<int>, count: nat) {
    && model != [] && !HasZero(model)
    && var open := Open(model, Negative);
       || (open == [] && Known(model) == count)
       || (|open| == 1 && |model| > 1 && count > 0 && count % Known(model) == 0)
  }

  // resolve_fixed_or_concrete_shape

  method ResolveShape(model: seq<int>, count: nat, fillWithOnes: bool) returns (r: Result<seq<int>, ShapeError>)
    ensures !fillWithOnes ==> (r.Ok? <==> Resolvable(model, count)) && (r.Ok? ==> Completes(model, count, r.value))
    ensures fillWithOnes ==> (r.Ok? <==> model != [] && !HasZero(model)) && (r.Ok? ==> r.value == FilledWithOnes(model))
    ensures fillWithOnes && r.Ok? ==>
              |r.value| == |model| && forall i | 0 <= i < |model| :: r.value[i] == if model[i] < 0 then 1 else model[i]
    ensures r == Err(EmptyShape) <==> model == []
    ensures r == Err(ZeroDimension) <==> HasZero(model)
  {
    if model == [] {
      return Err(EmptyShape);
    }
    var open, known, zero := Survey(model);
    if zero {
      return Err(ZeroDimension);
    }
    if open == [] {
      NothingOpen(model);
      if fillWithOnes {
        return Ok(model);
      }
      if count != known {
        return Err(CountMismatch);
      }
      return Ok(model);
    }
    if fillWithOnes {
      var filled := FillOpen(model, open);
      return Ok(filled);
    }
    if |open| != 1 || |model| == 1 || count % known != 0 {
      return Err(Ambiguous);
    }
    Patch(model, open[0], count / known);
    QuotientSign(count, known);
    if count / known <= 0 {
      return Err(NonPositive);
    }
    r := Ok(model[open[0] := count / known]);
  }

  /** One pass over the dimensions, stopping at a zero. */
  method Survey(model: seq<int>) returns (open: seq<nat>, known: nat, zero: bool)
    ensures zero <==> HasZero(model)
    ensures !zero ==> open == Open(model, Negative) && known == Known(model)
  {
    open, known, zero := [], 1, false;
    for i := 0 to |model|
      invariant open == Open(model[..i], Negative) && known == Known(model[..i])
      invariant forall j | 0 <= j < i :: model[j] != 0
    {
      assert model[..i + 1][..i] == model[..i];
      if model[i] < 0 {
        open := open + [i];
      } else if model[i] == 0 {
        return open, known, true;
      } else {
        PositiveProduct(known, model[i]);
        known := known * model[i];
      }
    }
    assert model[..|model|] == model;
  }

  function FilledWithOnes(model: seq<int>): seq<int> {
    seq(|model|, i requires 0 <= i < |model| => if model[i] < 0 then 1 else model[i])
  }

  method FillOpen(model: seq<int>, open: seq<nat>) returns (shape: seq<int>)
    requires open == Open(model, Negative)
    ensures shape == FilledWithOnes(model)
  {
    shape := model;
    for k := 0 to |open|
      invariant |shape| == |model|
      invariant forall i | 0 <= i < |model| :: shape[i] == if i in open[..k] then 1 else model[i]
    {
      assert open[..k + 1] == open[..k] + [open[k]];
      shape := shape[open[k] := 1];
    }
    assert open[..|open|] == open;
    forall i | 0 <= i < |model| ensures model[i] < 0 <==> i in open {
      OpenMember(model, Negative, i);
    }
  }

  lemma NoneOpen(s: seq<int>, open: int -> bool)
    requires s == []
    ensures Open(s, open) == []
  {
  }

  lemma OpenStep(s: seq<int>, i: nat, open: int -> bool)
    requires i < |s|
    ensures Open(s[..i + 1], open) == Open(s[..i], open) + if open(s[i]) then [i] else []
  {
    assert s[..i + 1][..i] == s[..i];
  }

  lemma {:induction false} OpenMember(s: seq<int>, open: int -> bool, i: nat)
    requires i < |s|
    ensures i in Open(s, open) <==> open(s[i])
  {
    if i < |s| - 1 {
      OpenMember(s[..|s| - 1], open, i);
    } else {
      assert i !in Open(s[..|s| - 1], open);
    }
  }

  lemma NothingOpen(model: seq<int>)
    requires !HasZero(model) && Open(model, Negative) == []
    ensures AllPositive(model)
  {
    forall i | 0 <= i < |model| ensures model[i] > 0 {
      OpenMember(model, Negative, i);
    }
  }

  lemma QuotientSign(count: nat, known: nat)
    requires known > 0 && count % known == 0
    ensures count / known > 0 <==> count > 0
    ensures count / known * known == count
  {
    assert count == known * (count / known) + count % known;
  }

  // One open dimension

  lemma {:induction false} KnownUpdate(s: seq<int>, i: nat, v: int)
    requires i < |s| && s[i] <= 0 && v > 0
    ensures Known(s[i := v]) == Known(s) * v
  {
    var init, last := s[..|s| - 1], s[|s| - 1];
    if i == |s| - 1 {
      assert s[i := v][..|s| - 1] == init;
    } else {
      KnownUpdate(init, i, v);
      assert s[i := v][..|s| - 1] == init[i := v];
      Reorder(Known(init), v, if last > 0 then last else 1);
    }
  }

  lemma Reorder(a: int, b: int, c: int)
    ensures (a * b) * c == (a * c) * b
  {
  }

  lemma Patch(model: seq<int>, i: nat, v: int)
    requires i < |model| && !HasZero(model) && Open(model, Negative) == [i]
    ensures v > 0 ==> Completes(model, Known(model) * v, model[i := v])
  {
    assert model[i] < 0 by {
      assert Open(model, Negative)[0] == i;
    }
    hide Known;
    if v > 0 {
      KnownUpdate(model, i, v);
      PatchIsPositive(model, i, v);
    }
  }

  lemma PatchIsPositive(model: seq<int>, i: nat, v: int)
    requires i < |model| && !HasZero(model) && Open(model, Negative) == [i] && v > 0
    ensures AllPositive(model[i := v])
  {
    var patched := model[i := v];
    forall j | 0 <= j < |patched| ensures patched[j] > 0 {
      OpenMember(model, Negative, j);
    }
  }

  /** With at most one open dimension there is at most one shape that completes the model's. */
  lemma CompletionIsUnique(model: seq<int>, count: nat, a: seq<int>, b: seq<int>)
    requires Completes(model, count, a) && Completes(model, count, b) && |Open(model, Negative)| <= 1
    ensures a == b
  {
    forall j | 0 <= j < |model| ensures model[j] < 0 <==> j in Open(model, Negative) {
      OpenMember(model, Negative, j);
    }
    if |Open(model, Negative)| == 1 {
      var i := Open(model, Negative)[0];
      SplitAt(model, a, i);
      SplitAt(model, b, i);
      CancelFactor(Known(model[i := -1]), a[i], b[i]);
      assert a == b;
    }
  }

  /** The element count of a completion is the known product times the completed dimension. */
  lemma SplitAt(model: seq<int>, shape: seq<int>, i: nat)
    requires |shape| == |model| && i < |model| && model[i] < 0 && AllPositive(shape)
    requires forall j | 0 <= j < |model| && j != i :: shape[j] == model[j]
    ensures Known(shape) == Known(model[i := -1]) * shape[i]
  {
    KnownUpdate(model[i := -1], i, shape[i]);
    assert model[i := -1][i := shape[i]] == shape;
  }

  lemma CancelFactor(k: int, a: int, b: int)
    requires k > 0 && k * a == k * b
    ensures a == b
  {
  }

  /** For a model with no zero, at most one open dimension and something fixed, the program finds
      a shape exactly when one exists. */
  lemma ResolvableExactly(model: seq<int>, count: nat)
    requires model != [] && !HasZero(model)
    requires |Open(model, Negative)| == 0 || (|Open(model, Negative)| == 1 && |model| > 1)
    ensures Resolvable(model, count) <==> exists shape :: Completes(model, count, shape)
  {
    var open := Open(model, Negative);
    if Resolvable(model, count) {
      if open == [] {
        NothingOpen(model);
        assert Completes(model, count, model);
      } else {
        QuotientSign(count, Known(model));
        Patch(model, open[0], count / Known(model));
        assert Completes(model, count, model[open[0] := count / Known(model)]);
      }
    }
    if shape :| Completes(model, count, shape) {
      CompletionResolves(model, count, shape);
    }
  }

  lemma CompletionResolves(model: seq<int>, count: nat, shape: seq<int>)
    requires model != [] && !HasZero(model) && Completes(model, count, shape)
    requires |Open(model, Negative)| == 0 || (|Open(model, Negative)| == 1 && |model| > 1)
    ensures Resolvable(model, count)
  {
    var open := Open(model, Negative);
    forall j | 0 <= j < |model| ensures model[j] < 0 <==> j in open {
      OpenMember(model, Negative, j);
    }
    if open == [] {
      assert shape == model;
    } else {
      var i := open[0];
      SplitAt(model, shape, i);
      SameKnown(model, i);
      MultipleDivides(Known(model), shape[i]);
    }
  }

  lemma {:induction false} SameKnown(model: seq<int>, i: nat)
    requires i < |model| && model[i] < 0
    ensures Known(model[i := -1]) == Known(model)
  {
    var init := model[..|model| - 1];
    if i == |model| - 1 {
      assert model[i := -1][..|model| - 1] == init;
    } else {
      SameKnown(init, i);
      assert model[i := -1][..|model| - 1] == init[i := -1];
    }
  }

  lemma MultipleDivides(k: int, v: int)
    requires k > 0 && v > 0
    ensures (k * v) % k == 0 && k * v > 0
  {
    DivMod(v, 0, k);
    assert k * v == v * k + 0;
    PositiveProduct(k, v);
  }

  // The Python twin

  datatype Reshape = Unchanged | Reshaped(shape: seq<int>) | Rejected

  /** A dimension that is not a positive integer, zero and null included, counts as open. */
  function PythonShape(shape: seq<int>, size: nat): Reshape {
    if shape == [] then Unchanged
    else
      var open := Open(shape, NotPositive);
      if open == [] then (if size == Known(shape) then Reshaped(shape) else Rejected)
      else if |open| != 1 || size % Known(shape) != 0 then Rejected
      else Reshaped(shape[open[0] := size / Known(shape)])
  }

  method MaybeReshape(shape: seq<int>, size: nat) returns (r: Reshape)
    ensures r == PythonShape(shape, size)
  {
    if shape == [] {
      return Unchanged;
    }
    var target, open := SplitTarget(shape);
    var known := ProductOfTarget(shape, target);
    if open == [] {
      assert target == shape;
      return if size != known then Rejected else Reshaped(target);
    }
    if |open| != 1 || known <= 0 || size % known != 0 {
      return Rejected;
    }
    assert target[open[0] := size / known] == shape[open[0] := size / known];
    return Reshaped(target[open[0] := size / known]);
  }

  /** Positive dimensions are copied, all others become -1 and are listed. */
  method SplitTarget(shape: seq<int>) returns (target: seq<int>, open: seq<nat>)
    ensures open == Open(shape, NotPositive) && |target| == |shape|
    ensures forall j | 0 <= j < |shape| :: target[j] == if shape[j] > 0 then shape[j] else -1
    ensures forall j | 0 <= j < |shape| :: shape[j] <= 0 <==> j in open
  {
    hide Open;
    target, open := [], [];
    NoneOpen(shape[..0], NotPositive);
    for i := 0 to |shape|
      invariant open == Open(shape[..i], NotPositive) && |target| == i
      invariant forall j | 0 <= j < i :: target[j] == if shape[j] > 0 then shape[j] else -1
    {
      OpenStep(shape, i, NotPositive);
      if shape[i] > 0 {
        target := target + [shape[i]];
      } else {
        open := open + [i];
        target := target + [-1];
      }
    }
    assert shape[..|shape|] == shape;
    forall j | 0 <= j < |shape| ensures shape[j] <= 0 <==> j in open {
      OpenMember(shape, NotPositive, j);
    }
  }

  method ProductOfTarget(ghost shape: seq<int>, target: seq<int>) returns (known: nat)
    requires |target| == |shape|
    requires forall j | 0 <= j < |shape| :: target[j] == if shape[j] > 0 then shape[j] else -1
    ensures known == Known(shape)
  {
    known := 1;
    for i := 0 to |target|
      invariant known == Known(shape[..i])
    {
      assert shape[..i + 1][..i] == shape[..i];
      if target[i] > 0 {
        PositiveProduct(known, target[i]);
        known := known * target[i];
      }
    }
    assert shape[..|shape|] == shape;
  }

  ghost predicate Agree(model: seq<int>, count: nat, shape: Option<seq<int>>) {
    shape == match PythonShape(model, count)
             case Reshaped(s) => Some(s)
             case _ => None
  }

  /** The shape the C++ resolution gives outside the fill mode. */
  function CppShape(model: seq<int>, count: nat): Option<seq<int>> {
    var open := Open(model, Negative);
    if !Resolvable(model, count) then None
    else if open == [] then Some(model)
    else Some(model[open[0] := count / Known(model)])
  }

  lemma CppShapeIsResolution(model: seq<int>, count: nat)
    ensures CppShape(model, count).Some? <==> Resolvable(model, count)
    ensures CppShape(model, count).Some? ==> Completes(model, count, CppShape(model, count).value)
  {
    if Resolvable(model, count) {
      var open := Open(model, Negative);
      if open == [] {
        NothingOpen(model);
      } else {
        QuotientSign(count, Known(model));
        Patch(model, open[0], count / Known(model));
      }
    }
  }

  /** The two resolutions give the same answer except in one family: exactly one dimension is not
      positive, the rest divides the count, and that dimension is zero, or stands alone, or the
      tensor is empty. Then Python completes the shape and C++ rejects it. */
  lemma TwinsAgreeExactly(model: seq<int>, count: nat)
    requires model != []
    ensures Agree(model, count, CppShape(model, count)) <==>
            !(var open := Open(model, NotPositive);
              |open| == 1 && count % Known(model) == 0 && (model[open[0]] == 0 || |model| == 1 || count == 0))
  {
    var open, negative := Open(model, NotPositive), Open(model, Negative);
    forall j | 0 <= j < |model|
      ensures (model[j] <= 0 <==> j in open) && (model[j] < 0 <==> j in negative)
    {
      OpenMember(model, NotPositive, j);
      OpenMember(model, Negative, j);
    }
    if !HasZero(model) {
      SameOpen(model);
    }
  }

  /** What the two do in that family. */
  lemma TwinsDisagree(model: seq<int>, count: nat, i: nat)
    requires Open(model, NotPositive) == [i] && count % Known(model) == 0
    requires i < |model| && (model[i] == 0 || |model| == 1 || count == 0)
    ensures CppShape(model, count) == None
    ensures PythonShape(model, count) == Reshaped(model[i := count / Known(model)])
  {
    hide Known, Open;
    OpenMember(model, NotPositive, i);
    if model[i] < 0 && !HasZero(model) {
      SameOpen(model);
    }
  }

  lemma {:induction false} SameOpen(model: seq<int>)
    requires !HasZero(model)
    ensures Open(model, NotPositive) == Open(model, Negative)
  {
    if model != [] {
      assert forall i | 0 <= i < |model| - 1 :: model[..|model| - 1][i] == model[i];
      SameOpen(model[..|model| - 1]);
    }
  }

  // Byte sizes

  datatype SizeError = NoWidth | OpenDimension | EmptyDimension | TooLarge

  /** Succeeds exactly when every dimension is positive and the exact byte count fits the machine
      word, and then returns that count. */
  method ByteSizeForShape(shape: seq<int>, elementBytes: nat) returns (r: Result<nat, SizeError>)
    requires elementBytes <= SIZE_MAX
    ensures r.Ok? <==> elementBytes > 0 && AllPositive(shape) && Known(shape) * elementBytes <= 0xFFFF_FFFF_FFFF_FFFF
    ensures r.Ok? ==> r.value == Known(shape) * elementBytes
  {
    if elementBytes == 0 {
      return Err(NoWidth);
    }
    var elements: nat := 1;
    for i := 0 to |shape|
      invariant AllPositive(shape[..i]) && elements == Known(shape[..i]) && 0 < elements <= SIZE_MAX
    {
      assert shape[..i + 1][..i] == shape[..i];
      assert forall j | 0 <= j < i :: shape[..i][j] == shape[j];
      if shape[i] < 0 {
        return Err(OpenDimension);
      }
      if shape[i] == 0 {
        return Err(EmptyDimension);
      }
      FitsByDivision(shape[i], elements);
      if shape[i] > SIZE_MAX / elements {
        if AllPositive(shape) {
          KnownGrows(shape, i + 1);
          ProductGrows(Known(shape), elementBytes);
        }
        return Err(TooLarge);
      }
      PositiveProduct(elements, shape[i]);
      elements := elements * shape[i];
    }
    assert shape[..|shape|] == shape;
    FitsByDivision(elementBytes, elements);
    if elementBytes > SIZE_MAX / elements {
      return Err(TooLarge);
    }
    return Ok(elements * elementBytes);
  }

  lemma FitsByDivision(a: nat, b: nat)
    requires b > 0
    ensures a > SIZE_MAX / b <==> b * a > SIZE_MAX
  {
    var q, m := SIZE_MAX / b, SIZE_MAX % b;
    assert SIZE_MAX == b * q + m && 0 <= m < b;
    if a > q {
      ProductNonNegative(b, a - q - 1);
      assert b * a == b * q + b + b * (a - q - 1);
    } else {
      ProductNonNegative(b, q - a);
      assert b * q == b * a + b * (q - a);
    }
  }

  lemma ProductGrows(a: nat, b: nat)
    requires b > 0
    ensures a * b >= a
  {
    ProductNonNegative(a, b - 1);
    assert a * b == a + a * (b - 1);
  }

  lemma {:induction false} KnownGrows(shape: seq<int>, i: nat)
    requires i <= |shape| && AllPositive(shape)
    ensures Known(shape[..i]) <= Known(shape)
  {
    if i == |shape| {
      assert shape[..i] == shape;
    } else {
      var init := shape[..|shape| - 1];
      assert init[..i] == shape[..i];
      KnownGrows(init, i);
      ProductGrows(Known(init), shape[|shape| - 1]);
    }
  }

  // The request the executor builds

  /** What reaches the tensor stage: a smoke request, raw tensor bytes, or a preprocessed image of
      3 * width * height floats. */
  datatype ExecutorInput =
    | ZerosSmoke(allowed: bool)
    | TensorBytes(payloadBytes: nat)
    | RawImage(planar: bool, width: nat, height: nat)

  datatype RequestError = SmokeRejected | EmptyPayload | Misaligned | BadShape(error: ShapeError)

  datatype Request = Request(shape: seq<int>, byteSize: nat)

  /** Every request that is built declares positive dimensions that multiply to exactly its
      buffer: four bytes per element. */
  method BuildRequest(model: seq<int>, input: ExecutorInput) returns (r: Result<Request, RequestError>)
    requires input.RawImage? ==> input.width > 0 && input.height > 0
    ensures r.Ok? ==> AllPositive(r.value.shape) && Known(r.value.shape) * 4 == r.value.byteSize
    ensures r.Ok? && !input.RawImage? ==>
              |r.value.shape| == |model| && forall i | 0 <= i < |model| && model[i] >= 0 :: r.value.shape[i] == model[i]
    ensures input.RawImage? ==> r.Ok? && r.value.byteSize == 3 * (input.width * input.height) * 4
    ensures input.TensorBytes? ==>
              (r.Ok? <==> input.payloadBytes > 0 && input.payloadBytes % 4 == 0
                          && Resolvable(model, input.payloadBytes / 4))
    ensures input.TensorBytes? && r.Ok? ==> r.value.byteSize == input.payloadBytes
    ensures input.ZerosSmoke? ==> (r.Ok? <==> input.allowed && model != [] && !HasZero(model))
  {
    match input
    case ZerosSmoke(allowed) =>
      if !allowed {
        return Err(SmokeRejected);
      }
      var shape := ResolveShape(model, 0, true);
      if shape.Err? {
        return Err(BadShape(shape.error));
      }
      FilledIsPositive(model);
      var elements := ElementCount(shape.value);
      r := Ok(Request(shape.value, elements * FLOAT_BYTES));
    case TensorBytes(bytes) =>
      if bytes == 0 {
        return Err(EmptyPayload);
      }
      if bytes % FLOAT_BYTES != 0 {
        return Err(Misaligned);
      }
      var shape := ResolveShape(model, bytes / FLOAT_BYTES, false);
      if shape.Err? {
        return Err(BadShape(shape.error));
      }
      r := Ok(Request(shape.value, bytes));
    case RawImage(planar, width, height) =>
      ProductNonNegative(width, height);
      var elements: nat := 3 * (width * height);
      var shape := ResolveShape(model, elements, false);
      var resolved: seq<int>;
      if shape.Ok? {
        resolved := shape.value;
      } else {
        var failure := BadShape(shape.error);
        resolved := if planar then [1, 3, height, width] else [1, height, width, 3];
        FallbackProduct(width, height);
        var expected := ElementCount(resolved);
        if elements != expected {
          return Err(failure);
        }
      }
      r := Ok(Request(resolved, elements * FLOAT_BYTES));
  }

  method ElementCount(shape: seq<int>) returns (n: nat)
    requires AllPositive(shape)
    ensures n == Known(shape)
  {
    n := 1;
    for i := 0 to |shape|
      invariant n == Known(shape[..i])
    {
      assert shape[..i + 1][..i] == shape[..i];
      PositiveProduct(n, shape[i]);
      n := n * shape[i];
    }
    assert shape[..|shape|] == shape;
  }

  lemma FilledIsPositive(model: seq<int>)
    requires !HasZero(model)
    ensures AllPositive(FilledWithOnes(model))
  {
    forall i | 0 <= i < |model| ensures FilledWithOnes(model)[i] > 0 {
      assert model[i] != 0;
    }
  }

  lemma FallbackProduct(width: nat, height: nat)
    requires width > 0 && height > 0
    ensures Known([1, 3, height, width]) == 3 * (width * height)
    ensures Known([1, height, width, 3]) == 3 * (width * height)
  {
    KnownOfFour(1, 3, height, width);
    KnownOfFour(1, height, width, 3);
  }

  lemma KnownOfFour(a: int, b: int, c: int, d: int)
    requires a > 0 && b > 0 && c > 0 && d > 0
    ensures Known([a, b, c, d]) == a * b * c * d
  {
    assert [a, b, c, d][..3] == [a, b, c];
    assert [a, b, c][..2] == [a, b];
    assert [a, b][..1] == [a];
    assert [a][..0] == [];
    assert Known([a]) == a;
    assert Known([a, b]) == a * b;
    assert Known([a, b, c]) == a * b * c;
  }

  // The session's checks

  datatype CheckError = RankMismatch | ShapeMismatch | NegativeDimension | SizeRejected(error: SizeError) | ByteSizeMismatch

  /** A request passes exactly when it has the model's rank and fixed dimensions, only positive
      dimensions, and a buffer of the exact byte count, which fits the machine word. */
  method CheckRequest(model: seq<int>, request: Request) returns (error: Option<CheckError>)
    ensures error == None <==>
            && |request.shape| == |model|
            && (forall i | 0 <= i < |model| && model[i] >= 0 :: request.shape[i] == model[i])
            && AllPositive(request.shape)
            && Known(request.shape) * 4 == request.byteSize <= 0xFFFF_FFFF_FFFF_FFFF
    ensures AllPositive(request.shape) && Known(request.shape) * 4 == request.byteSize <= 0xFFFF_FFFF_FFFF_FFFF ==>
              error == None || error == Some(RankMismatch) || error == Some(ShapeMismatch)
  {
    if |request.shape| != |model| {
      return Some(RankMismatch);
    }
    for i := 0 to |model|
      invariant forall j | 0 <= j < i :: (model[j] >= 0 ==> request.shape[j] == model[j]) && request.shape[j] >= 0
    {
      if model[i] >= 0 && request.shape[i] != model[i] {
        return Some(ShapeMismatch);
      }
      if request.shape[i] < 0 {
        return Some(NegativeDimension);
      }
    }
    var expected := ByteSizeForShape(request.shape, FLOAT_BYTES);
    if expected.Err? {
      return Some(SizeRejected(expected.error));
    }
    if request.byteSize != expected.value {
      return Some(ByteSizeMismatch);
    }
    return None;
  }

  /** Building and checking in one go. Requests from tensor bytes always pass; no request whose
      size fits the machine word is refused for its byte size. */
  method Submit(model: seq<int>, input: ExecutorInput) returns (built: Result<Request, RequestError>, error: Option<CheckError>)
    requires input.RawImage? ==> input.width > 0 && input.height > 0
    ensures built.Ok? && built.value.byteSize <= 0xFFFF_FFFF_FFFF_FFFF ==>
              error == None || error == Some(RankMismatch) || error == Some(ShapeMismatch)
    ensures built.Ok? && built.value.byteSize <= 0xFFFF_FFFF_FFFF_FFFF && !input.RawImage? ==> error == None
  {
    built := BuildRequest(model, input);
    error := None;
    if built.Ok? {
      error := CheckRequest(model, built.value);
    }
  }
}
