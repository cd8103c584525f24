/** The desktop bounding box and the absolute pointer mapping of src/uinput.rs, over exact reals. */
module Desktop {
  import opened Common
  import opened PointerStates

  const I64_MAX: int := 0x7fff_ffff_ffff_ffff
  const I64_MIN: int := -0x8000_0000_0000_0000
  const ABS_RANGE_MAX: real := 65535.0

  type I64 = n: int | I64_MIN <= n <= I64_MAX witness 0

  datatype Monitor = Monitor(x: I64, y: I64, width: I64, height: I64, scale: real)

  datatype Bounds = Bounds(x: int, y: int, width: nat, height: nat)

  /** `f64 as i64`: out of range goes to the nearer end. */
  function Saturated(n: int): I64 {
    if n < I64_MIN then I64_MIN else if n > I64_MAX then I64_MAX else n
  }

  /** `i64` addition of a release build: it wraps around. */
  function Wrapped(n: int): I64 {
    (n - I64_MIN) % (I64_MAX - I64_MIN + 1) + I64_MIN
  }

  /** `as i32`: the low 32 bits, signed. */
  function AsI32(n: int): int {
    (n + 0x8000_0000) % 0x1_0000_0000 - 0x8000_0000
  }

  /** `as u32`: the low 32 bits. */
  function AsU32(n: int): nat {
    n % 0x1_0000_0000
  }

  /** A wrapped sum differs by a multiple of 2^64 and is the sum itself where that fits. */
  lemma WrapsModulo(n: int)
    ensures (Wrapped(n) - n) % 0x1_0000_0000_0000_0000 == 0
    ensures -0x8000_0000_0000_0000 <= n < 0x8000_0000_0000_0000 ==> Wrapped(n) == n
  {
  }

  /** A cut number fits its 32 bits and differs by a multiple of 2^32. */
  lemma CutsModulo(n: int)
    ensures -0x8000_0000 <= AsI32(n) < 0x8000_0000 && (AsI32(n) - n) % 0x1_0000_0000 == 0
    ensures 0 <= AsU32(n) < 0x1_0000_0000 && (AsU32(n) - n) % 0x1_0000_0000 == 0
  {
  }

  function Logical(size: I64, scale: real): I64 {
    Saturated(Round(size as real / if scale > 0.1 then scale else 0.1))
  }

  function Right(m: Monitor): I64 {
    Wrapped(m.x + Logical(m.width, m.scale))
  }

  function Bottom(m: Monitor): I64 {
    Wrapped(m.y + Logical(m.height, m.scale))
  }

  /** A length in logical pixels: the size over the scale, which counts as one tenth if it is less. */
  function Scaled(size: I64, scale: real): real {
    size as real / if scale < 0.1 then 0.1 else scale
  }

  /** No further than half a pixel. */
  predicate Close(n: int, v: real) {
    -0.5 <= n as real - v <= 0.5
  }

  /** Logical sizes and edges are right to half a pixel, as long as they fit 64 bits. */
  lemma EdgesAreClose(m: Monitor)
    ensures var w := Scaled(m.width, m.scale);
            -9223372036854775808.0 <= w <= 9223372036854775807.0 ==>
              && Close(Logical(m.width, m.scale), w)
              && (I64_MIN <= m.x + Logical(m.width, m.scale) <= I64_MAX ==> Close(Right(m), m.x as real + w))
    ensures var h := Scaled(m.height, m.scale);
            -9223372036854775808.0 <= h <= 9223372036854775807.0 ==>
              && Close(Logical(m.height, m.scale), h)
              && (I64_MIN <= m.y + Logical(m.height, m.scale) <= I64_MAX ==> Close(Bottom(m), m.y as real + h))
  {
    LogicalIsClose(m.width, m.scale);
    LogicalIsClose(m.height, m.scale);
    WrapsModulo(m.x + Logical(m.width, m.scale));
    WrapsModulo(m.y + Logical(m.height, m.scale));
    hide Logical, Scaled, Wrapped;
  }

  lemma LogicalIsClose(size: I64, scale: real)
    ensures var w := Scaled(size, scale);
            -9223372036854775808.0 <= w <= 9223372036854775807.0 ==> Close(Logical(size, scale), w)
  {
    var w := Scaled(size, scale);
    RoundIsNearest(w);
    assert Logical(size, scale) == Saturated(Round(w));
    hide Logical, Scaled;
  }

  /** A bounding box before its numbers are cut to 32 bits. */
  datatype Box = Box(left: I64, top: I64, right: I64, bottom: I64) {
    predicate Contains(m: Monitor) {
      left <= m.x && top <= m.y && Right(m) <= right && Bottom(m) <= bottom
    }

    predicate HasArea() {
      left != I64_MAX && left < right && top < bottom
    }

    /** The desktop reported for this box: its numbers cut to 32 bits, or none if it is empty. */
    function Reported(): Option<Bounds> {
      if HasArea() then Some(Bounds(AsI32(left), AsI32(top), AsU32(right - left), AsU32(bottom - top))) else None
    }

    function With(m: Monitor): Box {
      Box(if m.x < left then m.x else left, if m.y < top then m.y else top,
          if Right(m) > right then Right(m) else right, if Bottom(m) > bottom then Bottom(m) else bottom)
    }
  }

  const NO_BOX: Box := Box(I64_MAX, I64_MAX, I64_MIN, I64_MIN)

  /** All monitors lie inside, and every side is reached by one of them, or is where it started. */
  ghost predicate Encloses(box: Box, monitors: seq<Monitor>) {
    && (forall m :: m in monitors ==> box.Contains(m))
    && (box.left == I64_MAX || exists m :: m in monitors && m.x == box.left)
    && (box.top == I64_MAX || exists m :: m in monitors && m.y == box.top)
    && (box.right == I64_MIN || exists m :: m in monitors && Right(m) == box.right)
    && (box.bottom == I64_MIN || exists m :: m in monitors && Bottom(m) == box.bottom)
  }

  lemma EnclosesMore(ms: seq<Monitor>, m: Monitor, box: Box)
    requires Encloses(box, ms)
    ensures Encloses(box.With(m), ms + [m])
  {
    hide Right, Bottom;
    assert m in ms + [m] && forall k :: k in ms ==> k in ms + [m];
  }

  /** There is only one such box. */
  lemma OneBox(a: Box, b: Box, ms: seq<Monitor>)
    requires Encloses(a, ms) && Encloses(b, ms)
    ensures a == b
  {
    hide Right, Bottom;
  }

  /** A box that fits 32 bits is reported as it is. */
  lemma CutsExactly(box: Box)
    requires box.HasArea()
    ensures AsI32(box.left) == box.left <==> -0x8000_0000 <= box.left < 0x8000_0000
    ensures AsI32(box.top) == box.top <==> -0x8000_0000 <= box.top < 0x8000_0000
    ensures AsU32(box.right - box.left) == box.right - box.left <==> box.right - box.left < 0x1_0000_0000
    ensures AsU32(box.bottom - box.top) == box.bottom - box.top <==> box.bottom - box.top < 0x1_0000_0000
  {
  }

  /** `None` stands for a monitor entry with a missing field, which voids the whole answer. */
  method HyprlandDesktopBounds(monitors: seq<Option<Monitor>>) returns (bounds: Option<Bounds>)
    ensures AllKnown(monitors) ==> exists box :: Encloses(box, Known(monitors)) && bounds == box.Reported()
    ensures !AllKnown(monitors) ==> bounds == None
  {
    hide Right, Bottom, Encloses, Known, AsI32, AsU32;
    NothingEnclosed();
    assert monitors[..0] == [];
    ghost var box := NO_BOX;
    var minX: I64, minY: I64, maxX: I64, maxY: I64 := I64_MAX, I64_MAX, I64_MIN, I64_MIN;
    for index := 0 to |monitors|
      invariant forall i :: 0 <= i < index ==> monitors[i].Some?
      invariant box == Box(minX, minY, maxX, maxY) && Encloses(box, Known(monitors[..index]))
    {
      if monitors[index].None? {
        return None;
      }
      var m := monitors[index].value;
      KnownSnoc(monitors, index);
      EnclosesMore(Known(monitors[..index]), m, box);
      box := box.With(m);
      minX, minY := if m.x < minX then m.x else minX, if m.y < minY then m.y else minY;
      maxX, maxY := if Right(m) > maxX then Right(m) else maxX, if Bottom(m) > maxY then Bottom(m) else maxY;
    }
    assert monitors[..|monitors|] == monitors;
    if minX == I64_MAX || maxX <= minX || maxY <= minY {
      return None;
    }
    return Some(Bounds(AsI32(minX), AsI32(minY), AsU32(maxX - minX), AsU32(maxY - minY)));
  }

  predicate AllKnown(monitors: seq<Option<Monitor>>) {
    forall i :: 0 <= i < |monitors| ==> monitors[i].Some?
  }

  lemma NothingEnclosed()
    ensures Encloses(NO_BOX, Known([]))
  {
  }

  function Known(monitors: seq<Option<Monitor>>): seq<Monitor> {
    if monitors == [] then []
    else
      var n := |monitors| - 1;
      Known(monitors[..n]) + if monitors[n].Some? then [monitors[n].value] else []
  }

  lemma KnownSnoc(monitors: seq<Option<Monitor>>, n: nat)
    requires n < |monitors| && monitors[n].Some?
    ensures Known(monitors[..n + 1]) == Known(monitors[..n]) + [monitors[n].value]
  {
    assert monitors[..n + 1][..n] == monitors[..n];
  }

  // ---------------------------------------------------------------------
  // Desktop pixels to device range
  // ---------------------------------------------------------------------

  function ScaleToAbsRange(normalized: real): int {
    var clamped := if normalized < 0.0 then 0.0 else if normalized > 1.0 then 1.0 else normalized;
    Round(clamped * ABS_RANGE_MAX)
  }

  /** One coordinate of `to_abs`: `origin` and `size` are the desktop's. */
  function ToAbs(at: real, origin: int, size: nat): int {
    ScaleToAbsRange((at - origin as real) / (if size < 1 then 1 else size) as real)
  }

  lemma DivideMonotone(a: real, b: real, d: real)
    requires a <= b && d > 0.0
    ensures a / d <= b / d
  {
    var p, q := a / d, b / d;
    assert p * d == a && q * d == b;
    assert p > q ==> (p - q) * d > 0.0;
  }

  lemma ScaleMonotone(a: real, b: real)
    requires a <= b
    ensures 0 <= ScaleToAbsRange(a) <= ScaleToAbsRange(b) <= 65535
  {
  }

  /** Pixels further right never map further left, and the device range is never left. */
  lemma ToAbsMonotone(a: real, b: real, origin: int, size: nat)
    requires a <= b
    ensures 0 <= ToAbs(a, origin, size) <= ToAbs(b, origin, size) <= 65535
  {
    hide ScaleToAbsRange;
    var d := (if size < 1 then 1 else size) as real;
    DivideMonotone(a - origin as real, b - origin as real, d);
    ScaleMonotone((a - origin as real) / d, (b - origin as real) / d);
  }

  /** Mapping a desktop coordinate back from the device range misses it by at most half a device step. */
  lemma ToAbsHalfStep(at: real, origin: int, size: nat)
    requires size >= 1 && origin as real <= at <= (origin + size) as real
    ensures var step := size as real / ABS_RANGE_MAX;
            -step / 2.0 <= origin as real + ToAbs(at, origin, size) as real * step - at <= step / 2.0
  {
    hide ScaleToAbsRange;
    var d, n := size as real, (at - origin as real) / size as real;
    assert n * d == at - origin as real;
    DivideMonotone(0.0, at - origin as real, d);
    DivideMonotone(at - origin as real, d, d);
    ScaleNearest(n);
    Stretch(ToAbs(at, origin, size) as real, n, d, d / ABS_RANGE_MAX);
  }

  lemma ScaleNearest(n: real)
    requires 0.0 <= n <= 1.0
    ensures -0.5 <= ScaleToAbsRange(n) as real - n * ABS_RANGE_MAX <= 0.5
  {
    RoundIsNearest(n * ABS_RANGE_MAX);
  }

  lemma Stretch(k: real, n: real, d: real, step: real)
    requires step > 0.0 && step * ABS_RANGE_MAX == d && -0.5 <= k - n * ABS_RANGE_MAX <= 0.5
    ensures -step / 2.0 <= k * step - n * d <= step / 2.0
  {
    var m := n * ABS_RANGE_MAX;
    Product(k - m, step);
    Distribute(k, m, step);
    Regroup(n, ABS_RANGE_MAX, step);
  }

  lemma Distribute(a: real, b: real, c: real)
    ensures (a - b) * c == a * c - b * c
  {
  }

  lemma Regroup(a: real, b: real, c: real)
    ensures a * (c * b) == (a * b) * c
  {
    var p := c * b;
    assert p == b * c;
    assert a * (b * c) == (a * b) * c;
  }

  lemma Product(error: real, step: real)
    requires -0.5 <= error <= 0.5 && step > 0.0
    ensures -step / 2.0 <= error * step <= step / 2.0
  {
    assert (0.5 - error) * step >= 0.0 && (error + 0.5) * step >= 0.0;
  }
}
