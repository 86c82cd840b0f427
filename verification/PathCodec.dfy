/** Whiteboard paths in compact form: coordinates as fractions of the bounding box, in steps of
    a ten-thousandth.  64-bit floating-point numbers are idealised as reals; `narrow` is what the
    cast of the box to 32 bits does to them. */
module PathCodec {
  import opened Options

  // ---- Paths -----------------------------------------------------------------------------

  datatype Label = M | L | Q | Z | OtherLabel

  /** One element of the JSON array: its label and what follows; anything may be malformed. */
  datatype Entry = Entry(tag: Label, numbers: seq<Option<real>>) | Malformed

  datatype Part<T> = MoveTo(x: T, y: T) | LineTo(x: T, y: T) | Curve(x1: T, y1: T, x2: T, y2: T) | Close

  datatype Path = Path(parts: seq<Part<real>>, minX: real, minY: real, width: real, height: real)

  datatype CompactPath = CompactPath(parts: seq<Part<nat>>, minX: real, minY: real, width: real, height: real)

  /** The largest floating-point number; the bounds start from it and its negative. */
  const HUGE: real := 1.7976931348623157e308

  const U16_MAX := 65535

  // ---- Decoding the JSON form --------------------------------------------------------------

  function NumberAt(e: Entry, i: nat): Option<real> {
    if e.Entry? && i < |e.numbers| then e.numbers[i] else None
  }

  function DecodePart(e: Entry): Option<Part<real>> {
    match e
    case Malformed => None
    case Entry(Z, _) => Some(Close)
    case Entry(OtherLabel, _) => None
    case Entry(Q, _) =>
      if NumberAt(e, 0).Some? && NumberAt(e, 1).Some? && NumberAt(e, 2).Some? && NumberAt(e, 3).Some? then
        Some(Curve(NumberAt(e, 0).value, NumberAt(e, 1).value, NumberAt(e, 2).value, NumberAt(e, 3).value))
      else None
    case Entry(t, _) =>
      if NumberAt(e, 0).Some? && NumberAt(e, 1).Some? then
        if t == M then Some(MoveTo(NumberAt(e, 0).value, NumberAt(e, 1).value))
        else Some(LineTo(NumberAt(e, 0).value, NumberAt(e, 1).value))
      else None
  }

  predicate Decodable(entries: seq<Entry>) {
    forall i :: 0 <= i < |entries| ==> DecodePart(entries[i]).Some?
  }

  function DecodedParts(entries: seq<Entry>): (r: seq<Part<real>>)
    requires Decodable(entries)
    ensures |r| == |entries| && forall i :: 0 <= i < |entries| ==> DecodePart(entries[i]) == Some(r[i])
  {
    if entries == [] then []
    else DecodedParts(entries[..|entries| - 1]) + [DecodePart(entries[|entries| - 1]).value]
  }

  function Lower(min: real, x: real): real { if x < min then x else min }

  function Upper(max: real, x: real): real { if x > max then x else max }

  datatype Box = Box(minX: real, maxX: real, minY: real, maxY: real)

  function Touch(b: Box, x: real, y: real): Box {
    Box(Lower(b.minX, x), Upper(b.maxX, x), Lower(b.minY, y), Upper(b.maxY, y))
  }

  function Grown(b: Box, p: Part<real>): Box {
    match p
    case MoveTo(x, y) => Touch(b, x, y)
    case LineTo(x, y) => Touch(b, x, y)
    case Curve(x1, y1, x2, y2) => Touch(Touch(b, x1, y1), x2, y2)
    case Close => b
  }

  function BoxOf(parts: seq<Part<real>>): Box {
    if parts == [] then Box(HUGE, -HUGE, HUGE, -HUGE)
    else Grown(BoxOf(parts[..|parts| - 1]), parts[|parts| - 1])
  }

  function BoxedPath(parts: seq<Part<real>>): Path {
    var b := BoxOf(parts);
    Path(parts, b.minX, b.minY, b.maxX - b.minX, b.maxY - b.minY)
  }

  function Decoded(entries: seq<Entry>): Option<Path> {
    if Decodable(entries) then Some(BoxedPath(DecodedParts(entries))) else None
  }

  method Stretch(minX: real, maxX: real, minY: real, maxY: real, x: real, y: real)
    returns (minX': real, maxX': real, minY': real, maxY': real)
    ensures Box(minX', maxX', minY', maxY') == Touch(Box(minX, maxX, minY, maxY), x, y)
  {
    minX', maxX', minY', maxY' := minX, maxX, minY, maxY;
    if x < minX {
      minX' := x;
    }
    if x > maxX {
      maxX' := x;
    }
    if y < minY {
      minY' := y;
    }
    if y > maxY {
      maxY' := y;
    }
  }

  method StretchOver(part: Part<real>, minX: real, maxX: real, minY: real, maxY: real)
    returns (minX': real, maxX': real, minY': real, maxY': real)
    ensures Box(minX', maxX', minY', maxY') == Grown(Box(minX, maxX, minY, maxY), part)
  {
    minX', maxX', minY', maxY' := minX, maxX, minY, maxY;
    match part
    case MoveTo(x, y) =>
      minX', maxX', minY', maxY' := Stretch(minX', maxX', minY', maxY', x, y);
    case LineTo(x, y) =>
      minX', maxX', minY', maxY' := Stretch(minX', maxX', minY', maxY', x, y);
    case Curve(x1, y1, x2, y2) =>
      minX', maxX', minY', maxY' := Stretch(minX', maxX', minY', maxY', x1, y1);
      minX', maxX', minY', maxY' := Stretch(minX', maxX', minY', maxY', x2, y2);
    case Close =>
  }

  /** The first `i` entries are decoded to `parts`, with this box. */
  ghost predicate DecodedSoFar(entries: seq<Entry>, i: nat, parts: seq<Part<real>>, b: Box) {
    i <= |entries| && Decodable(entries[..i]) && parts == DecodedParts(entries[..i]) && b == BoxOf(parts)
  }

  method DecodePath(entries: seq<Entry>) returns (r: Option<Path>)
    ensures r == Decoded(entries)
  {
    var parts: seq<Part<real>> := [];
    var minX, maxX, minY, maxY := HUGE, -HUGE, HUGE, -HUGE;
    DecodingStarts(entries);
    for i := 0 to |entries|
      invariant DecodedSoFar(entries, i, parts, Box(minX, maxX, minY, maxY))
    {
      var part := DecodePart(entries[i]);
      if part.None? {
        return None;
      }
      DecodingGoesOn(entries, i, parts, Box(minX, maxX, minY, maxY), part.value);
      minX, maxX, minY, maxY := StretchOver(part.value, minX, maxX, minY, maxY);
      parts := parts + [part.value];
    }
    DecodingEnds(entries, parts, Box(minX, maxX, minY, maxY));
    return Some(Path(parts, minX, minY, maxX - minX, maxY - minY));
  }

  lemma {:induction false} DecodingStarts(entries: seq<Entry>)
    ensures DecodedSoFar(entries, 0, [], Box(HUGE, -HUGE, HUGE, -HUGE))
  {
  }

  lemma {:induction false} DecodingGoesOn(entries: seq<Entry>, i: nat, parts: seq<Part<real>>, b: Box, p: Part<real>)
    requires i < |entries| && DecodedSoFar(entries, i, parts, b) && DecodePart(entries[i]) == Some(p)
    ensures DecodedSoFar(entries, i + 1, parts + [p], Grown(b, p))
  {
    assert entries[..i + 1][..i] == entries[..i];
    assert (parts + [p])[..|parts|] == parts;
  }

  lemma {:induction false} DecodingEnds(entries: seq<Entry>, parts: seq<Part<real>>, b: Box)
    requires DecodedSoFar(entries, |entries|, parts, b)
    ensures Decoded(entries) == Some(Path(parts, b.minX, b.minY, b.maxX - b.minX, b.maxY - b.minY))
  {
    assert entries[..|entries|] == entries;
  }

  // ---- Compressing and decompressing ----------------------------------------------------------

  /** The cast to u64 saturates: what is negative becomes 0. */
  function ToU16(x: real): Option<nat> {
    var t := (x * 10000.0).Floor;
    if x < 0.0 then Some(0) else if t < U16_MAX then Some(t) else None
  }

  /** Division by a length of 0 gives no number, which casts to 0, for the bound itself, and an
      infinity for anything else. */
  function Norm(x: real, min: real, length: real): Option<nat> {
    if length == 0.0 then (if x <= min then Some(0) else None)
    else ToU16((x - min) / length)
  }

  function Denorm(n: nat, min: real, length: real): real {
    min + (n as real / 10000.0) * length
  }

  function CompressedPart(p: Part<real>, path: Path): Option<Part<nat>> {
    match p
    case MoveTo(x, y) =>
      var nx, ny := Norm(x, path.minX, path.width), Norm(y, path.minY, path.height);
      if nx.Some? && ny.Some? then Some(MoveTo(nx.value, ny.value)) else None
    case LineTo(x, y) =>
      var nx, ny := Norm(x, path.minX, path.width), Norm(y, path.minY, path.height);
      if nx.Some? && ny.Some? then Some(LineTo(nx.value, ny.value)) else None
    case Curve(x1, y1, x2, y2) =>
      var n1, m1 := Norm(x1, path.minX, path.width), Norm(y1, path.minY, path.height);
      var n2, m2 := Norm(x2, path.minX, path.width), Norm(y2, path.minY, path.height);
      if n1.Some? && m1.Some? && n2.Some? && m2.Some? then Some(Curve(n1.value, m1.value, n2.value, m2.value)) else None
    case Close => Some(Close)
  }

  function CompressedParts(parts: seq<Part<real>>, path: Path): Option<seq<Part<nat>>> {
    if parts == [] then Some([])
    else
      var before := CompressedParts(parts[..|parts| - 1], path);
      var last := CompressedPart(parts[|parts| - 1], path);
      if before.Some? && last.Some? then Some(before.value + [last.value]) else None
  }

  function CompressedPath(path: Path, narrow: real -> real): Option<CompactPath> {
    var parts := CompressedParts(path.parts, path);
    if parts.None? then None
    else Some(CompactPath(parts.value, narrow(path.minX), narrow(path.minY), narrow(path.width), narrow(path.height)))
  }

  lemma {:induction false} CompressionStops(parts: seq<Part<real>>, path: Path, i: nat)
    requires i <= |parts| && CompressedParts(parts[..i], path).None?
    ensures CompressedParts(parts, path).None?
    decreases |parts|
  {
    if i < |parts| {
      var init := parts[..|parts| - 1];
      assert init[..i] == parts[..i];
      CompressionStops(init, path, i);
    } else {
      assert parts[..i] == parts;
    }
  }

  lemma {:induction false} CompressedSnoc(parts: seq<Part<real>>, path: Path, i: nat)
    requires i < |parts| && CompressedParts(parts[..i], path).Some?
    ensures CompressedParts(parts[..i + 1], path) == var last := CompressedPart(parts[i], path);
      if last.None? then None else Some(CompressedParts(parts[..i], path).value + [last.value])
  {
    assert parts[..i + 1][..i] == parts[..i];
  }

  method CompressPath(entries: seq<Entry>, narrow: real -> real) returns (r: Option<CompactPath>)
    ensures Decoded(entries).None? ==> r.None?
    ensures Decoded(entries).Some? ==> r == CompressedPath(Decoded(entries).value, narrow)
  {
    var decoded := DecodePath(entries);
    if decoded.None? {
      return None;
    }
    var path := decoded.value;
    var parts: seq<Part<nat>> := [];
    for i := 0 to |path.parts|
      invariant CompressedParts(path.parts[..i], path) == Some(parts)
    {
      var part := CompressedPart(path.parts[i], path);
      CompressedSnoc(path.parts, path, i);
      if part.None? {
        CompressionStops(path.parts, path, i + 1);
        return None;
      }
      parts := parts + [part.value];
    }
    assert path.parts[..|path.parts|] == path.parts;
    return Some(CompactPath(parts, narrow(path.minX), narrow(path.minY), narrow(path.width), narrow(path.height)));
  }

  function DecompressedPart(p: Part<nat>, c: CompactPath): Part<real> {
    match p
    case MoveTo(x, y) => MoveTo(Denorm(x, c.minX, c.width), Denorm(y, c.minY, c.height))
    case LineTo(x, y) => LineTo(Denorm(x, c.minX, c.width), Denorm(y, c.minY, c.height))
    case Curve(x1, y1, x2, y2) =>
      Curve(Denorm(x1, c.minX, c.width), Denorm(y1, c.minY, c.height),
            Denorm(x2, c.minX, c.width), Denorm(y2, c.minY, c.height))
    case Close => Close
  }

  function DecompressedParts(parts: seq<Part<nat>>, c: CompactPath): (r: seq<Part<real>>)
    ensures |r| == |parts|
  {
    if parts == [] then []
    else DecompressedParts(parts[..|parts| - 1], c) + [DecompressedPart(parts[|parts| - 1], c)]
  }

  function DecompressedPath(c: CompactPath): Path {
    Path(DecompressedParts(c.parts, c), c.minX, c.minY, c.width, c.height)
  }

  method DecompressPath(c: CompactPath) returns (path: Path)
    ensures path == DecompressedPath(c)
  {
    var parts: seq<Part<real>> := [];
    for i := 0 to |c.parts|
      invariant parts == DecompressedParts(c.parts[..i], c)
    {
      assert c.parts[..i + 1][..i] == c.parts[..i];
      parts := parts + [DecompressedPart(c.parts[i], c)];
    }
    assert c.parts[..|c.parts|] == c.parts;
    return Path(parts, c.minX, c.minY, c.width, c.height);
  }

  // ---- One coordinate ----------------------------------------------------------------------------

  /** The extent of a path along one axis. */
  datatype Axis = Axis(min: real, length: real)

  predicate On(a: Axis, x: real) {
    a.min <= x <= a.min + a.length
  }

  lemma {:induction false} Fraction(x: real, length: real)
    requires 0.0 <= x <= length && length > 0.0
    ensures 0.0 <= x / length <= 1.0
    ensures (x / length) * length == x
    ensures x == length ==> x / length == 1.0
  {
  }

  lemma {:induction false} NormSucceeds(x: real, a: Axis)
    requires On(a, x)
    ensures Norm(x, a.min, a.length).Some? && Norm(x, a.min, a.length).value <= 10000
  {
    if a.length > 0.0 {
      Fraction(x - a.min, a.length);
    }
  }

  /** The number stored for a coordinate. */
  function Step(x: real, a: Axis): (n: nat)
    requires On(a, x)
    ensures n <= 10000 && Norm(x, a.min, a.length) == Some(n)
  {
    NormSucceeds(x, a);
    Norm(x, a.min, a.length).value
  }

  /** What compression with the extent `a` and decompression with the extent `b` make of it. */
  function Placed(x: real, a: Axis, b: Axis): real
    requires On(a, x)
  {
    Denorm(Step(x, a), b.min, b.length)
  }

  lemma {:induction false} StoredFraction(f: real)
    requires 0.0 <= f <= 1.0
    ensures ToU16(f).Some? && ToU16(f).value as real <= f * 10000.0 < ToU16(f).value as real + 1.0
    ensures f == 0.0 ==> ToU16(f) == Some(0)
    ensures f == 1.0 ==> ToU16(f) == Some(10000)
  {
  }

  /** The number stored is the whole part of the ten-thousandths; the ends are stored exactly. */
  lemma {:induction false} StepOfFraction(x: real, a: Axis)
    requires On(a, x)
    ensures a.length > 0.0 ==> var f := (x - a.min) / a.length;
      0.0 <= f <= 1.0 && f * a.length == x - a.min
      && Step(x, a) as real <= f * 10000.0 < Step(x, a) as real + 1.0
    ensures x == a.min ==> Step(x, a) == 0
    ensures x == a.min + a.length && a.length > 0.0 ==> Step(x, a) == 10000
  {
    if a.length > 0.0 {
      Fraction(x - a.min, a.length);
      StoredFraction((x - a.min) / a.length);
    }
  }

  lemma {:induction false} ScaleFraction(n: nat, f: real, length: real, whole: real, part: real)
    requires length > 0.0 && n as real <= f * 10000.0 < n as real + 1.0
    requires whole == f * length && part == (n as real / 10000.0) * length
    ensures part <= whole && (whole - part) * 10000.0 < length
  {
    var d := f - n as real / 10000.0;
    assert 0.0 <= d && d * 10000.0 < 1.0;
    assert whole - part == d * length;
    assert 0.0 <= d * length;
    assert (d * length) * 10000.0 == (d * 10000.0) * length < 1.0 * length;
  }

  /** With the same extent on both sides the error is less than a ten-thousandth of it, and never
      upward. */
  lemma {:induction false} PlacedError(x: real, a: Axis)
    requires On(a, x)
    ensures a.min <= Placed(x, a, a) <= x
    ensures a.length > 0.0 ==> (x - Placed(x, a, a)) * 10000.0 < a.length
  {
    if a.length > 0.0 {
      StepOfFraction(x, a);
      var n, f := Step(x, a), (x - a.min) / a.length;
      var part := (n as real / 10000.0) * a.length;
      NonNegative(n, a.length);
      ScaleFraction(n, f, a.length, x - a.min, part);
      assert x - Placed(x, a, a) == (x - a.min) - part;
    }
  }

  lemma {:induction false} NonNegative(n: nat, length: real)
    requires length >= 0.0
    ensures 0.0 <= (n as real / 10000.0) * length
  {
  }

  /** Another extent on the way back moves the result by the difference of the lower ends and a
      share of the difference of the lengths. */
  lemma {:induction false} PlacedDrift(x: real, a: Axis, b: Axis) returns (f: real)
    requires On(a, x)
    ensures 0.0 <= f <= 1.0 && Placed(x, a, b) == Placed(x, a, a) + (b.min - a.min) + f * (b.length - a.length)
  {
    f := Step(x, a) as real / 10000.0;
    assert f * b.length - f * a.length == f * (b.length - a.length);
  }

  lemma {:induction false} ProductMonotone(m: nat, n: nat, length: real)
    requires m <= n && length >= 0.0
    ensures (m as real / 10000.0) * length <= (n as real / 10000.0) * length
  {
  }

  lemma {:induction false} PlacedInside(x: real, a: Axis, b: Axis)
    requires On(a, x) && b.length >= 0.0
    ensures On(b, Placed(x, a, b))
  {
    ProductMonotone(0, Step(x, a), b.length);
    ProductMonotone(Step(x, a), 10000, b.length);
  }

  /** The ends of one extent go to the ends of the other, unless only the first is a point. */
  lemma {:induction false} PlacedEnds(a: Axis, b: Axis)
    requires a.length >= 0.0 && (a.length == 0.0 ==> b.length == 0.0)
    ensures Placed(a.min, a, b) == b.min && Placed(a.min + a.length, a, b) == b.min + b.length
  {
    StepOfFraction(a.min, a);
    StepOfFraction(a.min + a.length, a);
  }

  lemma {:induction false} QuotientMonotone(a: real, b: real, length: real)
    requires a <= b && length > 0.0
    ensures a / length <= b / length
  {
  }

  lemma {:induction false} StepMonotone(x: real, y: real, a: Axis)
    requires On(a, x) && On(a, y) && x <= y
    ensures Step(x, a) <= Step(y, a)
  {
    if a.length > 0.0 {
      QuotientMonotone(x - a.min, y - a.min, a.length);
      Fraction(x - a.min, a.length);
    }
  }

  /** Order is kept. */
  lemma {:induction false} PlacedMonotone(x: real, y: real, a: Axis, b: Axis)
    requires On(a, x) && On(a, y) && x <= y && b.length >= 0.0
    ensures Placed(x, a, b) <= Placed(y, a, b)
  {
    StepMonotone(x, y, a);
    ProductMonotone(Step(x, a), Step(y, a), b.length);
  }

  lemma {:induction false} QuotientOfProduct(f: real, length: real)
    requires length > 0.0
    ensures (f * length) / length == f
  {
  }

  lemma {:induction false} ToU16Exact(n: nat)
    requires n <= 10000
    ensures ToU16(n as real / 10000.0) == Some(n)
  {
    assert (n as real / 10000.0) * 10000.0 == n as real;
  }

  /** A placed coordinate compresses to the number it came from, unless the extent has become a
      point. */
  lemma {:induction false} PlacedAgain(x: real, a: Axis, b: Axis)
    requires On(a, x) && b.length >= 0.0
    ensures On(b, Placed(x, a, b))
    ensures b.length > 0.0 ==> Step(Placed(x, a, b), b) == Step(x, a)
    ensures b.length == 0.0 ==> Step(Placed(x, a, b), b) == 0
  {
    PlacedInside(x, a, b);
    if b.length > 0.0 {
      var n, p := Step(x, a), Placed(x, a, b);
      QuotientOfProduct(n as real / 10000.0, b.length);
      assert p - b.min == (n as real / 10000.0) * b.length;
      assert (p - b.min) / b.length == n as real / 10000.0;
      ToU16Exact(n);
    }
  }

  // ---- Bounding boxes ------------------------------------------------------------------------------

  predicate InBox(b: Box, x: real, y: real) {
    b.minX <= x <= b.maxX && b.minY <= y <= b.maxY
  }

  predicate PartInBox(b: Box, p: Part<real>) {
    match p
    case MoveTo(x, y) => InBox(b, x, y)
    case LineTo(x, y) => InBox(b, x, y)
    case Curve(x1, y1, x2, y2) => InBox(b, x1, y1) && InBox(b, x2, y2)
    case Close => true
  }

  predicate AllInBox(b: Box, parts: seq<Part<real>>) {
    forall i :: 0 <= i < |parts| ==> PartInBox(b, parts[i])
  }

  /** Every coordinate is a number that fits. */
  predicate Finite(parts: seq<Part<real>>) {
    AllInBox(Box(-HUGE, HUGE, -HUGE, HUGE), parts)
  }

  predicate Within(inner: Box, outer: Box) {
    outer.minX <= inner.minX && inner.maxX <= outer.maxX && outer.minY <= inner.minY && inner.maxY <= outer.maxY
  }

  lemma {:induction false} BoxHolds(parts: seq<Part<real>>, i: nat)
    requires i < |parts|
    ensures PartInBox(BoxOf(parts), parts[i])
    decreases |parts|
  {
    var init := parts[..|parts| - 1];
    if i < |init| {
      BoxHolds(init, i);
      assert init[i] == parts[i];
      assert Within(BoxOf(init), BoxOf(parts));
    }
  }

  predicate HasPoint(parts: seq<Part<real>>) {
    parts != [] && (!parts[|parts| - 1].Close? || HasPoint(parts[..|parts| - 1]))
  }

  lemma {:induction false} PointlessBox(parts: seq<Part<real>>)
    requires !HasPoint(parts)
    ensures BoxOf(parts) == BoxOf([])
  {
    if parts != [] {
      PointlessBox(parts[..|parts| - 1]);
    }
  }

  // ---- Placing a whole path ----------------------------------------------------------------------------

  /** An extent along both axes. */
  datatype Frame = Frame(x: Axis, y: Axis)

  function FrameOf(b: Box): Frame {
    Frame(Axis(b.minX, b.maxX - b.minX), Axis(b.minY, b.maxY - b.minY))
  }

  predicate Upright(t: Frame) {
    t.x.length >= 0.0 && t.y.length >= 0.0
  }

  function PlacePart(b: Box, t: Frame, p: Part<real>): Part<real>
    requires PartInBox(b, p)
  {
    var f := FrameOf(b);
    match p
    case MoveTo(x, y) => MoveTo(Placed(x, f.x, t.x), Placed(y, f.y, t.y))
    case LineTo(x, y) => LineTo(Placed(x, f.x, t.x), Placed(y, f.y, t.y))
    case Curve(x1, y1, x2, y2) =>
      Curve(Placed(x1, f.x, t.x), Placed(y1, f.y, t.y), Placed(x2, f.x, t.x), Placed(y2, f.y, t.y))
    case Close => Close
  }

  function PlaceParts(b: Box, t: Frame, parts: seq<Part<real>>): (r: seq<Part<real>>)
    requires AllInBox(b, parts)
    ensures |r| == |parts| && forall i :: 0 <= i < |parts| ==> r[i] == PlacePart(b, t, parts[i])
  {
    if parts == [] then [] else PlaceParts(b, t, parts[..|parts| - 1]) + [PlacePart(b, t, parts[|parts| - 1])]
  }

  predicate Contains(b: Box, inner: Box) {
    Within(inner, b) && inner.minX <= inner.maxX && inner.minY <= inner.maxY
  }

  function PlaceBox(b: Box, t: Frame, inner: Box): Box
    requires Contains(b, inner)
  {
    var f := FrameOf(b);
    Box(Placed(inner.minX, f.x, t.x), Placed(inner.maxX, f.x, t.x),
        Placed(inner.minY, f.y, t.y), Placed(inner.maxY, f.y, t.y))
  }

  lemma {:induction false} PlacedOrder(x: real, y: real, a: Axis, b: Axis)
    requires On(a, x) && On(a, y) && b.length >= 0.0
    ensures x <= y ==> Placed(x, a, b) <= Placed(y, a, b)
    ensures y <= x ==> Placed(y, a, b) <= Placed(x, a, b)
  {
    if x <= y {
      PlacedMonotone(x, y, a, b);
    } else {
      PlacedMonotone(y, x, a, b);
    }
  }

  lemma {:induction false} PlaceTouches(b: Box, t: Frame, inner: Box, x: real, y: real)
    requires Contains(b, inner) && InBox(b, x, y) && Upright(t)
    ensures Touch(PlaceBox(b, t, inner), Placed(x, FrameOf(b).x, t.x), Placed(y, FrameOf(b).y, t.y))
         == PlaceBox(b, t, Touch(inner, x, y))
  {
    var f := FrameOf(b);
    PlacedOrder(x, inner.minX, f.x, t.x);
    PlacedOrder(x, inner.maxX, f.x, t.x);
    PlacedOrder(y, inner.minY, f.y, t.y);
    PlacedOrder(y, inner.maxY, f.y, t.y);
  }

  /** Everything that is placed can be written as a number. */
  predicate Fits(t: Frame) {
    -HUGE <= t.x.min && t.x.min + t.x.length <= HUGE && -HUGE <= t.y.min && t.y.min + t.y.length <= HUGE
  }

  lemma {:induction false} FirstTouch(b: Box, t: Frame, x: real, y: real)
    requires Fits(FrameOf(b)) && Fits(t) && Upright(t) && InBox(b, x, y)
    ensures Touch(BoxOf([]), x, y) == Box(x, x, y, y)
    ensures Touch(BoxOf([]), Placed(x, FrameOf(b).x, t.x), Placed(y, FrameOf(b).y, t.y))
         == PlaceBox(b, t, Box(x, x, y, y))
  {
    PlacedInside(x, FrameOf(b).x, t.x);
    PlacedInside(y, FrameOf(b).y, t.y);
  }

  lemma {:induction false} GrowPlaced(b: Box, t: Frame, inner: Box, p: Part<real>)
    requires Contains(b, inner) && PartInBox(b, p) && Upright(t)
    ensures Contains(b, Grown(inner, p))
    ensures Grown(PlaceBox(b, t, inner), PlacePart(b, t, p)) == PlaceBox(b, t, Grown(inner, p))
  {
    match p
    case MoveTo(x, y) => PlaceTouches(b, t, inner, x, y);
    case LineTo(x, y) => PlaceTouches(b, t, inner, x, y);
    case Curve(x1, y1, x2, y2) =>
      PlaceTouches(b, t, inner, x1, y1);
      PlaceTouches(b, t, Touch(inner, x1, y1), x2, y2);
    case Close =>
  }

  lemma {:induction false} GrowFirst(b: Box, t: Frame, p: Part<real>)
    requires Fits(FrameOf(b)) && Fits(t) && Upright(t) && PartInBox(b, p) && !p.Close?
    ensures Contains(b, Grown(BoxOf([]), p))
    ensures Grown(BoxOf([]), PlacePart(b, t, p)) == PlaceBox(b, t, Grown(BoxOf([]), p))
  {
    match p
    case MoveTo(x, y) => FirstTouch(b, t, x, y);
    case LineTo(x, y) => FirstTouch(b, t, x, y);
    case Curve(x1, y1, x2, y2) =>
      FirstTouch(b, t, x1, y1);
      PlaceTouches(b, t, Box(x1, x1, y1, y1), x2, y2);
  }

  /** The box of a placed path is the placed box. */
  lemma {:induction false} BoxOfPlaced(b: Box, t: Frame, parts: seq<Part<real>>)
    requires Fits(FrameOf(b)) && Fits(t) && Upright(t) && AllInBox(b, parts) && HasPoint(parts)
    ensures Contains(b, BoxOf(parts)) && BoxOf(PlaceParts(b, t, parts)) == PlaceBox(b, t, BoxOf(parts))
  {
    var init, last := parts[..|parts| - 1], parts[|parts| - 1];
    var placed := PlaceParts(b, t, parts);
    assert placed[..|placed| - 1] == PlaceParts(b, t, init);
    assert BoxOf(placed) == Grown(BoxOf(PlaceParts(b, t, init)), PlacePart(b, t, last));
    if HasPoint(init) {
      BoxOfPlaced(b, t, init);
      GrowPlaced(b, t, BoxOf(init), last);
    } else {
      PointlessBox(init);
      PointlessPlaced(b, t, init);
      PointlessBox(PlaceParts(b, t, init));
      GrowFirst(b, t, last);
    }
  }

  lemma {:induction false} PointlessPlaced(b: Box, t: Frame, parts: seq<Part<real>>)
    requires !HasPoint(parts) && AllInBox(b, parts)
    ensures !HasPoint(PlaceParts(b, t, parts)) && PlaceParts(b, t, parts) == parts
  {
    if parts != [] {
      PointlessPlaced(b, t, parts[..|parts| - 1]);
      var placed := PlaceParts(b, t, parts);
      assert placed[..|placed| - 1] == PlaceParts(b, t, parts[..|parts| - 1]);
      assert parts == parts[..|parts| - 1] + [Close];
    }
  }

  lemma {:induction false} AllInOwnBox(parts: seq<Part<real>>)
    ensures AllInBox(BoxOf(parts), parts)
  {
    forall i | 0 <= i < |parts| ensures PartInBox(BoxOf(parts), parts[i]) {
      BoxHolds(parts, i);
    }
  }

  // ---- Narrowing the box ------------------------------------------------------------------------------------

  /** The largest 32-bit number. */
  const HUGE32: real := 3.4028234663852886e38

  /** Rounding to numbers that 32 bits can hold: it keeps the order, does nothing twice, and keeps
      0 and the largest numbers as they are. */
  ghost predicate Narrowing(narrow: real -> real) {
    && (forall x, y :: x <= y ==> narrow(x) <= narrow(y))
    && (forall x :: narrow(narrow(x)) == narrow(x))
    && narrow(0.0) == 0.0 && narrow(HUGE32) == HUGE32 && narrow(-HUGE32) == -HUGE32
  }

  /** The frame that a compact path holds. */
  function NarrowFrame(b: Box, narrow: real -> real): Frame {
    Frame(Axis(narrow(b.minX), narrow(b.maxX - b.minX)), Axis(narrow(b.minY), narrow(b.maxY - b.minY)))
  }

  /** The box and its extents are in the range of 32 bits. */
  predicate InRange(b: Box) {
    && -HUGE32 <= b.minX <= b.maxX <= HUGE32 && b.maxX - b.minX <= HUGE32
    && -HUGE32 <= b.minY <= b.maxY <= HUGE32 && b.maxY - b.minY <= HUGE32
  }

  lemma {:induction false} AxisNarrows(narrow: real -> real, min: real, length: real)
    requires Narrowing(narrow) && -HUGE32 <= min <= HUGE32 && 0.0 <= length <= HUGE32
    ensures -HUGE32 <= narrow(min) <= HUGE32 && 0.0 <= narrow(length) <= HUGE32
    ensures narrow(narrow(min)) == narrow(min) && narrow(narrow(length)) == narrow(length)
  {
  }

  lemma {:induction false} NarrowFits(b: Box, narrow: real -> real)
    requires Narrowing(narrow) && InRange(b)
    ensures Fits(FrameOf(b)) && Fits(NarrowFrame(b, narrow)) && Upright(NarrowFrame(b, narrow))
  {
    AxisNarrows(narrow, b.minX, b.maxX - b.minX);
    AxisNarrows(narrow, b.minY, b.maxY - b.minY);
  }

  /** The box that comes back is the narrowed one. */
  lemma {:induction false} BoxComesBack(parts: seq<Part<real>>, narrow: real -> real)
    requires Narrowing(narrow) && HasPoint(parts) && InRange(BoxOf(parts)) && AllInBox(BoxOf(parts), parts)
    ensures FrameOf(BoxOf(PlaceParts(BoxOf(parts), NarrowFrame(BoxOf(parts), narrow), parts)))
         == NarrowFrame(BoxOf(parts), narrow)
  {
    var b := BoxOf(parts);
    var t := NarrowFrame(b, narrow);
    NarrowFits(b, narrow);
    BoxOfPlaced(b, t, parts);
    PlacedEnds(FrameOf(b).x, t.x);
    PlacedEnds(FrameOf(b).y, t.y);
  }

  // ---- Round trips ------------------------------------------------------------------------------------------

  /** A path or a compact path with this frame. */
  predicate PathFrame(path: Path, f: Frame) {
    path.minX == f.x.min && path.width == f.x.length && path.minY == f.y.min && path.height == f.y.length
  }

  predicate CompactFrame(c: CompactPath, f: Frame) {
    c.minX == f.x.min && c.width == f.x.length && c.minY == f.y.min && c.height == f.y.length
  }

  function StepPart(f: Frame, p: Part<real>): Part<nat>
    requires PartOn(f, p)
  {
    match p
    case MoveTo(x, y) => MoveTo(Step(x, f.x), Step(y, f.y))
    case LineTo(x, y) => LineTo(Step(x, f.x), Step(y, f.y))
    case Curve(x1, y1, x2, y2) => Curve(Step(x1, f.x), Step(y1, f.y), Step(x2, f.x), Step(y2, f.y))
    case Close => Close
  }

  predicate PartOn(f: Frame, p: Part<real>) {
    match p
    case MoveTo(x, y) => On(f.x, x) && On(f.y, y)
    case LineTo(x, y) => On(f.x, x) && On(f.y, y)
    case Curve(x1, y1, x2, y2) => On(f.x, x1) && On(f.y, y1) && On(f.x, x2) && On(f.y, y2)
    case Close => true
  }

  /** Inside its frame a path compresses part by part. */
  lemma {:induction false} CompressesByStep(f: Frame, parts: seq<Part<real>>, path: Path)
    requires PathFrame(path, f) && forall i :: 0 <= i < |parts| ==> PartOn(f, parts[i])
    ensures CompressedParts(parts, path).Some? && |CompressedParts(parts, path).value| == |parts|
    ensures forall i :: 0 <= i < |parts| ==> CompressedParts(parts, path).value[i] == StepPart(f, parts[i])
  {
    if parts != [] {
      CompressesByStep(f, parts[..|parts| - 1], path);
      PartCompresses(f, parts[|parts| - 1], path);
    }
  }

  lemma {:induction false} PartCompresses(f: Frame, p: Part<real>, path: Path)
    requires PathFrame(path, f) && PartOn(f, p)
    ensures CompressedPart(p, path) == Some(StepPart(f, p))
  {
  }

  lemma {:induction false} DecompressesByPart(parts: seq<Part<nat>>, c: CompactPath)
    ensures forall i :: 0 <= i < |parts| ==> DecompressedParts(parts, c)[i] == DecompressedPart(parts[i], c)
  {
    if parts != [] {
      DecompressesByPart(parts[..|parts| - 1], c);
    }
  }

  lemma {:induction false} PartOnFrame(b: Box, p: Part<real>)
    requires PartInBox(b, p)
    ensures PartOn(FrameOf(b), p)
  {
  }

  lemma {:induction false} PartComesBack(b: Box, t: Frame, p: Part<real>, c: CompactPath)
    requires PartInBox(b, p) && CompactFrame(c, t)
    ensures PartOn(FrameOf(b), p) && DecompressedPart(StepPart(FrameOf(b), p), c) == PlacePart(b, t, p)
  {
  }

  lemma {:induction false} PartsComeBack(b: Box, t: Frame, parts: seq<Part<real>>, c: CompactPath)
    requires AllInBox(b, parts) && CompactFrame(c, t) && |c.parts| == |parts|
    requires forall i :: 0 <= i < |parts| ==>
      PartOn(FrameOf(b), parts[i]) && c.parts[i] == StepPart(FrameOf(b), parts[i])
    ensures DecompressedParts(c.parts, c) == PlaceParts(b, t, parts)
  {
    DecompressesByPart(c.parts, c);
    forall i | 0 <= i < |parts| ensures DecompressedParts(c.parts, c)[i] == PlaceParts(b, t, parts)[i] {
      PartComesBack(b, t, parts[i], c);
    }
  }

  /** Compression of a path that decodes never fails, and what comes back is the path with every
      part, in its place, of the kind it was, and every coordinate placed in the narrowed box. */
  lemma {:induction false} CompressionRoundTrip(parts: seq<Part<real>>, narrow: real -> real)
    ensures CompressedPath(BoxedPath(parts), narrow).Some? && AllInBox(BoxOf(parts), parts)
    ensures DecompressedPath(CompressedPath(BoxedPath(parts), narrow).value).parts
         == PlaceParts(BoxOf(parts), NarrowFrame(BoxOf(parts), narrow), parts)
  {
    var b, path, t := BoxOf(parts), BoxedPath(parts), NarrowFrame(BoxOf(parts), narrow);
    AllInOwnBox(parts);
    AllOnFrame(b, parts);
    CompressesByStep(FrameOf(b), parts, path);
    var c := CompressedPath(path, narrow).value;
    PartsComeBack(b, t, parts, c);
  }

  /** A coordinate comes back within a ten-thousandth of the extent, give or take what narrowing did
      to the lower bound and a share of what it did to the extent. */
  lemma {:induction false} PlaceIsClose(min: real, length: real, narrow: real -> real, x: real) returns (f: real)
    requires On(Axis(min, length), x)
    ensures 0.0 <= f <= 1.0
    ensures var a, t := Axis(min, length), Axis(narrow(min), narrow(length));
      Placed(x, a, t) == Placed(x, a, a) + (narrow(min) - min) + f * (narrow(length) - length)
    ensures var a := Axis(min, length);
      Placed(x, a, a) <= x && (0.0 < length ==> (x - Placed(x, a, a)) * 10000.0 < length)
  {
    PlacedError(x, Axis(min, length));
    f := PlacedDrift(x, Axis(min, length), Axis(narrow(min), narrow(length)));
  }

  /** The order of coordinates is kept, and the bounds go to the bounds. */
  lemma {:induction false} PlaceKeepsOrder(min: real, length: real, narrow: real -> real, x: real, y: real)
    requires Narrowing(narrow) && -HUGE32 <= min <= HUGE32 && 0.0 <= length <= HUGE32
    requires On(Axis(min, length), x) && On(Axis(min, length), y)
    ensures var a, t := Axis(min, length), Axis(narrow(min), narrow(length));
      && (x <= y ==> Placed(x, a, t) <= Placed(y, a, t))
      && Placed(min, a, t) == narrow(min) && Placed(min + length, a, t) == narrow(min) + narrow(length)
  {
    AxisNarrows(narrow, min, length);
    PlacedOrder(x, y, Axis(min, length), Axis(narrow(min), narrow(length)));
    PlacedEnds(Axis(min, length), Axis(narrow(min), narrow(length)));
  }

  // ---- Compressing again ---------------------------------------------------------------------------------------

  /** Narrowing does not make a point of an extent that is none. */
  predicate KeepsExtents(b: Box, narrow: real -> real) {
    && (narrow(b.maxX - b.minX) == 0.0 ==> b.maxX == b.minX)
    && (narrow(b.maxY - b.minY) == 0.0 ==> b.maxY == b.minY)
  }

  lemma {:induction false} StepAgain(b: Box, t: Frame, p: Part<real>)
    requires PartInBox(b, p) && Upright(t)
    requires t.x.length == 0.0 ==> b.maxX == b.minX
    requires t.y.length == 0.0 ==> b.maxY == b.minY
    ensures PartOn(t, PlacePart(b, t, p)) && PartOn(FrameOf(b), p)
    ensures StepPart(t, PlacePart(b, t, p)) == StepPart(FrameOf(b), p)
  {
    var f := FrameOf(b);
    match p
    case MoveTo(x, y) =>
      SameStep(x, f.x, t.x);
      SameStep(y, f.y, t.y);
    case LineTo(x, y) =>
      SameStep(x, f.x, t.x);
      SameStep(y, f.y, t.y);
    case Curve(x1, y1, x2, y2) =>
      SameStep(x1, f.x, t.x);
      SameStep(y1, f.y, t.y);
      SameStep(x2, f.x, t.x);
      SameStep(y2, f.y, t.y);
    case Close =>
  }

  lemma {:induction false} SameStep(x: real, a: Axis, b: Axis)
    requires On(a, x) && b.length >= 0.0 && (b.length == 0.0 ==> a.length == 0.0)
    ensures On(b, Placed(x, a, b)) && Step(Placed(x, a, b), b) == Step(x, a)
  {
    PlacedAgain(x, a, b);
    StepOfFraction(x, a);
  }

  lemma {:induction false} FlatStep(b: Box, t: Frame, p: Part<real>)
    requires PartInBox(b, p) && Upright(t)
    ensures PartOn(t, PlacePart(b, t, p)) && PartOn(FrameOf(b), p)
    ensures t.x.length == 0.0 && TouchesX(p, b.maxX) && b.minX < b.maxX ==>
      StepPart(t, PlacePart(b, t, p)) != StepPart(FrameOf(b), p)
    ensures t.y.length == 0.0 && TouchesY(p, b.maxY) && b.minY < b.maxY ==>
      StepPart(t, PlacePart(b, t, p)) != StepPart(FrameOf(b), p)
  {
    var f := FrameOf(b);
    StepOfEnds(b);
    match p
    case MoveTo(x, y) =>
      PlacedAgain(x, f.x, t.x);
      PlacedAgain(y, f.y, t.y);
    case LineTo(x, y) =>
      PlacedAgain(x, f.x, t.x);
      PlacedAgain(y, f.y, t.y);
    case Curve(x1, y1, x2, y2) =>
      PlacedAgain(x1, f.x, t.x);
      PlacedAgain(y1, f.y, t.y);
      PlacedAgain(x2, f.x, t.x);
      PlacedAgain(y2, f.y, t.y);
    case Close =>
  }

  lemma {:induction false} StepOfEnds(b: Box)
    ensures b.minX < b.maxX ==> Step(b.maxX, FrameOf(b).x) == 10000
    ensures b.minY < b.maxY ==> Step(b.maxY, FrameOf(b).y) == 10000
  {
    if b.minX < b.maxX {
      StepOfFraction(b.maxX, FrameOf(b).x);
    }
    if b.minY < b.maxY {
      StepOfFraction(b.maxY, FrameOf(b).y);
    }
  }

  predicate TouchesX(p: Part<real>, x: real) {
    match p
    case MoveTo(x1, _) => x1 == x
    case LineTo(x1, _) => x1 == x
    case Curve(x1, _, x2, _) => x1 == x || x2 == x
    case Close => false
  }

  predicate TouchesY(p: Part<real>, y: real) {
    match p
    case MoveTo(_, y1) => y1 == y
    case LineTo(_, y1) => y1 == y
    case Curve(_, y1, _, y2) => y1 == y || y2 == y
    case Close => false
  }

  /** The upper bounds of a box are reached. */
  lemma {:induction false} BoundsReached(parts: seq<Part<real>>) returns (i: nat, j: nat)
    requires HasPoint(parts) && Finite(parts)
    ensures i < |parts| && TouchesX(parts[i], BoxOf(parts).maxX)
    ensures j < |parts| && TouchesY(parts[j], BoxOf(parts).maxY)
  {
    var n := |parts| - 1;
    var init := parts[..n];
    if HasPoint(init) {
      i, j := BoundsReached(init);
    } else {
      PointlessBox(init);
      i, j := n, n;
    }
    if BoxOf(parts).maxX != BoxOf(init).maxX {
      i := n;
    }
    if BoxOf(parts).maxY != BoxOf(init).maxY {
      j := n;
    }
  }

  lemma {:induction false} PointlessAgain(parts: seq<Part<real>>, narrow: real -> real)
    requires !HasPoint(parts)
    ensures CompressedPath(BoxedPath(parts), narrow).Some?
    ensures DecompressedPath(CompressedPath(BoxedPath(parts), narrow).value).parts == parts
  {
    CompressionRoundTrip(parts, narrow);
    PointlessPlaced(BoxOf(parts), NarrowFrame(BoxOf(parts), narrow), parts);
  }

  /** The compact form of what comes back, part by part. */
  lemma {:induction false} CompressedAgain(parts: seq<Part<real>>, narrow: real -> real) returns (again: CompactPath)
    requires Narrowing(narrow) && HasPoint(parts) && InRange(BoxOf(parts))
    ensures AllInBox(BoxOf(parts), parts) && CompressedPath(BoxedPath(parts), narrow).Some?
    ensures var b, t := BoxOf(parts), NarrowFrame(BoxOf(parts), narrow);
      && CompressedPath(BoxedPath(PlaceParts(b, t, parts)), narrow) == Some(again)
      && CompactFrame(again, t) && |again.parts| == |parts|
      && forall i :: 0 <= i < |parts| ==>
           PartOn(t, PlacePart(b, t, parts[i])) && again.parts[i] == StepPart(t, PlacePart(b, t, parts[i]))
  {
    var b, t := BoxOf(parts), NarrowFrame(BoxOf(parts), narrow);
    CompressionRoundTrip(parts, narrow);
    NarrowFits(b, narrow);
    BoxComesBack(parts, narrow);
    var placed := PlaceParts(b, t, parts);
    forall i | 0 <= i < |placed| ensures PartOn(t, placed[i]) {
      FlatStep(b, t, parts[i]);
    }
    CompressesByStep(t, placed, BoxedPath(placed));
    again := CompressedPath(BoxedPath(placed), narrow).value;
    AxisNarrows(narrow, b.minX, b.maxX - b.minX);
    AxisNarrows(narrow, b.minY, b.maxY - b.minY);
  }

  /** Compressing what decompression gives back yields the same compact path exactly when narrowing
      did not make a point of an extent. */
  lemma {:induction false} RecompressionStableIff(parts: seq<Part<real>>, narrow: real -> real)
    requires Narrowing(narrow) && Finite(parts) && (HasPoint(parts) ==> InRange(BoxOf(parts)))
    ensures CompressedPath(BoxedPath(parts), narrow).Some?
    ensures var c := CompressedPath(BoxedPath(parts), narrow).value;
      CompressedPath(BoxedPath(DecompressedPath(c).parts), narrow) == Some(c) <==>
        !HasPoint(parts) || KeepsExtents(BoxOf(parts), narrow)
  {
    CompressionRoundTrip(parts, narrow);
    if HasPoint(parts) {
      StableWithPoints(parts, narrow);
    } else {
      PointlessAgain(parts, narrow);
    }
  }

  lemma {:induction false} StableIfKept(parts: seq<Part<real>>, narrow: real -> real, c: CompactPath,
                                        again: CompactPath)
    requires AllInBox(BoxOf(parts), parts) && |c.parts| == |again.parts| == |parts|
    requires var b, t := BoxOf(parts), NarrowFrame(BoxOf(parts), narrow);
      && Upright(t) && KeepsExtents(b, narrow) && CompactFrame(c, t) && CompactFrame(again, t)
      && (forall i :: 0 <= i < |parts| ==> PartOn(FrameOf(b), parts[i]) && c.parts[i] == StepPart(FrameOf(b), parts[i]))
      && (forall i :: 0 <= i < |parts| ==>
           PartOn(t, PlacePart(b, t, parts[i])) && again.parts[i] == StepPart(t, PlacePart(b, t, parts[i])))
    ensures again == c
  {
    forall i | 0 <= i < |parts| ensures again.parts[i] == c.parts[i] {
      StepAgain(BoxOf(parts), NarrowFrame(BoxOf(parts), narrow), parts[i]);
    }
    assert again.parts == c.parts;
  }

  lemma {:induction false} FlatDiffers(parts: seq<Part<real>>, narrow: real -> real, c: CompactPath, again: CompactPath)
    requires HasPoint(parts) && Finite(parts) && InRange(BoxOf(parts))
    requires AllInBox(BoxOf(parts), parts) && |c.parts| == |again.parts| == |parts|
    requires var b, t := BoxOf(parts), NarrowFrame(BoxOf(parts), narrow);
      && Upright(t) && !KeepsExtents(b, narrow)
      && (forall i :: 0 <= i < |parts| ==> PartOn(FrameOf(b), parts[i]) && c.parts[i] == StepPart(FrameOf(b), parts[i]))
      && (forall i :: 0 <= i < |parts| ==>
           PartOn(t, PlacePart(b, t, parts[i])) && again.parts[i] == StepPart(t, PlacePart(b, t, parts[i])))
    ensures again != c
  {
    var i, j := BoundsReached(parts);
    FlatStep(BoxOf(parts), NarrowFrame(BoxOf(parts), narrow), parts[i]);
    FlatStep(BoxOf(parts), NarrowFrame(BoxOf(parts), narrow), parts[j]);
    assert again.parts[i] != c.parts[i] || again.parts[j] != c.parts[j];
  }

  lemma {:induction false} StableWithPoints(parts: seq<Part<real>>, narrow: real -> real)
    requires Narrowing(narrow) && Finite(parts) && HasPoint(parts) && InRange(BoxOf(parts))
    ensures CompressedPath(BoxedPath(parts), narrow).Some?
    ensures var c := CompressedPath(BoxedPath(parts), narrow).value;
      CompressedPath(BoxedPath(DecompressedPath(c).parts), narrow) == Some(c) <==> KeepsExtents(BoxOf(parts), narrow)
  {
    var b := BoxOf(parts);
    CompressionRoundTrip(parts, narrow);
    var c := CompressedPath(BoxedPath(parts), narrow).value;
    AllOnFrame(b, parts);
    CompressesByStep(FrameOf(b), parts, BoxedPath(parts));
    NarrowFits(b, narrow);
    var again := CompressedAgain(parts, narrow);
    if KeepsExtents(b, narrow) {
      StableIfKept(parts, narrow, c, again);
    } else {
      FlatDiffers(parts, narrow, c, again);
    }
  }

  lemma {:induction false} AllOnFrame(b: Box, parts: seq<Part<real>>)
    requires AllInBox(b, parts)
    ensures forall i :: 0 <= i < |parts| ==> PartOn(FrameOf(b), parts[i])
  {
    forall i | 0 <= i < |parts| ensures PartOn(FrameOf(b), parts[i]) {
      PartOnFrame(b, parts[i]);
    }
  }

  lemma FlushNarrows()
    ensures Narrowing((x: real) => if -1.0e-45 < x < 1.0e-45 then 0.0 else x)
  {
  }

  lemma TinyLineBox()
    ensures BoxOf([MoveTo(0.0, 0.0), LineTo(1.0e-46, 0.0)]) == Box(0.0, 1.0e-46, 0.0, 0.0)
  {
    var line := [MoveTo(0.0, 0.0), LineTo(1.0e-46, 0.0)];
    assert line[..1] == [MoveTo(0.0, 0.0)] && line[..1][..0] == [];
    assert BoxOf(line[..1]) == Box(0.0, 0.0, 0.0, 0.0);
  }

  /** A line shorter than the smallest number that 32 bits can hold, and a cast that drops it. */
  lemma TinyLineChanges()
    ensures var narrow := (x: real) => if -1.0e-45 < x < 1.0e-45 then 0.0 else x;
      var line := [MoveTo(0.0, 0.0), LineTo(1.0e-46, 0.0)];
      && Narrowing(narrow) && CompressedPath(BoxedPath(line), narrow).Some?
      && var c := CompressedPath(BoxedPath(line), narrow).value;
      CompressedPath(BoxedPath(DecompressedPath(c).parts), narrow) != Some(c)
  {
    var narrow := (x: real) => if -1.0e-45 < x < 1.0e-45 then 0.0 else x;
    var line := [MoveTo(0.0, 0.0), LineTo(1.0e-46, 0.0)];
    TinyLineBox();
    FlushNarrows();
    RecompressionStableIff(line, narrow);
  }

  /** Decoding fails on malformed input only, and so does compression. */
  lemma {:induction false} CompressionFailsIff(entries: seq<Entry>, narrow: real -> real)
    ensures (Decoded(entries).Some? && CompressedPath(Decoded(entries).value, narrow).Some?) <==> Decodable(entries)
  {
    if Decodable(entries) {
      CompressionRoundTrip(DecodedParts(entries), narrow);
    }
  }

  /** The JSON form of a path, without the rounding of its numbers. */
  function EntryOf(p: Part<real>): Entry {
    match p
    case MoveTo(x, y) => Entry(M, [Some(x), Some(y)])
    case LineTo(x, y) => Entry(L, [Some(x), Some(y)])
    case Curve(x1, y1, x2, y2) => Entry(Q, [Some(x1), Some(y1), Some(x2), Some(y2)])
    case Close => Entry(Z, [])
  }

  function EntriesOf(parts: seq<Part<real>>): (r: seq<Entry>)
    ensures |r| == |parts|
  {
    if parts == [] then [] else EntriesOf(parts[..|parts| - 1]) + [EntryOf(parts[|parts| - 1])]
  }

  lemma {:induction false} EntryDecodes(p: Part<real>)
    ensures DecodePart(EntryOf(p)) == Some(p)
  {
  }

  lemma {:induction false} DecodeSnoc(entries: seq<Entry>, e: Entry)
    requires Decodable(entries) && DecodePart(e).Some?
    ensures Decodable(entries + [e]) && DecodedParts(entries + [e]) == DecodedParts(entries) + [DecodePart(e).value]
  {
    assert (entries + [e])[..|entries|] == entries;
  }

  lemma {:induction false} EntriesDecode(parts: seq<Part<real>>)
    ensures Decodable(EntriesOf(parts)) && DecodedParts(EntriesOf(parts)) == parts
  {
    if parts != [] {
      var init, last := parts[..|parts| - 1], parts[|parts| - 1];
      EntriesDecode(init);
      EntryDecodes(last);
      DecodeSnoc(EntriesOf(init), EntryOf(last));
    }
  }

  /** The same from JSON to JSON: compressing, writing the path out and compressing it again. */
  lemma {:induction false} RecompressedJson(entries: seq<Entry>, narrow: real -> real)
    requires Narrowing(narrow) && Decodable(entries) && Finite(DecodedParts(entries))
    requires HasPoint(DecodedParts(entries)) ==> InRange(BoxOf(DecodedParts(entries)))
    ensures var parts, c := DecodedParts(entries), CompressedPath(Decoded(entries).value, narrow);
      && c.Some?
      && var written := Decoded(EntriesOf(DecompressedPath(c.value).parts));
      && written.Some?
      && (CompressedPath(written.value, narrow) == c <==> !HasPoint(parts) || KeepsExtents(BoxOf(parts), narrow))
  {
    RecompressionStableIff(DecodedParts(entries), narrow);
    EntriesDecode(DecompressedPath(CompressedPath(Decoded(entries).value, narrow).value).parts);
  }
}
