/** Downscaling for encoders with a maximum resolution (flux/crates/flux-encode/src/scale.rs). */
module Scale {
  import opened Basics

  const FP_ONE: int := 256
  const U32_SIZE: int := 0x1_0000_0000
  const U16_SIZE: int := 0x1_0000
  const NO_ROW: int := 0xffff_ffff_ffff_ffff

  datatype PixelFormat = Bgra8 | Rgba8 | Nv12 | I420 | P010

  datatype Resolution = Resolution(width: nat, height: nat)

  datatype Frame = Frame(format: PixelFormat, resolution: Resolution, stride: nat, data: seq<Byte>)

  datatype Result = Ok(frame: Frame) | UnsupportedFormat | NoPixelData | InvalidTarget | BufferTooSmall

  // ----- The target size

  function EvenFloor(n: nat): nat { n - n % 2 }

  /** One side scaled by num/den, rounded down to even, at least 2. */
  function ScaleSide(n: nat, num: nat, den: nat): nat
    requires den > 0
  {
    var product: nat := n * num;
    var even := EvenFloor(product / den);
    if even < 2 then 2 else even
  }

  /** `fit_within`; the products are u64, so nothing is lost before the division. */
  function FitWithin(src: Resolution, max: Resolution): Resolution {
    if src.width == 0 || src.height == 0 then src
    else if src.width <= max.width && src.height <= max.height then src
    else if max.width * src.height <= max.height * src.width then
      Resolution(ScaleSide(src.width, max.width, src.width), ScaleSide(src.height, max.width, src.width))
    else
      Resolution(ScaleSide(src.width, max.height, src.height), ScaleSide(src.height, max.height, src.height))
  }

  lemma DivWithin(n: nat, d: nat)
    requires d > 0
    ensures n / d * d <= n < n / d * d + d
  {
  }

  lemma DivBound(n: nat, d: nat, m: nat)
    requires d > 0 && n <= m * d
    ensures n / d <= m
  {
    DivWithin(n, d);
    if n / d > m { MulMono(m + 1, n / d, d); }
  }

  lemma DivExact(n: nat, d: nat)
    requires d > 0
    ensures d * n / d == n
  {
    DivWithin(d * n, d);
    if d * n / d < n { MulMono(d * n / d + 1, n, d); }
    DivBound(d * n, d, n);
  }

  /** A size scaled by num/den and rounded to even is within two of the exact value. */
  lemma ScaledWithinTwo(n: nat, num: nat, den: nat)
    requires den > 0
    ensures var r := ScaleSide(n, num, den);
            -2 * den < r * den - n * num <= 2 * den && r % 2 == 0
  {
    var q := n * num / den;
    DivWithin(n * num, den);
    var e := EvenFloor(q);
    assert e <= q <= e + 1;
    MulMono(e, q, den);
    MulMono(q, e + 1, den);
    assert e * den <= n * num < (e + 2) * den;
  }

  /** The side that limits the scale ends at its maximum rounded down to even. */
  lemma LimitingSide(n: nat, num: nat)
    requires n > 0 && num >= 2
    ensures ScaleSide(n, num, n) == EvenFloor(num)
  {
    DivExact(num, n);
  }

  /** The other side, scaled by the smaller ratio, stays within its own maximum. */
  lemma OtherSide(n: nat, limit: nat, num: nat, den: nat)
    requires den > 0 && limit >= 2 && n >= 2 && num * n <= limit * den && num <= den
    ensures ScaleSide(n, num, den) <= limit && ScaleSide(n, num, den) <= n
  {
    DivBound(n * num, den, limit);
    MulMono(num, den, n);
    DivBound(n * num, den, n);
  }

  ghost predicate Scaled(src: Resolution, max: Resolution, r: Resolution) {
    var byWidth := max.width * src.height <= max.height * src.width;
    var num, den := if byWidth then max.width else max.height, if byWidth then src.width else src.height;
    && r.width % 2 == 0 && r.height % 2 == 0
    && (if byWidth then r.width == EvenFloor(max.width) else r.height == EvenFloor(max.height))
    && -2 * den < r.width * den - src.width * num <= 2 * den
    && -2 * den < r.height * den - src.height * num <= 2 * den
  }

  /**
  The target never exceeds the maximum or the source, keeps the source when it fits, and
  otherwise is even, fills the limiting side and keeps the aspect ratio to within two
  pixels.  It is a target `DownscaleFrame` accepts.
  */
  lemma FitWithinFits(src: Resolution, max: Resolution)
    requires src.width >= 2 && src.height >= 2 && max.width >= 2 && max.height >= 2
    ensures var r := FitWithin(src, max);
            && r.width <= max.width && r.height <= max.height
            && 0 < r.width <= src.width && 0 < r.height <= src.height
            && if src.width <= max.width && src.height <= max.height then r == src else Scaled(src, max, r)
  {
    if !(src.width <= max.width && src.height <= max.height) {
      if max.width * src.height <= max.height * src.width {
        WidthLimits(src, max);
        LimitingSide(src.width, max.width);
        OtherSide(src.height, max.height, max.width, src.width);
        ScaledWithinTwo(src.width, max.width, src.width);
        ScaledWithinTwo(src.height, max.width, src.width);
      } else {
        HeightLimits(src, max);
        LimitingSide(src.height, max.height);
        OtherSide(src.width, max.width, max.height, src.height);
        ScaledWithinTwo(src.width, max.height, src.height);
        ScaledWithinTwo(src.height, max.height, src.height);
      }
    }
  }

  lemma WidthLimits(src: Resolution, max: Resolution)
    requires max.width * src.height <= max.height * src.width
    requires src.width > max.width || src.height > max.height
    requires max.width >= 2 && src.height >= 2
    ensures max.width <= src.width
  {
    if src.width < max.width {
      MulMono(src.width + 1, max.width, src.height);
      MulMono(max.height, src.height, src.width);
      assert false;
    }
  }

  lemma HeightLimits(src: Resolution, max: Resolution)
    requires max.width * src.height > max.height * src.width
    requires src.width > max.width || src.height > max.height
    ensures max.height <= src.height
  {
    if src.height < max.height {
      MulMono(src.height, max.height, max.width);
      MulMono(max.width, src.width, max.height);
      assert false;
    }
  }

  // ----- The per-pixel bilinear reference

  /** A source and target that pass the checks of `downscale_frame`. */
  datatype Geometry = Geometry(sw: nat, sh: nat, stride: nat, dw: nat, dh: nat)

  predicate Acceptable(g: Geometry, data: seq<Byte>) {
    0 < g.dw <= g.sw && 0 < g.dh <= g.sh && |data| >= g.stride * g.sh && g.stride >= g.sw * 4
  }

  /** The kernel reads a pixel and its right and lower neighbours, so it needs two of each. */
  predicate Ready(g: Geometry, data: seq<Byte>) {
    Acceptable(g, data) && 2 <= g.sw < U32_SIZE && 2 <= g.sh < U32_SIZE
  }

  /** Fixed-point step per target pixel, cast to u32 as the code does. */
  function Ratio(s: nat, d: nat): nat
    requires s > 0 && d > 0
  {
    (s - 1) * FP_ONE / d % U32_SIZE
  }

  function Step(i: nat, s: nat, d: nat): nat
    requires s > 0 && d > 0
  {
    i * Ratio(s, d)
  }

  function Source(i: nat, s: nat, d: nat): nat
    requires s >= 2 && d > 0
  {
    if Step(i, s, d) / FP_ONE < s - 2 then Step(i, s, d) / FP_ONE else s - 2
  }

  function Weight(i: nat, s: nat, d: nat): (w: nat)
    requires s > 0 && d > 0
    ensures w < FP_ONE
  {
    Step(i, s, d) % FP_ONE
  }

  /** The clamp to `s - 2` never changes anything for a target pixel inside the target. */
  lemma ClampIdle(i: nat, s: nat, d: nat)
    requires i < d && s >= 2
    ensures Step(i, s, d) / FP_ONE <= s - 2 && Source(i, s, d) == Step(i, s, d) / FP_ONE
  {
    var full := (s - 1) * FP_ONE / d;
    var r := Ratio(s, d);
    DivWithin((s - 1) * FP_ONE, d);
    assert r <= full;
    MulMono(r, full, d);
    MulMono(i, d - 1, r);
    assert i * r <= (d - 1) * r == d * r - r;
    if r == 0 {
      assert i * r == 0;
    }
  }

  /** Where a target pixel is sampled in the source, in 256ths of a source pixel. */
  function Position(i: nat, s: nat, d: nat): nat
    requires s >= 2 && d > 0
  {
    Source(i, s, d) * FP_ONE + Weight(i, s, d)
  }

  lemma PositionIsStep(i: nat, s: nat, d: nat)
    requires i < d && s >= 2
    ensures Position(i, s, d) == i * Ratio(s, d)
  {
    ClampIdle(i, s, d);
  }

  /**
  The sampled point is the exact one, i/d of the way across, to within i/256 of a pixel, if and
  only if the step fits in 32 bits.
  */
  lemma PositionIsExact(i: nat, s: nat, d: nat)
    requires 0 < i < d && s >= 2
    ensures i * (s - 1) * FP_ONE - i * d < Position(i, s, d) * d <= i * (s - 1) * FP_ONE <==>
            (s - 1) * FP_ONE / d < U32_SIZE
  {
    var n: nat := (s - 1) * FP_ONE;
    PositionIsStep(i, s, d);
    RatioIsExact(n, d);
    StepTimes(i, Ratio(s, d), d, n);
    assert i * (s - 1) * FP_ONE == i * n;
  }

  lemma RatioIsExact(n: nat, d: nat)
    requires d > 0
    ensures n - d < (n / d % U32_SIZE) * d <= n <==> n / d < U32_SIZE
  {
    var full, r := n / d, n / d % U32_SIZE;
    DivWithin(n, d);
    if full < U32_SIZE {
      assert r == full;
    } else {
      assert r < U32_SIZE <= full;
      MulMono(r + 1, full, d);
      assert (r + 1) * d == r * d + d;
    }
  }

  lemma StepTimes(i: nat, r: nat, d: nat, n: nat)
    requires i > 0
    ensures i * n - i * d < (i * r) * d <= i * n <==> n - d < r * d <= n
  {
    assert (i * r) * d == i * (r * d) && i * n - i * d == i * (n - d);
    var v := r * d;
    if n - d < v { ScaleOrder(n - d + 1, v, i); assert i * (n - d + 1) == i * (n - d) + i; }
    if v <= n - d { ScaleOrder(v, n - d, i); }
    if v <= n { ScaleOrder(v, n, i); }
    if n < v { ScaleOrder(n + 1, v, i); assert i * (n + 1) == i * n + i; }
  }

  /** Channel `c` of source pixel (x, y). */
  function Px(g: Geometry, data: seq<Byte>, y: nat, x: nat, c: nat): Byte
    requires Acceptable(g, data) && y < g.sh && x < g.sw && c < 4
  {
    RowInBuffer(y, g.sh, g.stride, |data|);
    data[y * g.stride + x * 4 + c]
  }

  /** Two bytes weighted horizontally; fits in u16. */
  function Mix(a: int, b: int, w: int): int {
    a * (FP_ONE - w) + b * w
  }

  lemma ScaleOrder(a: int, b: int, w: int)
    requires a <= b && 0 <= w
    ensures a * w <= b * w
  {
  }

  lemma MixBounds(a: int, b: int, w: int, lo: int, hi: int)
    requires 0 <= w <= FP_ONE && lo <= a <= hi && lo <= b <= hi
    ensures lo * FP_ONE <= Mix(a, b, w) <= hi * FP_ONE
  {
    var u := FP_ONE - w;
    ScaleOrder(lo, a, u);
    ScaleOrder(a, hi, u);
    ScaleOrder(lo, b, w);
    ScaleOrder(b, hi, w);
    assert lo * FP_ONE == lo * u + lo * w && hi * FP_ONE == hi * u + hi * w;
  }

  /** Both passes, and the cast to u8. */
  function Blend(top: int, bot: int, w: int): int {
    Mix(top, bot, w) / (FP_ONE * FP_ONE) % 256
  }

  lemma BlendRange(v: int, lo: int, hi: int)
    requires 0 <= lo && hi <= 255 && lo * FP_ONE * FP_ONE <= v <= hi * FP_ONE * FP_ONE
    ensures lo <= v / (FP_ONE * FP_ONE) % 256 <= hi
  {
  }

  /** The blend lies between any bounds on its four bytes, so no cast loses anything. */
  lemma BlendBounds(a: int, b: int, c: int, d: int, wx: int, wy: int, lo: int, hi: int)
    requires 0 <= wx <= FP_ONE && 0 <= wy <= FP_ONE && 0 <= lo && hi <= 255
    requires lo <= a <= hi && lo <= b <= hi && lo <= c <= hi && lo <= d <= hi
    ensures 0 <= Mix(a, b, wx) < U16_SIZE && 0 <= Mix(c, d, wx) < U16_SIZE
    ensures lo <= Blend(Mix(a, b, wx), Mix(c, d, wx), wy) <= hi
  {
    MixBounds(a, b, wx, lo, hi);
    MixBounds(c, d, wx, lo, hi);
    MixBounds(Mix(a, b, wx), Mix(c, d, wx), wy, lo * FP_ONE, hi * FP_ONE);
    BlendRange(Mix(Mix(a, b, wx), Mix(c, d, wx), wy), lo, hi);
  }

  /** The horizontally interpolated value of source row `y` for target column `dx`. */
  function Across(g: Geometry, data: seq<Byte>, y: nat, dx: nat, c: nat): (v: int)
    requires Ready(g, data) && y < g.sh && dx < g.dw && c < 4
    ensures 0 <= v <= 255 * FP_ONE < U16_SIZE
  {
    var sx, wx := Source(dx, g.sw, g.dw), Weight(dx, g.sw, g.dw);
    MixBounds(Px(g, data, y, sx, c), Px(g, data, y, sx + 1, c), wx, 0, 255);
    Mix(Px(g, data, y, sx, c), Px(g, data, y, sx + 1, c), wx)
  }

  /** `reference_downscale`: one output byte, computed on its own. */
  function RefPixel(g: Geometry, data: seq<Byte>, dy: nat, dx: nat, c: nat): (v: Byte)
    requires Ready(g, data) && dy < g.dh && dx < g.dw && c < 4
  {
    var sy, wy := Source(dy, g.sh, g.dh), Weight(dy, g.sh, g.dh);
    Blend(Across(g, data, sy, dx, c), Across(g, data, sy + 1, dx, c), wy)
  }

  /** Each output byte lies between the least and the greatest of its four source bytes. */
  lemma RefPixelBetween(g: Geometry, data: seq<Byte>, dy: nat, dx: nat, c: nat)
    requires Ready(g, data) && dy < g.dh && dx < g.dw && c < 4
    ensures var sy, sx := Source(dy, g.sh, g.dh), Source(dx, g.sw, g.dw);
            var p, q := Px(g, data, sy, sx, c), Px(g, data, sy, sx + 1, c);
            var r, t := Px(g, data, sy + 1, sx, c), Px(g, data, sy + 1, sx + 1, c);
            Min(Min(p, q), Min(r, t)) <= RefPixel(g, data, dy, dx, c) <= Max(Max(p, q), Max(r, t))
  {
    var sy, sx := Source(dy, g.sh, g.dh), Source(dx, g.sw, g.dw);
    var p, q := Px(g, data, sy, sx, c), Px(g, data, sy, sx + 1, c);
    var r, t := Px(g, data, sy + 1, sx, c), Px(g, data, sy + 1, sx + 1, c);
    BlendBounds(p, q, r, t, Weight(dx, g.sw, g.dw), Weight(dy, g.sh, g.dh),
                Min(Min(p, q), Min(r, t)), Max(Max(p, q), Max(r, t)));
  }

  lemma LanesDoNotWrap(p: nat, q: nat)
    requires p + q < U16_SIZE
    ensures (p % U16_SIZE + q % U16_SIZE) % U16_SIZE == p + q
  {
  }

  /** The SSE2 kernel multiplies and adds in 16-bit lanes that wrap; on bytes and weights it is the same. */
  lemma Sse2LaneAgrees(a: Byte, b: Byte, w: nat)
    requires w < FP_ONE
    ensures (a * (FP_ONE - w) % U16_SIZE + b * w % U16_SIZE) % U16_SIZE == Mix(a, b, w)
  {
    var p, q := a * (FP_ONE - w), b * w;
    assert p >= 0 && q >= 0 by {
      ScaleOrder(0, a, FP_ONE - w);
      ScaleOrder(0, b, w);
    }
    assert p + q < U16_SIZE by { MixBounds(a, b, w, 0, 255); }
    LanesDoNotWrap(p, q);
  }

  function RefRow(g: Geometry, data: seq<Byte>, dy: nat): (r: seq<Byte>)
    requires Ready(g, data) && dy < g.dh
    ensures |r| == g.dw * 4
  {
    seq(g.dw * 4, j requires 0 <= j < g.dw * 4 => RefPixel(g, data, dy, j / 4, j % 4))
  }

  function RefPlane(g: Geometry, data: seq<Byte>): (rows: seq<seq<Byte>>)
    requires Ready(g, data)
    ensures |rows| == g.dh && AllLength(rows, g.dw * 4)
    ensures forall dy :: 0 <= dy < g.dh ==> rows[dy] == RefRow(g, data, dy)
  {
    seq(g.dh, dy requires 0 <= dy < g.dh => RefRow(g, data, dy))
  }

  function Reference(g: Geometry, data: seq<Byte>): seq<Byte>
    requires Ready(g, data)
  {
    Flatten(RefPlane(g, data))
  }

  lemma Offset(dy: nat, dw: nat, dx: nat, c: nat)
    ensures (dy * dw + dx) * 4 + c == dy * (dw * 4) + (dx * 4 + c)
  {
  }

  /** Where the reference writes: byte `c` of target pixel (dx, dy). */
  lemma ReferenceAt(g: Geometry, data: seq<Byte>, dy: nat, dx: nat, c: nat)
    requires Ready(g, data) && dy < g.dh && dx < g.dw && c < 4
    ensures 0 <= (dy * g.dw + dx) * 4 + c < |Reference(g, data)|
    ensures Reference(g, data)[(dy * g.dw + dx) * 4 + c] == RefPixel(g, data, dy, dx, c)
  {
    Offset(dy, g.dw, dx, c);
    FlattenAt(RefPlane(g, data), g.dw * 4, dy, dx * 4 + c);
    assert (dx * 4 + c) / 4 == dx && (dx * 4 + c) % 4 == c;
  }

  // ----- What the filter does to a known image

  /** The byte of channel `c` at (x, y) of the source buffer. */
  ghost predicate AffineAt(g: Geometry, data: seq<Byte>, c: nat, k: int, ax: int, ay: int, y: nat, x: nat) {
    0 <= y * g.stride + x * 4 + c < |data| && data[y * g.stride + x * 4 + c] == k + ax * x + ay * y
  }

  /** Brightness grows evenly across and down the source. */
  ghost predicate Affine(g: Geometry, data: seq<Byte>, c: nat, k: int, ax: int, ay: int) {
    forall y, x {:trigger AffineAt(g, data, c, k, ax, ay, y, x)} ::
      0 <= y < g.sh && 0 <= x < g.sw ==> AffineAt(g, data, c, k, ax, ay, y, x)
  }

  lemma MixAffine(v: int, a: int, w: int)
    ensures Mix(v, v + a, w) == v * FP_ONE + a * w
  {
  }

  lemma AcrossAffine(g: Geometry, data: seq<Byte>, y: nat, dx: nat, c: nat, k: int, ax: int, ay: int)
    requires Ready(g, data) && y < g.sh && dx < g.dw && c < 4 && Affine(g, data, c, k, ax, ay)
    ensures Across(g, data, y, dx, c) == (k + ay * y) * FP_ONE + ax * Position(dx, g.sw, g.dw)
  {
    var sx, wx := Source(dx, g.sw, g.dw), Weight(dx, g.sw, g.dw);
    assert AffineAt(g, data, c, k, ax, ay, y, sx) && AffineAt(g, data, c, k, ax, ay, y, sx + 1);
    assert Px(g, data, y, sx, c) == k + ax * sx + ay * y && Px(g, data, y, sx + 1, c) == k + ax * (sx + 1) + ay * y;
    MixAcross(k + ay * y, ax, sx, wx);
  }

  lemma MixAcross(v: int, ax: int, sx: int, wx: int)
    ensures Mix(v + ax * sx, v + ax * (sx + 1), wx) == v * FP_ONE + ax * (sx * FP_ONE + wx)
  {
    assert ax * (sx + 1) == ax * sx + ax;
    MixAffine(v + ax * sx, ax, wx);
    assert ax * (sx * FP_ONE + wx) == ax * sx * FP_ONE + ax * wx;
  }

  lemma BlendAffine(k: int, x: int, ay: int, sy: int, wy: int)
    ensures Mix((k + ay * sy) * FP_ONE + x, (k + ay * (sy + 1)) * FP_ONE + x, wy) ==
            (k * FP_ONE + x + ay * (sy * FP_ONE + wy)) * FP_ONE
  {
    var top := (k + ay * sy) * FP_ONE + x;
    assert ay * (sy + 1) == ay * sy + ay;
    MixAffine(top, ay * FP_ONE, wy);
    assert ay * (sy * FP_ONE + wy) == ay * sy * FP_ONE + ay * wy && ay * FP_ONE * wy == ay * wy * FP_ONE;
  }

  /**
  An evenly graded image stays so: each output byte is the grade at the sampled point, rounded
  down.
  */
  lemma AffineSurvives(g: Geometry, data: seq<Byte>, dy: nat, dx: nat, c: nat, k: int, ax: int, ay: int)
    requires Ready(g, data) && dy < g.dh && dx < g.dw && c < 4 && Affine(g, data, c, k, ax, ay)
    ensures RefPixel(g, data, dy, dx, c) ==
            (k * FP_ONE + ax * Position(dx, g.sw, g.dw) + ay * Position(dy, g.sh, g.dh)) / FP_ONE
  {
    var sy, wy := Source(dy, g.sh, g.dh), Weight(dy, g.sh, g.dh);
    var x := ax * Position(dx, g.sw, g.dw);
    var v := k * FP_ONE + x + ay * Position(dy, g.sh, g.dh);
    AcrossAffine(g, data, sy, dx, c, k, ax, ay);
    AcrossAffine(g, data, sy + 1, dx, c, k, ax, ay);
    BlendAffine(k, x, ay, sy, wy);
    assert 0 <= v * FP_ONE <= 255 * FP_ONE * FP_ONE by {
      MixBounds(Across(g, data, sy, dx, c), Across(g, data, sy + 1, dx, c), wy, 0, 255 * FP_ONE);
    }
    DropFraction(v);
  }

  lemma DropFraction(v: int)
    requires 0 <= v * FP_ONE <= 255 * FP_ONE * FP_ONE
    ensures v * FP_ONE / (FP_ONE * FP_ONE) % 256 == v / FP_ONE
  {
  }

  // ----- The row-caching separable form

  /** Horizontal pass over source row `y`. */
  function AcrossRow(g: Geometry, data: seq<Byte>, y: nat): (r: seq<int>)
    requires Ready(g, data) && y < g.sh
    ensures |r| == g.dw * 4
  {
    seq(g.dw * 4, j requires 0 <= j < g.dw * 4 => Across(g, data, y, j / 4, j % 4))
  }

  ghost predicate ColumnsOk(g: Geometry, xs: seq<(nat, nat)>)
    requires g.sw >= 2 && g.dw > 0
  {
    |xs| == g.dw && forall i :: 0 <= i < g.dw ==> xs[i] == (Source(i, g.sw, g.dw), Weight(i, g.sw, g.dw))
  }

  method InterpolateRow(g: Geometry, data: seq<Byte>, y: nat, xs: seq<(nat, nat)>, dst: array<int>)
    requires Ready(g, data) && y < g.sh && ColumnsOk(g, xs) && dst.Length == g.dw * 4
    modifies dst
    ensures dst[..] == AcrossRow(g, data, y)
  {
    RowInBuffer(y, g.sh, g.stride, |data|);
    var row := y * g.stride;
    ghost var goal := AcrossRow(g, data, y);
    for i := 0 to g.dw
      invariant dst[..i * 4] == goal[..i * 4]
    {
      var (sx, wx) := xs[i];
      InterpolatePixel(g, data, y, i, row + sx * 4, wx, dst, goal);
    }
  }

  /** The four channels of one target column. */
  method InterpolatePixel(g: Geometry, data: seq<Byte>, y: nat, i: nat, o: nat, wx: nat, dst: array<int>,
                          ghost goal: seq<int>)
    requires Ready(g, data) && y < g.sh && i < g.dw && goal == AcrossRow(g, data, y)
    requires o == y * g.stride + Source(i, g.sw, g.dw) * 4 && wx == Weight(i, g.sw, g.dw)
    requires dst.Length == |goal| && dst[..i * 4] == goal[..i * 4]
    modifies dst
    ensures dst[..i * 4 + 4] == goal[..i * 4 + 4]
  {
    for c := 0 to 4
      invariant dst[..i * 4 + c] == goal[..i * 4 + c]
    {
      SampleIs(g, data, y, i, c, o, wx);
      dst[i * 4 + c] := data[o + c] * (FP_ONE - wx) + data[o + c + 4] * wx;
    }
  }

  /** The horizontal pass of one channel of a target column, read at its byte offset. */
  lemma SampleIs(g: Geometry, data: seq<Byte>, y: nat, i: nat, c: nat, o: nat, wx: nat)
    requires Ready(g, data) && y < g.sh && i < g.dw && c < 4
    requires o == y * g.stride + Source(i, g.sw, g.dw) * 4 && wx == Weight(i, g.sw, g.dw)
    ensures o + c + 4 < |data|
    ensures AcrossRow(g, data, y)[i * 4 + c] == data[o + c] * (FP_ONE - wx) + data[o + c + 4] * wx
  {
    RowInBuffer(y, g.sh, g.stride, |data|);
    assert (i * 4 + c) / 4 == i && (i * 4 + c) % 4 == c;
  }

  /** Vertical pass into row `dy` of the output, which starts at byte `start`. */
  method BlendRows(top: array<int>, bot: array<int>, wy: nat, out: array<int>, start: nat)
    requires top.Length == bot.Length && start + top.Length <= out.Length
    requires out != top && out != bot
    modifies out
    ensures forall j :: 0 <= j < top.Length ==> out[start + j] == Blend(top[j], bot[j], wy)
    ensures forall k :: 0 <= k < start ==> out[k] == old(out[k])
  {
    for j := 0 to top.Length
      invariant forall i :: 0 <= i < j ==> out[start + i] == Blend(top[i], bot[i], wy)
      invariant forall k :: 0 <= k < start ==> out[k] == old(out[k])
    {
      out[start + j] := (top[j] * (FP_ONE - wy) + bot[j] * wy) / (FP_ONE * FP_ONE) % 256;
    }
  }

  lemma BlendIsRefRow(g: Geometry, data: seq<Byte>, dy: nat, top: seq<int>, bot: seq<int>, row: seq<int>)
    requires Ready(g, data) && dy < g.dh
    requires top == AcrossRow(g, data, Source(dy, g.sh, g.dh)) && bot == AcrossRow(g, data, Source(dy, g.sh, g.dh) + 1)
    requires |row| == g.dw * 4 && forall j :: 0 <= j < |row| ==> row[j] == Blend(top[j], bot[j], Weight(dy, g.sh, g.dh))
    ensures row == RefRow(g, data, dy)
  {
    forall j | 0 <= j < |row| ensures row[j] == RefRow(g, data, dy)[j] {
      assert top[j] == Across(g, data, Source(dy, g.sh, g.dh), j / 4, j % 4);
    }
  }

  /** The two row buffers and which source rows they hold, if any. */
  ghost predicate Cached(g: Geometry, data: seq<Byte>, row: int, buffer: array<int>)
    requires Ready(g, data)
    reads buffer
  {
    buffer.Length == g.dw * 4 && (row == NO_ROW || (0 <= row < g.sh && buffer[..] == AcrossRow(g, data, row)))
  }

  /** Make the buffers hold rows `sy` and `sy + 1`, reusing what is there. */
  method PrepareRows(g: Geometry, data: seq<Byte>, xs: seq<(nat, nat)>, sy: nat,
                     a: array<int>, b: array<int>, aRow: int, bRow: int)
    returns (top: array<int>, bot: array<int>, topRow: int, botRow: int)
    requires Ready(g, data) && ColumnsOk(g, xs) && sy <= g.sh - 2 && a != b
    requires Cached(g, data, aRow, a) && Cached(g, data, bRow, b)
    modifies a, b
    ensures (top == a && bot == b) || (top == b && bot == a)
    ensures topRow == sy && botRow == sy + 1 && Cached(g, data, topRow, top) && Cached(g, data, botRow, bot)
    ensures top[..] == AcrossRow(g, data, sy) && bot[..] == AcrossRow(g, data, sy + 1)
  {
    top, bot, topRow, botRow := a, b, aRow, bRow;
    if topRow != sy {
      if botRow == sy {
        top, bot := bot, top;
        botRow := NO_ROW;
      } else {
        InterpolateRow(g, data, sy, xs, top);
      }
      topRow := sy;
    }
    if botRow != sy + 1 {
      InterpolateRow(g, data, sy + 1, xs, bot);
      botRow := sy + 1;
    }
  }

  /** Output row `dy` from the two buffers. */
  method WriteRow(g: Geometry, data: seq<Byte>, dy: nat, top: array<int>, bot: array<int>, out: array<int>, start: nat)
    requires Ready(g, data) && dy < g.dh && out != top && out != bot
    requires top[..] == AcrossRow(g, data, Source(dy, g.sh, g.dh))
    requires bot[..] == AcrossRow(g, data, Source(dy, g.sh, g.dh) + 1)
    requires start + g.dw * 4 <= out.Length
    modifies out
    ensures out[..start + g.dw * 4] == old(out[..start]) + RefRow(g, data, dy)
  {
    var end := start + g.dw * 4;
    assert top.Length == |top[..]| == g.dw * 4 && bot.Length == |bot[..]| == g.dw * 4;
    BlendRows(top, bot, Weight(dy, g.sh, g.dh), out, start);
    BlendIsRefRow(g, data, dy, top[..], bot[..], out[start..end]);
    assert out[..end] == out[..start] + out[start..end];
  }

  /** One turn of the row loop: bring the two source rows up to date and write the output row. */
  method RenderRow(g: Geometry, data: seq<Byte>, xs: seq<(nat, nat)>, dy: nat,
                   a: array<int>, b: array<int>, aRow: int, bRow: int, out: array<int>, start: nat)
    returns (top: array<int>, bot: array<int>, topRow: int, botRow: int)
    requires Ready(g, data) && ColumnsOk(g, xs) && dy < g.dh && a != b && out != a && out != b
    requires Cached(g, data, aRow, a) && Cached(g, data, bRow, b) && start + g.dw * 4 <= out.Length
    modifies a, b, out
    ensures (top == a && bot == b) || (top == b && bot == a)
    ensures Cached(g, data, topRow, top) && Cached(g, data, botRow, bot)
    ensures out[..start + g.dw * 4] == old(out[..start]) + RefRow(g, data, dy)
  {
    top, bot, topRow, botRow := PrepareRows(g, data, xs, Source(dy, g.sh, g.dh), a, b, aRow, bRow);
    WriteRow(g, data, dy, top, bot, out, start);
  }

  method DownscaleRows(g: Geometry, data: seq<Byte>) returns (pixels: seq<int>)
    requires Ready(g, data)
    ensures pixels == Reference(g, data)
  {
    var xs := seq(g.dw, i requires 0 <= i < g.dw => (Source(i, g.sw, g.dw), Weight(i, g.sw, g.dw)));
    var len := g.dw * 4;
    var out, top, bot := new int[len * g.dh], new int[len], new int[len];
    RenderRows(g, data, xs, len, top, bot, out);
    pixels := out[..];
  }

  /** The row loop, with its two row buffers. */
  method RenderRows(g: Geometry, data: seq<Byte>, xs: seq<(nat, nat)>, len: nat,
                    a: array<int>, b: array<int>, out: array<int>)
    requires Ready(g, data) && ColumnsOk(g, xs) && len == g.dw * 4 && out.Length == len * g.dh
    requires a.Length == b.Length == len && a != b && out != a && out != b
    modifies a, b, out
    ensures out[..] == Reference(g, data)
  {
    ghost var rows := RefPlane(g, data);
    var top, bot, topRow, botRow, start := a, b, NO_ROW, NO_ROW, 0;
    for dy := 0 to g.dh
      invariant (top == a && bot == b) || (top == b && bot == a)
      invariant Cached(g, data, topRow, top) && Cached(g, data, botRow, bot)
      invariant 0 <= start == dy * len && RowsIn(out[..], rows, dy, start)
    {
      RowSpan(dy, g.dh, len);
      ghost var before := out[..];
      top, bot, topRow, botRow := RenderRow(g, data, xs, dy, top, bot, topRow, botRow, out, start);
      RowsInNext(before, out[..], rows, dy, start, start + len);
      start := start + len;
    }
    assert rows[..g.dh] == rows;
  }

  /** `downscale_frame`: the checks in their order, then the separable filter. */
  method DownscaleFrame(frame: Frame, target: Resolution) returns (r: Result)
    requires Filtered(frame, target) ==> LargeEnough(frame.resolution)
    ensures r == DownscaleSpec(frame, target)
  {
    if frame.resolution == target {
      return Ok(frame);
    }
    if frame.format != Bgra8 && frame.format != Rgba8 {
      return UnsupportedFormat;
    }
    if |frame.data| == 0 {
      return NoPixelData;
    }
    var g := Geometry(frame.resolution.width, frame.resolution.height, frame.stride, target.width, target.height);
    if g.dw == 0 || g.dh == 0 || g.dw > g.sw || g.dh > g.sh {
      return InvalidTarget;
    }
    if |frame.data| < g.stride * g.sh || g.stride < g.sw * 4 {
      return BufferTooSmall;
    }
    var pixels := DownscaleRows(g, frame.data);
    return Ok(Frame(frame.format, target, g.dw * 4, pixels));
  }

  /** Does the call get past every check, so that the filter runs? */
  predicate Filtered(frame: Frame, target: Resolution) {
    && frame.resolution != target && (frame.format == Bgra8 || frame.format == Rgba8) && |frame.data| > 0
    && Acceptable(Geometry(frame.resolution.width, frame.resolution.height, frame.stride, target.width, target.height),
                  frame.data)
  }

  predicate LargeEnough(r: Resolution) { 2 <= r.width < U32_SIZE && 2 <= r.height < U32_SIZE }

  function DownscaleSpec(frame: Frame, target: Resolution): Result
    requires Filtered(frame, target) ==> LargeEnough(frame.resolution)
  {
    var g := Geometry(frame.resolution.width, frame.resolution.height, frame.stride, target.width, target.height);
    if frame.resolution == target then Ok(frame)
    else if frame.format != Bgra8 && frame.format != Rgba8 then UnsupportedFormat
    else if |frame.data| == 0 then NoPixelData
    else if target.width == 0 || target.height == 0 || target.width > g.sw || target.height > g.sh then InvalidTarget
    else if !Acceptable(g, frame.data) then BufferTooSmall
    else Ok(Frame(frame.format, target, g.dw * 4, Reference(g, frame.data)))
  }

  /** Fitting a well-formed frame into an encoder's maximum and downscaling to that never fails. */
  lemma FittedTargetIsAccepted(frame: Frame, max: Resolution)
    requires LargeEnough(frame.resolution) && max.width >= 2 && max.height >= 2
    requires frame.format == Bgra8 || frame.format == Rgba8
    requires |frame.data| >= frame.stride * frame.resolution.height && frame.stride >= frame.resolution.width * 4
    ensures var r := DownscaleSpec(frame, FitWithin(frame.resolution, max));
            r.Ok? && r.frame.resolution.width <= max.width && r.frame.resolution.height <= max.height
  {
    FitWithinFits(frame.resolution, max);
    MulMono(1, frame.resolution.height, frame.stride);
  }
}
