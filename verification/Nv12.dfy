/** Packed RGB to NV12 (flux/crates/flux-encode/src/nv12.rs). */
module Nv12 {
  import opened Basics

  datatype ChannelOrder = Bgra | Rgba

  datatype Rgb = Rgb(r: int, g: int, b: int)

  datatype Image = Image(data: seq<Byte>, stride: nat, w: nat, h: nat, order: ChannelOrder)

  datatype Result = Ok(nv12: seq<Byte>) | TooSmall

  predicate Fits(m: Image) {
    m.stride >= m.w * 4 && |m.data| >= m.stride * m.h
  }

  // ----- BT.601 limited range

  function Clamp(v: int): (r: Byte)
    ensures 0 <= v < 256 ==> r == v
  {
    if v < 0 then 0 else if v > 255 then 255 else v
  }

  function Luma(p: Rgb): Byte { Clamp((66 * p.r + 129 * p.g + 25 * p.b + 128) / 256 + 16) }

  function ChromaU(p: Rgb): Byte { Clamp((-38 * p.r - 74 * p.g + 112 * p.b + 128) / 256 + 128) }

  function ChromaV(p: Rgb): Byte { Clamp((112 * p.r - 94 * p.g - 18 * p.b + 128) / 256 + 128) }

  predicate IsPixel(p: Rgb) {
    0 <= p.r < 256 && 0 <= p.g < 256 && 0 <= p.b < 256
  }

  /** Every result is inside the limited range, so the clamps never act; white and black hit its ends. */
  lemma LimitedRange(p: Rgb)
    requires IsPixel(p)
    ensures 16 <= Luma(p) <= 235 && 16 <= ChromaU(p) <= 240 && 16 <= ChromaV(p) <= 240
    ensures Luma(p) == (66 * p.r + 129 * p.g + 25 * p.b + 128) / 256 + 16
    ensures ChromaU(p) == (-38 * p.r - 74 * p.g + 112 * p.b + 128) / 256 + 128
    ensures ChromaV(p) == (112 * p.r - 94 * p.g - 18 * p.b + 128) / 256 + 128
  {
    LumaRange(p);
    ChromaURange(p);
    ChromaVRange(p);
  }

  lemma LumaRange(p: Rgb)
    requires IsPixel(p)
    ensures 16 <= (66 * p.r + 129 * p.g + 25 * p.b + 128) / 256 + 16 <= 235
  {
  }

  lemma ChromaURange(p: Rgb)
    requires IsPixel(p)
    ensures 16 <= (-38 * p.r - 74 * p.g + 112 * p.b + 128) / 256 + 128 <= 240
  {
  }

  lemma ChromaVRange(p: Rgb)
    requires IsPixel(p)
    ensures 16 <= (112 * p.r - 94 * p.g - 18 * p.b + 128) / 256 + 128 <= 240
  {
  }

  /** Grey has no colour: both chroma samples are neutral and luma grows with brightness. */
  lemma GreyIsNeutral(v: Byte, w: Byte)
    requires v <= w
    ensures ChromaU(Rgb(v, v, v)) == 128 && ChromaV(Rgb(v, v, v)) == 128
    ensures Luma(Rgb(v, v, v)) <= Luma(Rgb(w, w, w))
  {
  }

  // ----- Pixels

  /** The reference's pixel: looked up in the whole buffer by row, column and channel order. */
  function Px(m: Image, x: nat, y: nat): (p: Rgb)
    requires Fits(m) && x < m.w && y < m.h
    ensures IsPixel(p)
  {
    RowInBuffer(y, m.h, m.stride, |m.data|);
    var base := y * m.stride + x * 4;
    match m.order
    case Bgra => Rgb(m.data[base + 2], m.data[base + 1], m.data[base])
    case Rgba => Rgb(m.data[base], m.data[base + 1], m.data[base + 2])
  }

  function Average(p: Rgb, q: Rgb, s: Rgb, t: Rgb): (a: Rgb) {
    Rgb((p.r + q.r + s.r + t.r) / 4, (p.g + q.g + s.g + t.g) / 4, (p.b + q.b + s.b + t.b) / 4)
  }

  /** What the reference is built from: where pixels come from and how colours become samples. */
  datatype Kernel = Kernel(px: (nat, nat) -> Rgb, luma: Rgb -> Byte, u: Rgb -> Byte, v: Rgb -> Byte,
                           average: (Rgb, Rgb, Rgb, Rgb) -> Rgb, w: nat, h: nat)

  function KernelOf(m: Image): Kernel
    requires Fits(m)
  {
    Kernel((x: nat, y: nat) => if x < m.w && y < m.h then Px(m, x, y) else Rgb(0, 0, 0),
           Luma, ChromaU, ChromaV, Average, m.w, m.h)
  }

  // ----- The two-pass reference

  /** The average colour of the 2x2 block (cx, cy). */
  function Block(k: Kernel, cx: nat, cy: nat): Rgb {
    k.average(k.px(2 * cx, 2 * cy), k.px(2 * cx + 1, 2 * cy), k.px(2 * cx, 2 * cy + 1), k.px(2 * cx + 1, 2 * cy + 1))
  }

  /** First pass: one luma sample per pixel. */
  function YRow(k: Kernel, y: nat): (r: seq<Byte>)
    ensures |r| == k.w
  {
    seq(k.w, x requires 0 <= x < k.w => k.luma(k.px(x, y)))
  }

  /** Second pass: U and V of each block in turn; a trailing odd column has no chroma and stays zero. */
  function UvSample(k: Kernel, cy: nat, j: nat): Byte {
    if j / 2 < k.w / 2 then
      if j % 2 == 0 then k.u(Block(k, j / 2, cy)) else k.v(Block(k, j / 2, cy))
    else 0
  }

  function UvRow(k: Kernel, cy: nat): (r: seq<Byte>)
    ensures |r| == k.w
  {
    seq(k.w, j requires 0 <= j < k.w => UvSample(k, cy, j))
  }

  function YPlane(k: Kernel): (rows: seq<seq<Byte>>)
    ensures |rows| == k.h && AllLength(rows, k.w)
  {
    seq(k.h, y requires 0 <= y < k.h => YRow(k, y))
  }

  function UvPlane(k: Kernel): (rows: seq<seq<Byte>>)
    ensures |rows| == k.h / 2 && AllLength(rows, k.w)
  {
    seq(k.h / 2, cy requires 0 <= cy < k.h / 2 => UvRow(k, cy))
  }

  /** `two_pass_reference` */
  function TwoPass(k: Kernel): seq<Byte> {
    Flatten(YPlane(k)) + Flatten(UvPlane(k))
  }

  function ByteAt(data: seq<Byte>, i: nat): int
    requires i < |data|
  {
    data[i]
  }

  /**
  The bytes of a pixel: green is the second of four; red is the third and blue the first in BGRA
  order, and the other way round in RGBA.
  */
  lemma PixelBytes(m: Image, x: nat, y: nat, b: int)
    requires Fits(m) && x < m.w && y < m.h && b == y * m.stride + 4 * x
    ensures 0 <= b && b + 3 < |m.data|
    ensures var red, blue := if m.order.Bgra? then 2 else 0, if m.order.Bgra? then 0 else 2;
            Px(m, x, y) == Rgb(ByteAt(m.data, b + red), ByteAt(m.data, b + 1), ByteAt(m.data, b + blue))
  {
    RowInBuffer(y, m.h, m.stride, |m.data|);
  }

  /** The luma of a pixel, from its bytes. */
  lemma LumaBytes(m: Image, x: nat, y: nat, b: int)
    requires Fits(m) && x < m.w && y < m.h && b == y * m.stride + 4 * x
    ensures 0 <= b && b + 3 < |m.data|
    ensures var red, blue := if m.order.Bgra? then b + 2 else b, if m.order.Bgra? then b else b + 2;
            Luma(Px(m, x, y)) ==
            (66 * ByteAt(m.data, red) + 129 * ByteAt(m.data, b + 1) + 25 * ByteAt(m.data, blue) + 128) / 256 + 16
  {
    PixelBytes(m, x, y, b);
    LumaRange(Px(m, x, y));
  }

  /** The first pass puts the luma of pixel (x, y) at y * w + x. */
  lemma LumaAt(m: Image, x: nat, y: nat)
    requires Fits(m) && x < m.w && y < m.h
    ensures 0 <= y * m.w + x < |TwoPass(KernelOf(m))| && TwoPass(KernelOf(m))[y * m.w + x] == Luma(Px(m, x, y))
  {
    FlattenAt(YPlane(KernelOf(m)), m.w, y, x);
  }

  lemma UvOfBlock(k: Kernel, cx: nat, cy: nat)
    requires cx < k.w / 2
    ensures UvSample(k, cy, 2 * cx) == k.u(Block(k, cx, cy)) && UvSample(k, cy, 2 * cx + 1) == k.v(Block(k, cx, cy))
  {
    assert 2 * cx / 2 == cx && 2 * cx % 2 == 0;
    assert (2 * cx + 1) / 2 == cx && (2 * cx + 1) % 2 == 1;
  }

  lemma ChromaPart(k: Kernel)
    ensures |Flatten(YPlane(k))| == k.h * k.w && TwoPass(k)[|Flatten(YPlane(k))|..] == Flatten(UvPlane(k))
  {
    FlattenLength(YPlane(k), k.w);
  }

  lemma ChromaCell(k: Kernel, cy: nat, j: nat)
    requires cy < k.h / 2 && j < k.w
    ensures 0 <= cy * k.w + j < |Flatten(UvPlane(k))| && Flatten(UvPlane(k))[cy * k.w + j] == UvSample(k, cy, j)
  {
    FlattenAt(UvPlane(k), k.w, cy, j);
  }

  lemma ChromaOf(k: Kernel, cx: nat, cy: nat)
    requires cx < k.w / 2 && cy < k.h / 2
    ensures var uv := TwoPass(k)[|Flatten(YPlane(k))|..];
            && 0 <= cy * k.w + 2 * cx && cy * k.w + (2 * cx + 1) < |uv|
            && uv[cy * k.w + 2 * cx] == k.u(Block(k, cx, cy))
            && uv[cy * k.w + (2 * cx + 1)] == k.v(Block(k, cx, cy))
    ensures |Flatten(YPlane(k))| == k.h * k.w
  {
    ChromaPart(k);
    ChromaCell(k, cy, 2 * cx);
    ChromaCell(k, cy, 2 * cx + 1);
    UvOfBlock(k, cx, cy);
  }

  /** The second pass puts the chroma of block (cx, cy) behind the w * h luma bytes, at cy * w + 2 * cx. */
  lemma ChromaAt(m: Image, cx: nat, cy: nat)
    requires Fits(m) && cx < m.w / 2 && cy < m.h / 2
    ensures var k := KernelOf(m);
            var uv := TwoPass(k)[|Flatten(YPlane(k))|..];
            && |Flatten(YPlane(k))| == m.h * m.w
            && 0 <= cy * m.w + 2 * cx && cy * m.w + (2 * cx + 1) < |uv|
            && uv[cy * m.w + 2 * cx] == ChromaU(BlockAverage(m, cx, cy))
            && uv[cy * m.w + (2 * cx + 1)] == ChromaV(BlockAverage(m, cx, cy))
  {
    ChromaOf(KernelOf(m), cx, cy);
  }

  /** The average colour of the four pixels of a block. */
  function BlockAverage(m: Image, cx: nat, cy: nat): (a: Rgb)
    requires Fits(m) && cx < m.w / 2 && cy < m.h / 2
    ensures IsPixel(a)
  {
    Average(Px(m, 2 * cx, 2 * cy), Px(m, 2 * cx + 1, 2 * cy), Px(m, 2 * cx, 2 * cy + 1), Px(m, 2 * cx + 1, 2 * cy + 1))
  }

  /** The mean of four bytes, rounded down. */
  function Mean(data: seq<Byte>, i: nat, j: nat, k: nat, l: nat): int
    requires i < |data| && j < |data| && k < |data| && l < |data|
  {
    (ByteAt(data, i) + ByteAt(data, j) + ByteAt(data, k) + ByteAt(data, l)) / 4
  }

  lemma BlockInBuffer(m: Image, cx: nat, cy: nat)
    requires Fits(m) && cx < m.w / 2 && cy < m.h / 2
    ensures 0 <= 2 * cy * m.stride && (2 * cy + 1) * m.stride == 2 * cy * m.stride + m.stride
    ensures 2 * cy * m.stride + m.stride + 8 * cx + 7 < |m.data|
  {
    RowInBuffer(2 * cy + 1, m.h, m.stride, |m.data|);
    assert (2 * cy + 1) * m.stride == 2 * cy * m.stride + m.stride;
  }

  lemma ChromaFormulas(p: Rgb, r: int, g: int, b: int)
    requires IsPixel(p) && p == Rgb(r, g, b)
    ensures ChromaU(p) == (-38 * r - 74 * g + 112 * b + 128) / 256 + 128
    ensures ChromaV(p) == (112 * r - 94 * g - 18 * b + 128) / 256 + 128
  {
    ChromaURange(p);
    ChromaVRange(p);
  }

  lemma BlockMeans(m: Image, cx: nat, cy: nat, t: int, b: int)
    requires Fits(m) && cx < m.w / 2 && cy < m.h / 2 && t == 2 * cy * m.stride + 8 * cx && b == t + m.stride
    ensures 0 <= t && b + 7 < |m.data|
    ensures var red, blue := if m.order.Bgra? then 2 else 0, if m.order.Bgra? then 0 else 2;
            BlockAverage(m, cx, cy) == Rgb(Mean(m.data, t + red, t + 4 + red, b + red, b + 4 + red),
                                           Mean(m.data, t + 1, t + 5, b + 1, b + 5),
                                           Mean(m.data, t + blue, t + 4 + blue, b + blue, b + 4 + blue))
  {
    BlockInBuffer(m, cx, cy);
    PixelBytes(m, 2 * cx, 2 * cy, t);
    PixelBytes(m, 2 * cx + 1, 2 * cy, t + 4);
    PixelBytes(m, 2 * cx, 2 * cy + 1, b);
    PixelBytes(m, 2 * cx + 1, 2 * cy + 1, b + 4);
  }

  /**
  The chroma of a block, from its bytes: that of the mean red, green and blue bytes of two
  neighbouring pixels in each of two rows.
  */
  lemma ChromaBytes(m: Image, cx: nat, cy: nat, t: int, b: int)
    requires Fits(m) && cx < m.w / 2 && cy < m.h / 2 && t == 2 * cy * m.stride + 8 * cx && b == t + m.stride
    ensures 0 <= t && b + 7 < |m.data|
    ensures var red, blue := if m.order.Bgra? then 2 else 0, if m.order.Bgra? then 0 else 2;
            var r := Mean(m.data, t + red, t + 4 + red, b + red, b + 4 + red);
            var g := Mean(m.data, t + 1, t + 5, b + 1, b + 5);
            var l := Mean(m.data, t + blue, t + 4 + blue, b + blue, b + 4 + blue);
            && ChromaU(BlockAverage(m, cx, cy)) == (-38 * r - 74 * g + 112 * l + 128) / 256 + 128
            && ChromaV(BlockAverage(m, cx, cy)) == (112 * r - 94 * g - 18 * l + 128) / 256 + 128
  {
    BlockMeans(m, cx, cy, t, b);
    var a := BlockAverage(m, cx, cy);
    ChromaFormulas(a, a.r, a.g, a.b);
  }

  // ----- Reading the source, row by row and chunk by chunk

  /** Where the red, green and blue bytes of a pixel are. */
  datatype Offsets = Offsets(r: nat, g: nat, b: nat)

  function OffsetsOf(order: ChannelOrder): (o: Offsets)
    ensures o.r < 4 && o.g < 4 && o.b < 4
  {
    match order
    case Bgra => Offsets(2, 1, 0)
    case Rgba => Offsets(0, 1, 2)
  }

  /** The pixel at a byte offset of a row or of a chunk of one. */
  function Read(bytes: seq<Byte>, at: nat, order: ChannelOrder): Rgb
    requires at + 4 <= |bytes|
  {
    var o := OffsetsOf(order);
    Rgb(bytes[at + o.r], bytes[at + o.g], bytes[at + o.b])
  }

  /** The visible bytes of a row, without the padding of the stride. */
  function SourceRow(m: Image, y: nat): (row: seq<Byte>)
    requires Fits(m) && y < m.h
    ensures |row| == m.w * 4
  {
    RowInBuffer(y, m.h, m.stride, |m.data|);
    m.data[y * m.stride..][..m.w * 4]
  }

  lemma SourceRowHolds(m: Image, x: nat, y: nat)
    requires Fits(m) && x < m.w && y < m.h
    ensures Read(SourceRow(m, y), 4 * x, m.order) == Px(m, x, y)
  {
    RowInBuffer(y, m.h, m.stride, |m.data|);
    var start := y * m.stride;
    var row := SourceRow(m, y);
    forall i | 0 <= i < m.w * 4
      ensures row[i] == m.data[start + i]
    {
    }
  }

  /** This pixel of a row, and this colour's samples, are what the reference uses. */
  ghost predicate PixelOk(k: Kernel, row: seq<Byte>, order: ChannelOrder, x: nat, y: nat) {
    4 * x + 4 <= |row| && Read(row, 4 * x, order) == k.px(x, y)
  }

  ghost predicate ColourOk(k: Kernel, p: Rgb) {
    && k.luma(p) == Clamp((66 * p.r + 129 * p.g + 25 * p.b + 128) / 256 + 16)
    && k.u(p) == Clamp((-38 * p.r - 74 * p.g + 112 * p.b + 128) / 256 + 128)
    && k.v(p) == Clamp((112 * p.r - 94 * p.g - 18 * p.b + 128) / 256 + 128)
  }

  ghost predicate AverageOk(k: Kernel, p: Rgb, q: Rgb, s: Rgb, t: Rgb) {
    k.average(p, q, s, t) ==
    Rgb((p.r + q.r + s.r + t.r) / 4, (p.g + q.g + s.g + t.g) / 4, (p.b + q.b + s.b + t.b) / 4)
  }

  ghost predicate RowOk(k: Kernel, row: seq<Byte>, order: ChannelOrder, y: nat) {
    && |row| == k.w * 4
    && forall x {:trigger PixelOk(k, row, order, x, y)} :: 0 <= x < k.w ==> PixelOk(k, row, order, x, y)
  }

  ghost predicate ColoursOk(k: Kernel) {
    && (forall p {:trigger ColourOk(k, p)} :: ColourOk(k, p))
    && (forall p, q, s, t {:trigger AverageOk(k, p, q, s, t)} :: AverageOk(k, p, q, s, t))
  }

  /** The image, its rows and the formulas below are what the reference is built from. */
  ghost predicate Renders(m: Image, k: Kernel) {
    && Fits(m) && k.w == m.w && k.h == m.h && ColoursOk(k)
    && forall y {:trigger SourceRow(m, y)} :: 0 <= y < m.h ==> RowOk(k, SourceRow(m, y), m.order, y)
  }

  lemma KernelRenders(m: Image)
    requires Fits(m)
    ensures Renders(m, KernelOf(m))
  {
    var k := KernelOf(m);
    forall y | 0 <= y < m.h
      ensures RowOk(k, SourceRow(m, y), m.order, y)
    {
      forall x | 0 <= x < k.w
        ensures PixelOk(k, SourceRow(m, y), m.order, x, y)
      {
        SourceRowHolds(m, x, y);
      }
    }
  }

  method Bt601Luma(p: Rgb, ghost k: Kernel) returns (l: Byte)
    requires ColoursOk(k)
    ensures l == k.luma(p)
  {
    assert ColourOk(k, p);
    l := Clamp((66 * p.r + 129 * p.g + 25 * p.b + 128) / 256 + 16);
  }

  /** The luma of one pixel of a row. */
  method ReadLuma(row: seq<Byte>, order: ChannelOrder, x: nat, ghost k: Kernel, ghost y: nat) returns (l: Byte)
    requires RowOk(k, row, order, y) && x < k.w && ColoursOk(k)
    ensures l == k.luma(k.px(x, y))
  {
    assert PixelOk(k, row, order, x, y);
    l := Bt601Luma(Read(row, 4 * x, order), k);
  }

  /** The four pixels of a 2x2 block, from an eight-byte chunk of each row. */
  method ReadBlock(topRow: seq<Byte>, bottomRow: seq<Byte>, order: ChannelOrder, cx: nat, ghost k: Kernel,
                   ghost cy: nat)
    returns (p0: Rgb, p1: Rgb, p2: Rgb, p3: Rgb)
    requires RowOk(k, topRow, order, 2 * cy) && RowOk(k, bottomRow, order, 2 * cy + 1) && cx < k.w / 2
    ensures p0 == k.px(2 * cx, 2 * cy) && p1 == k.px(2 * cx + 1, 2 * cy)
    ensures p2 == k.px(2 * cx, 2 * cy + 1) && p3 == k.px(2 * cx + 1, 2 * cy + 1)
  {
    assert PixelOk(k, topRow, order, 2 * cx, 2 * cy) && PixelOk(k, topRow, order, 2 * cx + 1, 2 * cy);
    assert PixelOk(k, bottomRow, order, 2 * cx, 2 * cy + 1) && PixelOk(k, bottomRow, order, 2 * cx + 1, 2 * cy + 1);
    var t, b := topRow[8 * cx..8 * cx + 8], bottomRow[8 * cx..8 * cx + 8];
    p0, p1 := Read(t[..4], 0, order), Read(t[4..], 0, order);
    p2, p3 := Read(b[..4], 0, order), Read(b[4..], 0, order);
  }

  /** The chroma pair of a block. */
  method BlockChroma(p0: Rgb, p1: Rgb, p2: Rgb, p3: Rgb, ghost k: Kernel) returns (u: Byte, v: Byte)
    requires ColoursOk(k)
    ensures u == k.u(k.average(p0, p1, p2, p3)) && v == k.v(k.average(p0, p1, p2, p3))
  {
    assert AverageOk(k, p0, p1, p2, p3);
    var r, g, b := (p0.r + p1.r + p2.r + p3.r) / 4, (p0.g + p1.g + p2.g + p3.g) / 4, (p0.b + p1.b + p2.b + p3.b) / 4;
    assert ColourOk(k, Rgb(r, g, b));
    u := Clamp((-38 * r - 74 * g + 112 * b + 128) / 256 + 128);
    v := Clamp((112 * r - 94 * g - 18 * b + 128) / 256 + 128);
  }

  // ----- The fused single pass

  /** The six samples of a 2x2 block, which is loaded once. */
  method BlockSamples(topRow: seq<Byte>, bottomRow: seq<Byte>, order: ChannelOrder, cx: nat, ghost k: Kernel,
                      ghost cy: nat)
    returns (l0: Byte, l1: Byte, l2: Byte, l3: Byte, u: Byte, v: Byte)
    requires RowOk(k, topRow, order, 2 * cy) && RowOk(k, bottomRow, order, 2 * cy + 1) && ColoursOk(k) && cx < k.w / 2
    ensures l0 == YRow(k, 2 * cy)[2 * cx] && l1 == YRow(k, 2 * cy)[2 * cx + 1]
    ensures l2 == YRow(k, 2 * cy + 1)[2 * cx] && l3 == YRow(k, 2 * cy + 1)[2 * cx + 1]
    ensures u == UvRow(k, cy)[2 * cx] && v == UvRow(k, cy)[2 * cx + 1]
  {
    var p0, p1, p2, p3 := ReadBlock(topRow, bottomRow, order, cx, k, cy);
    l0 := Bt601Luma(p0, k);
    l1 := Bt601Luma(p1, k);
    l2 := Bt601Luma(p2, k);
    l3 := Bt601Luma(p3, k);
    u, v := BlockChroma(p0, p1, p2, p3, k);
    UvOfBlock(k, cx, cy);
  }

  /** Two neighbouring samples. */
  method WritePair(plane: array<int>, at: nat, a: int, b: int)
    requires at + 2 <= plane.Length
    modifies plane
    ensures plane[..] == old(plane[..])[at := a][at + 1 := b]
  {
    plane[at] := a;
    plane[at + 1] := b;
  }

  /** `plane` is `before` with the first `n` samples of two rows written at `top` and `bottom`. */
  ghost predicate Pasted(before: seq<int>, plane: seq<int>, top: nat, bottom: nat, t: seq<Byte>, b: seq<Byte>, n: nat) {
    && |plane| == |before| && n <= |t| && n <= |b| && top + |t| <= bottom && bottom + |b| <= |before|
    && (forall i :: 0 <= i < |plane| ==>
          plane[i] == (if top <= i < top + n then t[i - top]
                       else if bottom <= i < bottom + n then b[i - bottom] else before[i]))
  }

  /** The same for one row. */
  ghost predicate PastedOne(before: seq<int>, plane: seq<int>, start: nat, row: seq<Byte>, n: nat) {
    && |plane| == |before| && n <= |row| && start + |row| <= |before|
    && (forall i :: 0 <= i < |plane| ==> plane[i] == (if start <= i < start + n then row[i - start] else before[i]))
  }

  lemma PasteTwo(before: seq<int>, p: seq<int>, q: seq<int>, top: nat, bottom: nat, t: seq<Byte>, b: seq<Byte>, n: nat)
    requires Pasted(before, p, top, bottom, t, b, n) && n + 2 <= |t| && n + 2 <= |b|
    requires q == p[top + n := t[n]][top + n + 1 := t[n + 1]][bottom + n := b[n]][bottom + n + 1 := b[n + 1]]
    ensures Pasted(before, q, top, bottom, t, b, n + 2)
  {
  }

  lemma PasteTwoOne(before: seq<int>, p: seq<int>, q: seq<int>, start: nat, row: seq<Byte>, n: nat)
    requires PastedOne(before, p, start, row, n) && n + 2 <= |row|
    requires q == p[start + n := row[n]][start + n + 1 := row[n + 1]]
    ensures PastedOne(before, q, start, row, n + 2)
  {
  }

  /** Four luma samples, in two rows. */
  method WriteLuma(plane: array<int>, top: nat, bottom: nat, n: nat, l0: int, l1: int, l2: int, l3: int,
                   ghost before: seq<int>, ghost t: seq<Byte>, ghost b: seq<Byte>)
    requires Pasted(before, plane[..], top, bottom, t, b, n) && n + 2 <= |t| && n + 2 <= |b|
    requires l0 == t[n] && l1 == t[n + 1] && l2 == b[n] && l3 == b[n + 1]
    modifies plane
    ensures Pasted(before, plane[..], top, bottom, t, b, n + 2)
  {
    ghost var was := plane[..];
    WritePair(plane, top + n, l0, l1);
    WritePair(plane, bottom + n, l2, l3);
    PasteTwo(before, was, plane[..], top, bottom, t, b, n);
  }

  /** A chroma pair. */
  method WriteChroma(plane: array<int>, start: nat, n: nat, u: int, v: int, ghost before: seq<int>,
                     ghost row: seq<Byte>)
    requires PastedOne(before, plane[..], start, row, n) && n + 2 <= |row| && u == row[n] && v == row[n + 1]
    modifies plane
    ensures PastedOne(before, plane[..], start, row, n + 2)
  {
    ghost var was := plane[..];
    WritePair(plane, start + n, u, v);
    PasteTwoOne(before, was, plane[..], start, row, n);
  }

  /** The block loop over one pair of rows. */
  method ConvertBlocks(topRow: seq<Byte>, bottomRow: seq<Byte>, order: ChannelOrder, w: nat,
                       yPlane: array<int>, uvPlane: array<int>, top: nat, bottom: nat, uvStart: nat,
                       ghost k: Kernel, ghost cy: nat, ghost t: seq<Byte>, ghost b: seq<Byte>, ghost u: seq<Byte>)
    requires RowOk(k, topRow, order, 2 * cy) && RowOk(k, bottomRow, order, 2 * cy + 1) && ColoursOk(k) && k.w == w
    requires yPlane != uvPlane && top + w == bottom && bottom + w <= yPlane.Length && uvStart + w <= uvPlane.Length
    requires t == YRow(k, 2 * cy) && b == YRow(k, 2 * cy + 1) && u == UvRow(k, cy)
    modifies yPlane, uvPlane
    ensures Pasted(old(yPlane[..]), yPlane[..], top, bottom, t, b, w / 2 * 2)
    ensures PastedOne(old(uvPlane[..]), uvPlane[..], uvStart, u, w / 2 * 2)
  {
    ghost var y0, uv0 := yPlane[..], uvPlane[..];
    for cx := 0 to w / 2
      invariant Pasted(y0, yPlane[..], top, bottom, t, b, 2 * cx)
      invariant PastedOne(uv0, uvPlane[..], uvStart, u, 2 * cx)
    {
      var l0, l1, l2, l3, cu, cv := BlockSamples(topRow, bottomRow, order, cx, k, cy);
      WriteLuma(yPlane, top, bottom, 2 * cx, l0, l1, l2, l3, y0, t, b);
      WriteChroma(uvPlane, uvStart, 2 * cx, cu, cv, uv0, u);
    }
  }

  lemma PastedRows(before: seq<int>, plane: seq<int>, top: nat, bottom: nat, t: seq<Byte>, b: seq<Byte>)
    requires |t| == |b| && bottom == top + |t| && Pasted(before, plane, top, bottom, t, b, |t|)
    ensures plane[..bottom + |b|] == before[..top] + t + b
  {
  }

  lemma PastedRow(before: seq<int>, plane: seq<int>, start: nat, row: seq<Byte>)
    requires PastedOne(before, plane, start, row, |row|)
    ensures plane[..start + |row|] == before[..start] + row && plane[start + |row|..] == before[start + |row|..]
  {
  }

  /** An odd width leaves the last chroma byte of the row as it was: zero. */
  lemma OddTail(k: Kernel, cy: nat, before: seq<int>, plane: seq<int>, start: nat)
    requires k.w % 2 == 1 && PastedOne(before, plane, start, UvRow(k, cy), k.w - 1) && before[start + k.w - 1] == 0
    ensures PastedOne(before, plane, start, UvRow(k, cy), k.w)
  {
    assert UvRow(k, cy)[k.w - 1] == 0;
  }

  /** A trailing odd column only has luma. */
  method ConvertOddColumn(topRow: seq<Byte>, bottomRow: seq<Byte>, order: ChannelOrder, x: nat,
                          yPlane: array<int>, top: nat, bottom: nat,
                          ghost k: Kernel, ghost cy: nat, ghost y0: seq<int>, ghost t: seq<Byte>, ghost b: seq<Byte>)
    requires RowOk(k, topRow, order, 2 * cy) && RowOk(k, bottomRow, order, 2 * cy + 1) && ColoursOk(k) && x + 1 == k.w
    requires t == YRow(k, 2 * cy) && b == YRow(k, 2 * cy + 1) && Pasted(y0, yPlane[..], top, bottom, t, b, x)
    modifies yPlane
    ensures Pasted(y0, yPlane[..], top, bottom, t, b, x + 1)
  {
    var l0 := ReadLuma(topRow, order, x, k, 2 * cy);
    var l1 := ReadLuma(bottomRow, order, x, k, 2 * cy + 1);
    yPlane[top + x] := l0;
    yPlane[bottom + x] := l1;
  }

  /** Rows 2 * cy and 2 * cy + 1 of the luma plane and row cy of the chroma plane. */
  method ConvertRowPair(topRow: seq<Byte>, bottomRow: seq<Byte>, order: ChannelOrder, w: nat,
                        yPlane: array<int>, uvPlane: array<int>, top: nat, uvStart: nat, ghost k: Kernel, ghost cy: nat)
    requires RowOk(k, topRow, order, 2 * cy) && RowOk(k, bottomRow, order, 2 * cy + 1) && ColoursOk(k) && k.w == w
    requires yPlane != uvPlane && top + 2 * w <= yPlane.Length && uvStart + w <= uvPlane.Length
    requires forall i :: uvStart <= i < uvPlane.Length ==> uvPlane[i] == 0
    modifies yPlane, uvPlane
    ensures yPlane[..top + 2 * w] == old(yPlane[..top]) + YRow(k, 2 * cy) + YRow(k, 2 * cy + 1)
    ensures uvPlane[..uvStart + w] == old(uvPlane[..uvStart]) + UvRow(k, cy)
    ensures uvPlane[uvStart + w..] == old(uvPlane[uvStart + w..])
  {
    ghost var y0, uv0 := yPlane[..], uvPlane[..];
    ghost var t, b, u := YRow(k, 2 * cy), YRow(k, 2 * cy + 1), UvRow(k, cy);
    var bottom := top + w;
    ConvertBlocks(topRow, bottomRow, order, w, yPlane, uvPlane, top, bottom, uvStart, k, cy, t, b, u);
    if w % 2 == 1 {
      ConvertOddColumn(topRow, bottomRow, order, w - 1, yPlane, top, bottom, k, cy, y0, t, b);
      OddTail(k, cy, uv0, uvPlane[..], uvStart);
    }
    PastedRows(y0, yPlane[..], top, bottom, t, b);
    PastedRow(uv0, uvPlane[..], uvStart, u);
  }

  lemma PairFits(h: nat, w: nat, cy: nat)
    requires cy < h / 2
    ensures 2 * cy * w + 2 * w == 2 * (cy + 1) * w <= h * w && cy * w + w == (cy + 1) * w <= h / 2 * w
    ensures 0 <= 2 * cy * w && 0 <= cy * w
  {
    RowSpan(cy, h / 2, w);
    MulMono(2 * (cy + 1), h, w);
  }

  lemma PlanesNext(k: Kernel, cy: nat)
    requires cy < k.h / 2
    ensures Flatten(YPlane(k)[..2 * (cy + 1)]) == Flatten(YPlane(k)[..2 * cy]) + YRow(k, 2 * cy) + YRow(k, 2 * cy + 1)
    ensures Flatten(UvPlane(k)[..cy + 1]) == Flatten(UvPlane(k)[..cy]) + UvRow(k, cy)
  {
    FlattenNext(YPlane(k), 2 * cy);
    FlattenNext(YPlane(k), 2 * cy + 1);
    FlattenNext(UvPlane(k), cy);
  }

  /** A trailing odd row only has luma. */
  method ConvertLastRow(row: seq<Byte>, order: ChannelOrder, w: nat, yPlane: array<int>, start: nat, ghost k: Kernel,
                        ghost y: nat)
    requires RowOk(k, row, order, y) && ColoursOk(k) && k.w == w && start + w <= yPlane.Length
    modifies yPlane
    ensures yPlane[..start + w] == old(yPlane[..start]) + YRow(k, y)
  {
    ghost var y0 := yPlane[..];
    for x := 0 to w
      invariant PastedOne(y0, yPlane[..], start, YRow(k, y), x)
    {
      var l := ReadLuma(row, order, x, k, y);
      yPlane[start + x] := l;
    }
    PastedRow(y0, yPlane[..], start, YRow(k, y));
  }

  lemma RowsInPair(k: Kernel, cy: nat, y0: seq<int>, y1: seq<int>, uv0: seq<int>, uv1: seq<int>, top: nat, uvStart: nat)
    requires cy < k.h / 2 && RowsIn(y0, YPlane(k), 2 * cy, top) && RowsIn(uv0, UvPlane(k), cy, uvStart)
    requires top + 2 * k.w <= |y1| && y1[..top + 2 * k.w] == y0[..top] + YRow(k, 2 * cy) + YRow(k, 2 * cy + 1)
    requires uvStart + k.w <= |uv1| && uv1[..uvStart + k.w] == uv0[..uvStart] + UvRow(k, cy)
    ensures RowsIn(y1, YPlane(k), 2 * (cy + 1), top + 2 * k.w) && RowsIn(uv1, UvPlane(k), cy + 1, uvStart + k.w)
  {
    PlanesNext(k, cy);
  }

  lemma SizeSplit(h: nat, w: nat)
    ensures 0 <= h * w && 0 <= h / 2 * w
    ensures 2 * (h / 2) * w + (if h % 2 == 1 then w else 0) == h * w
  {
    assert h == 2 * (h / 2) + h % 2;
    if h % 2 == 1 { RowSpan(2 * (h / 2), h, w); }
  }

  /** All pairs of rows; `end` is where the luma rows written so far end. */
  method ConvertPairs(m: Image, yPlane: array<int>, uvPlane: array<int>, ghost k: Kernel) returns (end: nat)
    requires Renders(m, k)
    requires yPlane != uvPlane && yPlane.Length == k.h * k.w && uvPlane.Length == k.h / 2 * k.w
    requires forall i :: 0 <= i < uvPlane.Length ==> uvPlane[i] == 0
    modifies yPlane, uvPlane
    ensures end + (if k.h % 2 == 1 then k.w else 0) == yPlane.Length
    ensures RowsIn(yPlane[..], YPlane(k), 2 * (k.h / 2), end)
    ensures RowsIn(uvPlane[..], UvPlane(k), k.h / 2, uvPlane.Length)
  {
    var top, uvStart := 0, 0;
    for cy := 0 to m.h / 2
      invariant 0 <= top == 2 * cy * k.w && 0 <= uvStart == cy * k.w
      invariant RowsIn(yPlane[..], YPlane(k), 2 * cy, top) && RowsIn(uvPlane[..], UvPlane(k), cy, uvStart)
      invariant forall i :: uvStart <= i < uvPlane.Length ==> uvPlane[i] == 0
    {
      PairFits(k.h, k.w, cy);
      ghost var y0, uv0 := yPlane[..], uvPlane[..];
      var topRow, bottomRow := SourceRow(m, 2 * cy), SourceRow(m, 2 * cy + 1);
      ConvertRowPair(topRow, bottomRow, m.order, m.w, yPlane, uvPlane, top, uvStart, k, cy);
      RowsInPair(k, cy, y0, yPlane[..], uv0, uvPlane[..], top, uvStart);
      assert uvPlane[uvStart + k.w..] == uv0[uvStart + k.w..];
      top, uvStart := top + 2 * m.w, uvStart + m.w;
    }
    SizeSplit(k.h, k.w);
    end := top;
  }

  lemma LastRowIn(k: Kernel, y0: seq<int>, y1: seq<int>, start: nat)
    requires k.h % 2 == 1 && RowsIn(y0, YPlane(k), k.h - 1, start) && start + k.w <= |y1|
    requires y1[..start + k.w] == y0[..start] + YRow(k, k.h - 1)
    ensures RowsIn(y1, YPlane(k), k.h, start + k.w)
  {
    FlattenNext(YPlane(k), k.h - 1);
  }

  /** `convert_rgb_rows`: a single pass over the source that equals the two passes. */
  method ConvertRows(m: Image) returns (nv12: seq<int>)
    requires Fits(m)
    ensures nv12 == TwoPass(KernelOf(m))
  {
    ghost var k := KernelOf(m);
    KernelRenders(m);
    nv12 := Convert(m, k);
  }

  method Convert(m: Image, ghost k: Kernel) returns (nv12: seq<int>)
    requires Renders(m, k)
    ensures nv12 == TwoPass(k)
  {
    SizeSplit(m.h, m.w);
    var yPlane := new int[m.h * m.w](_ => 0);
    var uvPlane := new int[m.h / 2 * m.w](_ => 0);
    FillPlanes(m, yPlane, uvPlane, k);
    nv12 := yPlane[..] + uvPlane[..];
  }

  /** All pairs of rows and a trailing odd row. */
  method FillPlanes(m: Image, yPlane: array<int>, uvPlane: array<int>, ghost k: Kernel)
    requires Renders(m, k)
    requires yPlane != uvPlane && yPlane.Length == k.h * k.w && uvPlane.Length == k.h / 2 * k.w
    requires forall i :: 0 <= i < uvPlane.Length ==> uvPlane[i] == 0
    modifies yPlane, uvPlane
    ensures yPlane[..] == Flatten(YPlane(k)) && uvPlane[..] == Flatten(UvPlane(k))
  {
    var end := ConvertPairs(m, yPlane, uvPlane, k);
    if m.h % 2 == 1 {
      ghost var y0 := yPlane[..];
      ConvertLastRow(SourceRow(m, m.h - 1), m.order, m.w, yPlane, end, k, m.h - 1);
      LastRowIn(k, y0, yPlane[..], end);
    }
    assert YPlane(k)[..k.h] == YPlane(k) && UvPlane(k)[..k.h / 2] == UvPlane(k);
  }

  /** `packed_rgb_to_nv12` */
  method PackedRgbToNv12(m: Image) returns (r: Result)
    ensures r == if Fits(m) then Ok(TwoPass(KernelOf(m))) else TooSmall
  {
    if m.stride < m.w * 4 || |m.data| < m.stride * m.h {
      return TooSmall;
    }
    var nv12 := ConvertRows(m);
    return Ok(nv12);
  }
}
