/**
 * Integer YUV -> RGB/BGR arithmetic of libuvc's frame conversion kernels
 * (src/frame.c): the `sat` clamp, the 14-bit fixed-point chroma offsets of the
 * IYUYV2*_2 / IUYVY2*_2 macros, and the byte sequences the conversion loops
 * write, stated as functions of the input bytes.
 */
module Color {

  /** An unsigned 8-bit sample (uint8_t). */
  type byte = x: int | 0 <= x < 256

  /** `sat`: clamps an int channel value into [0, 255]; never wraps. */
  function Sat(i: int): (r: byte)
    ensures i < 0 ==> r == 0
    ensures i > 255 ==> r == 255
    ensures 0 <= i <= 255 ==> r == i
  {
    if i >= 255 then 255 else if i < 0 then 0 else i
  }

  /**
   * `x >> 14` on a (possibly negative) int: an arithmetic shift, that is the
   * largest integer r with r * 2^14 <= x.
   */
  function Shr14(x: int): (r: int)
    ensures r * 16384 <= x < r * 16384 + 16384
  {
    x / 16384
  }

  /** The red chroma offset `(22987 * (V - 128)) >> 14`. */
  function RedOffset(v: byte): (r: int)
    ensures -180 <= r <= 178
  {
    Shr14(22987 * (v - 128))
  }

  /** The green chroma offset `(-5636 * (U - 128) - 11698 * (V - 128)) >> 14`. */
  function GreenOffset(u: byte, v: byte): (g: int)
    ensures -135 <= g <= 135
  {
    Shr14(-5636 * (u - 128) - 11698 * (v - 128))
  }

  /** The blue chroma offset `(29049 * (U - 128)) >> 14`. */
  function BlueOffset(u: byte): (b: int)
    ensures -227 <= b <= 225
  {
    Shr14(29049 * (u - 128))
  }

  /**
   * The fixed-point offsets approximate the JFIF full-range coefficients
   * 1.402, 0.34414, 0.71414 and 1.772 (ITU-T T.871, clause 7) that the float
   * macro uses. The integer constants are 2^14 times 1.403, 0.344, 0.714 and
   * 1.773, rounded to the nearest integer, within about 0.1% of those
   * coefficients; with the truncation of
   * the shift, every offset stays within (-1.2, 0.2) of the real value.
   */
  lemma OffsetsApproximateJfif(u: byte, v: byte)
    ensures -1.2 < RedOffset(v) as real - 1.402 * (v - 128) as real < 0.2
    ensures -1.2 < GreenOffset(u, v) as real
                   - (-0.34414 * (u - 128) as real - 0.71414 * (v - 128) as real) < 0.2
    ensures -1.2 < BlueOffset(u) as real - 1.772 * (u - 128) as real < 0.2
  {
    var du, dv := (u - 128) as real, (v - 128) as real;
    var r, g, b := RedOffset(v), GreenOffset(u, v), BlueOffset(u);
    assert r as real * 16384.0 <= 22987.0 * dv < r as real * 16384.0 + 16384.0;
    assert g as real * 16384.0 <= -5636.0 * du - 11698.0 * dv < g as real * 16384.0 + 16384.0;
    assert b as real * 16384.0 <= 29049.0 * du < b as real * 16384.0 + 16384.0;
  }

  /** Neutral chroma (U = V = 128) contributes nothing to any channel. */
  lemma NeutralChromaHasNoOffset()
    ensures RedOffset(128) == 0 && GreenOffset(128, 128) == 0 && BlueOffset(128) == 0
  {
  }

  /** Byte order of a packed 4:2:2 source: YUYV = [Y0,U,Y1,V], UYVY = [U,Y0,V,Y1]. */
  datatype Layout = Yuyv | Uyvy

  /** Channel order of a 3-byte output pixel. */
  datatype Order = Rgb | Bgr

  /** Two pixels' luma with the chroma they share. */
  datatype Quad = Quad(y0: byte, u: byte, y1: byte, v: byte)

  /** The k-th 4-byte group of a packed source, read in its layout's order. */
  function QuadAt(src: seq<byte>, layout: Layout, k: nat): Quad
    requires 4 * k + 4 <= |src|
  {
    var p := 4 * k;
    match layout
    case Yuyv => Quad(src[p], src[p + 1], src[p + 2], src[p + 3])
    case Uyvy => Quad(src[p + 1], src[p], src[p + 3], src[p + 2])
  }

  /** Quad k depends on the four bytes of group k and on nothing else of the source. */
  lemma QuadAtReadsOwnGroup(src: seq<byte>, layout: Layout, k: nat)
    requires 4 * k + 4 <= |src|
    ensures QuadAt(src, layout, k) == QuadAt(src[4 * k..4 * k + 4], layout, 0)
  {
    var g := src[4 * k..4 * k + 4];
    assert g[0] == src[4 * k] && g[1] == src[4 * k + 1] && g[2] == src[4 * k + 2] && g[3] == src[4 * k + 3];
  }

  /**
   * The byte of a group that UYVY reads as a given component is the YUYV
   * position with bytes 0/1 and 2/3 of the group exchanged.
   */
  lemma UyvyQuadIsSwappedYuyv(src: seq<byte>, k: nat)
    requires 4 * k + 4 <= |src|
    ensures var p := 4 * k;
      QuadAt(src, Uyvy, k) == QuadAt(src[p := src[p + 1]][p + 1 := src[p]][p + 2 := src[p + 3]][p + 3 := src[p + 2]], Yuyv, k)
  {
  }

  /** One output pixel for luma y under the pair's shared chroma offsets. */
  function Pixel(y: byte, q: Quad, order: Order): seq<byte>
  {
    var r, g, b := RedOffset(q.v), GreenOffset(q.u, q.v), BlueOffset(q.u);
    match order
    case Rgb => [Sat(y + r), Sat(y + g), Sat(y + b)]
    case Bgr => [Sat(y + b), Sat(y + g), Sat(y + r)]
  }

  /** The six bytes one IYUYV2*_2 / IUYVY2*_2 step writes for a quad. */
  function PairPixels(q: Quad, order: Order): (p: seq<byte>)
    ensures |p| == 6
  {
    Pixel(q.y0, q, order) + Pixel(q.y1, q, order)
  }

  /** With neutral chroma both output pixels are the grey (Y, Y, Y). */
  lemma {:induction false} NeutralPairIsGrey(q: Quad, order: Order)
    requires q.u == 128 && q.v == 128
    ensures PairPixels(q, order) == [q.y0, q.y0, q.y0, q.y1, q.y1, q.y1]
  {
    NeutralChromaHasNoOffset();
  }

  /** A BGR pair is the RGB pair with bytes 0 and 2 of each pixel exchanged. */
  lemma BgrPairSwapsRgbPair(q: Quad)
    ensures var p := PairPixels(q, Rgb);
      PairPixels(q, Bgr) == [p[2], p[1], p[0], p[5], p[4], p[3]]
  {
  }

  /** Y = 255, U = 255, V = 0: G and B clamp at 255, R is 75 unclamped, and nothing wraps. */
  lemma SaturationBoundary()
    ensures PairPixels(Quad(255, 255, 255, 0), Rgb) == [75, 255, 255, 75, 255, 255]
  {
    assert RedOffset(0) == -180;
    assert GreenOffset(255, 0) == 47;
    assert BlueOffset(255) == 225;
  }

  /** Y = U = V = 0: R and B clamp at 0, G is 135 unclamped, and nothing wraps. */
  lemma LowSaturation()
    ensures PairPixels(Quad(0, 0, 0, 0), Rgb) == [0, 135, 0, 0, 135, 0]
  {
    assert RedOffset(0) == -180;
    assert GreenOffset(0, 0) == 135;
    assert BlueOffset(0) == -227;
  }

  /** Concatenation of 6-byte output pairs, in order. */
  function Concat(blocks: seq<seq<byte>>): (out: seq<byte>)
    requires forall i :: 0 <= i < |blocks| ==> |blocks[i]| == 6
    ensures |out| == 6 * |blocks|
  {
    if blocks == [] then [] else Concat(blocks[..|blocks| - 1]) + blocks[|blocks| - 1]
  }

  /** Byte 6k + c of a concatenation is byte c of block k. */
  lemma {:induction false} ConcatAt(blocks: seq<seq<byte>>, k: nat, c: nat)
    requires forall i :: 0 <= i < |blocks| ==> |blocks[i]| == 6
    requires k < |blocks| && c < 6
    ensures Concat(blocks)[6 * k + c] == blocks[k][c]
  {
    var init := blocks[..|blocks| - 1];
    if k < |blocks| - 1 {
      ConcatAt(init, k, c);
    }
  }

  /** Concatenating one more block appends it. */
  lemma ConcatNext(blocks: seq<seq<byte>>, k: nat)
    requires forall i :: 0 <= i < |blocks| ==> |blocks[i]| == 6
    requires k < |blocks|
    ensures Concat(blocks[..k + 1]) == Concat(blocks[..k]) + blocks[k]
  {
    assert blocks[..k + 1][..k] == blocks[..k];
  }

  /** The output pair of every quad of a packed source, one per quad. */
  function Pairs(src: seq<byte>, layout: Layout, order: Order, pairs: nat): (ps: seq<seq<byte>>)
    requires 4 * pairs <= |src|
    ensures |ps| == pairs && forall i :: 0 <= i < pairs ==> |ps[i]| == 6
  {
    seq(pairs, k requires 0 <= k < pairs => PairPixels(QuadAt(src, layout, k), order))
  }

  /**
   * The bytes the RGB/BGR pixel loops write for the first `pairs` quads of a
   * packed source: output bytes [6k, 6k + 6) come from source bytes [4k, 4k + 4).
   */
  function Converted(src: seq<byte>, layout: Layout, order: Order, pairs: nat): (out: seq<byte>)
    requires 4 * pairs <= |src|
    ensures |out| == 6 * pairs
  {
    Concat(Pairs(src, layout, order, pairs))
  }

  /** Output byte 6k + c is byte c of the pair converted from quad k. */
  lemma ConvertedAt(src: seq<byte>, layout: Layout, order: Order, pairs: nat, k: nat, c: nat)
    requires 4 * pairs <= |src|
    requires k < pairs && c < 6
    ensures Converted(src, layout, order, pairs)[6 * k + c] == PairPixels(QuadAt(src, layout, k), order)[c]
  {
    ConcatAt(Pairs(src, layout, order, pairs), k, c);
  }

  /** Bytes [6k, 6k + 6) of a concatenation are block k. */
  lemma ConcatSlice(blocks: seq<seq<byte>>, k: nat)
    requires forall i :: 0 <= i < |blocks| ==> |blocks[i]| == 6
    requires k < |blocks|
    ensures Concat(blocks)[6 * k..6 * k + 6] == blocks[k]
  {
    forall c | 0 <= c < 6
      ensures Concat(blocks)[6 * k..6 * k + 6][c] == blocks[k][c]
    {
      ConcatAt(blocks, k, c);
    }
  }

  /** Output bytes [6k, 6k + 6) are the pair converted from quad k. */
  lemma ConvertedPair(src: seq<byte>, layout: Layout, order: Order, pairs: nat, k: nat)
    requires 4 * pairs <= |src| && k < pairs
    ensures Converted(src, layout, order, pairs)[6 * k..6 * k + 6] == PairPixels(QuadAt(src, layout, k), order)
  {
    ConcatSlice(Pairs(src, layout, order, pairs), k);
  }

  /**
   * Two YUYV quads of Y = 235 with neutral chroma, the eight bytes one
   * `IYUYV2RGB_4` step reads, convert to twelve bytes of 235.
   */
  lemma NeutralQuadsConvertToGrey()
    ensures Converted([235, 128, 235, 128, 235, 128, 235, 128], Yuyv, Rgb, 2)
         == [235, 235, 235, 235, 235, 235, 235, 235, 235, 235, 235, 235]
  {
    var src: seq<byte> := [235, 128, 235, 128, 235, 128, 235, 128];
    NeutralPairIsGrey(QuadAt(src, Yuyv, 0), Rgb);
    NeutralPairIsGrey(QuadAt(src, Yuyv, 1), Rgb);
  }

  /** The luma plane `uvc_yuyv2y` writes: output byte i is source byte 2i. */
  function LumaPlane(src: seq<byte>, n: nat): (out: seq<byte>)
    requires n == 0 || 2 * n - 1 <= |src|
    ensures |out| == n
  {
    seq(n, i requires 0 <= i < n => src[2 * i])
  }

  /** The chroma plane `uvc_yuyv2uv` writes: output byte i is source byte 2i + 1. */
  function ChromaPlane(src: seq<byte>, n: nat): (out: seq<byte>)
    requires 2 * n <= |src|
    ensures |out| == n
  {
    seq(n, i requires 0 <= i < n => src[2 * i + 1])
  }

  /** In the luma plane, bytes 2k and 2k + 1 are the two lumas Y0, Y1 of YUYV quad k. */
  lemma LumaPlaneHoldsBothLumas(src: seq<byte>, n: nat, k: nat)
    requires n == 0 || 2 * n - 1 <= |src|
    requires 2 * k + 1 < n && 4 * k + 4 <= |src|
    ensures LumaPlane(src, n)[2 * k] == QuadAt(src, Yuyv, k).y0
    ensures LumaPlane(src, n)[2 * k + 1] == QuadAt(src, Yuyv, k).y1
  {
  }

  /**
   * The chroma plane alternates U and V: bytes 2k and 2k + 1 are the U and
   * the V of YUYV quad k, so each chroma sample appears once, at luma
   * resolution.
   */
  lemma ChromaPlaneAlternatesUV(src: seq<byte>, n: nat, k: nat)
    requires 2 * n <= |src|
    requires 2 * k + 1 < n
    ensures ChromaPlane(src, n)[2 * k] == QuadAt(src, Yuyv, k).u
    ensures ChromaPlane(src, n)[2 * k + 1] == QuadAt(src, Yuyv, k).v
  {
  }
}
