/**
 * libuvc's pixel-format conversion kernels and routers (src/frame.c). Every
 * kernel checks the source format, sizes the destination through
 * `uvc_ensure_frame_size`, copies the geometry and timing fields, and then
 * runs a pixel loop until the destination pointer reaches out->data_bytes.
 */
module Convert {
  import opened Color
  import opened Frames

  /** Destination size of a 3-byte-per-pixel kernel: `in->width * in->height * 3` in uint32_t. */
  function RgbNeed(f: Frame): (n: u32)
    reads f
    ensures f.width * f.height * 3 < 0x1_0000_0000 ==> n == f.width * f.height * 3
  {
    Wrap32(f.width * f.height * 3)
  }

  /** Destination size of a GRAY8 kernel: `in->width * in->height` in uint32_t. */
  function GrayNeed(f: Frame): (n: u32)
    reads f
    ensures f.width * f.height < 0x1_0000_0000 ==> n == f.width * f.height
  {
    Wrap32(f.width * f.height)
  }

  /** Row length of a 3-byte-per-pixel destination: `in->width * 3` in uint32_t. */
  function RgbStep(f: Frame): (n: u32)
    reads f
    ensures f.width * 3 < 0x1_0000_0000 ==> n == f.width * 3
  {
    Wrap32(f.width * 3)
  }

  /**
   * The RGB/BGR loops write 24 bytes (8 pixels) per iteration and read 16
   * source bytes for them, until the write pointer reaches outBytes: they
   * stay inside both buffers exactly when outBytes is a whole number of
   * blocks and the source holds 4 bytes per 6 written.
   */
  predicate BlocksFit(outBytes: nat, inBytes: nat)
  {
    outBytes % 24 == 0 && 4 * (outBytes / 6) <= inBytes
  }

  /** A destination of whole blocks holds 4 quads' output per block. */
  lemma WholeRounds(outBytes: nat, inBytes: nat)
    requires BlocksFit(outBytes, inBytes)
    ensures outBytes == 24 * (outBytes / 24) && outBytes / 6 == 4 * (outBytes / 24)
  {
    var rounds := outBytes / 24;
    assert outBytes == 6 * (4 * rounds);
  }

  /** The luma loop reads source byte 2i for every output byte i. */
  predicate LumaFits(outBytes: nat, inBytes: nat)
  {
    outBytes == 0 || 2 * outBytes - 1 <= inBytes
  }

  /** The chroma loop reads source byte 2i + 1 for every output byte i. */
  predicate ChromaFits(outBytes: nat, inBytes: nat)
  {
    2 * outBytes <= inBytes
  }

  /** A format mismatch: INVALID_PARAM, nothing about the destination touched. */
  twostate predicate Rejected(output: Frame, st: Status)
    reads output, output.data
  {
    st == InvalidParam && unchanged(output) && output.Bytes() == old(output.Bytes())
  }

  /**
   * What a kernel whose format check passed leaves in `output`: the sizing
   * gate's verdict as status; on NO_MEM the header untouched and the buffer
   * as the gate left it; on success the source's geometry, sequence,
   * timestamps and source handle with the target format and step.
   */
  twostate predicate KernelOutcome(input: Frame, output: Frame, target: FrameFormat, step: nat,
                                   need: nat, allocOk: bool, st: Status)
    reads input, output, output.data
  {
    (st == Success <==> old(output.SizeFits(need, allocOk))) &&
    (st == Success || st == NoMem) &&
    output.ResizedTo(need, allocOk) && output.KeepsAttachments() &&
    (st == NoMem ==> output.Header() == old(output.Header()) && output.ResizeKeptBytes(need, allocOk)) &&
    (st == Success ==> output.data != null && output.Header() == input.Header().(format := target, step := step))
  }

  /**
   * The destination prefix [0, o) holds the pairs of the first k quads, and
   * `blocks` lists the pair of every quad of the source.
   */
  ghost predicate WrittenUpTo(src: array<byte>, dst: array<byte>, layout: Layout, order: Order,
                              blocks: seq<seq<byte>>, k: nat, o: nat)
    reads src, dst
  {
    4 * |blocks| <= src.Length && blocks == Pairs(src[..], layout, order, |blocks|) &&
    k <= |blocks| && o == 6 * k && o <= dst.Length && dst[..o] == Concat(blocks[..k])
  }

  /** Reads the 4-byte group at source offset i = 4k (`pyuv[0..3]`) in the layout's order. */
  method ReadQuad(src: array<byte>, i: nat, layout: Layout, ghost k: nat) returns (q: Quad)
    requires i == 4 * k && i + 4 <= src.Length
    ensures q == QuadAt(src[..], layout, k)
  {
    q := match layout
      case Yuyv => Quad(src[i], src[i + 1], src[i + 2], src[i + 3])
      case Uyvy => Quad(src[i + 1], src[i], src[i + 3], src[i + 2]);
  }

  /** Stores six bytes at destination offset o (`prgb[0..5]`). */
  method StorePair(dst: array<byte>, o: nat, p: seq<byte>)
    requires |p| == 6 && o + 6 <= dst.Length
    modifies dst
    ensures dst[..o + 6] == old(dst[..o]) + p
    ensures dst[o + 6..] == old(dst[o + 6..])
  {
    forall c | 0 <= c < 6 {
      dst[o + c] := p[c];
    }
  }

  /**
   * An IYUYV2*_2 / IUYVY2*_2 step: reads the quad at source offset i = 4k
   * and writes its pixel pair at destination offset o = 6k.
   */
  method WritePair(src: array<byte>, i: nat, dst: array<byte>, o: nat, layout: Layout, order: Order,
                   ghost k: nat, ghost blocks: seq<seq<byte>>)
    requires src != dst && i == 4 * k && k < |blocks|
    requires WrittenUpTo(src, dst, layout, order, blocks, k, o) && o + 6 <= dst.Length
    modifies dst
    ensures WrittenUpTo(src, dst, layout, order, blocks, k + 1, o + 6)
    ensures dst[o + 6..] == old(dst[o + 6..])
  {
    var q := ReadQuad(src, i, layout, k);
    StorePair(dst, o, PairPixels(q, order));
    ConcatNext(blocks, k);
  }

  /** An IYUYV2*_4 / IUYVY2*_4 step: two pair steps, four pixels. */
  method WriteFourPixels(src: array<byte>, i: nat, dst: array<byte>, o: nat, layout: Layout, order: Order,
                         ghost k: nat, ghost blocks: seq<seq<byte>>)
    requires src != dst && i == 4 * k && k + 2 <= |blocks|
    requires WrittenUpTo(src, dst, layout, order, blocks, k, o) && o + 12 <= dst.Length
    modifies dst
    ensures WrittenUpTo(src, dst, layout, order, blocks, k + 2, o + 12)
    ensures dst[o + 12..] == old(dst[o + 12..])
  {
    WritePair(src, i, dst, o, layout, order, k, blocks);
    WritePair(src, i + 4, dst, o + 6, layout, order, k + 1, blocks);
  }

  /** An IYUYV2*_8 / IUYVY2*_8 step: two four-pixel steps, eight pixels. */
  method WriteEightPixels(src: array<byte>, i: nat, dst: array<byte>, o: nat, layout: Layout, order: Order,
                          ghost k: nat, ghost blocks: seq<seq<byte>>)
    requires src != dst && i == 4 * k && k + 4 <= |blocks|
    requires WrittenUpTo(src, dst, layout, order, blocks, k, o) && o + 24 <= dst.Length
    modifies dst
    ensures WrittenUpTo(src, dst, layout, order, blocks, k + 4, o + 24)
  {
    WriteFourPixels(src, i, dst, o, layout, order, k, blocks);
    WriteFourPixels(src, i + 8, dst, o + 12, layout, order, k + 2, blocks);
  }

  /**
   * The pixel loop of uvc_yuyv2rgb, uvc_uyvy2rgb and uvc_uyvy2bgr: an 8-pixel
   * step per iteration, source pointer i advancing by 16 and destination
   * pointer o by 24, until the whole destination is written.
   */
  method ConvertPairs(src: array<byte>, dst: array<byte>, layout: Layout, order: Order)
    requires src != dst && BlocksFit(dst.Length, src.Length)
    modifies dst
    ensures dst[..] == Converted(src[..], layout, order, dst.Length / 6)
  {
    ghost var rounds := dst.Length / 24;
    WholeRounds(dst.Length, src.Length);
    ghost var blocks := Pairs(src[..], layout, order, 4 * rounds);
    var i, o := 0, 0;
    // k counts the quads consumed, `done` the 8-pixel steps.
    ghost var k, done := 0, 0;
    while o < dst.Length
      invariant i == 4 * k && k == 4 * done && done <= rounds
      invariant WrittenUpTo(src, dst, layout, order, blocks, k, o)
    {
      assert done < rounds && k + 4 <= |blocks|;
      WriteEightPixels(src, i, dst, o, layout, order, k, blocks);
      i, o := i + 16, o + 24;
      k, done := k + 4, done + 1;
    }
    assert dst[..] == dst[..o];
    assert blocks[..k] == blocks;
  }

  /** The pixel loop of uvc_yuyv2y: one luma byte per output byte, source advancing by 2. */
  method ExtractLuma(src: array<byte>, dst: array<byte>)
    requires src != dst && LumaFits(dst.Length, src.Length)
    modifies dst
    ensures dst[..] == LumaPlane(src[..], dst.Length)
  {
    var i, o := 0, 0;
    while o < dst.Length
      invariant o <= dst.Length && i == 2 * o
      invariant forall j :: 0 <= j < o ==> dst[j] == src[2 * j]
    {
      dst[o] := src[i];
      o, i := o + 1, i + 2;
    }
  }

  /** The pixel loop of uvc_yuyv2uv: one chroma byte per output byte, source advancing by 2. */
  method ExtractChroma(src: array<byte>, dst: array<byte>)
    requires src != dst && ChromaFits(dst.Length, src.Length)
    modifies dst
    ensures dst[..] == ChromaPlane(src[..], dst.Length)
  {
    var i, o := 0, 0;
    while o < dst.Length
      invariant o <= dst.Length && i == 2 * o
      invariant forall j :: 0 <= j < o ==> dst[j] == src[2 * j + 1]
    {
      dst[o] := src[i + 1];
      o, i := o + 1, i + 2;
    }
  }

  /**
   * The shared body of the three pixel-writing RGB/BGR kernels: format
   * check, sizing gate, header, pixel loop.
   */
  method PackedToColor(input: Frame, output: Frame, allocOk: bool, from: FrameFormat, layout: Layout,
                       target: FrameFormat, order: Order) returns (st: Status)
    requires input.Valid() && output.Valid() && Apart(input, output)
    requires input.format == from && output.SizeFits(RgbNeed(input), allocOk) ==>
               BlocksFit(output.SizeAfter(RgbNeed(input)), |input.Bytes()|)
    modifies output, output.data
    ensures unchanged(input) && input.Bytes() == old(input.Bytes())
    ensures output.Valid()
    ensures input.format != from ==> Rejected(output, st)
    ensures input.format == from ==> KernelOutcome(input, output, target, RgbStep(input), RgbNeed(input), allocOk, st)
    ensures input.format == from && st == Success ==>
              BlocksFit(output.dataBytes, |input.Bytes()|) &&
              output.data[..] == Converted(input.Bytes(), layout, order, output.dataBytes / 6)
  {
    if input.format != from {
      return InvalidParam;
    }
    var sized := output.EnsureSize(RgbNeed(input), allocOk);
    if sized != Success {
      return NoMem;
    }
    output.SetHeader(input.Header().(format := target, step := RgbStep(input)));
    if output.dataBytes > 0 {
      ConvertPairs(input.data, output.data, layout, order);
    }
    return Success;
  }

  /** `uvc_yuyv2rgb`. */
  method YuyvToRgb(input: Frame, output: Frame, allocOk: bool) returns (st: Status)
    requires input.Valid() && output.Valid() && Apart(input, output)
    requires input.format == YUYV && output.SizeFits(RgbNeed(input), allocOk) ==>
               BlocksFit(output.SizeAfter(RgbNeed(input)), |input.Bytes()|)
    modifies output, output.data
    ensures unchanged(input) && input.Bytes() == old(input.Bytes())
    ensures output.Valid()
    ensures input.format != YUYV ==> Rejected(output, st)
    ensures input.format == YUYV ==> KernelOutcome(input, output, RGB, RgbStep(input), RgbNeed(input), allocOk, st)
    ensures input.format == YUYV && st == Success ==>
              BlocksFit(output.dataBytes, |input.Bytes()|) &&
              output.data[..] == Converted(input.Bytes(), Yuyv, Rgb, output.dataBytes / 6)
  {
    st := PackedToColor(input, output, allocOk, YUYV, Yuyv, RGB, Rgb);
  }

  /** `uvc_uyvy2rgb`. */
  method UyvyToRgb(input: Frame, output: Frame, allocOk: bool) returns (st: Status)
    requires input.Valid() && output.Valid() && Apart(input, output)
    requires input.format == UYVY && output.SizeFits(RgbNeed(input), allocOk) ==>
               BlocksFit(output.SizeAfter(RgbNeed(input)), |input.Bytes()|)
    modifies output, output.data
    ensures unchanged(input) && input.Bytes() == old(input.Bytes())
    ensures output.Valid()
    ensures input.format != UYVY ==> Rejected(output, st)
    ensures input.format == UYVY ==> KernelOutcome(input, output, RGB, RgbStep(input), RgbNeed(input), allocOk, st)
    ensures input.format == UYVY && st == Success ==>
              BlocksFit(output.dataBytes, |input.Bytes()|) &&
              output.data[..] == Converted(input.Bytes(), Uyvy, Rgb, output.dataBytes / 6)
  {
    st := PackedToColor(input, output, allocOk, UYVY, Uyvy, RGB, Rgb);
  }

  /** `uvc_uyvy2bgr`. */
  method UyvyToBgr(input: Frame, output: Frame, allocOk: bool) returns (st: Status)
    requires input.Valid() && output.Valid() && Apart(input, output)
    requires input.format == UYVY && output.SizeFits(RgbNeed(input), allocOk) ==>
               BlocksFit(output.SizeAfter(RgbNeed(input)), |input.Bytes()|)
    modifies output, output.data
    ensures unchanged(input) && input.Bytes() == old(input.Bytes())
    ensures output.Valid()
    ensures input.format != UYVY ==> Rejected(output, st)
    ensures input.format == UYVY ==> KernelOutcome(input, output, BGR, RgbStep(input), RgbNeed(input), allocOk, st)
    ensures input.format == UYVY && st == Success ==>
              BlocksFit(output.dataBytes, |input.Bytes()|) &&
              output.data[..] == Converted(input.Bytes(), Uyvy, Bgr, output.dataBytes / 6)
  {
    st := PackedToColor(input, output, allocOk, UYVY, Uyvy, BGR, Bgr);
  }

  /**
   * `uvc_yuyv2bgr` as it stands: format check, sizing gate and BGR header,
   * but its pixel loop is commented out, so the destination's bytes are
   * whatever the sizing gate left in them.
   */
  method YuyvToBgr(input: Frame, output: Frame, allocOk: bool) returns (st: Status)
    requires input.Valid() && output.Valid() && Apart(input, output)
    modifies output, output.data
    ensures unchanged(input) && input.Bytes() == old(input.Bytes())
    ensures output.Valid()
    ensures input.format != YUYV ==> Rejected(output, st)
    ensures input.format == YUYV ==> KernelOutcome(input, output, BGR, RgbStep(input), RgbNeed(input), allocOk, st)
    ensures input.format == YUYV ==> output.ResizeKeptBytes(RgbNeed(input), allocOk)
  {
    if input.format != YUYV {
      return InvalidParam;
    }
    var expectedOutSize := RgbNeed(input);
    var sized := output.EnsureSize(expectedOutSize, allocOk);
    if sized != Success {
      return NoMem;
    }
    output.SetHeader(input.Header().(format := BGR, step := RgbStep(input)));
    return Success;
  }

  /** `uvc_yuyv2y`: the luma plane as GRAY8, row length = width. */
  method YuyvToY(input: Frame, output: Frame, allocOk: bool) returns (st: Status)
    requires input.Valid() && output.Valid() && Apart(input, output)
    requires input.format == YUYV && output.SizeFits(GrayNeed(input), allocOk) ==>
               LumaFits(output.SizeAfter(GrayNeed(input)), |input.Bytes()|)
    modifies output, output.data
    ensures unchanged(input) && input.Bytes() == old(input.Bytes())
    ensures output.Valid()
    ensures input.format != YUYV ==> Rejected(output, st)
    ensures input.format == YUYV ==> KernelOutcome(input, output, GRAY8, input.width, GrayNeed(input), allocOk, st)
    ensures input.format == YUYV && st == Success ==>
              LumaFits(output.dataBytes, |input.Bytes()|) &&
              output.data[..] == LumaPlane(input.Bytes(), output.dataBytes)
  {
    if input.format != YUYV {
      return InvalidParam;
    }
    var sized := output.EnsureSize(GrayNeed(input), allocOk);
    if sized != Success {
      return NoMem;
    }
    output.SetHeader(input.Header().(format := GRAY8, step := input.width));
    if output.dataBytes > 0 {
      ExtractLuma(input.data, output.data);
    }
    return Success;
  }

  /** `uvc_yuyv2uv`: the chroma bytes (U, V alternating) as GRAY8, row length = width. */
  method YuyvToUV(input: Frame, output: Frame, allocOk: bool) returns (st: Status)
    requires input.Valid() && output.Valid() && Apart(input, output)
    requires input.format == YUYV && output.SizeFits(GrayNeed(input), allocOk) ==>
               ChromaFits(output.SizeAfter(GrayNeed(input)), |input.Bytes()|)
    modifies output, output.data
    ensures unchanged(input) && input.Bytes() == old(input.Bytes())
    ensures output.Valid()
    ensures input.format != YUYV ==> Rejected(output, st)
    ensures input.format == YUYV ==> KernelOutcome(input, output, GRAY8, input.width, GrayNeed(input), allocOk, st)
    ensures input.format == YUYV && st == Success ==>
              ChromaFits(output.dataBytes, |input.Bytes()|) &&
              output.data[..] == ChromaPlane(input.Bytes(), output.dataBytes)
  {
    if input.format != YUYV {
      return InvalidParam;
    }
    var sized := output.EnsureSize(GrayNeed(input), allocOk);
    if sized != Success {
      return NoMem;
    }
    output.SetHeader(input.Header().(format := GRAY8, step := input.width));
    if output.dataBytes > 0 {
      ExtractChroma(input.data, output.data);
    }
    return Success;
  }

  /** What a router leaves for a source format it has no kernel for: NOT_SUPPORTED, nothing touched. */
  twostate predicate Unsupported(output: Frame, st: Status)
    reads output, output.data, output.metadata
  {
    st == NotSupported && unchanged(output) && output.Bytes() == old(output.Bytes()) &&
    output.MetadataContents() == old(output.MetadataContents())
  }

  /**
   * `uvc_any2rgb` as built without LIBUVC_HAS_JPEG: YUYV and UYVY are
   * converted, RGB is duplicated, every other format (MJPEG included) is
   * NOT_SUPPORTED.
   */
  method AnyToRgb(input: Frame, output: Frame, allocOk: bool) returns (st: Status)
    requires input.Valid() && output.Valid() && Apart(input, output)
    requires (input.format == YUYV || input.format == UYVY) && output.SizeFits(RgbNeed(input), allocOk) ==>
               BlocksFit(output.SizeAfter(RgbNeed(input)), |input.Bytes()|)
    requires input.format == RGB && output.SizeFits(input.dataBytes, allocOk) ==>
               input.dataBytes == 0 || input.data != null
    modifies output, output.data, output.metadata
    ensures unchanged(input) && input.Bytes() == old(input.Bytes())
    ensures output.Valid()
    ensures input.format == YUYV ==>
              KernelOutcome(input, output, RGB, RgbStep(input), RgbNeed(input), allocOk, st) &&
              (st == Success ==> output.data[..] == Converted(input.Bytes(), Yuyv, Rgb, output.dataBytes / 6))
    ensures input.format == UYVY ==>
              KernelOutcome(input, output, RGB, RgbStep(input), RgbNeed(input), allocOk, st) &&
              (st == Success ==> output.data[..] == Converted(input.Bytes(), Uyvy, Rgb, output.dataBytes / 6))
    ensures input.format in {YUYV, UYVY} ==> output.MetadataContents() == old(output.MetadataContents())
    ensures input.format == RGB ==> Duplicated(input, output, allocOk, st)
    ensures input.format !in {YUYV, UYVY, RGB} ==> Unsupported(output, st)
  {
    match input.format {
      case YUYV => st := YuyvToRgb(input, output, allocOk);
      case UYVY => st := UyvyToRgb(input, output, allocOk);
      case RGB => st := Duplicate(input, output, allocOk);
      case _ => st := NotSupported;
    }
  }

  /**
   * `uvc_any2bgr`: YUYV goes through `uvc_yuyv2bgr` (which writes no pixels),
   * UYVY is converted, BGR is duplicated, every other format is NOT_SUPPORTED.
   */
  method AnyToBgr(input: Frame, output: Frame, allocOk: bool) returns (st: Status)
    requires input.Valid() && output.Valid() && Apart(input, output)
    requires input.format == UYVY && output.SizeFits(RgbNeed(input), allocOk) ==>
               BlocksFit(output.SizeAfter(RgbNeed(input)), |input.Bytes()|)
    requires input.format == BGR && output.SizeFits(input.dataBytes, allocOk) ==>
               input.dataBytes == 0 || input.data != null
    modifies output, output.data, output.metadata
    ensures unchanged(input) && input.Bytes() == old(input.Bytes())
    ensures output.Valid()
    ensures input.format == YUYV ==>
              KernelOutcome(input, output, BGR, RgbStep(input), RgbNeed(input), allocOk, st) &&
              output.ResizeKeptBytes(RgbNeed(input), allocOk)
    ensures input.format == UYVY ==>
              KernelOutcome(input, output, BGR, RgbStep(input), RgbNeed(input), allocOk, st) &&
              (st == Success ==> output.data[..] == Converted(input.Bytes(), Uyvy, Bgr, output.dataBytes / 6))
    ensures input.format in {YUYV, UYVY} ==> output.MetadataContents() == old(output.MetadataContents())
    ensures input.format == BGR ==> Duplicated(input, output, allocOk, st)
    ensures input.format !in {YUYV, UYVY, BGR} ==> Unsupported(output, st)
  {
    match input.format {
      case YUYV => st := YuyvToBgr(input, output, allocOk);
      case UYVY => st := UyvyToBgr(input, output, allocOk);
      case BGR => st := Duplicate(input, output, allocOk);
      case _ => st := NotSupported;
    }
  }
}
