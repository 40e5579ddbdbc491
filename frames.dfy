/**
 * libuvc frame buffers (src/frame.c): the `uvc_frame_t` record, the sizing
 * gate `uvc_ensure_frame_size` that every conversion goes through, frame
 * allocation and release, and `uvc_duplicate_frame`.
 *
 * A frame either owns its pixel buffer (the library may reallocate and free
 * it) or borrows a caller-supplied buffer of fixed capacity. `realloc` and
 * `malloc` are modelled as allocating a fresh array; whether the allocation
 * succeeds is an input.
 */
module Frames {
  import opened Color

  /** uvc_frame_format: the pixel encodings a frame can carry. */
  datatype FrameFormat =
    | Unknown | Uncompressed | Compressed
    | YUYV | UYVY | RGB | BGR | MJPEG | H264 | GRAY8 | GRAY16
    | BY8 | BA81 | SGRBG8 | SGBRG8 | SRGGB8 | SBGGR8 | NV12 | P010

  /** The uvc_error_t values this component returns. */
  datatype Status = Success | InvalidParam | NoMem | NotSupported

  datatype Option<T> = None | Some(value: T)

  /** A timestamp (struct timeval / struct timespec), copied and never interpreted. */
  datatype Time = Time(seconds: int, fraction: int)

  /** uint32_t. */
  type u32 = x: int | 0 <= x < 0x1_0000_0000

  /** Unsigned 32-bit wrap-around of a product of uint32_t operands. */
  function Wrap32(x: int): (r: u32)
    ensures 0 <= x < 0x1_0000_0000 ==> r == x
    ensures (r - x) % 0x1_0000_0000 == 0
  {
    x % 0x1_0000_0000
  }

  /** The geometry and timing fields every conversion sets on its destination. */
  datatype FrameHeader = FrameHeader(
    width: u32, height: u32, format: FrameFormat, step: nat,
    sequence: u32, captureTime: Time, captureTimeFinished: Time, source: nat)

  /** Which buffers `uvc_free_frame` hands to `free` before freeing the record itself. */
  datatype Released = Released(data: bool, metadata: bool, timeStamp: bool)

  /** The bytes of an optional buffer; an absent buffer has none. */
  function Contents(a: array?<byte>): seq<byte>
    reads a
  {
    if a == null then [] else a[..]
  }

  /** The first bytes of array a are those of s, as far as both reach. */
  ghost predicate KeepsPrefix(a: array<byte>, s: seq<byte>)
    reads a
  {
    forall i :: 0 <= i < a.Length && i < |s| ==> a[i] == s[i]
  }

  /**
   * `realloc(buf, n)`: on success a fresh buffer of n bytes whose first bytes
   * are buf's; on failure no buffer.
   */
  method Realloc(buf: array?<byte>, n: nat, ok: bool) returns (r: array?<byte>)
    ensures ok ==> r != null && fresh(r) && r.Length == n && KeepsPrefix(r, Contents(buf))
    ensures !ok ==> r == null
  {
    if !ok {
      return null;
    }
    var grown := new byte[n];
    var keep := if buf == null then 0 else if buf.Length < n then buf.Length else n;
    for i := 0 to keep
      invariant forall j :: 0 <= j < i ==> grown[j] == buf[j]
    {
      grown[i] := buf[i];
    }
    r := grown;
  }

  /** `memcpy(dst, src, n)` for n bytes that both buffers hold. */
  method CopyBytes(dst: array<byte>, src: array<byte>, n: nat)
    requires n <= src.Length && n <= dst.Length && src != dst
    modifies dst
    ensures dst[..n] == src[..n]
    ensures dst[n..] == old(dst[n..])
  {
    for i := 0 to n
      invariant dst[..i] == src[..i]
      invariant dst[i..] == old(dst[i..])
    {
      dst[i] := src[i];
    }
  }

  /** uvc_frame_t. */
  class Frame {
    var data: array?<byte>
    var dataBytes: nat
    var width: u32
    var height: u32
    var format: FrameFormat
    var step: nat
    var sequence: u32
    var captureTime: Time
    var captureTimeFinished: Time
    /** The owning stream handle; an opaque reference, 0 when unset. */
    var source: nat
    var ownsData: bool
    var metadata: array?<byte>
    var metadataBytes: nat
    var timeStamp: Option<Time>

    /**
     * A present pixel buffer holds exactly dataBytes bytes (after a failed
     * reallocation the buffer is absent while dataBytes keeps the request);
     * metadata holds at least metadataBytes bytes, none when absent.
     */
    ghost predicate Valid()
      reads this
    {
      (data != null ==> data.Length == dataBytes) &&
      (metadata == null ==> metadataBytes == 0) &&
      (metadata != null ==> metadataBytes <= metadata.Length) &&
      (data != null && metadata != null ==> data != metadata)
    }

    /** `memset(frame, 0, sizeof *frame)`: every field zero or absent. */
    constructor ()
      ensures data == null && dataBytes == 0 && metadata == null && metadataBytes == 0
      ensures !ownsData && timeStamp == None
      ensures Header() == FrameHeader(0, 0, Unknown, 0, 0, Time(0, 0), Time(0, 0), 0)
    {
      data, dataBytes := null, 0;
      width, height, format, step := 0, 0, Unknown, 0;
      sequence, captureTime, captureTimeFinished, source := 0, Time(0, 0), Time(0, 0), 0;
      ownsData := false;
      metadata, metadataBytes := null, 0;
      timeStamp := None;
    }

    function Header(): FrameHeader
      reads this
    {
      FrameHeader(width, height, format, step, sequence, captureTime, captureTimeFinished, source)
    }

    /** The pixel bytes in the buffer (none when it is absent). */
    function Bytes(): seq<byte>
      reads this, data
    {
      Contents(data)
    }

    function MetadataContents(): seq<byte>
      reads this, metadata
    {
      Contents(metadata)
    }

    /** Whether `uvc_ensure_frame_size(this, need)` succeeds when allocation succeeds iff allocOk. */
    predicate SizeFits(need: nat, allocOk: bool)
      reads this
    {
      if ownsData then (data != null && dataBytes == need) || allocOk
      else data != null && dataBytes >= need
    }

    /** The value of data_bytes after `uvc_ensure_frame_size(this, need)`, whether or not it succeeds. */
    function SizeAfter(need: nat): nat
      reads this
    {
      if ownsData then need else dataBytes
    }

    /** An owning frame that lacks a buffer of exactly `need` bytes is reallocated. */
    predicate Reallocates(need: nat)
      reads this
    {
      ownsData && (data == null || dataBytes != need)
    }

    /**
     * The buffer and its size after `uvc_ensure_frame_size(this, need)`: a
     * reallocated owning frame gets data_bytes == need and either a fresh
     * buffer of that size keeping the old prefix or, on failure, no buffer;
     * any other frame keeps its buffer and size.
     */
    twostate predicate ResizedTo(need: nat, allocOk: bool)
      reads this
    {
      if old(Reallocates(need)) then
        dataBytes == need &&
        (allocOk ==> data != null && fresh(data) && data.Length == need) &&
        (!allocOk ==> data == null)
      else
        data == old(data) && dataBytes == old(dataBytes)
    }

    /** What the sizing gate does to the buffer contents: realloc keeps a prefix, otherwise nothing moves. */
    twostate predicate ResizeKeptBytes(need: nat, allocOk: bool)
      reads this, data
    {
      if old(Reallocates(need)) then
        data != null ==> KeepsPrefix(data, old(Bytes()))
      else
        Bytes() == old(Bytes())
    }

    /** Fields the conversions and the sizing gate never touch. */
    twostate predicate KeepsAttachments()
      reads this
    {
      ownsData == old(ownsData) && metadata == old(metadata) &&
      metadataBytes == old(metadataBytes) && timeStamp == old(timeStamp)
    }

    /** `uvc_ensure_frame_size`: the single gate through which a destination is resized. */
    method EnsureSize(need: nat, allocOk: bool) returns (st: Status)
      requires Valid()
      modifies this
      ensures Valid()
      ensures st == Success <==> old(SizeFits(need, allocOk))
      ensures st == Success || st == NoMem
      ensures ResizedTo(need, allocOk) && ResizeKeptBytes(need, allocOk)
      ensures dataBytes == old(SizeAfter(need))
      ensures Header() == old(Header()) && KeepsAttachments()
    {
      if ownsData {
        if data == null || dataBytes != need {
          dataBytes := need;
          data := Realloc(data, dataBytes, allocOk);
        }
        if data == null {
          return NoMem;
        }
        return Success;
      } else {
        if data == null || dataBytes < need {
          return NoMem;
        }
        return Success;
      }
    }

    /** Sets the geometry and timing fields, nothing else. */
    method SetHeader(h: FrameHeader)
      modifies this
      ensures Header() == h
      ensures data == old(data) && dataBytes == old(dataBytes) && KeepsAttachments()
    {
      width, height, format, step := h.width, h.height, h.format, h.step;
      sequence, captureTime, captureTimeFinished, source := h.sequence, h.captureTime, h.captureTimeFinished, h.source;
    }

    /**
     * `uvc_free_frame`: the buffers handed to `free` before the record
     * itself; a frame that borrows its data never releases any of them.
     */
    method Release() returns (r: Released)
      ensures r.data <==> ownsData && dataBytes > 0
      ensures r.metadata <==> ownsData && metadataBytes > 0
      ensures r.timeStamp <==> ownsData && timeStamp.Some?
      ensures !ownsData ==> r == Released(false, false, false)
    {
      r := Released(false, false, false);
      if ownsData {
        r := Released(dataBytes > 0, metadataBytes > 0, timeStamp.Some?);
      }
    }
  }

  /**
   * An owning frame that already holds a buffer of exactly `need` bytes (as
   * a successful `EnsureSize(need, _)` leaves it) passes the gate again
   * without reallocation, even if the allocator would fail: the repeat call
   * changes nothing.
   */
  lemma SizedFrameIsStable(f: Frame, need: nat)
    requires f.ownsData && f.data != null && f.dataBytes == need
    ensures !f.Reallocates(need) && f.SizeFits(need, false)
  {
  }

  /**
   * `uvc_allocate_frame(n)`: a zeroed frame that owns its data, with
   * data_bytes = n and an n-byte buffer when n > 0; no frame when either
   * allocation fails.
   */
  method AllocateFrame(n: nat, frameOk: bool, dataOk: bool) returns (f: Frame?)
    ensures f == null <==> !frameOk || (n > 0 && !dataOk)
    ensures f != null ==> fresh(f) && f.Valid() && f.ownsData
    ensures f != null ==> f.Header() == FrameHeader(0, 0, Unknown, 0, 0, Time(0, 0), Time(0, 0), 0)
    ensures f != null ==> f.metadata == null && f.metadataBytes == 0 && f.timeStamp == None
    ensures f != null ==> f.dataBytes == n
    ensures f != null && n > 0 ==> f.data != null && fresh(f.data) && f.data.Length == n
    ensures f != null && n == 0 ==> f.data == null
  {
    if !frameOk {
      return null;
    }
    f := new Frame();
    f.ownsData := true;
    if n > 0 {
      f.dataBytes := n;
      f.data := Realloc(null, n, dataOk);
      if f.data == null {
        return null;
      }
    }
  }

  /** `in` and `out` are distinct frames whose buffers do not overlap. */
  predicate Apart(a: Frame, b: Frame)
    reads a, b
  {
    a != b &&
    (a.data != null ==> a.data != b.data && a.data != b.metadata) &&
    (a.metadata != null ==> a.metadata != b.data && a.metadata != b.metadata)
  }

  /** The first n bytes of a and of b exist and agree. */
  ghost predicate SamePrefix(a: seq<byte>, b: seq<byte>, n: nat)
  {
    n <= |a| && n <= |b| && a[..n] == b[..n]
  }

  /**
   * The metadata step of `uvc_duplicate_frame`: when input carries metadata,
   * output's buffer grows (to exactly input's size) only if it is smaller,
   * metadata_bytes becomes input's and the bytes are copied, and a kept
   * buffer keeps its bytes past the copied ones; otherwise output's metadata
   * is left as it was.
   */
  twostate predicate MetadataCopied(input: Frame, output: Frame)
    reads input, input.metadata, output, output.metadata
  {
    if input.metadata != null && input.metadataBytes > 0 then
      output.metadataBytes == input.metadataBytes && output.metadata != null &&
      SamePrefix(output.metadata[..], input.metadata[..], input.metadataBytes) &&
      (old(output.metadataBytes) < input.metadataBytes ==>
         fresh(output.metadata) && output.metadata.Length == input.metadataBytes) &&
      (old(output.metadataBytes) >= input.metadataBytes ==>
         output.metadata == old(output.metadata) &&
         output.metadata[input.metadataBytes..] == old(output.metadata[..])[input.metadataBytes..])
    else
      output.metadata == old(output.metadata) && output.metadataBytes == old(output.metadataBytes) &&
      output.MetadataContents() == old(output.MetadataContents())
  }

  /**
   * What `uvc_duplicate_frame(in, out)` leaves in `output`: NoMem when the
   * sizing gate fails, before anything is copied; otherwise input's header,
   * its first data_bytes pixel bytes (a larger borrowed buffer keeps its
   * tail), and input's metadata as MetadataCopied says.
   */
  twostate predicate Duplicated(input: Frame, output: Frame, allocOk: bool, st: Status)
    reads input, input.data, input.metadata, output, output.data, output.metadata
  {
    (st == Success <==> old(output.SizeFits(input.dataBytes, allocOk))) &&
    (st == Success || st == NoMem) &&
    output.ResizedTo(input.dataBytes, allocOk) &&
    output.ownsData == old(output.ownsData) && output.timeStamp == old(output.timeStamp) &&
    (st == NoMem ==>
       output.Header() == old(output.Header()) && output.ResizeKeptBytes(input.dataBytes, allocOk) &&
       output.metadata == old(output.metadata) && output.metadataBytes == old(output.metadataBytes) &&
       output.MetadataContents() == old(output.MetadataContents())) &&
    (st == Success ==>
       output.Header() == input.Header() && output.data != null &&
       SamePrefix(output.data[..], input.Bytes(), input.dataBytes) &&
       (output.data == old(output.data) ==> output.data[input.dataBytes..] == old(output.Bytes())[input.dataBytes..]) &&
       MetadataCopied(input, output))
  }

  /** The metadata step of `uvc_duplicate_frame`; the pixel buffer and header are not touched. */
  method CopyMetadata(input: Frame, output: Frame)
    requires input.Valid() && output.Valid() && Apart(input, output)
    modifies output, output.metadata
    ensures output.Valid() && MetadataCopied(input, output)
    ensures output.data == old(output.data) && output.dataBytes == old(output.dataBytes)
    ensures output.Header() == old(output.Header())
    ensures output.ownsData == old(output.ownsData) && output.timeStamp == old(output.timeStamp)
  {
    if input.metadata != null && input.metadataBytes > 0 {
      if output.metadataBytes < input.metadataBytes {
        output.metadata := Realloc(output.metadata, input.metadataBytes, true);
      }
      output.metadataBytes := input.metadataBytes;
      CopyBytes(output.metadata, input.metadata, input.metadataBytes);
    }
  }

  /** The pixel step of `uvc_duplicate_frame`: `memcpy(out->data, in->data, in->data_bytes)`. */
  method CopyPixels(input: Frame, output: Frame)
    requires input.Valid() && Apart(input, output)
    requires output.data != null && input.dataBytes <= output.data.Length
    requires input.dataBytes == 0 || input.data != null
    modifies output.data
    ensures SamePrefix(output.data[..], input.Bytes(), input.dataBytes)
    ensures output.data[input.dataBytes..] == old(output.data[input.dataBytes..])
  {
    if input.dataBytes > 0 {
      CopyBytes(output.data, input.data, input.dataBytes);
    }
  }

  /** Everything `uvc_duplicate_frame` does once the destination has passed the sizing gate. */
  method CopyIntoSized(input: Frame, output: Frame)
    requires input.Valid() && output.Valid() && Apart(input, output)
    requires output.data != null && input.dataBytes <= output.data.Length
    requires input.dataBytes == 0 || input.data != null
    modifies output, output.data, output.metadata
    ensures output.Valid()
    ensures output.Header() == input.Header()
    ensures output.data == old(output.data) && output.dataBytes == old(output.dataBytes)
    ensures output.ownsData == old(output.ownsData) && output.timeStamp == old(output.timeStamp)
    ensures SamePrefix(output.data[..], input.Bytes(), input.dataBytes)
    ensures output.data[input.dataBytes..] == old(output.data[input.dataBytes..])
    ensures MetadataCopied(input, output)
  {
    output.SetHeader(input.Header());
    CopyPixels(input, output);
    CopyMetadata(input, output);
  }

  /** `uvc_duplicate_frame`: deep copy preserving the colour format; `in` is never changed. */
  method Duplicate(input: Frame, output: Frame, allocOk: bool) returns (st: Status)
    requires input.Valid() && output.Valid() && Apart(input, output)
    requires output.SizeFits(input.dataBytes, allocOk) ==> input.dataBytes == 0 || input.data != null
    modifies output, output.data, output.metadata
    ensures unchanged(input) && input.Bytes() == old(input.Bytes()) && input.MetadataContents() == old(input.MetadataContents())
    ensures output.Valid()
    ensures Duplicated(input, output, allocOk, st)
  {
    var sized := output.EnsureSize(input.dataBytes, allocOk);
    if sized != Success {
      return NoMem;
    }
    CopyIntoSized(input, output);
    return Success;
  }
}
