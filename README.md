# libuvc frame buffers and pixel conversion, in Dafny

This project models the frame layer of libuvc (`src/frame.c`) and the
`bgr_to_rgb` helper of its example program (`src/example.c`), and proves
properties of the model.

The frame layer covers the following:

- **The frame record.** `uvc_frame_t` is `Frames.Frame`, a class. It holds
  an optional pixel buffer with its `data_bytes`, optional metadata with its
  size, the `library_owns_data` flag, the geometry and format fields, and
  timestamps, sequence and source, which are copied and never interpreted.
- **The sizing gate.** `uvc_ensure_frame_size` works in one of two ways:
  - an owning frame is reallocated to exactly the requested size;
  - a borrowed frame is only checked for capacity.

  `realloc`/`malloc` allocate a fresh array that keeps the old prefix.
  Whether the allocation succeeds is an input (`allocOk`), so both outcomes
  are stated.
- **Allocation and release.** A frame is allocated zeroed. Releasing it
  returns a `Released` record saying which of `data`, `metadata` and
  `time_stamp` are handed to `free`.
- **Deep copy.** `uvc_duplicate_frame` copies the header and the pixel bytes,
  and copies the metadata when the source has some.
- **Conversion kernels.** YUYV to RGB, UYVY to RGB and UYVY to BGR are
  converted in 14-bit fixed point with the `sat` clamp. YUYV to GRAY8 comes
  in two forms, luma only and chroma bytes only. `uvc_yuyv2bgr` is modelled
  as the code stands: it sets the BGR header but writes no pixels, because
  its loop is commented out.
- **Routers.** `uvc_any2rgb` and `uvc_any2bgr` dispatch on the source
  format.

Modules:

- `Color` (color.dfy, pure) holds the arithmetic and the specification
  functions:
  - `Sat`;
  - the offsets `RedOffset`, `GreenOffset` and `BlueOffset`, with `>> 14` as
    floor division by 2^14;
  - `QuadAt`, which reads a 4-byte group in YUYV or UYVY order;
  - `PairPixels`, the six bytes of one `IYUYV2*_2` / `IUYVY2*_2` step;
  - `Converted`, the bytes a whole RGB/BGR pixel loop writes;
  - `LumaPlane` and `ChromaPlane`.
- `Frames` (frames.dfy, imperative) holds the frame class, `EnsureSize`,
  `AllocateFrame`, `Release` and `Duplicate`.
- `Convert` (convert.dfy, imperative) holds the kernels and the routers.
  - The pixel loops are `while` loops over arrays, structured like the
    source: `WriteEightPixels` (`_8`) calls `WriteFourPixels` (`_4`) twice,
    which calls `WritePair` (`_2`) twice.
  - Each loop is proved equal to its specification function.
- `Example` (example.dfy, imperative) holds `bgr_to_rgb` as an in-place loop.
  - It is proved equal to `SwappedRB`, with lemmas about that function.
  - One lemma, `SwappedBgrIsRgb`, connects it to the kernels: swapping a BGR
    kernel's output gives the RGB kernel's output.

Arithmetic widths:

- `width`, `height` and `sequence` are `uint32_t`. The products
  `width * height * 3`, `width * height` and `width * 3` are therefore taken
  modulo 2^32 (`Wrap32`) before they reach the sizing gate or `step`.
- Bytes are the subtype `byte` of `int`.
- In `bgr_to_rgb`, `width` and `height` are `int`. The caller must keep
  `width * height * 3` inside the 32-bit range, since overflow there is
  undefined behaviour in C.

Preconditions the code does not check:

- The conversion loops run until the output pointer reaches
  `out->data_bytes` (the value after the sizing gate). They read the input
  with no bound check.
- The kernels therefore require what keeps those accesses inside the
  buffers:
  - for RGB/BGR, output size a multiple of 24 and at least 4 input bytes per
    6 output bytes (`BlocksFit`);
  - for the luma plane, `2n - 1` input bytes (`LumaFits`);
  - for the chroma plane, `2n` input bytes (`ChromaFits`).
- These requirements only apply when the format check and the sizing gate
  pass.
- `in` and `out` must be distinct frames with distinct buffers (`Apart`).
- `uvc_duplicate_frame`, and the RGB/BGR branches of `uvc_any2rgb` and
  `uvc_any2bgr` that call it, copy `in->data_bytes` bytes from `in->data`
  with no null check. An owning frame whose `realloc` failed has no buffer
  but a size of `need`, and `memcpy` from a null pointer is undefined
  behaviour in C. `Duplicate`, `AnyToRgb` and `AnyToBgr` therefore require
  `input.dataBytes == 0 || input.data != null` once the gate has passed.

Facts about the code that the model makes explicit:

- **Chroma extraction.** `uvc_yuyv2uv` writes `out[i] = in[2i + 1]` for
  every output byte, so the output alternates U and V and keeps both chroma
  samples of each 4-byte group (`ChromaPlaneAlternatesUV`).
- **Coefficients.** The integer constants 22987, 5636, 11698 and 29049 are
  2^14 times 1.403, 0.344, 0.714 and 1.773, rounded to the nearest
  integer. These are within about 0.1% of
  the JFIF full-range coefficients 1.402, 0.34414, 0.71414 and 1.772
  (ITU-T T.871, clause 7) that the float macro uses
  (`OffsetsApproximateJfif`).
- **Grey.** The two YUYV quads [235, 128, 235, 128] that one `IYUYV2RGB_4`
  step reads convert to twelve bytes of 235 (`NeutralQuadsConvertToGrey`).
  A 4x1 frame on its own is outside the RGB kernel's domain: its 12-byte
  destination is not a whole 24-byte step of the 8-pixel loop, which would
  write past it and read past the 8-byte source.

## Model

| member | source | states |
|---|---|---|
| Color.Sat | src/frame.c:72-74 | below 0 gives 0, above 255 gives 255, a value in [0, 255] is returned unchanged; the result is always a byte, so it never wraps |
| Color.Shr14 | src/frame.c:122-124 | `x >> 14` is the largest r with r * 2^14 <= x, also for negative x |
| Color.RedOffset | src/frame.c:122 | the red offset of any V byte lies in [-180, 178] |
| Color.GreenOffset | src/frame.c:123 | the green offset of any U, V bytes lies in [-135, 135] |
| Color.BlueOffset | src/frame.c:124 | the blue offset of any U byte lies in [-227, 225] |
| Color.OffsetsApproximateJfif | src/frame.c:110-124 | every integer offset is within (-1.2, 0.2) of the real-valued 1.402 (V-128), -0.34414 (U-128) - 0.71414 (V-128) and 1.772 (U-128) of the float macro |
| Color.NeutralChromaHasNoOffset | src/frame.c:122-124 | U = V = 128 gives all three offsets 0 |
| Color.QuadAtReadsOwnGroup | src/frame.c:121-131 | the quad a pair step reads at offset 4k depends only on source bytes 4k..4k+3, in either layout |
| Color.UyvyQuadIsSwappedYuyv | src/frame.c:386-396 | the UYVY pair step reads each component from the YUYV position with bytes 0/1 and 2/3 of the group exchanged |
| Color.PairPixels | src/frame.c:121-131 | one pair step yields exactly six bytes: pixel Y0 then pixel Y1, each sat(Y + r), sat(Y + g), sat(Y + b) in the output's channel order |
| Color.NeutralPairIsGrey | src/frame.c:121-131 | with U = V = 128 both output pixels are the grey (Y0,Y0,Y0) and (Y1,Y1,Y1), in either channel order |
| Color.BgrPairSwapsRgbPair | src/frame.c:172-182 | the BGR pair step writes the RGB pair step's bytes with bytes 0/2 and 3/5 exchanged |
| Color.SaturationBoundary | src/frame.c:121-131 | Y = 255, U = 255, V = 0 gives [75, 255, 255, 75, 255, 255]: G and B clamp at 255, R is 75 unclamped, and nothing wraps |
| Color.LowSaturation | src/frame.c:121-131 | Y = U = V = 0 gives [0, 135, 0, 0, 135, 0]: R and B clamp at 0, G is 135 unclamped, and nothing wraps |
| Color.Converted | src/frame.c:160-167 | a loop over `pairs` quads writes 6 bytes per quad |
| Color.ConvertedAt | src/frame.c:160-167 | output byte 6k + c is byte c of the pair converted from quad k |
| Color.ConvertedPair | src/frame.c:132-134 | output bytes [6k, 6k + 6) are the pair step applied to quad k, as the unrolling macros place it |
| Color.NeutralQuadsConvertToGrey | src/frame.c:121-134 | the two neutral YUYV quads [235, 128, 235, 128] one `_4` step reads convert to twelve bytes of 235 |
| Color.LumaPlane | src/frame.c:336-341 | the luma plane has one byte per output position, taken from source byte 2i |
| Color.ChromaPlane | src/frame.c:376-381 | the chroma plane has one byte per output position, taken from source byte 2i + 1 |
| Color.LumaPlaneHoldsBothLumas | src/frame.c:306-308 | luma plane bytes 2k and 2k + 1 are Y0 and Y1 of YUYV quad k |
| Color.ChromaPlaneAlternatesUV | src/frame.c:346-348 | chroma plane bytes 2k and 2k + 1 are U and V of YUYV quad k: the plane alternates U and V |
| Frames.Wrap32 | src/frame.c:146 | a uint32_t product equals the mathematical product when it fits, and is congruent to it modulo 2^32 otherwise |
| Frames.Realloc | src/frame.c:13-14 | on success a fresh buffer of exactly n bytes whose first bytes are the old buffer's; on failure no buffer |
| Frames.CopyBytes | src/frame.c:104 | `memcpy(dst, src, n)`: the first n bytes equal the source's, the rest of dst is unchanged |
| Frames.Frame.constructor | src/frame.c:38 | the zeroed record: no buffers, all sizes 0, not owning, no timestamp, zero header |
| Frames.Frame.EnsureSize | src/frame.c:10-24 | SUCCESS iff (owning and already exactly sized, or allocation succeeds) or (borrowed with a present buffer of at least need bytes), otherwise NO_MEM; data_bytes afterwards is need for an owning frame, set even when the realloc then fails, and unchanged for a borrowed frame (`SizeAfter`); a reallocated frame gets data_bytes = need and a fresh need-byte buffer keeping the old prefix, or no buffer on failure; any other frame keeps buffer, size and bytes; header, metadata, ownership and timestamp never change |
| Frames.Frame.SetHeader | src/frame.c:86-93 | the eight header fields take the given values; buffers, sizes and attachments are unchanged |
| Frames.Frame.Release | src/frame.c:59-70 | data is released iff owning and data_bytes > 0, metadata iff owning and metadata_bytes > 0, the timestamp iff owning and present; a borrowing frame releases nothing |
| Frames.SizedFrameIsStable | src/frame.c:11-17 | an owning frame already holding exactly need bytes passes the gate without reallocation even if allocation would fail, so a repeated sizing call is a no-op |
| Frames.AllocateFrame | src/frame.c:32-52 | no frame iff the record allocation fails or n > 0 and the buffer allocation fails; otherwise a fresh owning frame, zero header, no metadata or timestamp, data_bytes = n, and a fresh n-byte buffer exactly when n > 0 |
| Frames.CopyMetadata | src/frame.c:97-105 | with source metadata present and non-empty: metadata_bytes becomes the source's, the buffer is reallocated to that size only when the destination's was smaller, and the bytes are copied, a kept buffer keeping its bytes past the copied ones; otherwise the destination's metadata is untouched |
| Frames.CopyPixels | src/frame.c:95 | the first in.data_bytes destination bytes equal the source's; the rest of the buffer is unchanged |
| Frames.CopyIntoSized | src/frame.c:86-105 | after the gate: header equal to the source's, pixel prefix copied, metadata copied as above, buffer identity and sizes kept |
| Frames.Duplicate | src/frame.c:82-108 | NO_MEM exactly when the gate fails, with header and metadata untouched; on SUCCESS the destination has the source's header and first data_bytes bytes (a larger borrowed buffer keeps its tail) and metadata copied as above; the source is never changed |
| Convert.RgbNeed | src/frame.c:146 | the RGB/BGR destination size is width * height * 3 in uint32_t |
| Convert.GrayNeed | src/frame.c:320 | the GRAY8 destination size is width * height in uint32_t |
| Convert.RgbStep | src/frame.c:152 | the RGB/BGR row length is width * 3 in uint32_t |
| Convert.ReadQuad | src/frame.c:121-124 | reading pyuv[0..3] at offset 4k in the layout's order gives quad k |
| Convert.StorePair | src/frame.c:125-130 | the six bytes land at offsets o..o+5 and nothing else changes |
| Convert.WritePair | src/frame.c:121-131 | one `_2` step extends the converted prefix from k quads to k + 1 and leaves later bytes untouched |
| Convert.WriteFourPixels | src/frame.c:134 | one `_4` step extends the converted prefix by two quads and leaves later bytes untouched |
| Convert.WriteEightPixels | src/frame.c:133 | one `_8` step extends the converted prefix by four quads |
| Convert.ConvertPairs | src/frame.c:158-167 | the whole destination equals Converted of the source for data_bytes / 6 quads |
| Convert.ExtractLuma | src/frame.c:332-341 | destination byte i equals source byte 2i for every i below data_bytes |
| Convert.ExtractChroma | src/frame.c:372-381 | destination byte i equals source byte 2i + 1 for every i below data_bytes |
| Convert.PackedToColor | src/frame.c:142-170 | the shared kernel: wrong format gives INVALID_PARAM with out unchanged; otherwise the gate's verdict, and on success the source header with the target format, step width * 3, and the destination bytes equal to Converted |
| Convert.YuyvToRgb | src/frame.c:142-170 | `uvc_yuyv2rgb`: INVALID_PARAM unless YUYV with out unchanged; NO_MEM iff the gate fails; on success RGB format, step width * 3, copied geometry and timing, and pixels equal to Converted(YUYV, RGB) |
| Convert.YuyvToBgr | src/frame.c:240-303 | `uvc_yuyv2bgr` as written: format check, gate and BGR header as for the other kernels, but the pixel bytes are whatever the gate left |
| Convert.YuyvToY | src/frame.c:316-344 | `uvc_yuyv2y`: INVALID_PARAM unless YUYV; NO_MEM iff the gate fails for width * height; on success GRAY8, step width, and the luma plane |
| Convert.YuyvToUV | src/frame.c:356-384 | `uvc_yuyv2uv`: as YuyvToY with the chroma plane (U and V alternating) |
| Convert.UyvyToRgb | src/frame.c:406-434 | `uvc_uyvy2rgb`: INVALID_PARAM unless UYVY; NO_MEM iff the gate fails; on success RGB header and pixels equal to Converted(UYVY, RGB) |
| Convert.UyvyToBgr | src/frame.c:456-484 | `uvc_uyvy2bgr`: INVALID_PARAM unless UYVY; NO_MEM iff the gate fails; on success BGR header and pixels equal to Converted(UYVY, BGR) |
| Convert.AnyToRgb | src/frame.c:492-507 | YUYV and UYVY give the RGB kernels' outcomes with the destination's metadata bytes unchanged, RGB gives the duplicate's outcome, every other format (MJPEG included, the JPEG build flag being off) gives NOT_SUPPORTED with out untouched |
| Convert.AnyToBgr | src/frame.c:515-526 | YUYV gives `uvc_yuyv2bgr`'s outcome with pixel bytes as the gate left them, UYVY the BGR kernel's, both with the destination's metadata bytes unchanged, BGR the duplicate's, every other format NOT_SUPPORTED with out untouched |
| Example.PixelCountBoundsLoop | src/example.c:10 | at every multiple of 3, the loop guard `i < width * height * 3` holds exactly when i / 3 is below PixelCount(width, height), so the loop swaps exactly PixelCount pixels, none when width * height is not positive |
| Example.SwappedRB | src/example.c:10-14 | swapping keeps the buffer length |
| Example.SwappedRBSwapsPixels | src/example.c:11-13 | for pixel k below the count, new byte 3k is old byte 3k + 2, new byte 3k + 2 is old byte 3k, byte 3k + 1 is unchanged |
| Example.SwappedRBKeepsTail | src/example.c:10 | bytes from 3 * count on are unchanged |
| Example.SwappedRBInvolution | src/example.c:9-15 | swapping twice restores the buffer |
| Example.SwappedRBNext | src/example.c:10-14 | one more loop iteration swaps exactly bytes 3k and 3k + 2 of the partial result |
| Example.BgrToRgb | src/example.c:9-15 | the buffer afterwards is SwappedRB of the buffer before, for PixelCount(width, height) pixels |
| Example.BgrPairAt | src/frame.c:436-446 | pair k of a BGR kernel's output is pair k of the RGB kernel's output with its outer bytes swapped |
| Example.SwappedBgrIsRgb | src/example.c:9-15 | `bgr_to_rgb` applied to the output of a BGR conversion of p quads (2p pixels) gives the RGB conversion of the same source |

## Left out

- init.c is not part of this model: it is libusb context setup and a pthread event loop, that is foreign calls and concurrency.
- The rest of example.c (`save_bgr_to_jpeg`, `save_rgb_to_jpeg`, `cb`, `main`) is not part of this model: it is libjpeg, file and device I/O, clocks and printing.
- The float `YUYV2RGB_2` macro is unused and floating point; its coefficients appear only as the reference in `OffsetsApproximateJfif`.
- `uvc_mjpeg2rgb` is behind `LIBUVC_HAS_JPEG`; the model takes that flag as off, so MJPEG reaches the NOT_SUPPORTED branch of the router.
- The commented-out pixel loops and input padding in `uvc_yuyv2bgr` are not modelled, since they do not run; the unused `_16` unrolling macros are not modelled either.
- Frames.CopyMetadata: the metadata `realloc` is taken to succeed; the code does not check it.
- Pointer identity beyond buffer freshness is not modelled. This covers the old buffer lost when `realloc` fails and the `free` of a frame record, including the one `uvc_allocate_frame` frees when the buffer allocation fails. Release reports which buffers are handed to `free`; it does not deallocate.
- `in` and `out` aliasing each other or sharing buffers is excluded by a precondition (`Apart`).
- Timestamps, `sequence` and `source` are opaque values that are copied; libuvc.h is not part of this model, and its `uint32_t` width, height and sequence are taken as stated in the code's arithmetic.
- `need_bytes`/`data_bytes` are `size_t` in C; the model uses unbounded naturals for them, which matters only above 2^64.
