/**
 * `bgr_to_rgb` from the example program (src/example.c): swaps the first and
 * third byte of every 3-byte pixel of a buffer in place.
 */
module Example {
  import opened Color

  /** `int` of the example program: 32-bit two's complement. */
  predicate IsInt32(x: int)
  {
    -0x8000_0000 <= x < 0x8000_0000
  }

  /**
   * The number of pixels the loop visits: `i` runs over multiples of 3 below
   * width * height * 3, so none when that product is not positive.
   */
  function PixelCount(width: int, height: int): nat
  {
    if width * height > 0 then width * height else 0
  }

  /** The loop guard `i < width * height * 3` holds at a multiple of 3 exactly below 3 * PixelCount. */
  lemma PixelCountBoundsLoop(width: int, height: int, i: int)
    requires 0 <= i && i % 3 == 0
    ensures i < width * height * 3 <==> i / 3 < PixelCount(width, height)
  {
  }

  /** Position j of a buffer whose first n pixels have bytes 0 and 2 exchanged. */
  function SwappedByte(s: seq<byte>, n: nat, j: nat): byte
    requires 3 * n <= |s| && j < |s|
  {
    if j < 3 * n && j % 3 == 0 then s[j + 2]
    else if j < 3 * n && j % 3 == 2 then s[j - 2]
    else s[j]
  }

  /** The buffer with bytes 0 and 2 of each of its first n pixels exchanged. */
  function SwappedRB(s: seq<byte>, n: nat): (t: seq<byte>)
    requires 3 * n <= |s|
    ensures |t| == |s|
  {
    seq(|s|, j requires 0 <= j < |s| => SwappedByte(s, n, j))
  }

  /** Pixel k < n of the result has the red and blue bytes of pixel k of s exchanged. */
  lemma SwappedRBSwapsPixels(s: seq<byte>, n: nat, k: nat)
    requires 3 * n <= |s| && k < n
    ensures SwappedRB(s, n)[3 * k] == s[3 * k + 2]
    ensures SwappedRB(s, n)[3 * k + 1] == s[3 * k + 1]
    ensures SwappedRB(s, n)[3 * k + 2] == s[3 * k]
  {
    assert (3 * k) % 3 == 0 && (3 * k + 1) % 3 == 1 && (3 * k + 2) % 3 == 2;
  }

  /** Bytes past the first n pixels are left alone. */
  lemma SwappedRBKeepsTail(s: seq<byte>, n: nat)
    requires 3 * n <= |s|
    ensures SwappedRB(s, n)[3 * n..] == s[3 * n..]
  {
  }

  /** The outer bytes of a pixel are two apart. */
  lemma OuterBytes(j: nat)
    ensures j % 3 == 0 ==> (j + 2) % 3 == 2
    ensures j % 3 == 2 ==> j >= 2 && (j - 2) % 3 == 0
  {
  }

  /** Swapping twice restores the buffer. */
  lemma SwappedRBInvolution(s: seq<byte>, n: nat)
    requires 3 * n <= |s|
    ensures SwappedRB(SwappedRB(s, n), n) == s
  {
    var t := SwappedRB(s, n);
    forall j | 0 <= j < |s|
      ensures SwappedByte(t, n, j) == s[j]
    {
      OuterBytes(j);
    }
  }

  /** Swapping one more pixel: the partial state after k + 1 loop iterations. */
  lemma SwappedRBNext(s: seq<byte>, k: nat)
    requires 3 * k + 3 <= |s|
    ensures SwappedRB(s, k + 1) == SwappedRB(s, k)[3 * k := s[3 * k + 2]][3 * k + 2 := s[3 * k]]
  {
    var t := SwappedRB(s, k)[3 * k := s[3 * k + 2]][3 * k + 2 := s[3 * k]];
    forall j | 0 <= j < |s|
      ensures SwappedRB(s, k + 1)[j] == t[j]
    {
      if j < 3 * k {
      } else if j < 3 * k + 3 {
        assert j == 3 * k || j == 3 * k + 1 || j == 3 * k + 2;
        assert (3 * k) % 3 == 0 && (3 * k + 1) % 3 == 1 && (3 * k + 2) % 3 == 2;
      }
    }
  }

  /**
   * `bgr_to_rgb(data, width, height)`. The caller guarantees that
   * width * height * 3 does not overflow `int` and that the buffer holds the
   * pixels the loop visits.
   */
  method BgrToRgb(data: array<byte>, width: int, height: int)
    requires IsInt32(width) && IsInt32(height) && IsInt32(width * height * 3)
    requires 3 * PixelCount(width, height) <= data.Length
    modifies data
    ensures data[..] == SwappedRB(old(data[..]), PixelCount(width, height))
  {
    ghost var original := data[..];
    var i := 0;
    while i < width * height * 3
      invariant i % 3 == 0 && 0 <= i <= 3 * PixelCount(width, height)
      invariant data[..] == SwappedRB(original, i / 3)
    {
      PixelCountBoundsLoop(width, height, i);
      SwappedRBNext(original, i / 3);
      var temp := data[i];
      data[i] := data[i + 2];
      data[i + 2] := temp;
      i := i + 3;
    }
    PixelCountBoundsLoop(width, height, i);
  }

  /** Byte c of pixel pair k sits at position 6k + c, which is c mod 3 within its pixel. */
  lemma PairPosition(k: nat, c: nat)
    requires c < 6
    ensures (6 * k + c) % 3 == c % 3
  {
    assert 6 * k + c == 3 * (2 * k) + c;
  }

  /** Pair k of a BGR output is pair k of the RGB output with bytes 0/2 and 3/5 exchanged. */
  ghost predicate PairSwapped(x: seq<byte>, y: seq<byte>, k: nat)
    requires 6 * k + 6 <= |x| && 6 * k + 6 <= |y|
  {
    x[6 * k] == y[6 * k + 2] && x[6 * k + 1] == y[6 * k + 1] && x[6 * k + 2] == y[6 * k] &&
    x[6 * k + 3] == y[6 * k + 5] && x[6 * k + 4] == y[6 * k + 4] && x[6 * k + 5] == y[6 * k + 3]
  }

  /** Pair k of x is pb and pair k of y is pr, where pb is pr with its pixels' outer bytes exchanged. */
  lemma SlicesSwapped(x: seq<byte>, y: seq<byte>, k: nat, pb: seq<byte>, pr: seq<byte>)
    requires 6 * k + 6 <= |x| && 6 * k + 6 <= |y| && |pr| == 6
    requires x[6 * k..6 * k + 6] == pb && y[6 * k..6 * k + 6] == pr
    requires pb == [pr[2], pr[1], pr[0], pr[5], pr[4], pr[3]]
    ensures PairSwapped(x, y, k)
  {
    assert x[6 * k..6 * k + 6][0] == x[6 * k];
  }

  /** Pair k of a BGR kernel's output is pair k of the RGB kernel's output, swapped. */
  lemma BgrPairAt(src: seq<byte>, layout: Layout, pairs: nat, k: nat)
    requires 4 * pairs <= |src| && k < pairs
    ensures PairSwapped(Converted(src, layout, Bgr, pairs), Converted(src, layout, Rgb, pairs), k)
  {
    var q := QuadAt(src, layout, k);
    ConvertedPair(src, layout, Bgr, pairs, k);
    ConvertedPair(src, layout, Rgb, pairs, k);
    BgrPairSwapsRgbPair(q);
    SlicesSwapped(Converted(src, layout, Bgr, pairs), Converted(src, layout, Rgb, pairs), k,
                  PairPixels(q, Bgr), PairPixels(q, Rgb));
  }

  /** Swapping bytes 0 and 2 of every pixel maps x onto y when every pair of x is y's, swapped. */
  lemma SwappedPairs(x: seq<byte>, y: seq<byte>, m: nat)
    requires |x| == 6 * m && |y| == 6 * m
    requires forall k :: 0 <= k < m ==> PairSwapped(x, y, k)
    ensures SwappedRB(x, 2 * m) == y
  {
    forall j | 0 <= j < 6 * m
      ensures SwappedRB(x, 2 * m)[j] == y[j]
    {
      var k, c := j / 6, j % 6;
      assert j == 6 * k + c;
      assert PairSwapped(x, y, k);
      PairPosition(k, c);
    }
  }

  /**
   * Applied to the output of a BGR kernel (2 pixels per quad), the swap gives
   * the output of the matching RGB kernel on the same source.
   */
  lemma SwappedBgrIsRgb(src: seq<byte>, layout: Layout, pairs: nat)
    requires 4 * pairs <= |src|
    ensures SwappedRB(Converted(src, layout, Bgr, pairs), 2 * pairs) == Converted(src, layout, Rgb, pairs)
  {
    var bgr, rgb := Converted(src, layout, Bgr, pairs), Converted(src, layout, Rgb, pairs);
    forall k | 0 <= k < pairs
      ensures PairSwapped(bgr, rgb, k)
    {
      BgrPairAt(src, layout, pairs, k);
    }
    SwappedPairs(bgr, rgb, pairs);
  }
}
