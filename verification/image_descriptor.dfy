/**
 The geometry fields of a `CImage` descriptor and its data-size accessor.

 The descriptor's buffer is `dataHeight` lines of `lineWidth` bytes each
 (`lineWidth` is the canvas width in bytes, padding included), so its size is
 their product. The accessor is a `const` member: it reads two fields and
 changes none, which the immutable record here gives by construction.
 */
module ImageDescriptor {
  import opened PixelFormats

  /** One more than the largest `CImage::Size` (`uint32_t`). */
  const SIZE_BOUND: int := 0x1_0000_0000

  /** One more than the largest `size_t` on a 64-bit target. */
  const SIZE_T_BOUND: int := 0x1_0000_0000_0000_0000

  /** `CImage::Size`. */
  type Size = x: int | 0 <= x < SIZE_BOUND

  /** `BYTE`. */
  type Byte = x: int | 0 <= x < 0x100

  /** The descriptor's geometry and bookkeeping fields; stream and buffer ownership are not modelled. */
  datatype Image = Image(
    width: Size,        // image width in pixels
    height: Size,       // image height in pixels
    dataWidth: Size,    // data width including mipmaps
    dataHeight: Size,   // data height
    stride: Size,       // bytes per pixel
    lineWidth: Size,    // canvas width in bytes
    format: PixelFormat,
    numLevels: Byte,    // mipmap levels, 0 meaning auto-generate
    level: Byte,        // mipmap level currently being read
    fileName: string)

  /** The offset at which line `i` of a buffer with lines of `w` bytes starts. */
  function LineOffset(i: nat, w: nat): nat
  {
    if i == 0 then 0 else LineOffset(i - 1, w) + w
  }

  /** Line `i` starts `i` whole lines in. */
  lemma {:induction false} LineOffsetIsProduct(i: nat, w: nat)
    ensures LineOffset(i, w) == i * w
  {
    if i > 0 {
      LineOffsetIsProduct(i - 1, w);
      assert i * w == (i - 1) * w + w;
    }
  }

  /**
   The number of bytes the buffer holds: it ends where a line after the last
   one would start, and it always fits a 64-bit `size_t`.
   */
  function GetDataSize(img: Image): (n: nat)
    ensures n == LineOffset(img.dataHeight, img.lineWidth)
    ensures n < SIZE_T_BOUND
    ensures n == 0 <==> img.lineWidth == 0 || img.dataHeight == 0
  {
    OffsetBelowSizeT(img.dataHeight, img.lineWidth);
    LineOffsetIsProduct(img.dataHeight, img.lineWidth);
    img.lineWidth * img.dataHeight
  }

  /** Line offsets grow with the line index. */
  lemma {:induction false} LineOffsetMonotoneInLine(i: nat, k: nat, w: nat)
    requires i <= k
    ensures LineOffset(i, w) <= LineOffset(k, w)
    decreases k
  {
    if i < k {
      LineOffsetMonotoneInLine(i, k - 1, w);
    }
  }

  /** Line offsets grow with the line width. */
  lemma {:induction false} LineOffsetMonotoneInWidth(i: nat, w: nat, v: nat)
    requires w <= v
    ensures LineOffset(i, w) <= LineOffset(i, v)
  {
    if i > 0 {
      LineOffsetMonotoneInWidth(i - 1, w, v);
    }
  }

  /** Fewer than 2^32 lines of fewer than 2^32 bytes take fewer than 2^64 bytes. */
  lemma OffsetBelowSizeT(h: Size, w: Size)
    ensures LineOffset(h, w) < SIZE_T_BOUND
  {
    LineOffsetMonotoneInWidth(h, w, SIZE_BOUND - 1);
    LineOffsetMonotoneInLine(h, SIZE_BOUND - 1, SIZE_BOUND - 1);
    LineOffsetIsProduct(SIZE_BOUND - 1, SIZE_BOUND - 1);
  }

  /** A buffer laid out line after line. */
  function Flatten<T>(lines: seq<seq<T>>): seq<T>
    decreases |lines|
  {
    if |lines| == 0 then [] else lines[0] + Flatten(lines[1..])
  }

  /** Lines of `w` elements each flatten to `LineOffset(|lines|, w)` elements. */
  lemma {:induction false} FlattenLength<T>(lines: seq<seq<T>>, w: nat)
    requires forall i :: 0 <= i < |lines| ==> |lines[i]| == w
    ensures |Flatten(lines)| == LineOffset(|lines|, w)
    decreases |lines|
  {
    if |lines| > 0 {
      var rest := lines[1..];
      assert forall i :: 0 <= i < |rest| ==> rest[i] == lines[i + 1];
      FlattenLength(rest, w);
      assert |lines[0]| == w;
    }
  }

  /** Element `j` of line `i` sits at `LineOffset(i, w) + j` of the flattened lines. */
  lemma {:induction false} FlattenAt<T>(lines: seq<seq<T>>, w: nat, i: nat, j: nat)
    requires forall k :: 0 <= k < |lines| ==> |lines[k]| == w
    requires i < |lines| && j < w
    ensures LineOffset(i, w) + j < |Flatten(lines)|
    ensures Flatten(lines)[LineOffset(i, w) + j] == lines[i][j]
    decreases i
  {
    var rest := lines[1..];
    assert Flatten(lines) == lines[0] + Flatten(rest);
    assert |lines[0]| == w;
    if i > 0 {
      assert forall k :: 0 <= k < |rest| ==> rest[k] == lines[k + 1];
      FlattenAt(rest, w, i - 1, j);
      assert rest[i - 1] == lines[i];
    }
  }

  /**
   A buffer made of `dataHeight` lines of `lineWidth` bytes has exactly
   `GetDataSize` bytes, and byte `j` of line `i` sits at the start of line `i`
   (`i * lineWidth`, by `LineOffsetIsProduct`) plus `j`.
   */
  lemma DataSizeCoversLines(img: Image, lines: seq<seq<Byte>>, i: nat, j: nat)
    requires |lines| == img.dataHeight
    requires forall k :: 0 <= k < |lines| ==> |lines[k]| == img.lineWidth
    requires i < img.dataHeight && j < img.lineWidth
    ensures |Flatten(lines)| == GetDataSize(img)
    ensures LineOffset(i, img.lineWidth) + j < GetDataSize(img)
    ensures Flatten(lines)[LineOffset(i, img.lineWidth) + j] == lines[i][j]
  {
    FlattenLength(lines, img.lineWidth);
    FlattenAt(lines, img.lineWidth, i, j);
  }

  /**
   `GetDataSize` as the expression in the source evaluates it: both operands
   are `uint32_t`, so the product is formed, and wraps, in 32-bit unsigned
   arithmetic before it is widened to `size_t`. It agrees with the true size
   exactly when that size is below 2^32.
   */
  function GetDataSizeAsWritten(img: Image): (n: nat)
    ensures n < SIZE_BOUND
    ensures n == GetDataSize(img) <==> GetDataSize(img) < SIZE_BOUND
  {
    (img.lineWidth * img.dataHeight) % SIZE_BOUND
  }

  /**
   A descriptor of 65536 lines of 65536 bytes (a 16384-pixel-wide 32-bit
   image) holds 4 GiB, but the size as written comes out as 0.
   */
  lemma DataSizeWrapsAt4GiB()
    ensures var img := Image(16384, 65536, 16384, 65536, 4, 65536, A8R8G8B8, 1, 0, "");
      GetDataSize(img) == 0x1_0000_0000 && GetDataSizeAsWritten(img) == 0
  {
  }
}
