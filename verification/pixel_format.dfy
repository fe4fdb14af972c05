/**
 The `PIXELFORMAT` tags of `CImage`: a closed enumeration whose numeric values
 are part of the interface. `PF_UNKNOWN` is 0, the uncompressed formats follow
 it consecutively, and the block-compressed formats form a second run starting
 at 128.
 */
module PixelFormats {

  datatype Option<T> = None | Some(value: T)

  /**
   One constructor per enumerator, in declaration order. Channel names read
   from the most-significant to the least-significant bit. `ThreeDC` stands for
   `PF_3DC`, whose name cannot start an identifier here.
   */
  datatype PixelFormat =
    | Unknown
    // gray
    | A8 | Gray8 | GrayU16 | GrayF32
    // uncompressed RGB
    | R5G6B5 | R8G8B8 | R8G8B8A8 | A8R8G8B8
    // uncompressed BGR
    | B8G8R8 | B8G8R8A8 | A8B8G8R8
    // compressed
    | DXT1 | DXT2 | DXT3 | DXT4 | DXT5 | ThreeDC

  /** The uncompressed formats, in declaration order. */
  const UNCOMPRESSED: seq<PixelFormat> :=
    [A8, Gray8, GrayU16, GrayF32, R5G6B5, R8G8B8, R8G8B8A8, A8R8G8B8, B8G8R8, B8G8R8A8, A8B8G8R8]

  /** The block-compressed formats, in declaration order. */
  const COMPRESSED: seq<PixelFormat> := [DXT1, DXT2, DXT3, DXT4, DXT5, ThreeDC]

  /** The first tag of the compressed run (`PF_DXT1 = 128`). */
  const FIRST_COMPRESSED_TAG: nat := 128

  predicate IsCompressed(f: PixelFormat)
  {
    f.DXT1? || f.DXT2? || f.DXT3? || f.DXT4? || f.DXT5? || f.ThreeDC?
  }

  /**
   The numeric value of a format tag. Each uncompressed format is numbered by
   its place in declaration order starting from 1, each compressed one by its
   place starting from 128.
   */
  function Tag(f: PixelFormat): (t: nat)
    ensures t == 0 <==> f == Unknown
    ensures t <= |UNCOMPRESSED| || FIRST_COMPRESSED_TAG <= t < FIRST_COMPRESSED_TAG + |COMPRESSED|
    ensures 1 <= t <= |UNCOMPRESSED| ==> UNCOMPRESSED[t - 1] == f
    ensures t >= FIRST_COMPRESSED_TAG ==> COMPRESSED[t - FIRST_COMPRESSED_TAG] == f
    ensures IsCompressed(f) <==> t >= FIRST_COMPRESSED_TAG
  {
    match f
    case Unknown => 0
    case A8 => 1
    case Gray8 => 2
    case GrayU16 => 3
    case GrayF32 => 4
    case R5G6B5 => 5
    case R8G8B8 => 6
    case R8G8B8A8 => 7
    case A8R8G8B8 => 8
    case B8G8R8 => 9
    case B8G8R8A8 => 10
    case A8B8G8R8 => 11
    case DXT1 => 128
    case DXT2 => 129
    case DXT3 => 130
    case DXT4 => 131
    case DXT5 => 132
    case ThreeDC => 133
  }

  /**
   The format a numeric value names, if any. Values between the two runs, and
   beyond the last compressed tag, name no format.
   */
  function FromTag(t: int): (r: Option<PixelFormat>)
    ensures forall f :: r == Some(f) <==> Tag(f) == t
  {
    if t == 0 then Some(Unknown)
    else if 1 <= t <= |UNCOMPRESSED| then Some(UNCOMPRESSED[t - 1])
    else if FIRST_COMPRESSED_TAG <= t < FIRST_COMPRESSED_TAG + |COMPRESSED| then Some(COMPRESSED[t - FIRST_COMPRESSED_TAG])
    else None
  }
}
