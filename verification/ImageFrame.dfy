/**
 Repacking a ROS image into a video frame whose storage is reused from image to image.

 The sizes of a created frame are those of the LiveKit layouts; what a created frame holds before it is
 written is arbitrary.
 */
module ImageFrame {
  import opened Optional

  type Byte = b: int | 0 <= b < 256
  type UInt32 = x: int | 0 <= x < 0x1_0000_0000

  const NEUTRAL_CHROMA: Byte := 128
  const MAX_DIMENSION := 0x7FFF_FFFF

  datatype Encoding = Rgba8 | Bgra8 | Rgb8 | Bgr8 | Mono8 | Unsupported(name: string)

  datatype Layout = RGBA | BGRA | RGB24 | I420

  datatype Image = Image(width: UInt32, height: UInt32, step: UInt32, encoding: Encoding, data: seq<Byte>)

  function BytesPerPixel(encoding: Encoding): nat {
    match encoding
    case Rgba8 | Bgra8 => 4
    case Rgb8 | Bgr8 => 3
    case Mono8 => 1
    case Unsupported(_) => 0
  }

  /** The layout a frame for this encoding has. */
  function LayoutFor(encoding: Encoding): Layout {
    match encoding
    case Rgba8 => RGBA
    case Bgra8 => BGRA
    case Rgb8 | Bgr8 => RGB24
    case Mono8 | Unsupported(_) => I420
  }

  /** `count` rows of n bytes: count * n, as the row loops add it up. */
  function Span(n: nat, count: nat): nat {
    if count == 0 then 0 else Span(n, count - 1) + n
  }

  lemma {:induction false} SpanIsProduct(n: nat, count: nat)
    ensures Span(n, count) == count * n
  {
    if count > 0 {
      SpanIsProduct(n, count - 1);
    }
  }

  lemma {:induction false} SpanMonotone(n: nat, y: nat, count: nat)
    requires y < count
    ensures Span(n, y) + n == Span(n, y + 1) <= Span(n, count)
    decreases count
  {
    if y + 1 < count {
      SpanMonotone(n, y, count - 1);
    }
  }

  function FrameSize(width: nat, height: nat, layout: Layout): nat {
    match layout
    case RGBA | BGRA => Span(4 * width, height)
    case RGB24 => Span(3 * width, height)
    case I420 => Span(width, height) + ChromaSize(width, height)
  }

  /** Two planes of one byte for each started square of two by two pixels. */
  function ChromaSize(width: nat, height: nat): nat {
    2 * Span((width + 1) / 2, (height + 1) / 2)
  }

  function RowBytes(image: Image): nat {
    match image.encoding
    case Rgba8 | Bgra8 => 4 * image.width
    case Rgb8 | Bgr8 => 3 * image.width
    case Mono8 => image.width
    case Unsupported(_) => 0
  }

  lemma RowBytesIsProduct(image: Image)
    ensures RowBytes(image) == image.width * BytesPerPixel(image.encoding)
  {
  }

  predicate Acceptable(image: Image) {
    && BytesPerPixel(image.encoding) != 0
    && 0 < image.width <= MAX_DIMENSION && 0 < image.height <= MAX_DIMENSION
    && RowBytes(image) <= image.step
    && Span(image.step, image.height) <= |image.data|
  }

  /** The products the code computes as size_t fit 64 bits for every image it computes them for. */
  lemma SizesFit(width: nat, height: nat, step: UInt32, bytesPerPixel: nat)
    requires width <= MAX_DIMENSION && height <= MAX_DIMENSION && bytesPerPixel <= 4
    ensures width * bytesPerPixel * height < 0x1_0000_0000_0000_0000
    ensures step * height < 0x1_0000_0000_0000_0000
  {
    ProductBelow(width, bytesPerPixel, MAX_DIMENSION, 4);
    ProductBelow(width * bytesPerPixel, height, MAX_DIMENSION * 4, MAX_DIMENSION);
    ProductBelow(step, height, 0xFFFF_FFFF, MAX_DIMENSION);
  }

  lemma ProductBelow(a: nat, b: nat, c: nat, d: nat)
    requires a <= c && b <= d
    ensures a * b <= c * d
  {
    assert a * b <= c * b;
    assert c * b <= c * d;
  }

  // ---------------------------------------------------------------------------
  // Rows
  // ---------------------------------------------------------------------------

  /** The rows of an image: `swap` says whether the first and last byte of each pixel trade places. */
  datatype Raster = Raster(data: seq<Byte>, step: nat, rowBytes: nat, height: nat, swap: bool) {
    /** What the size check establishes. */
    predicate Fits() {
      rowBytes <= step && Span(step, height) <= |data| && (swap ==> rowBytes % 3 == 0)
    }
  }

  lemma RowFits(r: Raster, y: nat)
    requires r.Fits() && y < r.height
    ensures Span(r.step, y) + r.rowBytes <= |r.data|
    ensures Span(r.rowBytes, y) + r.rowBytes == Span(r.rowBytes, y + 1) <= Span(r.rowBytes, r.height)
  {
    SpanMonotone(r.step, y, r.height);
    SpanMonotone(r.rowBytes, y, r.height);
  }

  /** One row of the frame: the row of the image without its padding, pixels swapped when asked. */
  function Row(r: Raster, y: nat): (row: seq<Byte>)
    requires r.Fits() && y < r.height
    ensures |row| == r.rowBytes
  {
    RowFits(r, y);
    Turned(r.swap, r.data[Span(r.step, y)..Span(r.step, y) + r.rowBytes])
  }

  function Turned(swap: bool, row: seq<Byte>): (turned: seq<Byte>)
    requires swap ==> |row| % 3 == 0
    ensures |turned| == |row|
  {
    if swap then Swapped(row) else row
  }

  function Rows(r: Raster, count: nat): seq<Byte>
    requires r.Fits() && count <= r.height
  {
    if count == 0 then [] else Rows(r, count - 1) + Row(r, count - 1)
  }

  /** Every group of three bytes reversed. */
  function Swapped(row: seq<Byte>): (swapped: seq<Byte>)
    requires |row| % 3 == 0
    ensures |swapped| == |row|
  {
    if row == [] then [] else Swapped(row[..|row| - 3]) + [row[|row| - 1], row[|row| - 2], row[|row| - 3]]
  }

  /** The byte of the same pixel that byte i trades places with, or stays as. */
  function Mirrored(i: nat): nat {
    if i < 3 then 2 - i else 3 + Mirrored(i - 3)
  }

  lemma {:induction false} MirroredInPixel(i: nat)
    ensures Mirrored(i) == i / 3 * 3 + (2 - i % 3)
  {
    if i >= 3 {
      MirroredInPixel(i - 3);
    }
  }

  /** Where byte i of a row comes from. */
  function Source(swap: bool, i: nat): nat {
    if swap then Mirrored(i) else i
  }

  lemma {:induction false} MirroredFromEnd(n: nat, i: nat)
    requires n % 3 == 0 && n <= i < n + 3
    ensures Mirrored(i) == 2 * n + 2 - i
  {
    if n > 0 {
      MirroredFromEnd(n - 3, i - 3);
    }
  }

  lemma {:induction false} SwappedAt(row: seq<Byte>, i: nat)
    requires |row| % 3 == 0 && i < |row|
    ensures Mirrored(i) < |row| && Swapped(row)[i] == row[Mirrored(i)]
  {
    var n := |row| - 3;
    if i < n {
      SwappedAt(row[..n], i);
    } else {
      MirroredFromEnd(n, i);
    }
  }

  lemma TurnedAt(swap: bool, row: seq<Byte>, i: nat)
    requires (swap ==> |row| % 3 == 0) && i < |row|
    ensures Source(swap, i) < |row| && Turned(swap, row)[i] == row[Source(swap, i)]
  {
    if swap {
      SwappedAt(row, i);
    }
  }

  lemma SliceAt<T>(s: seq<T>, from: nat, n: nat, i: nat)
    requires from + n <= |s| && i < n
    ensures s[from..from + n][i] == s[from + i]
  {
  }

  lemma RowAt(r: Raster, y: nat, i: nat)
    requires r.Fits() && y < r.height && i < r.rowBytes
    ensures Source(r.swap, i) < r.rowBytes && Span(r.step, y) + r.rowBytes <= |r.data|
    ensures Row(r, y)[i] == r.data[Span(r.step, y) + Source(r.swap, i)]
  {
    RowFits(r, y);
    TurnedAt(r.swap, r.data[Span(r.step, y)..Span(r.step, y) + r.rowBytes], i);
    SliceAt(r.data, Span(r.step, y), r.rowBytes, Source(r.swap, i));
  }

  lemma {:induction false} RowsLength(r: Raster, count: nat)
    requires r.Fits() && count <= r.height
    ensures |Rows(r, count)| == Span(r.rowBytes, count)
  {
    if count > 0 {
      RowsLength(r, count - 1);
      RowFits(r, count - 1);
    }
  }

  lemma AppendedAt<T>(before: seq<T>, row: seq<T>, whole: seq<T>, at: nat, k: nat)
    requires whole == before + row && at == |before|
    ensures k < at ==> k < |whole| && whole[k] == before[k]
    ensures k < |row| ==> at + k < |whole| && whole[at + k] == row[k]
  {
  }

  /** Row y of the frame is where its rows before it end. */
  lemma {:induction false} RowsAt(r: Raster, count: nat, y: nat, i: nat, at: nat)
    requires r.Fits() && y < count <= r.height && i < r.rowBytes && at == |Rows(r, y)|
    ensures at + i < |Rows(r, count)| && Rows(r, count)[at + i] == Row(r, y)[i]
    decreases count
  {
    var before := Rows(r, count - 1);
    if y < count - 1 {
      RowsAt(r, count - 1, y, i, at);
      AppendedAt(before, Row(r, count - 1), Rows(r, count), |before|, at + i);
    } else {
      AppendedAt(before, Row(r, count - 1), Rows(r, count), |before|, i);
    }
  }

  /** Rows without padding are the data itself. */
  lemma {:induction false} PackedRows(r: Raster, count: nat)
    requires r.Fits() && !r.swap && r.rowBytes == r.step && count <= r.height
    ensures Span(r.step, count) <= |r.data| && Rows(r, count) == r.data[..Span(r.step, count)]
  {
    if count > 0 {
      PackedRows(r, count - 1);
      RowFits(r, count - 1);
    }
  }

  // ---------------------------------------------------------------------------
  // Copying
  // ---------------------------------------------------------------------------

  /** memcpy of `src` to position `at`. */
  method CopyBytes(dst: array<Byte>, at: nat, src: seq<Byte>)
    requires at + |src| <= dst.Length
    modifies dst
    ensures dst[..at + |src|] == old(dst[..at]) + src
    ensures dst[at + |src|..] == old(dst[at + |src|..])
  {
    var k := 0;
    while k < |src|
      invariant 0 <= k <= |src|
      invariant dst[at + |src|..] == old(dst[at + |src|..])
      invariant dst[..at + k] == old(dst[..at]) + src[..k]
    {
      ghost var done := dst[..at + k];
      dst[at + k] := src[k];
      assert dst[..at + k + 1] == done + [src[k]];
      assert src[..k + 1] == src[..k] + [src[k]];
      k := k + 1;
    }
  }

  /** One pixel of bgrToRgb; everything from `end` on stays as it is. */
  method PutSwapped(dst: array<Byte>, p: nat, src: seq<Byte>, i: nat, ghost end: nat)
    requires p + 3 <= end <= dst.Length && i + 3 <= |src|
    modifies dst
    ensures dst[..p + 3] == old(dst[..p]) + [src[i + 2], src[i + 1], src[i]]
    ensures dst[end..] == old(dst[end..])
  {
    dst[p] := src[i + 2];
    dst[p + 1] := src[i + 1];
    dst[p + 2] := src[i];
  }

  /** The inner loop of bgrToRgb. */
  method CopySwapped(dst: array<Byte>, at: nat, src: seq<Byte>)
    requires at + |src| <= dst.Length && |src| % 3 == 0
    modifies dst
    ensures dst[..at + |src|] == old(dst[..at]) + Swapped(src)
    ensures dst[at + |src|..] == old(dst[at + |src|..])
  {
    var i := 0;
    ghost var end := at + |src|;
    while i < |src|
      invariant 0 <= i <= |src| && i % 3 == 0
      invariant dst[end..] == old(dst[end..])
      invariant dst[..at + i] == old(dst[..at]) + Swapped(src[..i])
    {
      SwappedStep(src, i);
      PutSwapped(dst, at + i, src, i, end);
      i := i + 3;
    }
    assert src[..|src|] == src;
  }

  lemma SwappedStep(src: seq<Byte>, i: nat)
    requires i % 3 == 0 && |src| % 3 == 0 && i < |src|
    ensures i + 3 <= |src| && (i + 3) % 3 == 0
    ensures Swapped(src[..i + 3]) == Swapped(src[..i]) + [src[i + 2], src[i + 1], src[i]]
  {
    assert src[..i + 3][..i] == src[..i];
  }

  /** One row of copyRows or bgrToRgb; everything from `end` on stays as it is. */
  method WriteRow(r: Raster, y: nat, dst: array<Byte>, at: nat, ghost end: nat)
    requires r.Fits() && y < r.height && at + r.rowBytes <= end <= dst.Length
    modifies dst
    ensures dst[..at + r.rowBytes] == old(dst[..at]) + Row(r, y)
    ensures dst[end..] == old(dst[end..])
  {
    RowFits(r, y);
    SpanIsProduct(r.step, y);
    ghost var suffix := dst[at + r.rowBytes..];
    if r.swap {
      CopySwapped(dst, at, r.data[y * r.step..y * r.step + r.rowBytes]);
    } else {
      CopyBytes(dst, at, r.data[y * r.step..y * r.step + r.rowBytes]);
    }
    assert dst[end..] == suffix[end - at - r.rowBytes..];
  }

  /** copyRows and bgrToRgb: row by row into a packed destination; what follows the rows stays as it is. */
  method WriteRows(r: Raster, dst: array<Byte>)
    requires r.Fits() && Span(r.rowBytes, r.height) <= dst.Length
    modifies dst
    ensures dst[..Span(r.rowBytes, r.height)] == Rows(r, r.height)
    ensures dst[Span(r.rowBytes, r.height)..] == old(dst[Span(r.rowBytes, r.height)..])
  {
    var y := 0;
    ghost var end := Span(r.rowBytes, r.height);
    while y < r.height
      invariant 0 <= y <= r.height
      invariant Span(r.rowBytes, y) <= end && dst[..Span(r.rowBytes, y)] == Rows(r, y)
      invariant dst[end..] == old(dst[end..])
    {
      RowFits(r, y);
      SpanIsProduct(r.rowBytes, y);
      WriteRow(r, y, dst, y * r.rowBytes, end);
      y := y + 1;
    }
  }

  // ---------------------------------------------------------------------------
  // Building
  // ---------------------------------------------------------------------------

  function RasterOf(image: Image): Raster {
    Raster(image.data, image.step, RowBytes(image), image.height, image.encoding.Bgr8?)
  }

  /** What an accepted image's frame holds: its rows, and neutral chroma after them for mono8. */
  function FramePixels(image: Image): seq<Byte>
    requires Acceptable(image)
  {
    Rows(RasterOf(image), image.height) +
    if image.encoding.Mono8? then Neutral(ChromaSize(image.width, image.height)) else []
  }

  function Neutral(n: nat): seq<Byte> {
    seq(n, _ => NEUTRAL_CHROMA)
  }

  class ImageFrameBuilder {
    var width: nat
    var height: nat
    var layout: Layout
    var data: array<Byte>

    /** A frame with storage has the size of its layout, and an I420 frame is gray. */
    ghost predicate Valid()
      reads this, data
    {
      data.Length != 0 ==>
        && data.Length == FrameSize(width, height, layout)
        && (layout.I420? ==> IsNeutral(data[..], Span(width, height)))
    }

    constructor ()
      ensures Valid() && fresh(data)
    {
      width, height, layout := 0, 0, RGBA;
      data := new Byte[0];
    }

    /** Keeps the frame when size and layout match and it has storage; otherwise creates a new one. */
    method Reuse(width: nat, height: nat, layout: Layout) returns (remade: bool)
      modifies this
      ensures this.width == width && this.height == height && this.layout == layout
      ensures remade <==> old(this.width != width || this.height != height || this.layout != layout || data.Length == 0)
      ensures if remade then fresh(data) && data.Length == FrameSize(width, height, layout) else data == old(data)
    {
      remade := this.width != width || this.height != height || this.layout != layout || data.Length == 0;
      if remade {
        this.width, this.height, this.layout := width, height, layout;
        data := new Byte[FrameSize(width, height, layout)];
      }
    }

    /** The move of a packed native image. */
    method BuildPacked(image: Image)
      requires Acceptable(image) && image.encoding in {Rgba8, Bgra8, Rgb8} && image.step == RowBytes(image)
      modifies this
      ensures Valid() && fresh(data) && Holds(image)
    {
      SpanIsProduct(RowBytes(image), image.height);
      var pixels := image.data[..RowBytes(image) * image.height];
      ColourFrame(image);
      PackedRows(RasterOf(image), image.height);
      width, height, layout := image.width, image.height, LayoutFor(image.encoding);
      data := new Byte[|pixels|](i requires 0 <= i < |pixels| => pixels[i]);
      assert data[..] == pixels;
    }

    /** Padded native rows and bgr8 rows, written into the reused frame. */
    method BuildRows(image: Image)
      requires Valid() && Acceptable(image) && !image.encoding.Mono8?
      modifies this, data
      ensures Valid() && (data == old(data) || fresh(data)) && Holds(image)
    {
      ColourFrame(image);
      var _ := Reuse(image.width, image.height, LayoutFor(image.encoding));
      WriteRows(RasterOf(image), data);
      assert data[..] == data[..Span(RowBytes(image), image.height)];
    }

    /** The reused or fresh I420 frame; chroma is written only into a fresh one. */
    method PrepareGray(width: nat, height: nat)
      requires Valid() && 0 < width && 0 < height
      modifies this
      ensures this.width == width && this.height == height && layout == I420
      ensures data.Length == FrameSize(width, height, I420) && IsNeutral(data[..], Span(width, height))
      ensures data == old(data) || fresh(data)
    {
      var remade := Reuse(width, height, I420);
      if remade {
        SpanIsProduct(width, height);
        FillNeutral(data, width * height);
      }
    }

    /** mono8: the image becomes the Y plane. */
    method BuildGray(image: Image)
      requires Valid() && Acceptable(image) && image.encoding.Mono8?
      modifies this, data
      ensures Valid() && (data == old(data) || fresh(data)) && Holds(image)
    {
      RasterFits(image);
      PrepareGray(image.width, image.height);
      ghost var luma := Span(image.width, image.height);
      ghost var before := data[..];
      GrayLuma(image, luma);
      WriteRows(RasterOf(image), data);
      assert data[..][luma..] == before[luma..];
      GrayFrame(image, before, data[..], luma);
    }

    /** The frame is the one the image asks for, byte by byte. */
    ghost predicate Holds(image: Image)
      requires Acceptable(image)
      reads this, data
    {
      && width == image.width && height == image.height && layout == LayoutFor(image.encoding)
      && data[..] == FramePixels(image)
    }

    method Build(image: Image) returns (accepted: bool)
      requires Valid()
      modifies this, data
      ensures Valid() && (data == old(data) || fresh(data))
      ensures accepted <==> Acceptable(image)
      ensures accepted ==> Holds(image) && ShowsImage(width, height, layout, data[..], image)
      ensures !accepted ==> unchanged(this) && unchanged(data)
    {
      var bytesPerPixel := BytesPerPixel(image.encoding);
      if bytesPerPixel == 0 || image.width == 0 || image.height == 0 || image.width > MAX_DIMENSION
         || image.height > MAX_DIMENSION {
        return false;
      }
      var rowBytes := image.width * bytesPerPixel;
      RowBytesIsProduct(image);
      SpanIsProduct(image.step, image.height);
      if image.step < rowBytes || |image.data| < image.step * image.height {
        return false;
      }
      if image.encoding in {Rgba8, Bgra8, Rgb8} {
        if image.step == rowBytes {
          BuildPacked(image);
        } else {
          BuildRows(image);
        }
      } else if image.encoding.Bgr8? {
        BuildRows(image);
      } else {
        BuildGray(image);
      }
      FrameShowsImage(image);
      return true;
    }
  }

  // ---------------------------------------------------------------------------
  // What the bytes mean
  // ---------------------------------------------------------------------------

  datatype Channel = Red | Green | Blue | Alpha | Luma

  /** Byte `offset` of a pixel of `size` bytes. */
  datatype Place = Place(offset: nat, size: nat)

  /** Where the sensor_msgs encodings have a channel. */
  function SourcePlace(encoding: Encoding, c: Channel): Option<Place> {
    match (encoding, c)
    case (Rgba8, Red) => Some(Place(0, 4))
    case (Rgba8, Green) => Some(Place(1, 4))
    case (Rgba8, Blue) => Some(Place(2, 4))
    case (Rgba8, Alpha) => Some(Place(3, 4))
    case (Bgra8, Blue) => Some(Place(0, 4))
    case (Bgra8, Green) => Some(Place(1, 4))
    case (Bgra8, Red) => Some(Place(2, 4))
    case (Bgra8, Alpha) => Some(Place(3, 4))
    case (Rgb8, Red) => Some(Place(0, 3))
    case (Rgb8, Green) => Some(Place(1, 3))
    case (Rgb8, Blue) => Some(Place(2, 3))
    case (Bgr8, Blue) => Some(Place(0, 3))
    case (Bgr8, Green) => Some(Place(1, 3))
    case (Bgr8, Red) => Some(Place(2, 3))
    case (Mono8, Luma) => Some(Place(0, 1))
    case _ => None
  }

  /** Where the layouts of a frame have it, in memory order; of I420 this is the first plane. */
  function ShownPlace(layout: Layout, c: Channel): Option<Place> {
    match (layout, c)
    case (RGBA, Red) => Some(Place(0, 4))
    case (RGBA, Green) => Some(Place(1, 4))
    case (RGBA, Blue) => Some(Place(2, 4))
    case (RGBA, Alpha) => Some(Place(3, 4))
    case (BGRA, Blue) => Some(Place(0, 4))
    case (BGRA, Green) => Some(Place(1, 4))
    case (BGRA, Red) => Some(Place(2, 4))
    case (BGRA, Alpha) => Some(Place(3, 4))
    case (RGB24, Red) => Some(Place(0, 3))
    case (RGB24, Green) => Some(Place(1, 3))
    case (RGB24, Blue) => Some(Place(2, 3))
    case (I420, Luma) => Some(Place(0, 1))
    case _ => None
  }

  /** Position of a channel of pixel (x, y) when the rows are `stride` bytes apart. */
  function PositionOf(p: Place, stride: nat, x: nat, y: nat): nat {
    y * stride + (x * p.size + p.offset)
  }

  ghost predicate HasAt(bytes: seq<Byte>, at: nat, value: Byte) {
    at < |bytes| && bytes[at] == value
  }

  /** Pixel (x, y) of the image has this value in the channel. */
  ghost predicate SourceHas(image: Image, x: nat, y: nat, c: Channel, value: Byte) {
    var place := SourcePlace(image.encoding, c);
    place.Some? && HasAt(image.data, PositionOf(place.value, image.step, x, y), value)
  }

  /** A viewer that goes by the frame's own layout sees this value there. */
  ghost predicate Shows(width: nat, layout: Layout, bytes: seq<Byte>, x: nat, y: nat, c: Channel, value: Byte) {
    var place := ShownPlace(layout, c);
    place.Some? && HasAt(bytes, PositionOf(place.value, place.value.size * width, x, y), value)
  }

  /** The chroma planes of an I420 frame, half the size in both directions, are neutral. */
  ghost predicate ShowsNoColour(width: nat, height: nat, bytes: seq<Byte>) {
    && |bytes| == width * height + 2 * ((height + 1) / 2 * ((width + 1) / 2))
    && forall k | width * height <= k < |bytes| :: bytes[k] == 128
  }

  /** Every pixel looks in the frame as it does in the image. */
  ghost predicate ShowsImage(width: nat, height: nat, layout: Layout, bytes: seq<Byte>, image: Image) {
    && width == image.width && height == image.height
    && (forall x: nat, y: nat, c, value | x < width && y < height && SourceHas(image, x, y, c, value) ::
          Shows(width, layout, bytes, x, y, c, value))
    && (image.encoding.Mono8? ==> layout == I420 && ShowsNoColour(width, height, bytes))
  }

  /** The places of a channel before and after: the same, but mirrored in a bgr8 pixel. */
  lemma PlacesMatch(encoding: Encoding, c: Channel)
    requires SourcePlace(encoding, c).Some?
    ensures ShownPlace(LayoutFor(encoding), c).Some?
    ensures
      var from, to := SourcePlace(encoding, c).value, ShownPlace(LayoutFor(encoding), c).value;
      && from.size == to.size == BytesPerPixel(encoding) && from.offset < from.size
      && (encoding.Bgr8? ==> from.size == 3)
      && to.offset == if encoding.Bgr8? then 2 - from.offset else from.offset
  {
  }

  lemma PlaceInRow(p: Place, width: nat, x: nat)
    requires p.offset < p.size && x < width
    ensures x * p.size + p.offset < p.size * width
  {
    assert x * p.size + p.size == (x + 1) * p.size <= width * p.size;
  }

  lemma MirroredPlace(x: nat, offset: nat)
    requires offset < 3
    ensures Source(true, x * 3 + offset) == x * 3 + (2 - offset)
  {
    MirroredInPixel(x * 3 + offset);
  }

  /** A channel's byte in a row comes from the same channel's byte. */
  lemma ChannelSource(image: Image, c: Channel, x: nat)
    requires Acceptable(image) && SourcePlace(image.encoding, c).Some? && x < image.width
    ensures ShownPlace(LayoutFor(image.encoding), c).Some?
    ensures
      var from, to := SourcePlace(image.encoding, c).value, ShownPlace(LayoutFor(image.encoding), c).value;
      && x * to.size + to.offset < RowBytes(image) == to.size * image.width
      && Source(image.encoding.Bgr8?, x * to.size + to.offset) == x * from.size + from.offset
  {
    PlacesMatch(image.encoding, c);
    var to := ShownPlace(LayoutFor(image.encoding), c).value;
    PlaceInRow(to, image.width, x);
    RowBytesIsProduct(image);
    if image.encoding.Bgr8? {
      MirroredPlace(x, to.offset);
    }
  }

  lemma FrameHasByte(image: Image, y: nat, i: nat, at: nat, row: nat, value: Byte)
    requires Acceptable(image) && y < image.height && i < RowBytes(image)
    requires at == y * RowBytes(image) && row == y * image.step
    requires HasAt(image.data, row + Source(image.encoding.Bgr8?, i), value)
    ensures HasAt(FramePixels(image), at + i, value)
  {
    FrameHoldsSourcePixels(image, y, i, at, row);
  }

  lemma FrameShowsChannel(image: Image, x: nat, y: nat, c: Channel, value: Byte)
    requires Acceptable(image) && x < image.width && y < image.height && SourceHas(image, x, y, c, value)
    ensures Shows(image.width, LayoutFor(image.encoding), FramePixels(image), x, y, c, value)
  {
    ChannelSource(image, c, x);
    var from, to := SourcePlace(image.encoding, c).value, ShownPlace(LayoutFor(image.encoding), c).value;
    var i, j := x * to.size + to.offset, x * from.size + from.offset;
    var at := RowStart(RowBytes(image), y);
    var row := RowStart(image.step, y);
    PositionInRow(from, image.step, x, y, row);
    PositionInRow(to, RowBytes(image), x, y, at);
    FrameHasByte(image, y, i, at, row, value);
  }

  lemma RowStart(stride: nat, y: nat) returns (start: nat)
    ensures start == y * stride
  {
    start := y * stride;
  }

  lemma PositionInRow(p: Place, stride: nat, x: nat, y: nat, start: nat)
    requires start == y * stride
    ensures PositionOf(p, stride, x, y) == start + (x * p.size + p.offset)
  {
  }

  lemma GrayFrameShowsNoColour(image: Image)
    requires Acceptable(image) && image.encoding.Mono8?
    ensures ShowsNoColour(image.width, image.height, FramePixels(image))
  {
    var luma := Span(image.width, image.height);
    SpanIsProduct(image.width, image.height);
    SpanIsProduct((image.width + 1) / 2, (image.height + 1) / 2);
    GrayLuma(image, luma);
    forall k | luma <= k < |FramePixels(image)| ensures FramePixels(image)[k] == 128 {
      GrayFrameIsNeutral(image, k);
    }
  }

  lemma FrameShowsImage(image: Image)
    requires Acceptable(image)
    ensures ShowsImage(image.width, image.height, LayoutFor(image.encoding), FramePixels(image), image)
  {
    forall x: nat, y: nat, c, value | x < image.width && y < image.height && SourceHas(image, x, y, c, value)
      ensures Shows(image.width, LayoutFor(image.encoding), FramePixels(image), x, y, c, value)
    {
      FrameShowsChannel(image, x, y, c, value);
    }
    if image.encoding.Mono8? {
      GrayFrameShowsNoColour(image);
    }
  }

  /** The channels that an accepted image has, all of them somewhere in its data. */
  lemma ImageHasChannels(image: Image, x: nat, y: nat, c: Channel)
    requires Acceptable(image) && x < image.width && y < image.height
    ensures (exists value :: SourceHas(image, x, y, c, value)) <==>
            (match c
             case Red | Green | Blue => !image.encoding.Mono8?
             case Alpha => image.encoding in {Rgba8, Bgra8}
             case Luma => image.encoding.Mono8?)
  {
    if SourcePlace(image.encoding, c).Some? {
      PlacesMatch(image.encoding, c);
      var from := SourcePlace(image.encoding, c).value;
      PlaceInRow(from, image.width, x);
      RowBytesIsProduct(image);
      RowInData(image, y, x * from.size + from.offset);
      assert SourceHas(image, x, y, c, image.data[PositionOf(from, image.step, x, y)]);
    }
  }

  lemma RowInData(image: Image, y: nat, i: nat)
    requires Acceptable(image) && y < image.height && i < RowBytes(image)
    ensures y * image.step + i < |image.data|
  {
    SpanIsProduct(image.step, y);
    SpanMonotone(image.step, y, image.height);
  }

  /** What is accepted: a known encoding, dimensions that fit an int, rows that hold the pixels, and all the rows. */
  lemma AcceptableIff(image: Image)
    ensures Acceptable(image) <==>
            && (image.encoding in {Rgba8, Bgra8, Rgb8, Bgr8, Mono8})
            && 0 < image.width <= 0x7FFF_FFFF && 0 < image.height <= 0x7FFF_FFFF
            && image.width * (if image.encoding in {Rgba8, Bgra8} then 4 else if image.encoding.Mono8? then 1 else 3)
               <= image.step
            && image.step * image.height <= |image.data|
  {
    SpanIsProduct(image.step, image.height);
  }

  lemma RasterFits(image: Image)
    requires Acceptable(image)
    ensures RasterOf(image).Fits()
  {
  }

  /**
   Byte i of row y of an accepted frame is its source byte: red and blue trade places for bgr8, padding is
   skipped.
   */
  lemma FrameHoldsSourcePixels(image: Image, y: nat, i: nat, at: nat, row: nat)
    requires Acceptable(image) && y < image.height && i < RowBytes(image)
    requires at == y * RowBytes(image) && row == y * image.step
    ensures at + i < |FramePixels(image)|
    ensures
      var source := Source(image.encoding.Bgr8?, i);
      source < RowBytes(image) && row + source < |image.data| && FramePixels(image)[at + i] == image.data[row + source]
  {
    var r := RasterOf(image);
    RasterFits(image);
    SpanIsProduct(r.rowBytes, y);
    SpanIsProduct(r.step, y);
    RowsHoldSource(r, y, i);
  }

  lemma RowsFromOffset(r: Raster, y: nat, i: nat)
    requires r.Fits() && y < r.height && i < r.rowBytes
    ensures Span(r.rowBytes, y) + i < |Rows(r, r.height)|
    ensures Rows(r, r.height)[Span(r.rowBytes, y) + i] == Row(r, y)[i]
  {
    RowsLength(r, y);
    RowsAt(r, r.height, y, i, Span(r.rowBytes, y));
  }

  lemma RowsHoldSource(r: Raster, y: nat, i: nat)
    requires r.Fits() && y < r.height && i < r.rowBytes
    ensures Source(r.swap, i) < r.rowBytes && Span(r.step, y) + r.rowBytes <= |r.data|
    ensures Span(r.rowBytes, y) + i < |Rows(r, r.height)|
    ensures Rows(r, r.height)[Span(r.rowBytes, y) + i] == r.data[Span(r.step, y) + Source(r.swap, i)]
  {
    RowsFromOffset(r, y, i);
    RowAt(r, y, i);
  }

  /** A mono8 frame is the luma plane and two chroma planes of 128, and nothing else. */
  lemma GrayFrameIsNeutral(image: Image, k: nat)
    requires Acceptable(image) && image.encoding.Mono8?
    requires Span(image.width, image.height) <= k < |FramePixels(image)|
    ensures |FramePixels(image)| == FrameSize(image.width, image.height, I420)
    ensures FramePixels(image)[k] == 128
  {
    GrayLuma(image, Span(image.width, image.height));
  }

  /** A frame for a colour image has room for exactly its packed rows. */
  lemma ColourFrame(image: Image)
    requires Acceptable(image) && !image.encoding.Mono8?
    ensures FrameSize(image.width, image.height, LayoutFor(image.encoding)) == Span(RowBytes(image), image.height)
    ensures |FramePixels(image)| == Span(RowBytes(image), image.height) > 0
    ensures FramePixels(image) == Rows(RasterOf(image), image.height)
  {
    RasterFits(image);
    RowsLength(RasterOf(image), image.height);
    var rows := Rows(RasterOf(image), image.height);
    assert rows + [] == rows;
  }

  /** The memset over the chroma planes of a fresh frame. */
  method FillNeutral(dst: array<Byte>, from: nat)
    requires from <= dst.Length
    modifies dst
    ensures IsNeutral(dst[..], from)
  {
    var k := from;
    while k < dst.Length
      invariant from <= k <= dst.Length
      invariant forall j | from <= j < k :: dst[j] == NEUTRAL_CHROMA
    {
      dst[k] := NEUTRAL_CHROMA;
      k := k + 1;
    }
  }

  /** The luma plane of a mono8 frame is as large as the image's rows. */
  lemma GrayLuma(image: Image, luma: nat)
    requires Acceptable(image) && image.encoding.Mono8? && luma == Span(image.width, image.height)
    ensures FrameSize(image.width, image.height, I420) == luma + ChromaSize(image.width, image.height)
    ensures RasterOf(image).Fits() && |Rows(RasterOf(image), image.height)| == luma
  {
    RasterFits(image);
    RowsLength(RasterOf(image), image.height);
  }

  lemma GrayFrame(image: Image, before: seq<Byte>, after: seq<Byte>, luma: nat)
    requires Acceptable(image) && image.encoding.Mono8? && luma == Span(image.width, image.height)
    requires |before| == |after| == luma + ChromaSize(image.width, image.height)
    requires before[luma..] == after[luma..] && IsNeutral(before, luma)
    requires RasterOf(image).Fits() && after[..luma] == Rows(RasterOf(image), image.height)
    ensures IsNeutral(after, luma) && after == FramePixels(image)
  {
    forall k | luma <= k < |after| ensures after[k] == NEUTRAL_CHROMA {
      assert after[k] == after[luma..][k - luma] == before[luma..][k - luma] == before[k];
    }
    assert after == after[..luma] + after[luma..];
    assert after[luma..] == Neutral(ChromaSize(image.width, image.height));
  }

  ghost predicate IsNeutral(bytes: seq<Byte>, from: nat) {
    forall k | from <= k < |bytes| :: bytes[k] == NEUTRAL_CHROMA
  }
}
