/** Shrinking a camera frame for the preview: preview_rgb in crates/client-ui/src/media.rs. */
module Preview {
  import opened Arithmetic

  const TWO32: nat := 0x1_0000_0000

  type U32 = n: nat | n < TWO32
  type Byte = n: nat | n < 256

  /** u32 arithmetic of a release build. */
  function Wrap32(n: nat): U32 {
    n % TWO32
  }

  /** value.clamp(2, u32::MAX) & !1 */
  function EvenDimension(value: U32): (r: U32)
    ensures r % 2 == 0 && r >= 2
    ensures value >= 2 ==> r <= value < r + 2
    ensures value < 2 ==> r == 2
  {
    var clamped := if value < 2 then 2 else value;
    clamped - clamped % 2
  }

  function TargetWidth(width: U32): (r: U32)
    ensures r % 2 == 0 && 2 <= r <= 320 && (width >= 2 ==> r <= width)
  {
    EvenDimension(if width < 320 then width else 320)
  }

  function TargetHeight(width: U32, height: U32): (r: U32)
    ensures r % 2 == 0 && r >= 2
  {
    var scaled := Max1(height) * TargetWidth(width) / Max1(width);
    EvenDimension(Wrap32(if scaled < 1 then 1 else scaled))
  }

  /** Nearest neighbour: position i of n in a line of `size`. */
  function Scaled(i: nat, size: nat, n: nat): nat
    requires n > 0
  {
    i * size / n
  }

  /** The byte offset of a pixel in a frame of three-byte pixels, in u32 arithmetic. */
  function ByteOffset(row: nat, column: nat, width: nat): U32 {
    Wrap32((row * width + column) * 3)
  }

  function SourceOffset(width: U32, height: U32, tw: nat, th: nat, x: nat, y: nat): U32
    requires tw > 0 && th > 0
  {
    ByteOffset(Scaled(y, height, th), Scaled(x, width, tw), width)
  }

  /** A source pixel, black when it would lie outside the frame. */
  function Sampled(rgb: seq<Byte>, offset: nat, channel: nat): Byte
    requires channel < 3
  {
    if offset + 2 < |rgb| then rgb[offset + channel] else 0
  }

  /** The guarded copy of three bytes. */
  function WithPixel(out: seq<Byte>, rgb: seq<Byte>, source: nat, target: nat): (r: seq<Byte>)
    ensures |r| == |out|
  {
    if source + 2 < |rgb| && target + 2 < |out|
    then out[target := rgb[source]][target + 1 := rgb[source + 1]][target + 2 := rgb[source + 2]]
    else out
  }

  /** The output after n of `size` pixels in row order; pixel q is copied from byte offset source(q). */
  function Canvas(rgb: seq<Byte>, size: nat, source: nat -> nat, n: nat): (out: seq<Byte>)
    ensures |out| == 3 * size
  {
    if n == 0 then seq(3 * size, _ => 0)
    else WithPixel(Canvas(rgb, size, source, n - 1), rgb, source(n - 1), Wrap32(3 * (n - 1)))
  }

  /** Pixel q stands at column q % tw of row q / tw. */
  function PixelSource(width: U32, height: U32, tw: nat, th: nat): nat -> nat
    requires tw > 0 && th > 0
  {
    (q: nat) => SourceOffset(width, height, tw, th, q % tw, q / tw)
  }

  /** The preview: the frame itself when it already has the dimensions, the painted canvas otherwise. */
  function Previewed(width: U32, height: U32, rgb: seq<Byte>): seq<Byte> {
    var tw, th := TargetWidth(width), TargetHeight(width, height);
    if tw == width && th == height then rgb else Canvas(rgb, tw * th, PixelSource(width, height, tw, th), tw * th)
  }

  /** The output's byte offsets fit in u32. */
  predicate TargetFits(width: U32, height: U32) {
    3 * (TargetWidth(width) * TargetHeight(width, height)) < TWO32
  }

  lemma NoWrap(n: nat)
    requires n < TWO32
    ensures Wrap32(n) == n
  {
  }

  lemma OnePixelChanges(out: seq<Byte>, rgb: seq<Byte>, source: nat, target: nat, i: nat)
    requires target + 2 < |out| && i < |out|
    ensures WithPixel(out, rgb, source, target)[i]
            == if target <= i < target + 3 && source + 2 < |rgb| then rgb[source + i - target] else out[i]
  {
  }

  lemma PixelOfByte(p: nat, q: nat, c: nat)
    requires c < 3
    ensures 3 * p <= 3 * q + c < 3 * p + 3 <==> p == q
  {
  }

  /** Without wrap-around pixel p changes only its own three bytes. */
  lemma OnePixelPainted(rgb: seq<Byte>, size: nat, source: nat -> nat, p: nat, q: nat, c: nat, i: nat)
    requires 3 * size < TWO32 && p < size && q < size && c < 3 && i == 3 * q + c
    ensures Canvas(rgb, size, source, p + 1)[i]
            == if p == q && source(p) + 2 < |rgb| then rgb[source(p) + c] else Canvas(rgb, size, source, p)[i]
  {
    NoWrap(3 * p);
    PixelOfByte(p, q, c);
    OnePixelChanges(Canvas(rgb, size, source, p), rgb, source(p), 3 * p, i);
  }

  /** While offsets fit, each pixel painted so far shows its source pixel and the rest is still black. */
  lemma {:induction false} CanvasShows(rgb: seq<Byte>, size: nat, source: nat -> nat, n: nat, q: nat, c: nat, i: nat)
    requires 3 * size < TWO32 && n <= size && q < size && c < 3 && i == 3 * q + c
    ensures Canvas(rgb, size, source, n)[i] == if q < n then Sampled(rgb, source(q), c) else 0
  {
    if n > 0 {
      CanvasShows(rgb, size, source, n - 1, q, c, i);
      OnePixelPainted(rgb, size, source, n - 1, q, c, i);
    }
  }

  /** A wrapped offset never reaches past the first 2^32 + 2 bytes. */
  lemma {:induction false} CanvasStaysBlack(rgb: seq<Byte>, size: nat, source: nat -> nat, n: nat, i: nat)
    requires TWO32 + 2 <= i < 3 * size
    ensures Canvas(rgb, size, source, n)[i] == 0
  {
    if n > 0 {
      CanvasStaysBlack(rgb, size, source, n - 1, i);
    }
  }

  /** Row and column come back from the index. */
  lemma {:induction false} PixelPosition(x: nat, y: nat, tw: nat)
    requires x < tw
    ensures (Multiple(y, tw) + x) / tw == y && (Multiple(y, tw) + x) % tw == x
  {
    if y > 0 {
      PixelPosition(x, y - 1, tw);
      var q := Multiple(y - 1, tw) + x;
      AddDivisor(q, tw);
    }
  }

  lemma AddDivisor(q: nat, tw: nat)
    requires tw > 0
    ensures (q + tw) / tw == q / tw + 1 && (q + tw) % tw == q % tw
  {
    Quotient(q + tw, tw, q / tw + 1, q % tw);
  }

  lemma RowsFill(tw: nat, th: nat)
    ensures Multiple(th, tw) == tw * th
  {
    MultipleIsProduct(th, tw);
  }

  // ------------------------------------------------------------------
  // The loops

  method PaintPixel(out: array<Byte>, rgb: seq<Byte>, source: U32, target: U32)
    modifies out
    ensures out[..] == WithPixel(old(out[..]), rgb, source, target)
  {
    if source + 2 < |rgb| && target + 2 < out.Length {
      out[target], out[target + 1], out[target + 2] := rgb[source], rgb[source + 1], rgb[source + 2];
    }
  }

  /** The offsets the loops compute for pixel (x, y) are those of its index. */
  lemma OffsetsAt(width: U32, height: U32, tw: nat, th: nat, x: nat, y: nat)
    requires x < tw && th > 0
    ensures ByteOffset(y, x, tw) == Wrap32(3 * (Multiple(y, tw) + x))
    ensures PixelSource(width, height, tw, th)(Multiple(y, tw) + x) == SourceOffset(width, height, tw, th, x, y)
  {
    MultipleIsProduct(y, tw);
    PixelPosition(x, y, tw);
  }

  /** Copy pixel (x, y), the n-th in row order. */
  method PaintAt(
      out: array<Byte>, rgb: seq<Byte>, width: U32, height: U32, tw: U32, th: U32, sourceY: nat, x: nat, y: nat,
      ghost size: nat, ghost n: nat)
    requires x < tw && th > 0 && sourceY == Scaled(y, height, th) && n == Multiple(y, tw) + x
    requires out[..] == Canvas(rgb, size, PixelSource(width, height, tw, th), n)
    modifies out
    ensures out[..] == Canvas(rgb, size, PixelSource(width, height, tw, th), n + 1)
  {
    var source := ByteOffset(sourceY, Scaled(x, width, tw), width);
    var target := ByteOffset(y, x, tw);
    OffsetsAt(width, height, tw, th, x, y);
    PaintPixel(out, rgb, source, target);
  }

  method PaintRow(
      out: array<Byte>, rgb: seq<Byte>, width: U32, height: U32, tw: U32, th: U32, sourceY: nat, y: nat,
      ghost size: nat, ghost source: nat -> nat, ghost row: nat)
    requires tw > 0 && th > 0 && sourceY == Scaled(y, height, th)
    requires row == Multiple(y, tw) && source == PixelSource(width, height, tw, th)
    requires out[..] == Canvas(rgb, size, source, row)
    modifies out
    ensures out[..] == Canvas(rgb, size, source, row + tw)
  {
    ghost var n := row;
    for x := 0 to tw
      invariant n == row + x && out[..] == Canvas(rgb, size, source, n)
    {
      PaintAt(out, rgb, width, height, tw, th, sourceY, x, y, size, n);
      n := n + 1;
    }
  }

  method BlackCanvas(size: nat) returns (out: array<Byte>)
    ensures fresh(out) && out[..] == seq(3 * size, _ => 0)
  {
    out := new Byte[3 * size](_ => 0);
  }

  method Paint(rgb: seq<Byte>, width: U32, height: U32, tw: U32, th: U32, size: nat) returns (pixels: seq<Byte>)
    requires tw > 0 && th > 0 && size == Multiple(th, tw)
    ensures pixels == Canvas(rgb, size, PixelSource(width, height, tw, th), size)
  {
    var out := BlackCanvas(size);
    ghost var source, row := PixelSource(width, height, tw, th), 0;
    for y := 0 to th
      invariant row == Multiple(y, tw) && out[..] == Canvas(rgb, size, source, row)
    {
      var sourceY := Scaled(y, height, th);
      PaintRow(out, rgb, width, height, tw, th, sourceY, y, size, source, row);
      row := row + tw;
    }
    pixels := out[..];
  }

  /** The dimensions and every byte of the output, whatever the frame. */
  method PreviewRgb(width: U32, height: U32, rgb: seq<Byte>) returns (tw: U32, th: U32, pixels: seq<Byte>)
    ensures tw == TargetWidth(width) && th == TargetHeight(width, height)
    ensures pixels == Previewed(width, height, rgb)
  {
    tw := TargetWidth(width);
    th := TargetHeight(width, height);
    if tw == width && th == height {
      return width, height, rgb;
    }
    RowsFill(tw, th);
    pixels := Paint(rgb, width, height, tw, th, tw * th);
  }

  // ------------------------------------------------------------------
  // Frames

  /** At least one pixel, three bytes each, and fewer than 2^32 bytes. */
  predicate Frame(width: U32, height: U32, rgb: seq<Byte>) {
    FrameSize(width, height) && |rgb| == 3 * (width * height)
  }

  predicate FrameSize(width: U32, height: U32) {
    width >= 1 && height >= 1 && 3 * (width * height) < TWO32
  }

  /** A line one pixel wide is doubled both ways; its preview needs twelve bytes for each of its pixels. */
  predicate HasRoom(width: U32, height: U32) {
    width >= 2 || 12 * height < TWO32
  }

  lemma MulMonotone(a: nat, b: nat, c: nat)
    requires a <= b
    ensures a * c <= b * c
  {
  }

  lemma DivFloors(n: nat, d: nat)
    requires d > 0
    ensures n / d * d <= n
  {
  }

  /** floor(y * h / n) < h for y < n. */
  lemma ScaledIsBelow(y: nat, h: nat, n: nat)
    requires y < n && h >= 1
    ensures Scaled(y, h, n) < h
  {
    MulMonotone(y + 1, n, h);
    DivFloors(y * h, n);
    if y * h / n >= h {
      MulMonotone(h, y * h / n, n);
    }
  }

  /** Shrinking both sides by the same ratio does not enlarge the area. */
  lemma ShrunkArea(tw: nat, th: nat, width: nat, height: nat)
    requires width >= 1 && tw <= width && th <= height * tw / width
    ensures tw * th <= width * height
  {
    var scaled := height * tw / width;
    DivFloors(height * tw, width);
    MulMonotone(th, scaled, width);
    MulMonotone(tw, width, th);
    MulMonotone(tw, width, height);
  }

  /** The preview of a frame at least two pixels wide is never larger than the frame, so its offsets fit. */
  lemma WideTargetFits(width: U32, height: U32)
    requires FrameSize(width, height) && width >= 2
    ensures TargetFits(width, height)
  {
    var tw, th := TargetWidth(width), TargetHeight(width, height);
    ScaledHeight(width, height);
    if th > 2 {
      ShrunkArea(tw, th, width, height);
    } else {
      MulMonotone(tw, 320, th);
    }
  }

  /** The scaled height of such a frame is not truncated. */
  lemma ScaledHeight(width: U32, height: U32)
    requires FrameSize(width, height) && width >= 2
    ensures TargetHeight(width, height) == 2 || TargetHeight(width, height) <= height * TargetWidth(width) / width
  {
    ShrinksTo(height, TargetWidth(width), width);
  }

  lemma ShrinksTo(height: nat, tw: nat, width: nat)
    requires tw <= width && width >= 1
    ensures height * tw / width <= height
  {
    var scaled := height * tw / width;
    DivFloors(height * tw, width);
    MulMonotone(tw, width, height);
    if scaled > height {
      MulMonotone(height + 1, scaled, width);
    }
  }

  lemma ThinTarget(height: U32)
    requires FrameSize(1, height)
    ensures TargetWidth(1) == 2 && TargetHeight(1, height) == 2 * height
  {
  }

  /** The output offsets of a frame's preview fit in u32 exactly when it has room. */
  lemma OffsetsFitExactly(width: U32, height: U32)
    requires FrameSize(width, height)
    ensures TargetFits(width, height) <==> HasRoom(width, height)
  {
    if width >= 2 {
      WideTargetFits(width, height);
    } else {
      ThinTarget(height);
    }
  }

  lemma InsideFrame(row: nat, column: nat, width: nat, height: nat)
    requires row < height && column < width
    ensures row * width + column < width * height
  {
    MulMonotone(row + 1, height, width);
  }

  lemma OffsetInside(row: nat, column: nat, width: nat, height: nat)
    requires row < height && column < width && 3 * (width * height) < TWO32
    ensures ByteOffset(row, column, width) == (row * width + column) * 3 <= 3 * (width * height) - 3
  {
    InsideFrame(row, column, width, height);
  }

  /** The source offset of every output pixel is the true one and lies inside the frame. */
  lemma SourceInside(width: U32, height: U32, tw: nat, th: nat, x: nat, y: nat)
    requires FrameSize(width, height) && x < tw && y < th
    ensures var offset := SourceOffset(width, height, tw, th, x, y);
            && Scaled(y, height, th) < height && Scaled(x, width, tw) < width
            && offset == (Scaled(y, height, th) * width + Scaled(x, width, tw)) * 3
            && offset + 2 < 3 * (width * height)
  {
    ScaledIsBelow(y, height, th);
    ScaledIsBelow(x, width, tw);
    OffsetInside(Scaled(y, height, th), Scaled(x, width, tw), width, height);
  }

  /** The copy of pixel (x, y) uses the true offsets and its guard holds. */
  predicate Guarded(width: U32, height: U32, rgb: seq<Byte>, tw: nat, th: nat, x: nat, y: nat)
    requires tw > 0 && th > 0
  {
    && SourceOffset(width, height, tw, th, x, y) == (Scaled(y, height, th) * width + Scaled(x, width, tw)) * 3
    && SourceOffset(width, height, tw, th, x, y) + 2 < |rgb|
    && ByteOffset(y, x, tw) == (y * tw + x) * 3 && ByteOffset(y, x, tw) + 2 < 3 * (tw * th)
  }

  lemma PixelIsGuarded(width: U32, height: U32, rgb: seq<Byte>, tw: nat, th: nat, x: nat, y: nat)
    requires Frame(width, height, rgb) && 3 * (tw * th) < TWO32 && x < tw && y < th
    ensures Guarded(width, height, rgb, tw, th, x, y)
  {
    SourceInside(width, height, tw, th, x, y);
    OffsetInside(y, x, tw, th);
  }

  /** With room, the guard of the copy holds for every pixel: both offsets are the true ones and lie inside. */
  lemma GuardAlwaysHolds(width: U32, height: U32, rgb: seq<Byte>)
    requires Frame(width, height, rgb) && HasRoom(width, height)
    ensures var tw, th := TargetWidth(width), TargetHeight(width, height);
            forall x: nat, y: nat | x < tw && y < th :: Guarded(width, height, rgb, tw, th, x, y)
  {
    var tw, th := TargetWidth(width), TargetHeight(width, height);
    OffsetsFitExactly(width, height);
    forall x: nat, y: nat | x < tw && y < th ensures Guarded(width, height, rgb, tw, th, x, y) {
      PixelIsGuarded(width, height, rgb, tw, th, x, y);
    }
  }

  /** Byte c of source pixel (floor(x w / tw), floor(y h / th)). */
  function SourceIndex(width: U32, height: U32, tw: nat, th: nat, x: nat, y: nat, c: nat): nat
    requires tw > 0 && th > 0
  {
    (Scaled(y, height, th) * width + Scaled(x, width, tw)) * 3 + c
  }

  function TargetIndex(tw: nat, x: nat, y: nat, c: nat): nat {
    (y * tw + x) * 3 + c
  }

  predicate SameByte(pixels: seq<Byte>, target: nat, rgb: seq<Byte>, source: nat) {
    target < |pixels| && source < |rgb| && pixels[target] == rgb[source]
  }

  /** Output byte c of pixel (x, y) is byte c of its nearest source pixel. */
  predicate ShowsSource(width: U32, height: U32, rgb: seq<Byte>, x: nat, y: nat, c: nat) {
    var tw, th := TargetWidth(width), TargetHeight(width, height);
    SameByte(Previewed(width, height, rgb), TargetIndex(tw, x, y, c), rgb, SourceIndex(width, height, tw, th, x, y, c))
  }

  /** The whole preview is the frame's nearest-neighbour picture. */
  ghost predicate ShowsFrame(width: U32, height: U32, rgb: seq<Byte>) {
    forall x: nat, y: nat, c: nat | x < TargetWidth(width) && y < TargetHeight(width, height) && c < 3 ::
      ShowsSource(width, height, rgb, x, y, c)
  }

  /** With room, the painted canvas shows the nearest source pixel everywhere. */
  lemma CanvasIsNearest(width: U32, height: U32, rgb: seq<Byte>, tw: nat, th: nat, size: nat, x: nat, y: nat, c: nat)
    requires Frame(width, height, rgb) && size == tw * th && 3 * size < TWO32 && x < tw && y < th && c < 3
    ensures SameByte(Canvas(rgb, size, PixelSource(width, height, tw, th), size), TargetIndex(tw, x, y, c),
                     rgb, SourceIndex(width, height, tw, th, x, y, c))
  {
    var q := Multiple(y, tw) + x;
    MultipleIsProduct(y, tw);
    InsideFrame(y, x, tw, th);
    SourceInside(width, height, tw, th, x, y);
    OffsetsAt(width, height, tw, th, x, y);
    CanvasShows(rgb, size, PixelSource(width, height, tw, th), size, q, c, TargetIndex(tw, x, y, c));
  }

  /** A frame that already has the dimensions shows itself. */
  lemma FrameShowsItself(width: U32, height: U32, rgb: seq<Byte>, x: nat, y: nat, c: nat)
    requires Frame(width, height, rgb) && x < width && y < height && c < 3
    ensures SameByte(rgb, TargetIndex(width, x, y, c), rgb, SourceIndex(width, height, width, height, x, y, c))
  {
    ScaledToItself(y, height);
    ScaledToItself(x, width);
    InsideFrame(y, x, width, height);
  }

  /** The same for whatever the preview is made of, the frame itself or the canvas. */
  lemma EitherIsNearest(width: U32, height: U32, rgb: seq<Byte>, tw: nat, th: nat, x: nat, y: nat, c: nat)
    requires Frame(width, height, rgb) && 3 * (tw * th) < TWO32 && x < tw && y < th && c < 3
    ensures var canvas := Canvas(rgb, tw * th, PixelSource(width, height, tw, th), tw * th);
            SameByte(if tw == width && th == height then rgb else canvas, TargetIndex(tw, x, y, c),
                     rgb, SourceIndex(width, height, tw, th, x, y, c))
  {
    if tw == width && th == height {
      FrameShowsItself(width, height, rgb, x, y, c);
    } else {
      CanvasIsNearest(width, height, rgb, tw, th, tw * th, x, y, c);
    }
  }

  lemma PixelIsNearest(width: U32, height: U32, rgb: seq<Byte>, x: nat, y: nat, c: nat)
    requires Frame(width, height, rgb) && TargetFits(width, height)
    ensures x < TargetWidth(width) && y < TargetHeight(width, height) && c < 3 ==>
              ShowsSource(width, height, rgb, x, y, c)
  {
    if x < TargetWidth(width) && y < TargetHeight(width, height) && c < 3 {
      EitherIsNearest(width, height, rgb, TargetWidth(width), TargetHeight(width, height), x, y, c);
    }
  }

  /** With room, every output pixel is its nearest source pixel. */
  lemma PreviewIsNearestNeighbour(width: U32, height: U32, rgb: seq<Byte>)
    requires Frame(width, height, rgb) && HasRoom(width, height)
    ensures ShowsFrame(width, height, rgb)
  {
    OffsetsFitExactly(width, height);
    forall x: nat, y: nat, c: nat | x < TargetWidth(width) && y < TargetHeight(width, height) && c < 3
      ensures ShowsSource(width, height, rgb, x, y, c)
    {
      PixelIsNearest(width, height, rgb, x, y, c);
    }
  }

  lemma ScaledToItself(i: nat, n: nat)
    requires n > 0
    ensures Scaled(i, n, n) == i
  {
    Quotient(i * n, n, i, 0);
  }

  /** The preview of a line one pixel wide is two pixels wide; its last pixel comes from the frame's last. */
  lemma ThinPreview(height: U32, rgb: seq<Byte>)
    requires FrameSize(1, height)
    ensures Previewed(1, height, rgb) == Canvas(rgb, 4 * height, PixelSource(1, height, 2, 2 * height), 4 * height)
    ensures Scaled(1, 1, 2) == 0 && Scaled(2 * height - 1, height, 2 * height) == height - 1
  {
    ThinTarget(height);
    assert 2 * (2 * height) == 4 * height;
    Quotient((2 * height - 1) * height, 2 * height, height - 1, height);
  }

  /** What it means that the last pixel of such a preview shows its source. */
  lemma ThinShows(height: U32, rgb: seq<Byte>, c: nat)
    requires FrameSize(1, height) && c < 3
    ensures var canvas := Canvas(rgb, 4 * height, PixelSource(1, height, 2, 2 * height), 4 * height);
            ShowsSource(1, height, rgb, 1, 2 * height - 1, c) <==>
            SameByte(canvas, 12 * height - 3 + c, rgb, 3 * height - 3 + c)
  {
    ThinTarget(height);
    ThinPreview(height, rgb);
    assert TargetIndex(2, 1, 2 * height - 1, c) == 12 * height - 3 + c;
    assert SourceIndex(1, height, 2, 2 * height, 1, 2 * height - 1, c) == 3 * height - 3 + c;
  }

  /** Without room the preview loses its last pixel: it is black, so it shows the source only where that is black. */
  lemma LastPixelIsLost(width: U32, height: U32, rgb: seq<Byte>, c: nat)
    requires Frame(width, height, rgb) && !HasRoom(width, height) && c < 3
    ensures ShowsSource(width, height, rgb, 1, 2 * height - 1, c) <==> rgb[|rgb| - 3 + c] == 0
  {
    ThinShows(height, rgb, c);
    ThinCanvasEndsBlack(height, rgb, c);
  }

  lemma ThinCanvasEndsBlack(height: U32, rgb: seq<Byte>, c: nat)
    requires 12 * height >= TWO32 && c < 3
    ensures Canvas(rgb, 4 * height, PixelSource(1, height, 2, 2 * height), 4 * height)[12 * height - 3 + c] == 0
  {
    CanvasStaysBlack(rgb, 4 * height, PixelSource(1, height, 2, 2 * height), 4 * height, 12 * height - 3 + c);
  }

  /** The preview shows every frame of a size truly exactly when frames of that size have room. */
  lemma PreviewIsTrueExactly(width: U32, height: U32)
    requires FrameSize(width, height)
    ensures (forall rgb | Frame(width, height, rgb) :: ShowsFrame(width, height, rgb)) <==> HasRoom(width, height)
  {
    if HasRoom(width, height) {
      forall rgb | Frame(width, height, rgb) ensures ShowsFrame(width, height, rgb) {
        PreviewIsNearestNeighbour(width, height, rgb);
      }
    } else {
      var white: seq<Byte> := seq(3 * (width * height), _ => 255);
      assert Frame(width, height, white);
      ThinTarget(height);
      LastPixelIsLost(width, height, white, 0);
      assert !ShowsFrame(width, height, white);
    }
  }

  /** One such size: a frame of 1 x 400 million pixels. */
  lemma ThinFramesMayOverflow()
    ensures FrameSize(1, 400_000_000) && exists rgb :: Frame(1, 400_000_000, rgb) && !ShowsFrame(1, 400_000_000, rgb)
  {
    PreviewIsTrueExactly(1, 400_000_000);
  }

  // ------------------------------------------------------------------
  // In numbers

  /** The largest even number up to n, but at least 2. */
  ghost predicate LargestEven(r: nat, n: nat) {
    r % 2 == 0 && if n < 2 then r == 2 else n - 1 <= r <= n
  }

  /** The preview is as wide as the frame up to 320, rounded down to an even number. */
  lemma WidthIsExact(width: U32)
    ensures LargestEven(TargetWidth(width), if width < 320 then width else 320)
  {
  }

  /** Its height keeps the aspect: k = floor(height * tw / width) as a 32-bit number, rounded down to an even one. */
  lemma HeightIsExact(width: U32, height: U32, tw: nat, k: nat)
    requires width >= 1 && height >= 1 && tw == TargetWidth(width) && k * width <= height * tw < (k + 1) * width
    ensures LargestEven(TargetHeight(width, height), k % TWO32)
  {
    Quotient(height * tw, width, k, height * tw - k * width);
    assert TargetHeight(width, height) == EvenDimension(Wrap32(if k < 1 then 1 else k));
  }

  lemma ScaledIsFloor(i: nat, size: nat, n: nat, k: nat)
    requires n > 0 && k * n <= i * size < (k + 1) * n
    ensures Scaled(i, size, n) == k
  {
    Quotient(i * size, n, k, i * size - k * n);
  }

  /** Any pixel (sx, sy) that is the floor of the scaled position is the one shown at (x, y). */
  lemma NearestPixelIsShown(
    width: U32, height: U32, rgb: seq<Byte>, x: nat, y: nat, c: nat, sx: nat, sy: nat, target: nat, source: nat)
    requires Frame(width, height, rgb) && HasRoom(width, height) && c < 3
    requires var tw, th := TargetWidth(width), TargetHeight(width, height);
             && x < tw && y < th
             && sx * tw <= x * width < (sx + 1) * tw && sy * th <= y * height < (sy + 1) * th
             && target == (y * tw + x) * 3 + c && source == (sy * width + sx) * 3 + c
    ensures target < |Previewed(width, height, rgb)| && source < |rgb| && Previewed(width, height, rgb)[target] == rgb[source]
  {
    var tw, th := TargetWidth(width), TargetHeight(width, height);
    PreviewIsNearestNeighbour(width, height, rgb);
    ScaledIsFloor(x, width, tw, sx);
    ScaledIsFloor(y, height, th, sy);
    assert ShowsSource(width, height, rgb, x, y, c);
  }
}
