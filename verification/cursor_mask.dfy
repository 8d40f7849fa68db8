/** capturer/picture_capturer_dxgi.cc, ProcessMonoMask: clipping the mouse pointer to the
    desktop and drawing it over the pixels below. */
module CursorMask {

  type Pixel = bv32

  // ----- clipping, one axis at a time -----

  /** The lines for one axis: how much of a shape of `extent` at `given` is drawn. */
  function ClippedExtent(given: int, extent: int, desktop: int): int {
    if given < 0 then given + extent
    else if given + extent > desktop then desktop - given
    else extent
  }

  function ClippedOrigin(given: int): int {
    if given < 0 then 0 else given
  }

  /** How much of the shape is cut off in front. */
  function Skipped(given: int): nat {
    if given < 0 then -1 * given else 0
  }

  /** The shape sticks out of the desktop on both sides. */
  predicate Straddles(given: int, extent: int, desktop: int) {
    given < 0 && given + extent > desktop
  }

  function Max(a: int, b: int): int {
    if a < b then b else a
  }

  function Min(a: int, b: int): int {
    if a < b then a else b
  }

  /** The clipped interval is the intersection with the desktop exactly unless the shape
      sticks out on both sides. */
  lemma ClipIsIntersectionExactlyWhen(given: int, extent: int, desktop: int)
    ensures ClippedOrigin(given) == Max(given, 0)
    ensures ClippedOrigin(given) + ClippedExtent(given, extent, desktop) == Min(given + extent, desktop) <==>
            !Straddles(given, extent, desktop)
  {
  }

  /** For a shape no larger than the desktop that overlaps it, the result is never empty,
      stays on the desktop, and covers exactly the part of the shape not skipped. */
  lemma ClipStaysInside(given: int, extent: int, desktop: int)
    requires 0 < extent <= desktop && given < desktop && given + extent > 0
    ensures var e, o := ClippedExtent(given, extent, desktop), ClippedOrigin(given);
            0 < e && 0 <= o && o + e <= desktop && Skipped(given) + e <= extent && o - Skipped(given) == given
    ensures !Straddles(given, extent, desktop)
  {
  }

  // ----- one pixel -----

  /** The mask that selects bit 7 - k % 8. */
  function MaskFor(k: nat): bv8 {
    match k % 8
    case 0 => 0x80
    case 1 => 0x40
    case 2 => 0x20
    case 3 => 0x10
    case 4 => 0x08
    case 5 => 0x04
    case 6 => 0x02
    case _ => 0x01
  }

  /** Bit 7 - k % 8 of a byte: the top bit is the leftmost pixel. */
  predicate BitSet(b: bv8, k: nat) {
    (b >> (7 - k % 8)) & 1 == 1
  }

  lemma LeftmostIsTopBit(b: bv8)
    ensures BitSet(b, 0) <==> b >= 0x80
    ensures BitSet(b, 7) <==> b & 1 == 1
  {
  }

  function MonoPixel(desktop: Pixel, andBit: bool, xorBit: bool): Pixel {
    (desktop & (if andBit then 0xFFFF_FFFF else 0xFF00_0000)) ^ (if xorBit then 0x00FF_FFFF else 0)
  }

  function ColorPixel(desktop: Pixel, shape: Pixel): Pixel {
    if shape & 0xFF00_0000 != 0 then (desktop ^ shape) | 0xFF00_0000 else shape | 0xFF00_0000
  }

  /** The mask moves one bit to the right and starts over. */
  function Rotated(mask: bv8): bv8 {
    if mask == 0x01 then 0x80 else mask >> 1
  }

  lemma MaskRotates(k: nat)
    ensures Rotated(MaskFor(k)) == MaskFor(k + 1)
  {
    var d := k / 8;
    assert k == 8 * d + k % 8;
    if k % 8 == 7 {
      assert k + 1 == 8 * (d + 1);
    } else {
      assert k + 1 == 8 * d + (k % 8 + 1);
    }
  }

  lemma FirstMask(k: nat)
    ensures (0x80 as bv8) >> (k % 8) == MaskFor(k)
  {
  }

  /** Testing with the mask reads the bit. */
  lemma MaskReadsBit(b: bv8, k: nat)
    ensures b & MaskFor(k) != 0 <==> BitSet(b, k)
  {
  }

  // ----- the whole rectangle -----

  /** pointer_info_: where the shape is and how it is stored. */
  datatype Pointer = Pointer(x: int, y: int, width: nat, height: nat, pitch: nat)

  /** A rectangle of the desktop. */
  datatype Area = Area(x: int, y: int, width: int, height: int)

  /** Rows of the shape: a monochrome one stores its two masks one below the other. */
  function Rows(p: Pointer, isMono: bool): nat {
    if isMono then p.height / 2 else p.height
  }

  function Clipped(p: Pointer, isMono: bool, desktopWidth: nat, desktopHeight: nat): Area {
    Area(ClippedOrigin(p.x), ClippedOrigin(p.y),
         ClippedExtent(p.x, p.width, desktopWidth), ClippedExtent(p.y, Rows(p, isMono), desktopHeight))
  }

  /** The shape is not empty, no larger than the desktop, and overlaps it. */
  predicate Overlaps(p: Pointer, isMono: bool, desktopWidth: nat, desktopHeight: nat) {
    && 0 < p.width <= desktopWidth && p.x < desktopWidth && p.x + p.width > 0
    && 0 < Rows(p, isMono) <= desktopHeight && p.y < desktopHeight && p.y + Rows(p, isMono) > 0
  }

  predicate InShape(p: Pointer, isMono: bool, x: int, y: int) {
    p.x <= x < p.x + p.width && p.y <= y < p.y + Rows(p, isMono)
  }

  predicate InArea(a: Area, x: int, y: int) {
    a.x <= x < a.x + a.width && a.y <= y < a.y + a.height
  }

  /** The rectangle is the set of the shape's pixels that are on the desktop. */
  lemma RectangleIsIntersection(p: Pointer, isMono: bool, desktopWidth: nat, desktopHeight: nat, x: int, y: int)
    requires Overlaps(p, isMono, desktopWidth, desktopHeight)
    ensures InArea(Clipped(p, isMono, desktopWidth, desktopHeight), x, y) <==>
            InShape(p, isMono, x, y) && 0 <= x < desktopWidth && 0 <= y < desktopHeight
  {
    ClipStaysInside(p.x, p.width, desktopWidth);
    ClipStaysInside(p.y, Rows(p, isMono), desktopHeight);
    ClipIsIntersectionExactlyWhen(p.x, p.width, desktopWidth);
    ClipIsIntersectionExactlyWhen(p.y, Rows(p, isMono), desktopHeight);
  }

  // ----- the picture, row by row -----

  /** Where pixel (row, col) of a picture with rows of `width` is stored. */
  function At(width: nat, row: nat, col: nat): nat {
    width * row + col
  }

  lemma AtBounds(width: nat, height: nat, row: nat, col: nat)
    requires row < height && col < width
    ensures At(width, row, 0) + width == At(width, row + 1, 0)
    ensures At(width, row, col) < At(width, height, 0)
  {
    assert width * (row + 1) == width * row + width;
    assert width * (row + 1) <= width * height;
  }

  lemma AtStart(width: nat)
    ensures At(width, 0, 0) == 0
  {
  }

  lemma AtGrows(width: nat, row: nat, height: nat)
    requires row <= height
    ensures At(width, row, 0) <= At(width, height, 0)
  {
    if row < height {
      assert width * row <= width * height;
    }
  }

  lemma AtAdds(width: nat, row: nat, col: nat)
    ensures At(width, row, col) == At(width, row, 0) + col
  {
  }

  lemma NextRow(width: nat, row: nat)
    ensures At(width, row + 1, 0) == At(width, row, 0) + width
  {
    assert width * (row + 1) == width * row + width;
  }

  lemma RowStarts(pixel: (nat, nat) -> Pixel, row: nat)
    ensures RowOf(pixel, row, 0) == []
  {
  }

  lemma RowGrows(pixel: (nat, nat) -> Pixel, row: nat, col: nat)
    ensures RowOf(pixel, row, col + 1) == RowOf(pixel, row, col) + [pixel(row, col)]
  {
  }

  lemma PictureGrows(pixel: (nat, nat) -> Pixel, width: nat, row: nat)
    ensures PictureOf(pixel, width, 0) == []
    ensures PictureOf(pixel, width, row + 1) == PictureOf(pixel, width, row) + RowOf(pixel, row, width)
  {
  }

  /** The first `col` pixels of a row, and the first `row` rows, of what `pixel` draws. */
  ghost function RowOf(pixel: (nat, nat) -> Pixel, row: nat, col: nat): (s: seq<Pixel>)
    ensures |s| == col
  {
    if col == 0 then [] else RowOf(pixel, row, col - 1) + [pixel(row, col - 1)]
  }

  ghost function PictureOf(pixel: (nat, nat) -> Pixel, width: nat, row: nat): (s: seq<Pixel>)
    ensures |s| == At(width, row, 0)
  {
    if row == 0 then []
    else
      assert width * row == width * (row - 1) + width;
      PictureOf(pixel, width, row - 1) + RowOf(pixel, row - 1, width)
  }

  lemma {:induction false} RowOfAt(pixel: (nat, nat) -> Pixel, row: nat, n: nat, col: nat)
    requires col < n
    ensures RowOf(pixel, row, n)[col] == pixel(row, col)
  {
    if col < n - 1 {
      RowOfAt(pixel, row, n - 1, col);
    }
  }

  lemma {:induction false} PictureOfAt(pixel: (nat, nat) -> Pixel, width: nat, height: nat, row: nat, col: nat)
    requires row < height && col < width
    ensures At(width, row, col) < At(width, height, 0)
    ensures PictureOf(pixel, width, height)[At(width, row, col)] == pixel(row, col)
  {
    AtBounds(width, height, row, col);
    if row == height - 1 {
      RowOfAt(pixel, row, width, col);
    } else {
      PictureOfAt(pixel, width, height - 1, row, col);
    }
  }

  // ----- what is drawn -----

  /** The mapped copy of the desktop below the shape: its pixels and the row distance. */
  datatype Desktop = Desktop(pixels: seq<Pixel>, pitch: nat)

  predicate Covers(d: Desktop, width: nat, height: nat) {
    width <= d.pitch && At(d.pitch, height, 0) <= |d.pixels|
  }

  predicate MonoBuffered(p: Pointer, buffer: seq<bv8>) {
    p.width <= 8 * p.pitch && At(p.pitch, p.height, 0) <= |buffer|
  }

  /** A colour shape, read as 32-bit words. */
  predicate ColorBuffered(p: Pointer, buffer: seq<Pixel>) {
    p.width <= p.pitch / 4 && At(p.pitch / 4, p.height, 0) <= |buffer|
  }

  function ByteAt(buffer: seq<bv8>, i: nat): bv8 {
    if i < |buffer| then buffer[i] else 0
  }

  function WordAt(buffer: seq<Pixel>, i: nat): Pixel {
    if i < |buffer| then buffer[i] else 0
  }

  /** The pixel at (row, col) of the clipped rectangle for a monochrome shape: bit
      7 - (col + skip_x) % 8 of the AND mask and of the XOR mask below it. */
  function MonoAt(p: Pointer, buffer: seq<bv8>, d: Desktop, row: nat, col: nat): Pixel {
    var k, r := col + Skipped(p.x), row + Skipped(p.y);
    MonoPixel(WordAt(d.pixels, At(d.pitch, row, col)),
              BitSet(ByteAt(buffer, At(p.pitch, r, k / 8)), k),
              BitSet(ByteAt(buffer, At(p.pitch, r + p.height / 2, k / 8)), k))
  }

  function ColorAt(p: Pointer, buffer: seq<Pixel>, d: Desktop, row: nat, col: nat): Pixel {
    ColorPixel(WordAt(d.pixels, At(d.pitch, row, col)),
               WordAt(buffer, At(p.pitch / 4, row + Skipped(p.y), col + Skipped(p.x))))
  }

  /** The two drawings as functions of the place. */
  ghost function MonoDrawing(p: Pointer, buffer: seq<bv8>, d: Desktop): (nat, nat) -> Pixel {
    (row: nat, col: nat) => MonoAt(p, buffer, d, row, col)
  }

  ghost function ColorDrawing(p: Pointer, buffer: seq<Pixel>, d: Desktop): (nat, nat) -> Pixel {
    (row: nat, col: nat) => ColorAt(p, buffer, d, row, col)
  }

  lemma MonoDrawingAt(p: Pointer, buffer: seq<bv8>, d: Desktop, row: nat, col: nat)
    ensures MonoDrawing(p, buffer, d)(row, col) == MonoAt(p, buffer, d, row, col)
  {
  }

  lemma CellInBuffer(pitch: nat, rows: nat, length: nat, row: nat, cell: nat)
    requires row < rows && cell < pitch && At(pitch, rows, 0) <= length
    ensures At(pitch, row, cell) < length
  {
    AtBounds(pitch, rows, row, cell);
  }

  lemma MonoCells(p: Pointer, buffer: seq<bv8>, row: nat, col: nat)
    requires MonoBuffered(p, buffer) && row + Skipped(p.y) < p.height / 2 && col + Skipped(p.x) < p.width
    ensures At(p.pitch, row + Skipped(p.y), (col + Skipped(p.x)) / 8) < |buffer|
    ensures At(p.pitch, row + Skipped(p.y) + p.height / 2, (col + Skipped(p.x)) / 8) < |buffer|
  {
    var cell := (col + Skipped(p.x)) / 8;
    CellInBuffer(p.pitch, p.height, |buffer|, row + Skipped(p.y), cell);
    CellInBuffer(p.pitch, p.height, |buffer|, row + Skipped(p.y) + p.height / 2, cell);
  }

  lemma Appended(s: seq<Pixel>, n: nat, picture: seq<Pixel>, row: seq<Pixel>, value: Pixel)
    requires n < |s| && s[..n] == picture + row && s[n] == value
    ensures s[..n + 1] == picture + (row + [value])
  {
  }

  /** The masks of one bit, widened over the colour and applied. */
  method MixMono(desktop: Pixel, andByte: bv8, xorByte: bv8, mask: bv8, ghost k: nat) returns (value: Pixel)
    requires mask == MaskFor(k)
    ensures value == MonoPixel(desktop, BitSet(andByte, k), BitSet(xorByte, k))
  {
    var andMask, xorMask := andByte & mask, xorByte & mask;
    MaskReadsBit(andByte, k);
    MaskReadsBit(xorByte, k);
    hide BitSet, MaskFor;
    value := Widened(desktop, andMask != 0, xorMask != 0);
  }

  /** and_mask32 and xor_mask32: the AND bit keeps the colour of the desktop or clears it,
      the XOR bit turns it over; the alpha byte stays. */
  lemma MonoPixelParts(desktop: Pixel, andBit: bool, xorBit: bool)
    ensures MonoPixel(desktop, andBit, xorBit) & 0xFF00_0000 == desktop & 0xFF00_0000
    ensures MonoPixel(desktop, andBit, xorBit) & 0x00FF_FFFF ==
            if andBit then (if xorBit then !desktop & 0x00FF_FFFF else desktop & 0x00FF_FFFF)
            else if xorBit then 0x00FF_FFFF else 0
  {
  }

  method Widened(desktop: Pixel, andMask: bool, xorMask: bool) returns (value: Pixel)
    ensures value == MonoPixel(desktop, andMask, xorMask)
  {
    var andMask32: bv32 := if andMask then 0xFFFF_FFFF else 0xFF00_0000;
    var xorMask32: bv32 := if xorMask then 0x00FF_FFFF else 0;
    value := (desktop & andMask32) ^ xorMask32;
  }

  /** The result is opaque; its colour is the shape's where the shape's alpha byte is 0,
      and otherwise the desktop's turned over by the shape's. */
  lemma ColorPixelParts(desktop: Pixel, word: Pixel)
    ensures ColorPixel(desktop, word) & 0xFF00_0000 == 0xFF00_0000
    ensures word & 0xFF00_0000 == 0 ==> ColorPixel(desktop, word) & 0x00FF_FFFF == word & 0x00FF_FFFF
    ensures word & 0xFF00_0000 != 0 ==> ColorPixel(desktop, word) & 0x00FF_FFFF == (desktop ^ word) & 0x00FF_FFFF
  {
  }

  method MixColor(desktop: Pixel, word: Pixel) returns (value: Pixel)
    ensures value & 0xFF00_0000 == 0xFF00_0000
    ensures word & 0xFF00_0000 == 0 ==> value & 0x00FF_FFFF == word & 0x00FF_FFFF
    ensures word & 0xFF00_0000 != 0 ==> value & 0x00FF_FFFF == (desktop ^ word) & 0x00FF_FFFF
    ensures value == ColorPixel(desktop, word)
  {
    hide ColorPixel;
    ColorPixelParts(desktop, word);
    value := Replaced(desktop, word);
  }

  /** The two branches for a colour shape. */
  method Replaced(desktop: Pixel, word: Pixel) returns (value: Pixel)
    ensures value == ColorPixel(desktop, word)
  {
    var maskVal := 0xFF00_0000 & word;
    if maskVal != 0 {
      value := (desktop ^ word) | 0xFF00_0000;
    } else {
      value := word | 0xFF00_0000;
    }
  }

  /** Where the shape inverts, drawing it a second time gives the desktop's colour back. */
  lemma InvertingTwiceRestores(desktop: Pixel, word: Pixel)
    requires word & 0xFF00_0000 != 0
    ensures ColorPixel(ColorPixel(desktop, word), word) & 0x00FF_FFFF == desktop & 0x00FF_FFFF
    ensures MonoPixel(MonoPixel(desktop, true, true), true, true) == desktop
  {
  }

  class PictureCapturer {
    var pointer: Pointer

    constructor (p: Pointer)
      ensures pointer == p
    {
      pointer := p;
    }

    /** The out-parameters of ProcessMonoMask.  Halving and doubling the height drops the
        odd row of a monochrome shape for good. */
    method Clip(isMono: bool, desktopWidth: nat, desktopHeight: nat) returns (area: Area)
      modifies this
      ensures area == Clipped(old(pointer), isMono, desktopWidth, desktopHeight)
      ensures pointer == old(pointer).(height := if isMono then old(pointer.height) / 2 * 2 else old(pointer.height))
      ensures pointer == old(pointer) <==> !isMono || old(pointer.height) % 2 == 0
    {
      var givenX, givenY := pointer.x, pointer.y;
      var shapeWidth, shapeHeight: int;
      if givenX < 0 {
        shapeWidth := givenX + pointer.width;
      } else if givenX + pointer.width > desktopWidth {
        shapeWidth := desktopWidth - givenX;
      } else {
        shapeWidth := pointer.width;
      }
      if isMono {
        pointer := pointer.(height := pointer.height / 2);
      }
      if givenY < 0 {
        shapeHeight := givenY + pointer.height;
      } else if givenY + pointer.height > desktopHeight {
        shapeHeight := desktopHeight - givenY;
      } else {
        shapeHeight := pointer.height;
      }
      if isMono {
        pointer := pointer.(height := pointer.height * 2);
      }
      area := Area(if givenX < 0 then 0 else givenX, if givenY < 0 then 0 else givenY, shapeWidth, shapeHeight);
    }

    /** One pixel of the monochrome loop: the bytes under the mask, widened. */
    method ReadMonoPixel(buffer: seq<bv8>, d: Desktop, row: nat, col: nat, mask: bv8) returns (value: Pixel)
      requires MonoBuffered(pointer, buffer) && row + Skipped(pointer.y) < pointer.height / 2
      requires col + Skipped(pointer.x) < pointer.width && mask == MaskFor(col + Skipped(pointer.x))
      requires At(d.pitch, row, col) < |d.pixels|
      ensures value == MonoAt(pointer, buffer, d, row, col)
    {
      hide BitSet, MaskFor, MonoPixel, At;
      var skipX, skipY := Skipped(pointer.x), Skipped(pointer.y);
      MonoCells(pointer, buffer, row, col);
      var andIdx := At(pointer.pitch, row + skipY, (col + skipX) / 8);
      var xorIdx := At(pointer.pitch, row + skipY + pointer.height / 2, (col + skipX) / 8);
      value := MixMono(d.pixels[At(d.pitch, row, col)], buffer[andIdx], buffer[xorIdx], mask, col + skipX);
    }

    /** The monochrome loop, with its rotating mask. */
    method DrawMono(width: nat, height: nat, buffer: seq<bv8>, d: Desktop) returns (image: array<Pixel>)
      requires MonoBuffered(pointer, buffer) && Covers(d, width, height)
      requires width + Skipped(pointer.x) <= pointer.width && height + Skipped(pointer.y) <= pointer.height / 2
      ensures image[..] == PictureOf(MonoDrawing(pointer, buffer, d), width, height)
    {
      hide MonoAt, MonoDrawing, MaskFor, At, PictureOf, RowOf;
      image := new Pixel[At(width, height, 0)];
      var skipX, skipY := Skipped(pointer.x), Skipped(pointer.y);
      ghost var pixel := MonoDrawing(pointer, buffer, d);
      var row := 0;
      AtStart(width);
      AtGrows(width, 0, height);
      PictureGrows(pixel, width, 0);
      while row < height
        invariant 0 <= row <= height && At(width, row, 0) <= image.Length
        invariant image[..At(width, row, 0)] == PictureOf(pixel, width, row)
      {
        var mask: bv8 := 0x80;
        mask := mask >> (skipX % 8);
        FirstMask(skipX);
        RowStarts(pixel, row);
        var col := 0;
        while col < width
          invariant 0 <= col <= width && At(width, row, 0) + col <= image.Length
          invariant mask == MaskFor(col + skipX)
          invariant image[..At(width, row, 0) + col] == PictureOf(pixel, width, row) + RowOf(pixel, row, col)
        {
          AtBounds(width, height, row, col);
          AtAdds(width, row, col);
          CellInBuffer(d.pitch, height, |d.pixels|, row, col);
          MonoDrawingAt(pointer, buffer, d, row, col);
          var value := ReadMonoPixel(buffer, d, row, col, mask);
          image[At(width, row, col)] := value;
          RowGrows(pixel, row, col);
          Appended(image[..], At(width, row, 0) + col, PictureOf(pixel, width, row), RowOf(pixel, row, col), value);
          MaskRotates(col + skipX);
          if mask == 0x01 {
            mask := 0x80;
          } else {
            mask := mask >> 1;
          }
          col := col + 1;
        }
        AtGrows(width, row + 1, height);
        NextRow(width, row);
        PictureGrows(pixel, width, row);
        row := row + 1;
      }
    }

    /** The loop for colour shapes with a mask in the alpha byte. */
    method DrawColor(width: nat, height: nat, buffer: seq<Pixel>, d: Desktop) returns (image: array<Pixel>)
      requires ColorBuffered(pointer, buffer) && Covers(d, width, height)
      requires width + Skipped(pointer.x) <= pointer.width && height + Skipped(pointer.y) <= pointer.height
      ensures image[..] == PictureOf(ColorDrawing(pointer, buffer, d), width, height)
    {
      hide ColorAt, ColorDrawing, At, PictureOf, RowOf;
      image := new Pixel[At(width, height, 0)];
      ghost var pixel := ColorDrawing(pointer, buffer, d);
      var row := 0;
      AtStart(width);
      AtGrows(width, 0, height);
      PictureGrows(pixel, width, 0);
      while row < height
        invariant 0 <= row <= height && At(width, row, 0) <= image.Length
        invariant image[..At(width, row, 0)] == PictureOf(pixel, width, row)
      {
        RowStarts(pixel, row);
        var col := 0;
        while col < width
          invariant 0 <= col <= width && At(width, row, 0) + col <= image.Length
          invariant image[..At(width, row, 0) + col] == PictureOf(pixel, width, row) + RowOf(pixel, row, col)
        {
          AtBounds(width, height, row, col);
          AtAdds(width, row, col);
          CellInBuffer(d.pitch, height, |d.pixels|, row, col);
          ColorDrawingAt(pointer, buffer, d, row, col);
          var value := ReadColorPixel(buffer, d, row, col);
          image[At(width, row, col)] := value;
          RowGrows(pixel, row, col);
          Appended(image[..], At(width, row, 0) + col, PictureOf(pixel, width, row), RowOf(pixel, row, col), value);
          col := col + 1;
        }
        AtGrows(width, row + 1, height);
        NextRow(width, row);
        PictureGrows(pixel, width, row);
        row := row + 1;
      }
    }

    method ReadColorPixel(buffer: seq<Pixel>, d: Desktop, row: nat, col: nat) returns (value: Pixel)
      requires ColorBuffered(pointer, buffer) && row + Skipped(pointer.y) < pointer.height
      requires col + Skipped(pointer.x) < pointer.width && At(d.pitch, row, col) < |d.pixels|
      ensures value == ColorAt(pointer, buffer, d, row, col)
    {
      hide At, ColorPixel;
      var skipX, skipY := Skipped(pointer.x), Skipped(pointer.y);
      CellInBuffer(pointer.pitch / 4, pointer.height, |buffer|, row + skipY, col + skipX);
      var word := buffer[At(pointer.pitch / 4, row + skipY, col + skipX)];
      value := MixColor(d.pixels[At(d.pitch, row, col)], word);
    }
  }

  lemma ColorDrawingAt(p: Pointer, buffer: seq<Pixel>, d: Desktop, row: nat, col: nat)
    ensures ColorDrawing(p, buffer, d)(row, col) == ColorAt(p, buffer, d, row, col)
  {
  }

  // ----- the drawing in desktop coordinates -----

  /** The mapped copy holds the desktop's pixels of the rectangle. */
  ghost predicate Copies(d: Desktop, a: Area, screen: (int, int) -> Pixel) {
    forall row: nat, col: nat :: row < a.height && col < a.width ==>
      WordAt(d.pixels, At(d.pitch, row, col)) == screen(a.x + col, a.y + row)
  }

  /** A bit of a monochrome mask at the shape's own coordinates; the rows of the XOR
      mask come after those of the AND mask. */
  predicate ShapeBit(buffer: seq<bv8>, pitch: nat, sx: nat, sy: nat) {
    BitSet(ByteAt(buffer, At(pitch, sy, sx / 8)), sx)
  }

  /** A clipped rectangle is one that the loops can draw. */
  lemma ClippedCanBeDrawn(p: Pointer, isMono: bool, desktopWidth: nat, desktopHeight: nat)
    requires Overlaps(p, isMono, desktopWidth, desktopHeight)
    ensures var a := Clipped(p, isMono, desktopWidth, desktopHeight);
            a.width > 0 && a.height > 0 && a.x >= 0 && a.y >= 0 &&
            a.width + Skipped(p.x) <= p.width && a.height + Skipped(p.y) <= Rows(p, isMono) &&
            a.x - Skipped(p.x) == p.x && a.y - Skipped(p.y) == p.y
  {
    ClipStaysInside(p.x, p.width, desktopWidth);
    ClipStaysInside(p.y, Rows(p, isMono), desktopHeight);
  }

  /** Wherever the shape lies, each desktop pixel under it gets the bits of the masks at
      the same place of the shape. */
  lemma MonoDrawsTheShape(p: Pointer, buffer: seq<bv8>, d: Desktop, screen: (int, int) -> Pixel,
                          desktopWidth: nat, desktopHeight: nat, x: int, y: int)
    requires Overlaps(p, true, desktopWidth, desktopHeight)
    requires Copies(d, Clipped(p, true, desktopWidth, desktopHeight), screen)
    requires InArea(Clipped(p, true, desktopWidth, desktopHeight), x, y)
    ensures var a := Clipped(p, true, desktopWidth, desktopHeight);
            a.width >= 0 && a.height >= 0 && p.x <= x && p.y <= y && a.x <= x && a.y <= y &&
            At(a.width, y - a.y, x - a.x) < At(a.width, a.height, 0) &&
            PictureOf(MonoDrawing(p, buffer, d), a.width, a.height)[At(a.width, y - a.y, x - a.x)] ==
            MonoPixel(screen(x, y), ShapeBit(buffer, p.pitch, x - p.x, y - p.y),
                      ShapeBit(buffer, p.pitch, x - p.x, y - p.y + p.height / 2))
  {
    hide MonoPixel, BitSet, PictureOf, At, ByteAt, WordAt, ClippedExtent;
    var a := Clipped(p, true, desktopWidth, desktopHeight);
    ClippedCanBeDrawn(p, true, desktopWidth, desktopHeight);
    var row, col := y - a.y, x - a.x;
    PictureOfAt(MonoDrawing(p, buffer, d), a.width, a.height, row, col);
    MonoDrawingAt(p, buffer, d, row, col);
    assert WordAt(d.pixels, At(d.pitch, row, col)) == screen(a.x + col, a.y + row);
    assert col + Skipped(p.x) == x - p.x && row + Skipped(p.y) == y - p.y;
  }

  lemma ColorDrawsTheShape(p: Pointer, buffer: seq<Pixel>, d: Desktop, screen: (int, int) -> Pixel,
                           desktopWidth: nat, desktopHeight: nat, x: int, y: int)
    requires Overlaps(p, false, desktopWidth, desktopHeight)
    requires Copies(d, Clipped(p, false, desktopWidth, desktopHeight), screen)
    requires InArea(Clipped(p, false, desktopWidth, desktopHeight), x, y)
    ensures var a := Clipped(p, false, desktopWidth, desktopHeight);
            a.width >= 0 && a.height >= 0 && p.x <= x && p.y <= y && a.x <= x && a.y <= y &&
            At(a.width, y - a.y, x - a.x) < At(a.width, a.height, 0) &&
            PictureOf(ColorDrawing(p, buffer, d), a.width, a.height)[At(a.width, y - a.y, x - a.x)] ==
            ColorPixel(screen(x, y), WordAt(buffer, At(p.pitch / 4, y - p.y, x - p.x)))
  {
    hide ColorPixel, PictureOf, At, WordAt, ClippedExtent;
    var a := Clipped(p, false, desktopWidth, desktopHeight);
    ClippedCanBeDrawn(p, false, desktopWidth, desktopHeight);
    var row, col := y - a.y, x - a.x;
    PictureOfAt(ColorDrawing(p, buffer, d), a.width, a.height, row, col);
    ColorDrawingAt(p, buffer, d, row, col);
    assert WordAt(d.pixels, At(d.pitch, row, col)) == screen(a.x + col, a.y + row);
    assert col + Skipped(p.x) == x - p.x && row + Skipped(p.y) == y - p.y;
  }
}
