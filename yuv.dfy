/** `convert_yuv420_to_rgb`: turns the three planes of a YUV 4:2:0 camera
    frame into 32-bit RGBA words, rotated by 90 degrees, with fixed-point
    colour conversion. */
module YuvConvert {
  import Arith

  /** An unsigned 8-bit plane sample. */
  newtype byte = x: int | 0 <= x < 256

  /** `clamp`: a value below `lower` becomes the literal 0 and one above
      `higher` the literal 255, whatever the bounds; a value within the
      bounds is kept. */
  function Clamp(lower: int, higher: int, val: int): (r: int)
    ensures lower <= val <= higher ==> r == val
    ensures val < lower ==> r == 0
    ensures lower <= val && higher < val ==> r == 255
    ensures lower == 0 && higher == 255 ==> 0 <= r <= 255
  {
    if val < lower then 0
    else if val > higher then 255
    else val
  }

  /** `getRotatedImageByteIndex`. */
  function RotatedIndex(x: int, y: int, rotatedImageWidth: int): int {
    rotatedImageWidth * (y + 1) - (x + 1)
  }

  /** Source pixel (x, y) lands in row x, column `height - 1 - y` of the
      rotated image, whose rows are `height` words long. */
  lemma RotatedIndexLayout(x: nat, y: nat, height: nat)
    requires y < height
    ensures RotatedIndex(y, x, height) == x * height + (height - 1 - y)
    ensures RotatedIndex(y, x, height) / height == x
    ensures RotatedIndex(y, x, height) % height == height - 1 - y
  {
    assert height * (x + 1) == x * height + height;
    Arith.DivLayout(x, height - 1 - y, height);
  }

  /** Over the loop domain the rotated index stays inside the image. */
  lemma RotatedIndexInRange(x: nat, y: nat, width: nat, height: nat)
    requires x < width && y < height
    ensures 0 <= RotatedIndex(y, x, height) < width * height
  {
    RotatedIndexLayout(x, y, height);
    Arith.MulMono(x + 1, width, height);
    assert (x + 1) * height == x * height + height;
  }

  /** Two source pixels never share an output word. */
  lemma RotatedIndexInjective(x1: nat, y1: nat, x2: nat, y2: nat, height: nat)
    requires y1 < height && y2 < height
    requires RotatedIndex(y1, x1, height) == RotatedIndex(y2, x2, height)
    ensures x1 == x2 && y1 == y2
  {
    RotatedIndexLayout(x1, y1, height);
    RotatedIndexLayout(x2, y2, height);
  }

  /** Every output word is written by exactly the source pixel
      `(p / height, height - 1 - p % height)`. */
  lemma RotatedIndexOnto(p: int, width: nat, height: nat)
    requires 0 <= p < width * height
    ensures height > 0 && 0 <= p / height < width
    ensures RotatedIndex(height - 1 - p % height, p / height, height) == p
  {
    var q, m := p / height, p % height;
    assert p == q * height + m;
    Arith.MulMono(width, q, height);
    RotatedIndexLayout(q, height - 1 - m, height);
  }

  /** `plane[i]`, as a total function; every read of the conversion is in
      range (`LumaInRange`, `ChromaInRange`). */
  function Sample(plane: seq<byte>, i: int): byte {
    if 0 <= i < |plane| then plane[i] else 0
  }

  function LumaIndex(x: int, y: int, width: int): int {
    y * width + x
  }

  /** The chroma planes hold one sample per 2 x 2 block. */
  function ChromaIndex(x: int, y: int, bytesPerPixel: int, bytesPerRow: int): int {
    bytesPerPixel * (x / 2) + bytesPerRow * (y / 2)
  }

  lemma LumaInRange(x: nat, y: nat, width: nat, height: nat)
    requires x < width && y < height
    ensures 0 <= LumaIndex(x, y, width) < width * height
  {
    Arith.MulMono(y + 1, height, width);
    assert (y + 1) * width == y * width + width;
  }

  /** A chroma index of the loop domain is at most the last pixel's. */
  lemma ChromaInRange(x: nat, y: nat, width: nat, height: nat, bytesPerPixel: nat, bytesPerRow: nat)
    requires x < width && y < height
    ensures 0 <= ChromaIndex(x, y, bytesPerPixel, bytesPerRow) <= ChromaIndex(width - 1, height - 1, bytesPerPixel, bytesPerRow)
  {
    Arith.MulMono(x / 2, (width - 1) / 2, bytesPerPixel);
    Arith.MulMono(y / 2, (height - 1) / 2, bytesPerRow);
  }

  /** The fixed-point channel formulas, clamped to a byte. The planes hold
      unsigned bytes, so every product is non-negative and C++'s truncating
      division is Dafny's. */
  function Red(yp: byte, vp: byte): (r: int)
    ensures 0 <= r <= 255
  {
    Clamp(0, 255, yp as int + vp as int * 1436 / 1024 - 179)
  }

  function Green(yp: byte, up: byte, vp: byte): (g: int)
    ensures 0 <= g <= 255
  {
    Clamp(0, 255, yp as int - up as int * 46549 / 131072 + 44 - vp as int * 93604 / 131072 + 91)
  }

  function Blue(yp: byte, up: byte): (b: int)
    ensures 0 <= b <= 255
  {
    Clamp(0, 255, yp as int + up as int * 1814 / 1024 - 227)
  }

  /** With neutral chroma (both chroma samples 128) the red channel is the
      luma itself, while the rounding of the fixed-point constants leaves
      green and blue one below it (never below 0). */
  lemma NeutralChroma(yp: byte)
    ensures Red(yp, 128) == yp as int
    ensures Green(yp, 128, 128) == if yp == 0 then 0 else yp as int - 1
    ensures Blue(yp, 128) == if yp == 0 then 0 else yp as int - 1
  {
    assert 128 * 1436 / 1024 == 179;
    assert 128 * 46549 / 131072 == 45;
    assert 128 * 93604 / 131072 == 91;
    assert 128 * 1814 / 1024 == 226;
  }

  /** A brighter luma sample never darkens any channel. */
  lemma ChannelsMonotoneInLuma(y1: byte, y2: byte, up: byte, vp: byte)
    requires y1 <= y2
    ensures Red(y1, vp) <= Red(y2, vp)
    ensures Green(y1, up, vp) <= Green(y2, up, vp)
    ensures Blue(y1, up) <= Blue(y2, up)
  {
  }

  /** The output word `(0xFF << 24) | (b << 16) | (g << 8) | r`. With every
      channel a byte the four fields do not overlap, so the OR is their sum. */
  function PackPixel(r: int, g: int, b: int): int {
    0xFF * 0x100_0000 + b * 0x1_0000 + g * 0x100 + r
  }

  /** A packed word fits 32 bits, and its bytes, from most to least
      significant, are 0xFF, b, g, r. */
  lemma UnpackPixel(r: int, g: int, b: int)
    requires 0 <= r < 256 && 0 <= g < 256 && 0 <= b < 256
    ensures 0 <= PackPixel(r, g, b) < 0x1_0000_0000
    ensures PackPixel(r, g, b) / 0x100_0000 == 0xFF
    ensures PackPixel(r, g, b) / 0x1_0000 % 0x100 == b
    ensures PackPixel(r, g, b) / 0x100 % 0x100 == g
    ensures PackPixel(r, g, b) % 0x100 == r
  {
    var w := PackPixel(r, g, b);
    assert w == ((0xFF * 0x100 + b) * 0x100 + g) * 0x100 + r;
  }

  /** The word for a luma and two chroma samples. */
  function Color(yp: byte, up: byte, vp: byte): (w: int)
    ensures 0 <= w < 0x1_0000_0000
  {
    UnpackPixel(Red(yp, vp), Green(yp, up, vp), Blue(yp, up));
    PackPixel(Red(yp, vp), Green(yp, up, vp), Blue(yp, up))
  }

  /** The word the conversion computes for source pixel (x, y). */
  function PixelAt(plane0: seq<byte>, plane1: seq<byte>, plane2: seq<byte>,
                   bytesPerRow: int, bytesPerPixel: int, width: int, x: int, y: int): int {
    var uvIndex := ChromaIndex(x, y, bytesPerPixel, bytesPerRow);
    Color(Sample(plane0, LumaIndex(x, y, width)), Sample(plane1, uvIndex), Sample(plane2, uvIndex))
  }

  /** The word at output position `p`: that of the one source pixel the
      rotation sends there. */
  function WordAt(plane0: seq<byte>, plane1: seq<byte>, plane2: seq<byte>,
                  bytesPerRow: int, bytesPerPixel: int, width: int, height: nat, p: int): int
    requires height > 0
  {
    PixelAt(plane0, plane1, plane2, bytesPerRow, bytesPerPixel, width, p / height, height - 1 - p % height)
  }

  /** The body of the conversion's inner loop: the sample indices of
      source pixel (x, y), its converted word and its rotated position. */
  method ConvertPixelAt(plane0: seq<byte>, plane1: seq<byte>, plane2: seq<byte>,
                        bytesPerRow: nat, bytesPerPixel: nat, width: nat, height: nat, x: nat, y: nat)
    returns (i: nat, word: int)
    requires x < width && y < height
    requires |plane0| >= width * height
    requires ChromaIndex(width - 1, height - 1, bytesPerPixel, bytesPerRow) < |plane1|
    requires ChromaIndex(width - 1, height - 1, bytesPerPixel, bytesPerRow) < |plane2|
    ensures i == x * height + (height - 1 - y)
    ensures word == WordAt(plane0, plane1, plane2, bytesPerRow, bytesPerPixel, width, height, i)
    ensures word == PixelAt(plane0, plane1, plane2, bytesPerRow, bytesPerPixel, width, x, y)
  {
    var uvIndex := bytesPerPixel * (x / 2) + bytesPerRow * (y / 2);
    var index := y * width + x;
    LumaInRange(x, y, width, height);
    ChromaInRange(x, y, width, height, bytesPerPixel, bytesPerRow);
    assert index == LumaIndex(x, y, width) && uvIndex == ChromaIndex(x, y, bytesPerPixel, bytesPerRow);
    word := Color(plane0[index], plane1[uvIndex], plane2[uvIndex]);
    assert word == PixelAt(plane0, plane1, plane2, bytesPerRow, bytesPerPixel, width, x, y);
    RotatedIndexLayout(x, y, height);
    i := RotatedIndex(y, x, height);
    assert i / height == x && height - 1 - i % height == y;
  }

  /** The inner loop of the conversion for source column `x`: it fills
      rotated row `x`, the words `[x * height, (x + 1) * height)`, with the
      words `want` expects there, and no other word. */
  method ConvertColumn(image: array<int>, plane0: seq<byte>, plane1: seq<byte>, plane2: seq<byte>,
                       bytesPerRow: nat, bytesPerPixel: nat, width: nat, height: nat, x: nat,
                       ghost want: seq<int>)
    requires x < width && image.Length == width * height
    requires |plane0| >= width * height
    requires height > 0 ==>
      ChromaIndex(width - 1, height - 1, bytesPerPixel, bytesPerRow) < |plane1| &&
      ChromaIndex(width - 1, height - 1, bytesPerPixel, bytesPerRow) < |plane2|
    requires |want| == image.Length
    requires forall p {:trigger WordAt(plane0, plane1, plane2, bytesPerRow, bytesPerPixel, width, height, p)} ::
      0 <= p < |want| ==>
      want[p] == WordAt(plane0, plane1, plane2, bytesPerRow, bytesPerPixel, width, height, p)
    modifies image
    ensures forall p :: 0 <= p < image.Length && !(x * height <= p < x * height + height) ==>
      image[p] == old(image[p])
    ensures forall p :: 0 <= p < image.Length && x * height <= p < x * height + height ==>
      image[p] == want[p]
  {
    var lo := x * height;
    var hi := lo + height;
    Arith.MulMono(x + 1, width, height);
    assert (x + 1) * height == hi;
    for y := 0 to height
      invariant forall p :: 0 <= p < image.Length && !(hi - y <= p < hi) ==> image[p] == old(image[p])
      invariant forall p :: hi - y <= p < hi ==> image[p] == want[p]
    {
      var i, word := ConvertPixelAt(plane0, plane1, plane2, bytesPerRow, bytesPerPixel, width, height, x, y);
      assert want[i] == word;
      image[i] := word;
    }
  }

  /** An image holding `WordAt` at every position holds, at each source
      pixel's rotated position, that pixel's converted word. */
  lemma RotatedWords(image: seq<int>, plane0: seq<byte>, plane1: seq<byte>, plane2: seq<byte>,
                     bytesPerRow: nat, bytesPerPixel: nat, width: nat, height: nat)
    requires |image| == width * height
    requires forall p :: 0 <= p < |image| && height > 0 ==>
      image[p] == WordAt(plane0, plane1, plane2, bytesPerRow, bytesPerPixel, width, height, p)
    ensures forall x, y :: 0 <= x < width && 0 <= y < height ==>
      0 <= RotatedIndex(y, x, height) < |image| &&
      image[RotatedIndex(y, x, height)] == PixelAt(plane0, plane1, plane2, bytesPerRow, bytesPerPixel, width, x, y)
  {
    forall x, y | 0 <= x < width && 0 <= y < height
      ensures 0 <= RotatedIndex(y, x, height) < |image|
      ensures image[RotatedIndex(y, x, height)] == PixelAt(plane0, plane1, plane2, bytesPerRow, bytesPerPixel, width, x, y)
    {
      RotatedIndexInRange(x, y, width, height);
      RotatedIndexLayout(x, y, height);
    }
  }

  /** `convert_yuv420_to_rgb`: each source pixel (x, y) is converted and
      written to its rotated position, and every output word is written. */
  method ConvertYuv420ToRgb(plane0: seq<byte>, plane1: seq<byte>, plane2: seq<byte>,
                            bytesPerRow: nat, bytesPerPixel: nat, width: nat, height: nat)
    returns (image: array<int>)
    requires |plane0| >= width * height
    requires width > 0 && height > 0 ==>
      ChromaIndex(width - 1, height - 1, bytesPerPixel, bytesPerRow) < |plane1| &&
      ChromaIndex(width - 1, height - 1, bytesPerPixel, bytesPerRow) < |plane2|
    ensures fresh(image) && image.Length == width * height
    ensures forall p :: 0 <= p < image.Length && height > 0 ==>
      image[p] == WordAt(plane0, plane1, plane2, bytesPerRow, bytesPerPixel, width, height, p)
    ensures forall x, y :: 0 <= x < width && 0 <= y < height ==>
      0 <= RotatedIndex(y, x, height) < image.Length &&
      image[RotatedIndex(y, x, height)] == PixelAt(plane0, plane1, plane2, bytesPerRow, bytesPerPixel, width, x, y)
  {
    image := new int[width * height];
    ghost var want := seq(width * height, p requires 0 <= p < width * height =>
      if height > 0 then WordAt(plane0, plane1, plane2, bytesPerRow, bytesPerPixel, width, height, p) else 0);
    assert width * height == 0 || height > 0;
    for x := 0 to width
      invariant x * height <= width * height
      invariant forall p :: 0 <= p < x * height ==> image[p] == want[p]
    {
      ConvertColumn(image, plane0, plane1, plane2, bytesPerRow, bytesPerPixel, width, height, x, want);
      Arith.MulMono(x + 1, width, height);
      assert (x + 1) * height == x * height + height;
    }
    RotatedWords(image[..], plane0, plane1, plane2, bytesPerRow, bytesPerPixel, width, height);
  }
}
