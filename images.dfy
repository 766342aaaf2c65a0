/**
 * The RGBA image buffer of src/image.rs: `width * 4 * height` bytes, row after row, four
 * bytes (red, green, blue, alpha) per pixel. `width`, `height` and the offset arithmetic
 * are u32 in the source, whose overflow panics in a debug build and wraps in a release
 * build; the model takes the absence of overflow as a precondition.
 */
module Images {
  import opened Arith
  import opened Colors

  /** A u8. */
  newtype Byte = b: int | 0 <= b < 256

  /** One more than the largest u32. */
  const U32Limit: int := 0x1_0000_0000

  /** f64::round: to the nearest integer, halves away from zero. */
  function Round(x: real): (n: int)
    ensures x - 0.5 <= n as real <= x + 0.5
    ensures 0.0 <= x ==> 0 <= n && x - 0.5 < n as real
    ensures x <= 0.0 ==> n <= 0 && n as real < x + 0.5
  {
    if x >= 0.0 then (x + 0.5).Floor else -((-x + 0.5).Floor)
  }

  /** The `as u8` cast from a float: values outside [0, 255] saturate. */
  function SaturateToByte(n: int): (b: Byte)
    ensures 0 <= n < 256 ==> b as int == n
    ensures n < 0 ==> b == 0
    ensures n >= 256 ==> b == 255
  {
    if n < 0 then 0 else if n > 255 then 255 else n as Byte
  }

  /** `(c * 255.).round() as u8`: one channel of a colour as a byte. */
  function Quantize(c: real): Byte {
    SaturateToByte(Round(c * 255.0))
  }

  /**
   * A channel in [0, 1] needs no saturation: its byte is `c * 255` rounded, within half a
   * step of the exact value.
   */
  lemma QuantizeUnit(c: real)
    requires 0.0 <= c <= 1.0
    ensures Quantize(c) as int == Round(c * 255.0)
    ensures c * 255.0 - 0.5 <= Quantize(c) as real <= c * 255.0 + 0.5
  {
    var n := Round(c * 255.0);
    assert n as real <= 255.5;
    assert n < 256;
  }

  /** The end points and the midpoint: 0 maps to 0, 1 to 255, and 1/2 (127.5) rounds up to 128. */
  lemma QuantizeExamples()
    ensures Quantize(0.0) == 0 && Quantize(1.0) == 255 && Quantize(0.5) == 128
  {
    assert Round(0.0) == 0;
    assert Round(255.0) == 255;
    assert Round(127.5) == 128;
  }

  /** The four bytes set_pixel stores: red, green, blue and alpha. */
  function PixelBytes(color: Color): (bytes: seq<Byte>)
    ensures |bytes| == 4
  {
    [Quantize(color.r), Quantize(color.g), Quantize(color.b), Quantize(color.a)]
  }

  /** The byte offset of pixel `(x, y)`: `y * width * 4 + x * 4`. */
  function PixelOffset(width: nat, x: nat, y: nat): nat {
    y * width * 4 + x * 4
  }

  /** A buffer with the four bytes at `pos` replaced. */
  function WritePixel(buffer: seq<Byte>, pos: nat, bytes: seq<Byte>): (r: seq<Byte>)
    requires pos + 4 <= |buffer| && |bytes| == 4
    ensures |r| == |buffer|
    ensures r[pos..pos + 4] == bytes
    ensures forall i :: 0 <= i < |buffer| && !(pos <= i < pos + 4) ==> r[i] == buffer[i]
  {
    buffer[..pos] + bytes + buffer[pos + 4..]
  }

  /** Every pixel of a `width` by `height` image lies wholly inside the buffer. */
  lemma PixelInBounds(width: nat, height: nat, x: nat, y: nat)
    requires x < width && y < height
    ensures PixelOffset(width, x, y) + 4 <= width * 4 * height
  {
    assert y * width + x + 1 <= y * width + width == (y + 1) * width;
    assert (y + 1) * width <= height * width by {
      MulMonotone(y + 1, height, width);
    }
    assert PixelOffset(width, x, y) + 4 == (y * width + x + 1) * 4;
  }

  /** Each row starts at least `width` pixels after the one before it. */
  lemma RowGap(width: nat, y1: nat, y2: nat)
    requires y1 < y2
    ensures y1 * width + width <= y2 * width
  {
    MulMonotone(y1 + 1, y2, width);
    assert (y1 + 1) * width == y1 * width + width;
  }

  /** Distinct pixels of an image `width` pixels wide occupy disjoint four-byte ranges. */
  lemma PixelsDisjoint(width: nat, x1: nat, y1: nat, x2: nat, y2: nat)
    requires x1 < width && x2 < width
    requires (x1, y1) != (x2, y2)
    ensures PixelOffset(width, x1, y1) + 4 <= PixelOffset(width, x2, y2)
            || PixelOffset(width, x2, y2) + 4 <= PixelOffset(width, x1, y1)
  {
    if y1 < y2 {
      RowGap(width, y1, y2);
    } else if y2 < y1 {
      RowGap(width, y2, y1);
    }
  }

  /** Writes to disjoint pixels commute: the order of set_pixel calls on distinct pixels does not matter. */
  lemma WritesCommute(buffer: seq<Byte>, pos1: nat, bytes1: seq<Byte>, pos2: nat, bytes2: seq<Byte>)
    requires pos1 + 4 <= |buffer| && pos2 + 4 <= |buffer| && |bytes1| == 4 && |bytes2| == 4
    requires pos1 + 4 <= pos2 || pos2 + 4 <= pos1
    ensures WritePixel(WritePixel(buffer, pos1, bytes1), pos2, bytes2)
            == WritePixel(WritePixel(buffer, pos2, bytes2), pos1, bytes1)
  {
    var a := WritePixel(WritePixel(buffer, pos1, bytes1), pos2, bytes2);
    var b := WritePixel(WritePixel(buffer, pos2, bytes2), pos1, bytes1);
    forall i | 0 <= i < |buffer|
      ensures a[i] == b[i]
    {
      if pos1 <= i < pos1 + 4 {
        assert a[i] == WritePixel(buffer, pos1, bytes1)[i] == bytes1[i - pos1];
        assert b[i] == bytes1[i - pos1];
      } else if pos2 <= i < pos2 + 4 {
        assert a[i] == bytes2[i - pos2];
        assert b[i] == WritePixel(buffer, pos2, bytes2)[i] == bytes2[i - pos2];
      }
    }
  }

  /** Image: a byte buffer with its dimensions in pixels. */
  class Image {
    var buffer: array<Byte>
    var width: nat
    var height: nat

    /** The buffer holds exactly four bytes per pixel, and its length fits in a u32. */
    ghost predicate Valid()
      reads this
    {
      buffer.Length == width * 4 * height && width * 4 * height < U32Limit
    }

    /** Image::new: a zero-filled buffer of `width * 4 * height` bytes. */
    constructor (width: nat, height: nat)
      requires width * 4 < U32Limit && height < U32Limit && width * 4 * height < U32Limit
      ensures Valid()
      ensures this.width == width && this.height == height
      ensures fresh(buffer)
      ensures forall i :: 0 <= i < buffer.Length ==> buffer[i] == 0
    {
      this.width := width;
      this.height := height;
      buffer := new Byte[width * 4 * height](_ => 0);
    }

    /**
     * Image::set_pixel: the four bytes of `color` at `y * width * 4 + x * 4`, every other
     * byte, the buffer's length and the dimensions unchanged. The source indexes the buffer
     * without checking `x` and `y`, so the only demand is that the four bytes are in range.
     */
    method SetPixel(x: nat, y: nat, color: Color)
      requires Valid()
      requires PixelOffset(width, x, y) + 4 <= buffer.Length
      modifies buffer
      ensures Valid()
      ensures buffer[..] == WritePixel(old(buffer[..]), PixelOffset(width, x, y), PixelBytes(color))
      ensures buffer[PixelOffset(width, x, y)] == Quantize(color.r)
      ensures buffer[PixelOffset(width, x, y) + 1] == Quantize(color.g)
      ensures buffer[PixelOffset(width, x, y) + 2] == Quantize(color.b)
      ensures buffer[PixelOffset(width, x, y) + 3] == Quantize(color.a)
      ensures forall i :: 0 <= i < buffer.Length && !(PixelOffset(width, x, y) <= i < PixelOffset(width, x, y) + 4)
                          ==> buffer[i] == old(buffer[i])
    {
      var pos := y * width * 4 + x * 4;
      buffer[pos] := Quantize(color.r);
      buffer[pos + 1] := Quantize(color.g);
      buffer[pos + 2] := Quantize(color.b);
      buffer[pos + 3] := Quantize(color.a);
      assert buffer[..] == WritePixel(old(buffer[..]), pos, PixelBytes(color));
    }
  }
}
