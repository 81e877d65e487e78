/** The GrayBit-7 (GB7) image format: a 12-byte header followed by one byte
    per pixel, whose low seven bits are a gray level and whose top bit is an
    optional mask bit.

    | offset | field    | value                      |
    |--------|----------|----------------------------|
    | 0-3    | magic    | 0x47 0x42 0x37 0x1D        |
    | 4      | version  | 1 (never checked on read)  |
    | 5      | flag     | bit 0 set: pixels carry a mask bit |
    | 6-7    | width    | big-endian u16             |
    | 8-9    | height   | big-endian u16             |
    | 10-11  | reserved | 0                          |
    | 12...  | pixels   | width * height bytes, row by row |

    `Decode` is the reader's validation and unpacking into RGBA samples;
    `Encode` is the writer's header and luminosity quantisation. */
module Gb7 {
  import opened JsNumber
  import opened Raster

  type Byte = b: int | 0 <= b < 256

  const Magic: seq<Byte> := [0x47, 0x42, 0x37, 0x1D]
  const HeaderSize: nat := 12
  const Version: Byte := 1

  // ---------------------------------------------------------------------------
  // Reading bytes the way the reader does

  /** `bytes[k] === v`: a read past the end is `undefined`, which equals no byte. */
  predicate ByteIs(bytes: seq<Byte>, k: nat, v: Byte) {
    k < |bytes| && bytes[k] == v
  }

  /** `bytes[k]` as a bitwise operator sees it: `undefined` becomes 0. */
  function BitsAt(bytes: seq<Byte>, k: nat): (b: Byte)
    ensures k < |bytes| ==> b == bytes[k]
  {
    if k < |bytes| then bytes[k] else 0
  }

  /** `(hi << 8) | lo`: a big-endian unsigned 16-bit field. */
  function BigEndian16(hi: Byte, lo: Byte): (v: nat)
    ensures v < 65536
    ensures v / 256 == hi && v % 256 == lo
  {
    hi as int * 256 + lo as int
  }

  /** `b & 0x7F`: the gray level held in a pixel byte. */
  function Low7(b: Byte): (g: int)
    ensures 0 <= g < 128
    ensures g + 128 * MaskBit(b) == b
  {
    b % 128
  }

  /** `(b >> 7) & 1`: the mask bit of a pixel byte. */
  function MaskBit(b: Byte): (m: int)
    ensures m == 0 || m == 1
    ensures m == 1 <==> b >= 128
  {
    b / 128
  }

  /** The arithmetic forms above are the source's bit operations on a byte. */
  lemma MaskingIsBitwise(v: bv8)
    ensures Low7(v as int) == (v & 0x7F) as int
    ensures MaskBit(v as int) == ((v >> 7) & 1) as int
  {
    assert v & 0x7F == v % 128;
    assert (v >> 7) & 1 == v / 128;
  }

  /** The byte of pixel `i`, which follows the header. */
  function PixelByte(bytes: seq<Byte>, i: nat): Byte
    requires HeaderSize + i < |bytes|
  {
    bytes[HeaderSize + i]
  }

  // ---------------------------------------------------------------------------
  // Header fields

  predicate HasMagic(bytes: seq<Byte>) {
    |bytes| >= 4 && bytes[..4] == Magic
  }

  /** The reader's four `bytes[k] !== magic[k]` tests all pass exactly when
      the file starts with the magic. */
  lemma MagicTest(bytes: seq<Byte>)
    ensures (ByteIs(bytes, 0, 0x47) && ByteIs(bytes, 1, 0x42)
             && ByteIs(bytes, 2, 0x37) && ByteIs(bytes, 3, 0x1D)) <==> HasMagic(bytes)
  {
    if HasMagic(bytes) {
      assert bytes[..4][0] == 0x47 && bytes[..4][1] == 0x42;
      assert bytes[..4][2] == 0x37 && bytes[..4][3] == 0x1D;
    }
    if ByteIs(bytes, 0, 0x47) && ByteIs(bytes, 1, 0x42)
       && ByteIs(bytes, 2, 0x37) && ByteIs(bytes, 3, 0x1D) {
      assert bytes[..4] == Magic;
    }
  }

  /** The header checks the reader makes: magic, and zero reserved bytes. */
  predicate HeaderOk(bytes: seq<Byte>) {
    && |bytes| >= HeaderSize
    && HasMagic(bytes)
    && bytes[10] == 0
    && bytes[11] == 0
  }

  function Width(bytes: seq<Byte>): (w: nat)
    ensures w < 65536
    ensures |bytes| >= HeaderSize ==> w == bytes[6] as int * 256 + bytes[7] as int
  {
    BigEndian16(BitsAt(bytes, 6), BitsAt(bytes, 7))
  }

  function Height(bytes: seq<Byte>): (h: nat)
    ensures h < 65536
    ensures |bytes| >= HeaderSize ==> h == bytes[8] as int * 256 + bytes[9] as int
  {
    BigEndian16(BitsAt(bytes, 8), BitsAt(bytes, 9))
  }

  /** `(flag & 0x01) === 1`. */
  predicate HasMask(bytes: seq<Byte>) {
    BitsAt(bytes, 5) % 2 == 1
  }

  // ---------------------------------------------------------------------------
  // Decoding

  /** What reading a file yields. `NotGb7` is the reader's `null`; `Rejected`
      is a zero width or height, for which creating the pixel buffer throws and
      the reader's promise is rejected rather than resolved. */
  datatype Outcome = NotGb7 | Rejected | Decoded(image: Image)

  /** `Math.round((gray7 / 127) * 255)`: a 7-bit gray level widened to 8 bits. */
  function GrayLevel(g7: int): (v: int)
    requires 0 <= g7 < 128
    ensures IsByte(v)
    ensures v as real - 0.5 <= g7 as real * 255.0 / 127.0 < v as real + 0.5
    ensures g7 == 0 ==> v == 0
    ensures g7 == 127 ==> v == 255
  {
    RoundHalfUp(g7 as real / 127.0 * 255.0)
  }

  /** Channel `c` of the pixel stored in byte `b`: gray in R, G and B; alpha
      255 unless the file has a mask and the byte's mask bit is clear. */
  function Expand(b: Byte, hasMask: bool, c: nat): (v: int)
    requires c < 4
    ensures IsByte(v)
    ensures c < 3 ==> v == GrayLevel(Low7(b))
    ensures c == 3 ==> (v == 255 <==> !hasMask || b >= 128)
    ensures c == 3 ==> (v == 0 <==> hasMask && b < 128)
  {
    var maskBit := if hasMask then MaskBit(b) else 1;
    if c < 3 then GrayLevel(Low7(b))
    else if maskBit != 0 then 255 else 0
  }

  /** The RGBA samples of the first `n` pixel bytes. */
  function Unpack(bytes: seq<Byte>, n: nat, hasMask: bool): (data: seq<int>)
    requires |bytes| >= HeaderSize + n
    ensures |data| == 4 * n
    ensures forall k | 0 <= k < |data| :: data[k] == Expand(PixelByte(bytes, k / 4), hasMask, k % 4)
  {
    seq(4 * n, k requires 0 <= k < 4 * n => Expand(PixelByte(bytes, k / 4), hasMask, k % 4))
  }

  /** The reader, in its order of checks: magic, reserved bytes, length. */
  function Decode(bytes: seq<Byte>): (r: Outcome)
    ensures !HasMagic(bytes) ==> r == NotGb7
    ensures |bytes| < HeaderSize ==> r == NotGb7
    ensures |bytes| >= HeaderSize && (bytes[10] != 0 || bytes[11] != 0) ==> r == NotGb7
    ensures |bytes| < HeaderSize + Width(bytes) * Height(bytes) ==> r == NotGb7
    ensures r.Rejected? <==>
              HeaderOk(bytes) && |bytes| >= HeaderSize + Width(bytes) * Height(bytes)
              && (Width(bytes) == 0 || Height(bytes) == 0)
    ensures r.Decoded? <==>
              HeaderOk(bytes) && |bytes| >= HeaderSize + Width(bytes) * Height(bytes)
              && Width(bytes) >= 1 && Height(bytes) >= 1
    ensures r.Decoded? ==>
              && Valid(r.image)
              && r.image.width == Width(bytes)
              && r.image.height == Height(bytes)
              && forall i, c | 0 <= i < Width(bytes) * Height(bytes) && 0 <= c < 4 ::
                   At(r.image, i, c) == Expand(PixelByte(bytes, i), HasMask(bytes), c)
  {
    MagicTest(bytes);
    if !ByteIs(bytes, 0, 0x47) || !ByteIs(bytes, 1, 0x42)
      || !ByteIs(bytes, 2, 0x37) || !ByteIs(bytes, 3, 0x1D)
    then NotGb7
    else
      var hasMask := HasMask(bytes);
      var width := Width(bytes);
      var height := Height(bytes);
      if !ByteIs(bytes, 10, 0) || !ByteIs(bytes, 11, 0) then NotGb7
      else if |bytes| < HeaderSize + width * height then NotGb7
      else if width == 0 || height == 0 then Rejected
      else
        var img := Image(width, height, Unpack(bytes, width * height, hasMask));
        UnpackedPixels(bytes, img, hasMask);
        Decoded(img)
  }

  lemma UnpackedPixels(bytes: seq<Byte>, img: Image, hasMask: bool)
    requires img.width >= 1 && img.height >= 1
    requires |bytes| >= HeaderSize + img.width * img.height
    requires img.data == Unpack(bytes, img.width * img.height, hasMask)
    ensures Valid(img)
    ensures forall i, c | 0 <= i < img.width * img.height && 0 <= c < 4 ::
              At(img, i, c) == Expand(PixelByte(bytes, i), hasMask, c)
  {
    forall i, c | 0 <= i < img.width * img.height && 0 <= c < 4
      ensures 4 * i + c < |img.data| && img.data[4 * i + c] == Expand(PixelByte(bytes, i), hasMask, c)
    {
      assert (4 * i + c) / 4 == i && (4 * i + c) % 4 == c;
    }
  }

  // ---------------------------------------------------------------------------
  // Encoding

  /** Luminosity grayscale `0.2126 R + 0.7152 G + 0.0722 B`. */
  function Luma(r: int, g: int, b: int): real {
    0.2126 * r as real + 0.7152 * g as real + 0.0722 * b as real
  }

  /** `Math.round((gray / 255) * 127)`: the 7-bit level written for a pixel. */
  function Quantise(r: int, g: int, b: int): (q: int)
    requires IsByte(r) && IsByte(g) && IsByte(b)
    ensures 0 <= q <= 127
    ensures q as real - 0.5 <= Luma(r, g, b) / 255.0 * 127.0 < q as real + 0.5
  {
    RoundHalfUp(Luma(r, g, b) / 255.0 * 127.0)
  }

  /** The 12 header bytes the writer emits for a `width` by `height` image. */
  function Header(width: nat, height: nat): (h: seq<Byte>)
    ensures |h| == HeaderSize
    ensures h[..4] == Magic && h[4] == Version && h[5] == 0
    ensures h[6] as int * 256 + h[7] as int == ToUint16(width)
    ensures h[8] as int * 256 + h[9] as int == ToUint16(height)
    ensures h[10] == 0 && h[11] == 0
  {
    var w := ToUint16(width);
    var ht := ToUint16(height);
    Magic + [Version, 0, w / 256, w % 256, ht / 256, ht % 256, 0, 0]
  }

  /** The writer: header, then one quantised byte per pixel; alpha is ignored
      and the mask bit is never set. */
  function Encode(img: Image): (bytes: seq<Byte>)
    requires Valid(img)
    ensures |bytes| == HeaderSize + img.width * img.height
    ensures bytes[..HeaderSize] == Header(img.width, img.height)
    ensures forall i | 0 <= i < img.width * img.height ::
              && PixelByte(bytes, i) < 128
              && PixelByte(bytes, i) == Quantise(At(img, i, 0), At(img, i, 1), At(img, i, 2))
  {
    var n := img.width * img.height;
    var pixels := seq(n, i requires 0 <= i < n =>
      ToUint8(Quantise(At(img, i, 0), At(img, i, 1), At(img, i, 2))) as Byte);
    var bytes := Header(img.width, img.height) + pixels;
    assert bytes[..HeaderSize] == Header(img.width, img.height);
    assert forall i | 0 <= i < n :: PixelByte(bytes, i) == pixels[i];
    bytes
  }

  // ---------------------------------------------------------------------------
  // Properties

  /** Widening a gray level and quantising it back returns the level. */
  lemma GrayRoundTrip(v: int)
    requires 0 <= v < 128
    ensures Quantise(GrayLevel(v), GrayLevel(v), GrayLevel(v)) == v
  {
    var g := GrayLevel(v);
    var x := Luma(g, g, g) / 255.0 * 127.0;
    assert Luma(g, g, g) == g as real;
    assert g as real - 0.5 <= v as real * 255.0 / 127.0 < g as real + 0.5;
    assert v as real - 127.0 / 510.0 < x <= v as real + 127.0 / 510.0;
    assert (x + 0.5).Floor == v;
  }

  /** The header the writer produces passes the reader's checks. */
  lemma HeaderReadsBack(width: nat, height: nat, pixels: seq<Byte>)
    requires width < 65536 && height < 65536
    ensures var bytes := Header(width, height) + pixels;
      && HeaderOk(bytes)
      && Width(bytes) == width && Height(bytes) == height
      && !HasMask(bytes)
  {
    var bytes := Header(width, height) + pixels;
    assert bytes[..HeaderSize] == Header(width, height);
    assert bytes[..4] == Header(width, height)[..4];
  }

  /** Reading what the writer wrote always succeeds, keeps the dimensions,
      gives every pixel alpha 255 (no mask is written) and the widened gray
      level of its quantised byte in R, G and B. */
  lemma DecodeEncode(img: Image)
    requires Valid(img)
    requires img.width < 65536 && img.height < 65536
    ensures Decode(Encode(img)).Decoded?
    ensures Decode(Encode(img)).image.width == img.width
    ensures Decode(Encode(img)).image.height == img.height
    ensures forall i, c | 0 <= i < img.width * img.height && 0 <= c < 4 ::
              At(Decode(Encode(img)).image, i, c)
              == if c == 3 then 255
                 else GrayLevel(Quantise(At(img, i, 0), At(img, i, 1), At(img, i, 2)))
  {
    var bytes := Encode(img);
    var pixels := bytes[HeaderSize..];
    assert bytes == Header(img.width, img.height) + pixels;
    HeaderReadsBack(img.width, img.height, pixels);
    assert HeaderOk(bytes) && !HasMask(bytes);
    assert Width(bytes) == img.width && Height(bytes) == img.height;
    var r := Decode(bytes);
    assert r.Decoded?;
    forall i, c | 0 <= i < img.width * img.height && 0 <= c < 4
      ensures At(r.image, i, c)
              == if c == 3 then 255
                 else GrayLevel(Quantise(At(img, i, 0), At(img, i, 1), At(img, i, 2)))
    {
      var q := PixelByte(bytes, i);
      assert At(r.image, i, c) == Expand(q, false, c);
      assert q == Quantise(At(img, i, 0), At(img, i, 1), At(img, i, 2));
      assert Low7(q) == q;
    }
  }

  /** Writing what the reader read gives the reader's header with version 1
      and flag 0, and each pixel byte with its mask bit dropped; trailing
      bytes are not written back. */
  lemma EncodeDecode(bytes: seq<Byte>)
    requires Decode(bytes).Decoded?
    ensures |Encode(Decode(bytes).image)| == HeaderSize + Width(bytes) * Height(bytes)
    ensures Encode(Decode(bytes).image)[..4] == bytes[..4]
    ensures Encode(Decode(bytes).image)[4] == Version
    ensures Encode(Decode(bytes).image)[5] == 0
    ensures Encode(Decode(bytes).image)[6..HeaderSize] == bytes[6..HeaderSize]
    ensures forall i | 0 <= i < Width(bytes) * Height(bytes) ::
              PixelByte(Encode(Decode(bytes).image), i) == Low7(PixelByte(bytes, i))
  {
    var img := Decode(bytes).image;
    var out := Encode(img);
    var h := Header(img.width, img.height);
    assert out[..HeaderSize] == h;
    assert out[..4] == h[..4];
    assert out[6..HeaderSize] == bytes[6..HeaderSize] by {
      assert h[6] as int * 256 + h[7] as int == bytes[6] as int * 256 + bytes[7] as int;
      assert h[8] as int * 256 + h[9] as int == bytes[8] as int * 256 + bytes[9] as int;
      assert out[6] == h[6] && out[7] == h[7] && out[8] == h[8] && out[9] == h[9];
      assert out[10] == h[10] && out[11] == h[11];
    }
    forall i | 0 <= i < Width(bytes) * Height(bytes)
      ensures PixelByte(out, i) == Low7(PixelByte(bytes, i))
    {
      var b := PixelByte(bytes, i);
      var g := GrayLevel(Low7(b));
      assert At(img, i, 0) == g && At(img, i, 1) == g && At(img, i, 2) == g;
      GrayRoundTrip(Low7(b));
    }
  }

  /** Bytes after the last pixel are never read. */
  lemma DecodeIgnoresTrailing(bytes: seq<Byte>, extra: seq<Byte>)
    requires !Decode(bytes).NotGb7?
    ensures Decode(bytes + extra) == Decode(bytes)
  {
    var longer := bytes + extra;
    assert longer[..|bytes|] == bytes;
    assert longer[..4] == bytes[..4];
    assert Width(longer) == Width(bytes) && Height(longer) == Height(bytes);
    var n := Width(bytes) * Height(bytes);
    if Decode(bytes).Decoded? {
      assert Unpack(longer, n, HasMask(longer)) == Unpack(bytes, n, HasMask(bytes));
    }
  }

  /** The version byte is never consulted. */
  lemma DecodeIgnoresVersion(bytes: seq<Byte>, v: Byte)
    requires |bytes| > 4
    ensures Decode(bytes[4 := v]) == Decode(bytes)
  {
    var other := bytes[4 := v];
    assert other[..4] == bytes[..4];
    assert Width(other) == Width(bytes) && Height(other) == Height(bytes);
    var n := Width(bytes) * Height(bytes);
    if Decode(bytes).Decoded? {
      assert Unpack(other, n, HasMask(other)) == Unpack(bytes, n, HasMask(bytes));
    }
  }

  /** A file without a mask whose pixels all have 7-bit level 127 reads as
      opaque white. */
  lemma DecodeWhite(bytes: seq<Byte>)
    requires Decode(bytes).Decoded? && !HasMask(bytes)
    requires forall i | 0 <= i < Width(bytes) * Height(bytes) :: Low7(PixelByte(bytes, i)) == 127
    ensures var img := Decode(bytes).image;
      forall k | 0 <= k < |img.data| :: img.data[k] == 255
  {
    var img := Decode(bytes).image;
    forall k | 0 <= k < |img.data|
      ensures img.data[k] == 255
    {
      var i := k / 4;
      assert img.data[4 * i + k % 4] == At(img, i, k % 4);
      assert Low7(PixelByte(bytes, i)) == 127;
    }
  }

  /** Opaque pure red quantises to level 27 (0x1B). */
  lemma EncodeRed()
    ensures Quantise(255, 0, 0) == 27
  {
  }

}
