/** save_4bit_index_nano_raw of image_convert.py: a 4-byte big-endian header
    (height, then width) followed by one byte per pair of palette indices,
    the first index of the pair in the high nibble. */
module NanoRaw {
  import opened PyErrors

  /** A byte of the output file; also a palette index of an indexed image. */
  newtype byte = x: int | 0 <= x < 256

  function Pow2(k: nat): (p: nat)
    ensures p >= 1
  {
    if k == 0 then 1 else 2 * Pow2(k - 1)
  }

  /** Python's a | b on non-negative ints, bit by bit from the lowest. */
  function Or(a: nat, b: nat): nat
    decreases a
  {
    if a == 0 then b
    else if b == 0 then a
    else 2 * Or(a / 2, b / 2) + (if a % 2 == 1 || b % 2 == 1 then 1 else 0)
  }

  /** a | b is at least each of a and b ... */
  lemma {:induction false} OrAtLeast(a: nat, b: nat)
    ensures Or(a, b) >= a && Or(a, b) >= b
    decreases a
  {
    if a != 0 && b != 0 {
      OrAtLeast(a / 2, b / 2);
    }
  }

  /** ... stays below a power of two both operands are below ... */
  lemma {:induction false} OrBelow(a: nat, b: nat, k: nat)
    requires a < Pow2(k) && b < Pow2(k)
    ensures Or(a, b) < Pow2(k)
    decreases a
  {
    if a != 0 && b != 0 {
      OrBelow(a / 2, b / 2, k - 1);
    }
  }

  /** ... and is a plain sum when b fits below the bits a was shifted past. */
  lemma {:induction false} OrShifted(a: nat, b: nat, k: nat)
    requires b < Pow2(k)
    ensures Or(Pow2(k) * a, b) == Pow2(k) * a + b
    decreases k
  {
    if k == 0 {
      assert b == 0;
    } else if a != 0 && b != 0 {
      var m, h := Pow2(k) * a, Pow2(k - 1) * a;
      assert m == 2 * h;
      assert m / 2 == h && m % 2 == 0;
      OrShifted(a, b / 2, k - 1);
    }
  }

  /** n.to_bytes(2, "big"): two bytes, or OverflowError when n does not fit. */
  function UInt16BE(n: nat): (r: Result<seq<byte>>)
    ensures r.Ok? <==> n < 65536
    ensures r.Ok? ==> |r.value| == 2 && r.value[0] as int * 256 + r.value[1] as int == n
  {
    if n < 65536 then Ok([(n / 256) as byte, (n % 256) as byte]) else Err(OverflowError)
  }

  /** int.to_bytes((c0 << 4) | c1, 1, "big") for two palette indices. */
  function PackedByte(c0: byte, c1: byte): Result<byte> {
    var v := Or(c0 as nat * 16, c1 as nat);
    if v > 255 then Err(OverflowError) else Ok(v as byte)
  }

  /** c0 << 4 | c1 fits in a byte exactly when c0 fits in a nibble. */
  lemma OrFitsByte(c0: byte, c1: byte)
    ensures Or(c0 as nat * 16, c1 as nat) < 256 <==> c0 < 16
  {
    var a, b := c0 as nat * 16, c1 as nat;
    OrAtLeast(a, b);
    if c0 < 16 {
      assert Pow2(8) == 256;
      OrBelow(a, b, 8);
    }
  }

  /** For two nibbles, c0 << 4 | c1 is 16 * c0 + c1. */
  lemma OrNibbles(c0: byte, c1: byte)
    requires c1 < 16
    ensures Or(c0 as nat * 16, c1 as nat) == 16 * c0 as nat + c1 as nat
  {
    assert Pow2(4) == 16;
    OrShifted(c0 as nat, c1 as nat, 4);
  }

  /** The byte is refused exactly when the first index does not fit in a
      nibble; two indices below 16 are packed as 16 * c0 + c1 and come back
      out of the high and low nibbles. */
  lemma PackedByteNibbles(c0: byte, c1: byte)
    ensures PackedByte(c0, c1).Ok? <==> c0 < 16
    ensures c0 < 16 && c1 < 16 ==>
      && PackedByte(c0, c1).value as int == 16 * c0 as int + c1 as int
      && PackedByte(c0, c1).value / 16 == c0
      && PackedByte(c0, c1).value % 16 == c1
  {
    OrFitsByte(c0, c1);
    if c0 < 16 && c1 < 16 {
      OrNibbles(c0, c1);
    }
  }

  /** The packing loop over the pixel list: a pair at a time, the first
      failure ending the output. An unpaired last pixel makes the loop read
      one past the end of the list. */
  function PackPairs(pixels: seq<byte>): Result<seq<byte>>
    decreases |pixels|
  {
    if pixels == [] then Ok([])
    else if |pixels| == 1 then Err(IndexError)
    else
      match PackedByte(pixels[0], pixels[1])
      case Err(e) => Err(e)
      case Ok(byte) =>
        match PackPairs(pixels[2..])
        case Err(e) => Err(e)
        case Ok(rest) => Ok([byte] + rest)
  }

  /** The bytes save_4bit_index_nano_raw writes for an indexed image of the
      given size whose pixels are the given palette indices. */
  function Pack4Bit(height: nat, width: nat, pixels: seq<byte>): Result<seq<byte>>
  {
    match (UInt16BE(height), UInt16BE(width))
    case (Ok(h), Ok(w)) =>
      (match PackPairs(pixels)
       case Err(e) => Err(e)
       case Ok(body) => Ok(h + w + body))
    case _ => Err(OverflowError)
  }

  /** The packing as the source writes it: the header, then a while loop that
      fills nibbles[0] and nibbles[1] from pixels[pixel_counter] and writes
      one byte per pair. */
  method Save4BitIndexNanoRaw(height: nat, width: nat, pixels: seq<byte>) returns (res: Result<seq<byte>>)
    ensures res == Pack4Bit(height, width, pixels)
  {
    if height >= 65536 || width >= 65536 {
      return Err(OverflowError);
    }
    var header := UInt16BE(height).value + UInt16BE(width).value;
    var written: seq<byte> := [];
    var pixelCounter := 0;
    if PackPairs(pixels).Ok? {
      assert written + PackPairs(pixels).value == PackPairs(pixels).value;
    }
    var nibbles := new byte[2];
    while pixelCounter < |pixels|
      invariant 0 <= pixelCounter <= |pixels| && pixelCounter % 2 == 0
      invariant PackPairs(pixels) ==
        match PackPairs(pixels[pixelCounter..])
        case Err(e) => Err(e)
        case Ok(rest) => Ok(written + rest)
      decreases |pixels| - pixelCounter
    {
      ghost var start := pixelCounter;
      for n := 0 to 2
        invariant pixelCounter == start + n <= |pixels|
        invariant nibbles[..n] == pixels[start..pixelCounter]
      {
        if pixelCounter >= |pixels| {
          assert |pixels[start..]| == 1;
          return Err(IndexError);
        }
        var c := pixels[pixelCounter];
        nibbles[n] := c;
        pixelCounter := pixelCounter + 1;
      }
      var c0, c1 := nibbles[0], nibbles[1];
      assert c0 == pixels[start] && c1 == pixels[start + 1];
      var v := Or(c0 as nat * 16, c1 as nat);
      ghost var rest := pixels[start..];
      assert rest[2..] == pixels[pixelCounter..];
      if v > 255 {
        return Err(OverflowError);
      }
      if PackPairs(pixels[pixelCounter..]).Ok? {
        var tail := PackPairs(pixels[pixelCounter..]).value;
        assert (written + [v as byte]) + tail == written + ([v as byte] + tail);
      }
      written := written + [v as byte];
    }
    assert written + [] == written;
    return Ok(header + written);
  }

  // ---- what the output means ----

  /** The first index of every pair fits in a nibble. */
  predicate HighNibblesFit(pixels: seq<byte>) {
    forall k :: 0 <= k < |pixels| / 2 ==> pixels[2 * k] < 16
  }

  lemma HighNibblesFitCons(pixels: seq<byte>)
    requires |pixels| >= 2
    ensures HighNibblesFit(pixels) <==> pixels[0] < 16 && HighNibblesFit(pixels[2..])
  {
    var tail := pixels[2..];
    if pixels[0] < 16 && HighNibblesFit(tail) {
      forall k | 1 <= k < |pixels| / 2
        ensures pixels[2 * k] < 16
      {
        assert tail[2 * (k - 1)] == pixels[2 * k];
      }
    }
    if HighNibblesFit(pixels) {
      assert 0 < |pixels| / 2 && pixels[2 * 0] < 16;
      forall k | 0 <= k < |tail| / 2
        ensures tail[2 * k] < 16
      {
        assert tail[2 * k] == pixels[2 * (k + 1)];
      }
    }
  }

  /** PackPairs succeeds exactly on an even number of pixels whose first
      index of each pair is below 16, and then writes one byte per pair. */
  lemma {:induction false} PackPairsSucceeds(pixels: seq<byte>)
    ensures PackPairs(pixels).Ok? <==> |pixels| % 2 == 0 && HighNibblesFit(pixels)
    ensures PackPairs(pixels).Ok? ==> |PackPairs(pixels).value| == |pixels| / 2
    decreases |pixels|
  {
    if |pixels| >= 2 {
      PackPairsSucceeds(pixels[2..]);
      PackedByteNibbles(pixels[0], pixels[1]);
      HighNibblesFitCons(pixels);
    }
  }

  /** For pixels that are all below 16, byte k holds pixel 2k in its high
      nibble and pixel 2k+1 in its low nibble. */
  lemma {:induction false} PackPairsNibbles(pixels: seq<byte>)
    requires forall k :: 0 <= k < |pixels| ==> pixels[k] < 16
    requires |pixels| % 2 == 0
    ensures PackPairs(pixels).Ok?
    ensures forall k :: 0 <= k < |pixels| / 2 ==>
      && |PackPairs(pixels).value| == |pixels| / 2
      && PackPairs(pixels).value[k] / 16 == pixels[2 * k]
      && PackPairs(pixels).value[k] % 16 == pixels[2 * k + 1]
    decreases |pixels|
  {
    if pixels == [] {
      assert PackPairs(pixels) == Ok([]);
    } else {
      var tail := pixels[2..];
      assert forall k :: 0 <= k < |tail| ==> tail[k] == pixels[k + 2];
      PackPairsNibbles(tail);
      PackPairsSucceeds(tail);
      var rest := PackPairs(tail).value;
      assert |rest| == |tail| / 2 == |pixels| / 2 - 1;
      PackedByteNibbles(pixels[0], pixels[1]);
      var b := PackedByte(pixels[0], pixels[1]).value;
      assert PackPairs(pixels) == Ok([b] + rest);
      var out := [b] + rest;
      forall k | 0 <= k < |pixels| / 2
        ensures out[k] / 16 == pixels[2 * k] && out[k] % 16 == pixels[2 * k + 1]
      {
        if k > 0 {
          assert out[k] == rest[k - 1];
          assert tail[2 * (k - 1)] == pixels[2 * k] && tail[2 * (k - 1) + 1] == pixels[2 * k + 1];
        }
      }
    }
  }

  /** The nibbles of each byte, high then low: the reader's side of the format. */
  function Unpack(bytes: seq<byte>): (pixels: seq<byte>)
    ensures |pixels| == 2 * |bytes|
  {
    if bytes == [] then [] else [bytes[0] / 16, bytes[0] % 16] + Unpack(bytes[1..])
  }

  lemma {:induction false} UnpackAt(bytes: seq<byte>)
    ensures forall k :: 0 <= k < |bytes| ==>
      Unpack(bytes)[2 * k] == bytes[k] / 16 && Unpack(bytes)[2 * k + 1] == bytes[k] % 16
    decreases |bytes|
  {
    if bytes != [] {
      UnpackAt(bytes[1..]);
      forall k | 1 <= k < |bytes|
        ensures Unpack(bytes)[2 * k] == bytes[k] / 16 && Unpack(bytes)[2 * k + 1] == bytes[k] % 16
      {
        assert bytes[1..][k - 1] == bytes[k];
        assert Unpack(bytes)[2 * k] == Unpack(bytes[1..])[2 * (k - 1)];
        assert Unpack(bytes)[2 * k + 1] == Unpack(bytes[1..])[2 * (k - 1) + 1];
      }
    }
  }

  /** Round trip: an image of fitting size whose pixel count is even and whose
      indices are all below 16 is written as a header that decodes to its
      height and width, followed by bytes whose nibbles give back its pixels. */
  lemma PackRoundTrip(height: nat, width: nat, pixels: seq<byte>)
    requires height < 65536 && width < 65536
    requires forall k :: 0 <= k < |pixels| ==> pixels[k] < 16
    requires |pixels| % 2 == 0
    ensures Pack4Bit(height, width, pixels).Ok?
    ensures var out := Pack4Bit(height, width, pixels).value;
      && |out| == 4 + |pixels| / 2
      && out[0] as int * 256 + out[1] as int == height
      && out[2] as int * 256 + out[3] as int == width
      && Unpack(out[4..]) == pixels
  {
    PackPairsNibbles(pixels);
    var body := PackPairs(pixels).value;
    var out := Pack4Bit(height, width, pixels).value;
    assert out == UInt16BE(height).value + UInt16BE(width).value + body;
    assert out[4..] == body;
    UnpackAt(body);
    forall j | 0 <= j < |pixels|
      ensures Unpack(body)[j] == pixels[j]
    {
      var k := j / 2;
      assert k < |body|;
      assert j == 2 * k || j == 2 * k + 1;
      assert Unpack(body)[2 * k] == body[k] / 16 == pixels[2 * k];
      assert Unpack(body)[2 * k + 1] == body[k] % 16 == pixels[2 * k + 1];
    }
  }

  /** The whole output is refused exactly when the height or width needs more
      than two bytes, the pixel count is odd, or some pair's first index is 16
      or more; a second index of 16 or more is merged into the byte unnoticed. */
  lemma Pack4BitSucceeds(height: nat, width: nat, pixels: seq<byte>)
    ensures Pack4Bit(height, width, pixels).Ok? <==>
      && height < 65536 && width < 65536
      && |pixels| % 2 == 0
      && HighNibblesFit(pixels)
  {
    PackPairsSucceeds(pixels);
  }

  /** A 2 x 1 image of indices 3 and 5: header 0, 1, 0, 2 and the byte 0x35. */
  lemma PackTwoPixels()
    ensures Pack4Bit(1, 2, [3, 5]) == Ok([0, 1, 0, 2, 0x35])
  {
    var pixels: seq<byte> := [3, 5];
    assert UInt16BE(1) == Ok([0, 1]) && UInt16BE(2) == Ok([0, 2]);
    assert PackPairs(pixels) == Ok([0x35]) by {
      PackedByteNibbles(3, 5);
      assert pixels[2..] == [];
      assert [0x35 as byte] + [] == [0x35];
    }
    assert [0, 1] + [0, 2] + [0x35 as byte] == [0, 1, 0, 2, 0x35];
  }

  /** A second index above 15 is OR-ed into the high nibble: (1, 0x20) packs
      to the same byte as (3, 0). */
  lemma SecondIndexMerged()
    ensures PackedByte(1, 0x20) == PackedByte(3, 0) == Ok(0x30)
  {
  }
}
