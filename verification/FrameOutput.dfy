/**
 * Frame output of screenrecord: the RGBA pixels read back from GL are squeezed to
 * RGB within the same buffer and written behind a five-word little-endian header.
 */
module FrameOutput {
  import opened Common

  const OUT_BYTES_PER_PIXEL := 3
  const HAL_PIXEL_FORMAT_RGB_888 := 3

  /** The colour bytes of `n` pixels: byte k of the result skips one alpha byte per whole pixel before it. */
  ghost function RgbOf(rgba: seq<byte>, n: nat): (rgb: seq<byte>)
    requires 4 * n <= |rgba|
    ensures |rgb| == 3 * n
  {
    seq(3 * n, k requires 0 <= k < 3 * n => rgba[k + k / 3])
  }

  /** Pixel by pixel, the conversion keeps red, green and blue and drops alpha. */
  lemma RgbOfPixel(rgba: seq<byte>, n: nat, i: nat)
    requires i < n && 4 * n <= |rgba|
    ensures RgbOf(rgba, n)[3 * i..3 * i + 3] == rgba[4 * i..4 * i + 3]
  {
    var rgb := RgbOf(rgba, n);
    assert (3 * i) / 3 == (3 * i + 1) / 3 == (3 * i + 2) / 3 == i;
    assert rgb[3 * i] == rgba[4 * i] && rgb[3 * i + 1] == rgba[4 * i + 1] && rgb[3 * i + 2] == rgba[4 * i + 2];
  }

  /** One more pixel is three more bytes. */
  lemma RgbOfNext(rgba: seq<byte>, n: nat)
    requires 4 * (n + 1) <= |rgba|
    ensures RgbOf(rgba, n + 1) == RgbOf(rgba, n) + rgba[4 * n..4 * n + 3]
  {
    RgbOfPixel(rgba, n + 1, n);
    assert RgbOf(rgba, n + 1)[..3 * n] == RgbOf(rgba, n);
    assert RgbOf(rgba, n + 1)[3 * n..] == RgbOf(rgba, n + 1)[3 * n..3 * n + 3];
  }

  /** Copies three bytes down, one after the other, within the same buffer. */
  method MovePixel(buf: array<byte>, writePos: nat, readPos: nat)
    requires writePos <= readPos && readPos + 3 <= buf.Length
    modifies buf
    ensures buf[..writePos] == old(buf[..writePos])
    ensures buf[writePos..writePos + 3] == old(buf[readPos..readPos + 3])
    ensures buf[writePos + 3..] == old(buf[writePos + 3..])
  {
    buf[writePos] := buf[readPos];
    buf[writePos + 1] := buf[readPos + 1];
    buf[writePos + 2] := buf[readPos + 2];
  }

  lemma SameTail(s: seq<byte>, t: seq<byte>, at: nat, later: nat)
    requires |s| == |t| && at <= later <= |s| && s[at..] == t[at..]
    ensures s[later..] == t[later..]
    ensures later + 3 <= |s| ==> s[later..later + 3] == t[later..later + 3]
  {
    assert s[later..] == s[at..][later - at..] && t[later..] == t[at..][later - at..];
    if later + 3 <= |s| {
      assert s[later..later + 3] == s[later..][..3] && t[later..later + 3] == t[later..][..3];
    }
  }

  /** One pixel moved down: one more pixel is converted, and the rest is untouched. */
  lemma PixelMoved(rgba: seq<byte>, before: seq<byte>, after: seq<byte>, i: nat)
    requires |rgba| == |before| == |after| && 4 * (i + 1) <= |rgba|
    requires before[..3 * i] == RgbOf(rgba, i) && before[3 * i..] == rgba[3 * i..]
    requires after[..3 * i] == before[..3 * i] && after[3 * i..3 * i + 3] == before[4 * i..4 * i + 3]
    requires after[3 * i + 3..] == before[3 * i + 3..]
    ensures after[..3 * i + 3] == RgbOf(rgba, i + 1) && after[3 * i + 3..] == rgba[3 * i + 3..]
  {
    RgbOfNext(rgba, i);
    SameTail(before, rgba, 3 * i, 4 * i);
    SameTail(before, rgba, 3 * i, 3 * i + 3);
    assert after[..3 * i + 3] == after[..3 * i] + after[3 * i..3 * i + 3];
  }

  /** Squeezes the pixels in place; the write position trails the read position in the same buffer. */
  method ReduceRgbaToRgb(buf: array<byte>, pixelCount: nat)
    requires 4 * pixelCount <= buf.Length
    modifies buf
    ensures buf[..3 * pixelCount] == RgbOf(old(buf[..]), pixelCount)
    ensures buf[3 * pixelCount..] == old(buf[3 * pixelCount..])
  {
    ghost var rgba := buf[..];
    var writePos, readPos := 0, 0;
    for i := 0 to pixelCount
      invariant writePos == 3 * i && readPos == 4 * i
      invariant buf[..writePos] == RgbOf(rgba, i)
      invariant buf[writePos..] == rgba[writePos..]
    {
      ghost var before := buf[..];
      MovePixel(buf, writePos, readPos);
      PixelMoved(rgba, before, buf[..], i);
      writePos, readPos := writePos + 3, readPos + 4;
    }
  }

  /** A 32-bit value, least significant byte first; larger values lose their high part. */
  function ValueLE(value: nat): (b: seq<byte>)
    ensures |b| == 4
  {
    [value % 256, value / 0x100 % 256, value / 0x1_0000 % 256, value / 0x100_0000 % 256]
  }

  method SetValueLE(buf: array<byte>, at: nat, value: nat)
    requires at + 4 <= buf.Length
    modifies buf
    ensures buf[at..at + 4] == ValueLE(value)
    ensures forall k :: 0 <= k < at || at + 4 <= k < buf.Length ==> buf[k] == old(buf[k])
  {
    buf[at] := value % 256;
    buf[at + 1] := value / 0x100 % 256;
    buf[at + 2] := value / 0x1_0000 % 256;
    buf[at + 3] := value / 0x100_0000 % 256;
  }

  /** How the receiving side reads a word. */
  function ReadLE(b: seq<byte>, at: nat): (value: nat)
    requires at + 4 <= |b|
    ensures value < TWO_32
  {
    var b0: int, b1: int, b2: int, b3: int := b[at], b[at + 1], b[at + 2], b[at + 3];
    b0 + 0x100 * b1 + 0x1_0000 * b2 + 0x100_0000 * b3
  }

  lemma ValueReadBack(value: nat, b: seq<byte>, at: nat)
    requires at + 4 <= |b| && b[at..at + 4] == ValueLE(value)
    ensures ReadLE(b, at) == value % TWO_32
  {
    var q0 := value / 0x100;
    var q1 := value / 0x1_0000;
    var q2 := value / 0x100_0000;
    var q3 := value / TWO_32;
    assert value == 0x100 * q0 + value % 0x100;
    assert q0 == 0x100 * q1 + q0 % 0x100;
    assert q1 == 0x100 * q2 + q1 % 0x100;
    assert q2 == 0x100 * q3 + q2 % 0x100;
    var v := ValueLE(value);
    assert b[at] == v[0] && b[at + 1] == v[1] && b[at + 2] == v[2] && b[at + 3] == v[3];
  }

  datatype Frame = Frame(width: nat, height: nat, rgb: seq<byte>)

  /** What the packet's first word counts: the rest of the header and the pixels. */
  function PacketLen(f: Frame): (n: nat)
  {
    16 + |f.rgb|
  }

  /** The five header words. */
  function HeaderWords(f: Frame): (w: seq<nat>)
    ensures |w| == 5
  {
    [PacketLen(f), f.width, f.height, f.width * OUT_BYTES_PER_PIXEL, HAL_PIXEL_FORMAT_RGB_888]
  }

  function Header(w: seq<nat>): (b: seq<byte>)
    requires |w| == 5
    ensures |b| == 20
  {
    ValueLE(w[0]) + (ValueLE(w[1]) + (ValueLE(w[2]) + (ValueLE(w[3]) + ValueLE(w[4]))))
  }

  /** What `CopyFrame` adds to the file for one frame. */
  function Packet(f: Frame): (b: seq<byte>)
  {
    Header(HeaderWords(f)) + f.rgb
  }

  datatype Parsed = Parsed(frame: Frame, stride: nat, format: nat, rest: seq<byte>)

  /** A receiver that trusts only the length word for framing. */
  function ReadPacket(b: seq<byte>): (r: Option<Parsed>)
    ensures r.Some? ==> |r.value.rest| < |b|
  {
    if |b| < 20 then None else
      var len := ReadLE(b, 0);
      if len < 16 || |b| < 4 + len then None else
        Some(Parsed(Frame(ReadLE(b, 4), ReadLE(b, 8), b[20..4 + len]),
                    ReadLE(b, 12), ReadLE(b, 16), b[4 + len..]))
  }

  lemma HeaderSlices(w: seq<nat>, rest: seq<byte>)
    requires |w| == 5
    ensures
      var b := Header(w) + rest;
      && b[0..4] == ValueLE(w[0]) && b[4..8] == ValueLE(w[1]) && b[8..12] == ValueLE(w[2])
      && b[12..16] == ValueLE(w[3]) && b[16..20] == ValueLE(w[4])
  {
  }

  lemma HeaderReadBack(w: seq<nat>, rest: seq<byte>)
    requires |w| == 5
    ensures
      var b := Header(w) + rest;
      && ReadLE(b, 0) == w[0] % TWO_32 && ReadLE(b, 4) == w[1] % TWO_32 && ReadLE(b, 8) == w[2] % TWO_32
      && ReadLE(b, 12) == w[3] % TWO_32 && ReadLE(b, 16) == w[4] % TWO_32
  {
    var b := Header(w) + rest;
    HeaderSlices(w, rest);
    ValueReadBack(w[0], b, 0);
    ValueReadBack(w[1], b, 4);
    ValueReadBack(w[2], b, 8);
    ValueReadBack(w[3], b, 12);
    ValueReadBack(w[4], b, 16);
  }

  /** Every header word fits 32 bits. */
  ghost predicate Encodable(f: Frame)
  {
    f.width * OUT_BYTES_PER_PIXEL < TWO_32 && f.height < TWO_32 && PacketLen(f) < TWO_32
  }

  /** The sizes for which the program's own products do not overflow a signed 32-bit integer. */
  ghost predicate IntSized(width: nat, height: nat)
  {
    0 < width && 0 < height && 4 * (width * height) < 0x8000_0000
  }

  /** A frame of such a size always fits its packet. */
  lemma IntSizedIsEncodable(f: Frame)
    requires IntSized(f.width, f.height) && |f.rgb| == 3 * (f.width * f.height)
    ensures Encodable(f)
  {
    AtLeastOne(f.width, f.height);
    AtLeastOne(f.height, f.width);
  }

  lemma AtLeastOne(a: nat, b: nat)
    requires b > 0
    ensures a <= a * b && a * b == b * a
  {
  }

  /** What the reader makes of a header and what follows it. */
  lemma ReadOfHeader(w: seq<nat>, rest: seq<byte>)
    requires |w| == 5
    ensures
      var len := w[0] % TWO_32;
      ReadPacket(Header(w) + rest)
      == if len < 16 || |rest| < len - 16 then None else
           Some(Parsed(Frame(w[1] % TWO_32, w[2] % TWO_32, rest[..len - 16]),
                       w[3] % TWO_32, w[4] % TWO_32, rest[len - 16..]))
  {
    HeaderReadBack(w, rest);
    var b, len := Header(w) + rest, w[0] % TWO_32;
    if 16 <= len && len - 16 <= |rest| {
      AfterPrefix(Header(w), rest, len - 16);
    }
  }

  lemma AfterPrefix(header: seq<byte>, rest: seq<byte>, n: nat)
    requires n <= |rest|
    ensures (header + rest)[|header|..|header| + n] == rest[..n]
    ensures (header + rest)[|header| + n..] == rest[n..]
  {
  }

  /** What should be read from a packet followed by `rest`. */
  ghost function Expected(f: Frame, rest: seq<byte>): Parsed
  {
    Parsed(f, f.width * OUT_BYTES_PER_PIXEL, HAL_PIXEL_FORMAT_RGB_888, rest)
  }

  lemma SplitAt(a: seq<byte>, b: seq<byte>, n: nat)
    requires n == |a|
    ensures (a + b)[..n] == a && (a + b)[n..] == b
  {
  }

  lemma SmallWord(n: nat)
    requires n < TWO_32
    ensures n % TWO_32 == n
  {
  }

  lemma HeaderThenRest(f: Frame, rest: seq<byte>)
    requires Encodable(f)
    ensures ReadPacket(Header(HeaderWords(f)) + (f.rgb + rest)) == Some(Expected(f, rest))
  {
    var w, data := HeaderWords(f), f.rgb + rest;
    SmallWord(PacketLen(f));
    SmallWord(f.width);
    SmallWord(f.height);
    SmallWord(f.width * OUT_BYTES_PER_PIXEL);
    SplitAt(f.rgb, rest, PacketLen(f) - 16);
    ReadOfHeader(w, data);
  }

  /** A packet followed by anything is read back. */
  lemma PacketReadBack(f: Frame, rest: seq<byte>)
    requires Encodable(f)
    ensures ReadPacket(Packet(f) + rest) == Some(Expected(f, rest))
  {
    Associate(Header(HeaderWords(f)), f.rgb, rest);
    HeaderThenRest(f, rest);
  }

  /** The file after a sequence of frames. */
  function Stream(frames: seq<Frame>): (b: seq<byte>)
  {
    if frames == [] then [] else Packet(frames[0]) + Stream(frames[1..])
  }

  /** Reads packets until nothing is left; no result when something cannot be read. */
  function ReadStream(b: seq<byte>): (r: Option<seq<Frame>>)
    decreases |b|
  {
    if b == [] then Some([]) else
      match ReadPacket(b)
      case None => None
      case Some(p) =>
        match ReadStream(p.rest)
        case None => None
        case Some(frames) => Some([p.frame] + frames)
  }

  /** Any sequence of framed packets decodes back to the same frames with nothing left over. */
  lemma {:induction false} StreamReadBack(frames: seq<Frame>)
    requires forall i :: 0 <= i < |frames| ==> Encodable(frames[i])
    ensures ReadStream(Stream(frames)) == Some(frames)
  {
    if frames != [] {
      PacketReadBack(frames[0], Stream(frames[1..]));
      StreamReadBack(frames[1..]);
      assert frames == [frames[0]] + frames[1..];
    }
  }

  lemma Associate(a: seq<byte>, b: seq<byte>, c: seq<byte>)
    ensures a + (b + c) == (a + b) + c
  {
  }

  /** Appending one more packet to a file is appending one more frame to its frames. */
  lemma {:induction false} StreamAppend(frames: seq<Frame>, f: Frame)
    ensures Stream(frames + [f]) == Stream(frames) + Packet(f)
  {
    if frames == [] {
      assert [f][1..] == [];
    } else {
      StreamAppend(frames[1..], f);
      assert (frames + [f])[1..] == frames[1..] + [f];
      Associate(Packet(frames[0]), Stream(frames[1..]), Packet(f));
    }
  }

  lemma StreamGrows(before: seq<byte>, f: Frame)
    ensures forall frames :: before == Stream(frames) ==> before + Packet(f) == Stream(frames + [f])
  {
    forall frames | before == Stream(frames) ensures before + Packet(f) == Stream(frames + [f]) {
      StreamAppend(frames, f);
    }
  }

  /** The header as it is filled, word by word. */
  method FillHeader(w: seq<nat>) returns (header: array<byte>)
    requires |w| == 5
    ensures fresh(header)
    ensures header[..] == Header(w)
  {
    header := new byte[20](_ => 0);
    SetValueLE(header, 0, w[0]);
    SetValueLE(header, 4, w[1]);
    SetValueLE(header, 8, w[2]);
    SetValueLE(header, 12, w[3]);
    SetValueLE(header, 16, w[4]);
    JoinWords(header[..], w);
  }

  lemma JoinWords(b: seq<byte>, w: seq<nat>)
    requires |w| == 5 && |b| == 20
    requires b[0..4] == ValueLE(w[0]) && b[4..8] == ValueLE(w[1]) && b[8..12] == ValueLE(w[2])
    requires b[12..16] == ValueLE(w[3]) && b[16..20] == ValueLE(w[4])
    ensures b == Header(w)
  {
    assert b == b[0..4] + (b[4..8] + (b[8..12] + (b[12..16] + b[16..20])));
  }

  class Output {
    var mPixelBuf: array<byte>
    var file: seq<byte>

    constructor (pixelBuf: array<byte>)
      ensures mPixelBuf == pixelBuf && file == []
    {
      mPixelBuf, file := pixelBuf, [];
    }

    /** The copy once GL has filled the pixel buffer. */
    method CopyFrame(width: nat, height: nat, rawFrames: bool)
      requires IntSized(width, height) && 4 * (width * height) <= mPixelBuf.Length
      modifies this`file, mPixelBuf
      ensures
        var f := Frame(width, height, RgbOf(old(mPixelBuf[..]), width * height));
        && file == old(file) + (if rawFrames then f.rgb else Packet(f))
        && Encodable(f)
        && (!rawFrames ==> forall frames :: old(file) == Stream(frames) ==> file == Stream(frames + [f]))
    {
      var pixelCount := width * height;
      ReduceRgbaToRgb(mPixelBuf, pixelCount);
      var rgbDataLen := pixelCount * OUT_BYTES_PER_PIXEL;
      WriteFrame(width, height, mPixelBuf[..rgbDataLen], rawFrames);
    }

    /** The header, unless frames are raw, then the pixels. */
    method WriteFrame(width: nat, height: nat, rgb: seq<byte>, rawFrames: bool)
      requires IntSized(width, height) && |rgb| == 3 * (width * height)
      modifies this`file
      ensures
        var f := Frame(width, height, rgb);
        && file == old(file) + (if rawFrames then rgb else Packet(f))
        && Encodable(f)
        && (!rawFrames ==> forall frames :: old(file) == Stream(frames) ==> file == Stream(frames + [f]))
    {
      ghost var f := Frame(width, height, rgb);
      IntSizedIsEncodable(f);
      if !rawFrames {
        var header := FillHeader([16 + |rgb|, width, height, width * OUT_BYTES_PER_PIXEL, HAL_PIXEL_FORMAT_RGB_888]);
        file := file + header[..];
      }
      file := file + rgb;
      Associate(old(file), Header(HeaderWords(f)), rgb);
      StreamGrows(old(file), f);
    }
  }
}
