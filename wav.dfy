// `pcmToWav` and `writeString` of src/lib/audioUtils.ts: the decoded bytes are
// copied into a byte buffer and prefixed with the canonical 44-byte header of a
// RIFF WAVE file ("RIFF" chunk, "fmt " chunk for PCM, "data" chunk), every
// number little-endian. Base64 decoding, the Blob and its URL are left out: the
// method takes the decoded binary string and returns the bytes of the file.

module AudioUtils {

  /** A `Uint8Array` element. */
  type Byte = x: int | 0 <= x < 256

  const SampleRate: int := 24000
  const NumChannels: int := 1
  const BitsPerSample: int := 16
  const HeaderSize: int := 44

  /** Storing a character code in a byte keeps it modulo 2^8. */
  function ByteOf(c: char): Byte {
    (c as int) % 256
  }

  /** The four little-endian bytes `setUint32(_, v, true)` writes (v taken modulo 2^32). */
  function LE32(v: int): (r: seq<Byte>)
    ensures |r| == 4
  {
    [v % 256, (v / 256) % 256, (v / 256 / 256) % 256, (v / 256 / 256 / 256) % 256]
  }

  /** The two little-endian bytes `setUint16(_, v, true)` writes (v taken modulo 2^16). */
  function LE16(v: int): (r: seq<Byte>)
    ensures |r| == 2
  {
    [v % 256, (v / 256) % 256]
  }

  /** The bytes `writeString` stores for `s`. */
  function Ascii(s: string): (r: seq<Byte>)
    ensures |r| == |s|
    ensures forall i :: 0 <= i < |s| ==> r[i] == ByteOf(s[i])
  {
    seq(|s|, i requires 0 <= i < |s| => ByteOf(s[i]))
  }

  /** Reading back a little-endian 32-bit field. */
  function ReadU32(bs: seq<Byte>, off: nat): int
    requires off + 4 <= |bs|
  {
    bs[off] as int + 256 * (bs[off + 1] as int + 256 * (bs[off + 2] as int + 256 * bs[off + 3] as int))
  }

  function ReadU16(bs: seq<Byte>, off: nat): int
    requires off + 2 <= |bs|
  {
    bs[off] as int + 256 * bs[off + 1] as int
  }

  /** Writing and reading a 32-bit field gives the value back modulo 2^32. */
  lemma ReadLE32(v: int)
    ensures ReadU32(LE32(v), 0) == v % 0x1_0000_0000
  {
    var a1 := v / 256;
    var a2 := a1 / 256;
    var a3 := a2 / 256;
    var a4 := a3 / 256;
    var read := v % 256 + 256 * (a1 % 256 + 256 * (a2 % 256 + 256 * (a3 % 256)));
    assert v == read + 0x1_0000_0000 * a4;
    assert 0 <= read < 0x1_0000_0000;
  }

  lemma ReadLE16(v: int)
    ensures ReadU16(LE16(v), 0) == v % 0x1_0000
  {
    var a1 := v / 256;
    var a2 := a1 / 256;
    var read := v % 256 + 256 * (a1 % 256);
    assert v == read + 0x1_0000 * a2;
    assert 0 <= read < 0x1_0000;
  }

  /** Bytes per second (rate times frame size) and bytes per frame, computed as `pcmToWav` does. */
  const ByteRate: int := SampleRate * NumChannels * (BitsPerSample / 8)
  const BlockAlign: int := NumChannels * (BitsPerSample / 8)

  /** Bytes 0..12: the "RIFF" tag, the size of the rest of the file, the "WAVE" type. */
  function RiffHeader(n: int): (r: seq<Byte>)
    ensures |r| == 12
  {
    Ascii("RIFF") + LE32(36 + n) + Ascii("WAVE")
  }

  /** Bytes 12..36: the "fmt " chunk for 16-bit mono PCM at 24000 Hz. */
  function FmtChunk(): (r: seq<Byte>)
    ensures |r| == 24
  {
    Ascii("fmt ") + LE32(16) + LE16(1) + LE16(NumChannels)
    + LE32(SampleRate) + LE32(ByteRate) + LE16(BlockAlign) + LE16(BitsPerSample)
  }

  /** Bytes 36..44: the "data" tag and the payload size. */
  function DataHeader(n: int): (r: seq<Byte>)
    ensures |r| == 8
  {
    Ascii("data") + LE32(n)
  }

  /** The header `pcmToWav` writes for `n` bytes of PCM. */
  function WavHeader(n: int): (r: seq<Byte>)
    ensures |r| == HeaderSize
  {
    RiffHeader(n) + FmtChunk() + DataHeader(n)
  }

  /** The two sizes of the header: the RIFF size (the file minus its first 8 bytes) and the data size. */
  lemma HeaderSizes(n: nat)
    requires 36 + n < 0x1_0000_0000
    ensures var h := WavHeader(n);
      ReadU32(h, 4) == 36 + n && ReadU32(h, 40) == n
  {
    var h := WavHeader(n);
    var r := RiffHeader(n);
    var d := DataHeader(n);
    assert h[..12] == r && h[36..] == d;
    assert r[4..8] == LE32(36 + n);
    assert d[4..8] == LE32(n);
    Within(h, 0, r, 4, LE32(36 + n));
    Within(h, 36, d, 4, LE32(n));
    FieldIs32(h, 4, 36 + n);
    FieldIs32(h, 40, n);
  }

  /**
   * The format chunk: length 16, PCM format 1, one channel, 24000 Hz, 48000
   * bytes per second, 2-byte frames, 16 bits.
   */
  lemma HeaderFormat(n: int)
    ensures var h := WavHeader(n);
      && ReadU32(h, 16) == 16 && ReadU16(h, 20) == 1 && ReadU16(h, 22) == NumChannels
      && ReadU32(h, 24) == SampleRate && ReadU32(h, 28) == ByteRate
      && ReadU16(h, 32) == BlockAlign && ReadU16(h, 34) == BitsPerSample
      && ByteRate == 48000 && BlockAlign == 2
  {
    FormatHead(n);
    FormatRates(n);
  }

  lemma FormatHead(n: int)
    ensures var h := WavHeader(n);
      ReadU32(h, 16) == 16 && ReadU16(h, 20) == 1 && ReadU16(h, 22) == NumChannels
  {
    var h := WavHeader(n);
    var f := FmtChunk();
    assert h[12..36] == f;
    FmtFields();
    Within(h, 12, f, 4, LE32(16));
    Within(h, 12, f, 8, LE16(1));
    Within(h, 12, f, 10, LE16(NumChannels));
    FieldAt32(h, 16, 16);
    FieldAt16(h, 20, 1);
    FieldAt16(h, 22, NumChannels);
  }

  lemma FormatRates(n: int)
    ensures var h := WavHeader(n);
      && ReadU32(h, 24) == SampleRate && ReadU32(h, 28) == ByteRate
      && ReadU16(h, 32) == BlockAlign && ReadU16(h, 34) == BitsPerSample
  {
    var h := WavHeader(n);
    var f := FmtChunk();
    assert h[12..36] == f;
    FmtFields();
    Within(h, 12, f, 12, LE32(SampleRate));
    Within(h, 12, f, 16, LE32(ByteRate));
    Within(h, 12, f, 20, LE16(BlockAlign));
    Within(h, 12, f, 22, LE16(BitsPerSample));
    FieldAt32(h, 24, SampleRate);
    FieldAt32(h, 28, ByteRate);
    FieldAt16(h, 32, BlockAlign);
    FieldAt16(h, 34, BitsPerSample);
  }

  /** Each field of the format chunk at its offset. */
  lemma FmtFields()
    ensures var f := FmtChunk();
      && f[0..4] == Ascii("fmt ") && f[4..8] == LE32(16) && f[8..10] == LE16(1)
      && f[10..12] == LE16(NumChannels) && f[12..16] == LE32(SampleRate)
      && f[16..20] == LE32(ByteRate) && f[20..22] == LE16(BlockAlign) && f[22..24] == LE16(BitsPerSample)
  {
    var a := Ascii("fmt ") + LE32(16) + LE16(1) + LE16(NumChannels);
    var b := LE32(SampleRate) + LE32(ByteRate) + LE16(BlockAlign) + LE16(BitsPerSample);
    assert FmtChunk() == a + b;
  }

  /** A part found at `a` in `h`, holding `x` at `off`, puts `x` at `a + off` in `h`. */
  lemma Within(h: seq<Byte>, a: nat, part: seq<Byte>, off: nat, x: seq<Byte>)
    requires a + |part| <= |h| && h[a..a + |part|] == part
    requires off + |x| <= |part| && part[off..off + |x|] == x
    ensures h[a + off..a + off + |x|] == x
  {
    forall k | 0 <= k < |x| ensures h[a + off + k] == x[k] {
      assert x[k] == part[off..off + |x|][k];
      assert part[off + k] == h[a..a + |part|][off + k];
    }
  }

  lemma FieldAt32(h: seq<Byte>, off: nat, v: int)
    requires off + 4 <= |h| && h[off..off + 4] == LE32(v)
    ensures ReadU32(h, off) == v % 0x1_0000_0000
  {
    ReadLE32(v);
    assert h[off] == LE32(v)[0] && h[off + 1] == LE32(v)[1];
    assert h[off + 2] == LE32(v)[2] && h[off + 3] == LE32(v)[3];
  }

  lemma FieldIs32(h: seq<Byte>, off: nat, v: nat)
    requires off + 4 <= |h| && h[off..off + 4] == LE32(v) && v < 0x1_0000_0000
    ensures ReadU32(h, off) == v
  {
    FieldAt32(h, off, v);
    assert v % 0x1_0000_0000 == v;
  }

  lemma FieldAt16(h: seq<Byte>, off: nat, v: int)
    requires off + 2 <= |h| && h[off..off + 2] == LE16(v)
    ensures ReadU16(h, off) == v % 0x1_0000
  {
    ReadLE16(v);
    assert h[off] == LE16(v)[0] && h[off + 1] == LE16(v)[1];
  }

  // ---------------------------------------------------------------- the buffer writes

  /** `view.setUint8(offset, v)` */
  method SetUint8(view: array<Byte>, offset: nat, v: int)
    requires offset < view.Length
    modifies view
    ensures view[offset] == v % 256
    ensures forall i :: 0 <= i < view.Length && i != offset ==> view[i] == old(view[i])
  {
    view[offset] := v % 256;
  }

  /** `view.setUint16(offset, v, true)` */
  method SetUint16(view: array<Byte>, offset: nat, v: int)
    requires offset + 2 <= view.Length
    modifies view
    ensures view[offset..offset + 2] == LE16(v)
    ensures forall i :: 0 <= i < view.Length && !(offset <= i < offset + 2) ==> view[i] == old(view[i])
  {
    view[offset] := v % 256;
    view[offset + 1] := (v / 256) % 256;
  }

  /** `view.setUint32(offset, v, true)` */
  method SetUint32(view: array<Byte>, offset: nat, v: int)
    requires offset + 4 <= view.Length
    modifies view
    ensures view[offset..offset + 4] == LE32(v)
    ensures forall i :: 0 <= i < view.Length && !(offset <= i < offset + 4) ==> view[i] == old(view[i])
  {
    view[offset] := v % 256;
    view[offset + 1] := (v / 256) % 256;
    view[offset + 2] := (v / 256 / 256) % 256;
    view[offset + 3] := (v / 256 / 256 / 256) % 256;
  }

  /** `writeString`: each character's code at `offset + i`, no other byte touched. */
  method WriteString(view: array<Byte>, offset: nat, s: string)
    requires offset + |s| <= view.Length
    modifies view
    ensures view[offset..offset + |s|] == Ascii(s)
    ensures forall i :: 0 <= i < view.Length && !(offset <= i < offset + |s|) ==> view[i] == old(view[i])
  {
    for i := 0 to |s|
      invariant forall k :: 0 <= k < i ==> view[offset + k] == ByteOf(s[k])
      invariant forall k :: 0 <= k < view.Length && !(offset <= k < offset + i) ==> view[k] == old(view[k])
    {
      SetUint8(view, offset + i, s[i] as int);
    }
  }

  /** The decoding loop: one byte per character, in order. */
  method DecodeBytes(binary: string) returns (bytes: array<Byte>)
    ensures fresh(bytes)
    ensures bytes[..] == Ascii(binary)
  {
    bytes := new Byte[|binary|];
    for i := 0 to |binary|
      invariant forall k :: 0 <= k < i ==> bytes[k] == ByteOf(binary[k])
    {
      bytes[i] := (binary[i] as int) % 256;
    }
  }

  /** The header writes of `pcmToWav` into a fresh 44-byte buffer, chunk by chunk. */
  method WriteHeader(dataLength: int) returns (view: array<Byte>)
    ensures fresh(view)
    ensures view[..] == WavHeader(dataLength)
  {
    view := new Byte[HeaderSize](_ => 0);
    WriteRiffHeader(view, dataLength);
    ghost var r := view[0..12];
    WriteFmtChunk(view);
    assert view[0..12] == r;
    ghost var f := view[12..36];
    WriteDataHeader(view, dataLength);
    assert view[0..12] == r && view[12..36] == f;
    assert view[..] == view[0..12] + view[12..36] + view[36..44];
  }

  method WriteRiffHeader(view: array<Byte>, dataLength: int)
    requires view.Length == HeaderSize
    modifies view
    ensures view[0..12] == RiffHeader(dataLength)
    ensures forall i :: 12 <= i < HeaderSize ==> view[i] == old(view[i])
  {
    WriteString(view, 0, "RIFF");
    ghost var tag := view[0..4];
    SetUint32(view, 4, 36 + dataLength);
    assert view[0..4] == tag;
    ghost var size := view[4..8];
    WriteString(view, 8, "WAVE");
    assert view[0..4] == tag && view[4..8] == size;
    assert view[0..12] == view[0..4] + view[4..8] + view[8..12];
  }

  method WriteFmtChunk(view: array<Byte>)
    requires view.Length == HeaderSize
    modifies view
    ensures view[12..36] == FmtChunk()
    ensures forall i :: 0 <= i < HeaderSize && !(12 <= i < 36) ==> view[i] == old(view[i])
  {
    WriteFmtHead(view);
    ghost var a := view[12..24];
    WriteFmtRates(view);
    assert view[12..24] == a;
    assert view[12..36] == view[12..24] + view[24..36];
  }

  /** Bytes 12..24: the tag, the chunk length, the format code and the channel count. */
  method WriteFmtHead(view: array<Byte>)
    requires view.Length == HeaderSize
    modifies view
    ensures view[12..24] == Ascii("fmt ") + LE32(16) + LE16(1) + LE16(NumChannels)
    ensures forall i :: 0 <= i < HeaderSize && !(12 <= i < 24) ==> view[i] == old(view[i])
  {
    WriteString(view, 12, "fmt ");
    SetUint32(view, 16, 16);
    SetUint16(view, 20, 1);
    SetUint16(view, 22, NumChannels);
    assert view[12..24] == view[12..16] + view[16..20] + view[20..22] + view[22..24];
  }

  /** Bytes 24..36: the sample rate, the byte rate, the frame size and the sample width. */
  method WriteFmtRates(view: array<Byte>)
    requires view.Length == HeaderSize
    modifies view
    ensures view[24..36] == LE32(SampleRate) + LE32(ByteRate) + LE16(BlockAlign) + LE16(BitsPerSample)
    ensures forall i :: 0 <= i < HeaderSize && !(24 <= i < 36) ==> view[i] == old(view[i])
  {
    SetUint32(view, 24, SampleRate);
    SetUint32(view, 28, ByteRate);
    SetUint16(view, 32, BlockAlign);
    SetUint16(view, 34, BitsPerSample);
    assert view[24..36] == view[24..28] + view[28..32] + view[32..34] + view[34..36];
  }

  method WriteDataHeader(view: array<Byte>, dataLength: int)
    requires view.Length == HeaderSize
    modifies view
    ensures view[36..44] == DataHeader(dataLength)
    ensures forall i :: 0 <= i < 36 ==> view[i] == old(view[i])
  {
    WriteString(view, 36, "data");
    SetUint32(view, 40, dataLength);
    assert view[36..44] == view[36..40] + view[40..44];
  }

  /** `pcmToWav` without the Blob: the header followed by the decoded bytes. */
  method PcmToWav(binary: string) returns (wav: seq<Byte>)
    ensures wav == WavHeader(|binary|) + Ascii(binary)
    ensures |wav| == HeaderSize + |binary|
  {
    var bytes := DecodeBytes(binary);
    var header := WriteHeader(bytes.Length);
    wav := header[..] + bytes[..];
  }

  /**
   * For any payload under 4 GiB the sizes in the file agree with the file: the
   * RIFF size is the length minus 8, the data size the length minus 44, and the
   * payload follows the header unchanged.
   */
  lemma WavSizesConsistent(binary: string)
    requires HeaderSize + |binary| < 0x1_0000_0000
    ensures var wav := WavHeader(|binary|) + Ascii(binary);
      && ReadU32(wav, 4) == |wav| - 8
      && ReadU32(wav, 40) == |wav| - HeaderSize
      && wav[HeaderSize..] == Ascii(binary)
  {
    var h := WavHeader(|binary|);
    var wav := h + Ascii(binary);
    HeaderSizes(|binary|);
    assert wav[..HeaderSize] == h;
    assert ReadU32(wav, 4) == ReadU32(h, 4);
    assert ReadU32(wav, 40) == ReadU32(h, 40);
  }
}
