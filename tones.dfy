/**
 * The tone generator's WAV serialiser: a 44-byte RIFF/WAVE header (a `fmt `
 * chunk for 16-bit mono PCM at 44100 Hz and a `data` chunk, as the WAVE form
 * of the RIFF Multimedia Programming Interface and Data Specifications 1.0
 * lays them out) followed by the samples as little-endian 16-bit two's
 * complement, written into a preallocated buffer; and the guard on the tone
 * parameters.
 */
module Tones {

  type byte = x: int | 0 <= x < 0x100

  /** The values an `Int16Array` element can hold. */
  type int16 = x: int | -0x8000 <= x < 0x8000

  const SampleRate := 44100
  const BytesPerSample := 2
  const HeaderSize := 44

  // ---------------------------------------------------------------------------
  // Tone parameters
  // ---------------------------------------------------------------------------

  datatype ToneError = FrequencyNotPositive | DurationNotPositive | VolumeOutOfRange
  {
    /** The text of the `Error` thrown for the failed check. */
    function Message(): (m: string)
      ensures |m| > 0 && m[|m| - 1] == '.'
    {
      match this
      case FrequencyNotPositive => "Frequency must be positive."
      case DurationNotPositive => "Duration must be positive."
      case VolumeOutOfRange => "Volume must be between 0 and 1."
    }
  }

  datatype Outcome = Pass | Fail(error: ToneError)

  /**
   * `validateToneParameters`: accepts exactly a positive frequency, a positive
   * duration and a volume in [0, 1]; otherwise reports the first check that
   * fails, in the order frequency, duration, volume.
   */
  function ValidateToneParameters(frequency: real, duration: real, volume: real): (r: Outcome)
    ensures r == Pass <==> frequency > 0.0 && duration > 0.0 && 0.0 <= volume <= 1.0
    ensures r == Fail(FrequencyNotPositive) <==> frequency <= 0.0
    ensures r == Fail(DurationNotPositive) <==> frequency > 0.0 && duration <= 0.0
    ensures r == Fail(VolumeOutOfRange) <==>
              frequency > 0.0 && duration > 0.0 && (volume < 0.0 || volume > 1.0)
  {
    if frequency <= 0.0 then Fail(FrequencyNotPositive)
    else if duration <= 0.0 then Fail(DurationNotPositive)
    else if volume < 0.0 || volume > 1.0 then Fail(VolumeOutOfRange)
    else Pass
  }

  // ---------------------------------------------------------------------------
  // Encodings
  // ---------------------------------------------------------------------------

  predicate IsAscii(s: string) {
    forall i :: 0 <= i < |s| ==> s[i] as int < 0x80
  }

  /** `Buffer.write` of a string: one byte per (ASCII) character. */
  function Ascii(s: string): (b: seq<byte>)
    requires IsAscii(s)
    ensures |b| == |s| && forall i :: 0 <= i < |s| ==> b[i] == s[i] as int
  {
    seq(|s|, i requires 0 <= i < |s| => s[i] as int as byte)
  }

  /** `writeUInt16LE`: the low byte first. */
  function UInt16LE(v: int): (b: seq<byte>)
    requires 0 <= v < 0x1_0000
    ensures |b| == 2 && b[0] as int + 0x100 * (b[1] as int) == v
  {
    [v % 0x100, v / 0x100]
  }

  /** `writeUInt32LE`: the four bytes from least to most significant, shifting right by 8 after each. */
  function UInt32LE(v: int): (b: seq<byte>)
    requires 0 <= v < 0x1_0000_0000
    ensures |b| == 4
    ensures b[0] as int + 0x100 * (b[1] as int) + 0x1_0000 * (b[2] as int) + 0x100_0000 * (b[3] as int) == v
  {
    var q1 := v / 0x100;
    var q2 := q1 / 0x100;
    assert v == 0x100 * q1 + v % 0x100 && q1 == 0x100 * q2 + q1 % 0x100;
    [v % 0x100, q1 % 0x100, q2 % 0x100, q2 / 0x100]
  }

  /** Two's complement: a negative sample is stored as its value plus 2^16. */
  function Int16LE(v: int16): (b: seq<byte>)
    ensures |b| == 2 && b[0] as int + 0x100 * (b[1] as int) == v % 0x1_0000
  {
    UInt16LE(if v < 0 then v + 0x1_0000 else v)
  }

  function ReadUInt16LE(b: seq<byte>, offset: nat): int
    requires offset + 2 <= |b|
  {
    b[offset] as int + 0x100 * (b[offset + 1] as int)
  }

  function ReadUInt32LE(b: seq<byte>, offset: nat): int
    requires offset + 4 <= |b|
  {
    ReadUInt16LE(b, offset) + 0x1_0000 * ReadUInt16LE(b, offset + 2)
  }

  function ReadInt16LE(b: seq<byte>, offset: nat): int
    requires offset + 2 <= |b|
  {
    var u := ReadUInt16LE(b, offset);
    if u >= 0x8000 then u - 0x1_0000 else u
  }

  lemma UInt16LERoundTrip(v: int, b: seq<byte>, offset: nat)
    requires 0 <= v < 0x1_0000
    requires offset + 2 <= |b| && b[offset..offset + 2] == UInt16LE(v)
    ensures ReadUInt16LE(b, offset) == v
  {
    assert b[offset] == v % 0x100 && b[offset + 1] == v / 0x100 by {
      assert b[offset] == b[offset..offset + 2][0];
      assert b[offset + 1] == b[offset..offset + 2][1];
    }
  }

  lemma UInt32LERoundTrip(v: int, b: seq<byte>, offset: nat)
    requires 0 <= v < 0x1_0000_0000
    requires offset + 4 <= |b| && b[offset..offset + 4] == UInt32LE(v)
    ensures ReadUInt32LE(b, offset) == v
  {
    var w := b[offset..offset + 4];
    assert b[offset] == w[0] && b[offset + 1] == w[1];
    assert b[offset + 2] == w[2] && b[offset + 3] == w[3];
    var q1 := v / 0x100;
    var q2 := q1 / 0x100;
    assert v / 0x1_0000 == q2;
    assert v / 0x100_0000 == q2 / 0x100;
  }

  /** Decoding a stored sample gives the sample back. */
  lemma Int16LERoundTrip(v: int16, b: seq<byte>, offset: nat)
    requires offset + 2 <= |b| && b[offset..offset + 2] == Int16LE(v)
    ensures ReadInt16LE(b, offset) == v
  {
    UInt16LERoundTrip(if v < 0 then v + 0x1_0000 else v, b, offset);
  }

  // ---------------------------------------------------------------------------
  // The file
  // ---------------------------------------------------------------------------

  /** The byte count of the data chunk fits the 32-bit size field of the RIFF chunk. */
  predicate FitsRiffSize(sampleCount: nat) {
    36 + sampleCount * BytesPerSample < 0x1_0000_0000
  }

  /** The RIFF chunk's tag, its size (everything after these 8 bytes) and the form type. */
  function RiffDescriptor(dataSize: int): (b: seq<byte>)
    requires 0 <= dataSize && 36 + dataSize < 0x1_0000_0000
    ensures |b| == 12
  {
    Ascii("RIFF") + UInt32LE(36 + dataSize) + Ascii("WAVE")
  }

  /** The `fmt ` chunk: 16 bytes of PCM format for one 16-bit channel at 44100 Hz. */
  function FmtChunk(): (b: seq<byte>)
    ensures |b| == 24
  {
    Ascii("fmt ") + UInt32LE(16) + UInt16LE(1) + UInt16LE(1) + UInt32LE(SampleRate) +
    UInt32LE(SampleRate * BytesPerSample) + UInt16LE(BytesPerSample) + UInt16LE(16)
  }

  /** The tag and size of the `data` chunk. */
  function DataChunkHeader(dataSize: int): (b: seq<byte>)
    requires 0 <= dataSize < 0x1_0000_0000
    ensures |b| == 8
  {
    Ascii("data") + UInt32LE(dataSize)
  }

  function WavHeader(sampleCount: nat): (h: seq<byte>)
    requires FitsRiffSize(sampleCount)
    ensures |h| == HeaderSize
  {
    var dataSize := sampleCount * BytesPerSample;
    RiffDescriptor(dataSize) + FmtChunk() + DataChunkHeader(dataSize)
  }

  /** The data chunk: every sample in order, two bytes each. */
  function SampleBytes(samples: seq<int16>): (b: seq<byte>)
    ensures |b| == BytesPerSample * |samples|
  {
    if samples == [] then []
    else SampleBytes(samples[..|samples| - 1]) + Int16LE(samples[|samples| - 1])
  }

  /** The whole file `buildWavBuffer` produces. */
  function WavFile(samples: seq<int16>): (f: seq<byte>)
    requires FitsRiffSize(|samples|)
    ensures |f| == HeaderSize + BytesPerSample * |samples|
  {
    WavHeader(|samples|) + SampleBytes(samples)
  }

  /** Reads `count` samples back from a data chunk. */
  function DecodeSamples(data: seq<byte>, count: nat): (s: seq<int16>)
    requires 2 * count <= |data|
    ensures |s| == count
  {
    if count == 0 then []
    else
      var v := ReadInt16LE(data, 2 * (count - 1));
      DecodeSamples(data, count - 1) + [v as int16]
  }

  // ---------------------------------------------------------------------------
  // The serialiser
  // ---------------------------------------------------------------------------

  /** Stores `bytes` at `offset`, leaving every other byte as it was. */
  method Put(buffer: array<byte>, bytes: seq<byte>, offset: nat)
    requires offset + |bytes| <= buffer.Length
    modifies buffer
    ensures buffer[..offset + |bytes|] == old(buffer[..offset]) + bytes
    ensures buffer[offset + |bytes|..] == old(buffer[offset + |bytes|..])
  {
    forall k | offset <= k < offset + |bytes| {
      buffer[k] := bytes[k - offset];
    }
    assert buffer[..offset + |bytes|] == old(buffer[..offset]) + bytes;
  }

  /** `buffer.write(text, offset)` */
  method Write(buffer: array<byte>, text: string, offset: nat)
    requires IsAscii(text) && offset + |text| <= buffer.Length
    modifies buffer
    ensures buffer[..offset + |text|] == old(buffer[..offset]) + Ascii(text)
    ensures buffer[offset + |text|..] == old(buffer[offset + |text|..])
  {
    Put(buffer, Ascii(text), offset);
  }

  /** `buffer.writeUInt32LE(value, offset)` */
  method WriteUInt32LE(buffer: array<byte>, value: int, offset: nat)
    requires 0 <= value < 0x1_0000_0000 && offset + 4 <= buffer.Length
    modifies buffer
    ensures buffer[..offset + 4] == old(buffer[..offset]) + UInt32LE(value)
    ensures buffer[offset + 4..] == old(buffer[offset + 4..])
  {
    Put(buffer, UInt32LE(value), offset);
  }

  /** `buffer.writeUInt16LE(value, offset)` */
  method WriteUInt16LE(buffer: array<byte>, value: int, offset: nat)
    requires 0 <= value < 0x1_0000 && offset + 2 <= buffer.Length
    modifies buffer
    ensures buffer[..offset + 2] == old(buffer[..offset]) + UInt16LE(value)
    ensures buffer[offset + 2..] == old(buffer[offset + 2..])
  {
    Put(buffer, UInt16LE(value), offset);
  }

  /** `buffer.writeInt16LE(value, offset)` */
  method WriteInt16LE(buffer: array<byte>, value: int16, offset: nat)
    requires offset + 2 <= buffer.Length
    modifies buffer
    ensures buffer[..offset + 2] == old(buffer[..offset]) + Int16LE(value)
    ensures buffer[offset + 2..] == old(buffer[offset + 2..])
  {
    Put(buffer, Int16LE(value), offset);
  }

  /** The fixed-offset header writes of `buildWavBuffer`, in the order it makes them. */
  method WriteHeader(buffer: array<byte>, sampleCount: nat)
    requires FitsRiffSize(sampleCount) && buffer.Length == HeaderSize + sampleCount * BytesPerSample
    modifies buffer
    ensures buffer[..HeaderSize] == WavHeader(sampleCount)
    ensures buffer[HeaderSize..] == old(buffer[HeaderSize..])
  {
    var dataSize := sampleCount * BytesPerSample;
    WriteRiffDescriptor(buffer, dataSize);
    WriteFmtChunk(buffer);
    WriteDataChunkHeader(buffer, dataSize);
  }

  method WriteRiffDescriptor(buffer: array<byte>, dataSize: int)
    requires 0 <= dataSize && 36 + dataSize < 0x1_0000_0000 && HeaderSize <= buffer.Length
    modifies buffer
    ensures buffer[..12] == RiffDescriptor(dataSize)
    ensures buffer[12..] == old(buffer[12..])
  {
    ghost var rest := buffer[12..];
    Write(buffer, "RIFF", 0);
    assert buffer[12..] == buffer[4..][8..] == rest;
    WriteUInt32LE(buffer, 36 + dataSize, 4);
    assert buffer[..8] == Ascii("RIFF") + UInt32LE(36 + dataSize);
    assert buffer[12..] == buffer[8..][4..] == rest;
    Write(buffer, "WAVE", 8);
  }

  method WriteFmtChunk(buffer: array<byte>)
    requires HeaderSize <= buffer.Length
    modifies buffer
    ensures buffer[..36] == old(buffer[..12]) + FmtChunk()
    ensures buffer[36..] == old(buffer[36..])
  {
    ghost var before := buffer[..12];
    WriteFmtFormat(buffer);
    WriteFmtRates(buffer);
    assert FmtChunk() == (Ascii("fmt ") + UInt32LE(16) + UInt16LE(1) + UInt16LE(1)) +
                         (UInt32LE(SampleRate) + UInt32LE(SampleRate * BytesPerSample) +
                          UInt16LE(BytesPerSample) + UInt16LE(16));
  }

  /** Bytes 12 to 24: the `fmt ` tag, its size 16, PCM format 1 and one channel. */
  method WriteFmtFormat(buffer: array<byte>)
    requires HeaderSize <= buffer.Length
    modifies buffer
    ensures buffer[..24] == old(buffer[..12]) + (Ascii("fmt ") + UInt32LE(16) + UInt16LE(1) + UInt16LE(1))
    ensures buffer[24..] == old(buffer[24..])
  {
    // `written` is what the first bytes hold after each write, `rest` what follows byte 24.
    ghost var written := buffer[..12] + Ascii("fmt ");
    ghost var rest := buffer[24..];
    Write(buffer, "fmt ", 12);
    assert buffer[..16] == written && buffer[24..] == buffer[16..][8..] == rest;
    written := written + UInt32LE(16);
    WriteUInt32LE(buffer, 16, 16);
    assert buffer[..20] == written && buffer[24..] == buffer[20..][4..] == rest;
    written := written + UInt16LE(1);
    WriteUInt16LE(buffer, 1, 20);
    assert buffer[..22] == written && buffer[24..] == buffer[22..][2..] == rest;
    written := written + UInt16LE(1);
    WriteUInt16LE(buffer, 1, 22);
    assert buffer[..24] == written;
  }

  /** Bytes 24 to 36: sample rate, byte rate, block align and bits per sample. */
  method WriteFmtRates(buffer: array<byte>)
    requires HeaderSize <= buffer.Length
    modifies buffer
    ensures buffer[..36] == old(buffer[..24]) +
      (UInt32LE(SampleRate) + UInt32LE(SampleRate * BytesPerSample) +
       UInt16LE(BytesPerSample) + UInt16LE(16))
    ensures buffer[36..] == old(buffer[36..])
  {
    ghost var written := buffer[..24] + UInt32LE(SampleRate);
    ghost var rest := buffer[36..];
    WriteUInt32LE(buffer, SampleRate, 24);
    assert buffer[..28] == written && buffer[36..] == buffer[28..][8..] == rest;
    written := written + UInt32LE(SampleRate * BytesPerSample);
    WriteUInt32LE(buffer, SampleRate * BytesPerSample, 28);
    assert buffer[..32] == written && buffer[36..] == buffer[32..][4..] == rest;
    written := written + UInt16LE(BytesPerSample);
    WriteUInt16LE(buffer, BytesPerSample, 32);
    assert buffer[..34] == written && buffer[36..] == buffer[34..][2..] == rest;
    written := written + UInt16LE(16);
    WriteUInt16LE(buffer, 16, 34);
    assert buffer[..36] == written;
  }

  method WriteDataChunkHeader(buffer: array<byte>, dataSize: int)
    requires 0 <= dataSize < 0x1_0000_0000 && HeaderSize <= buffer.Length
    modifies buffer
    ensures buffer[..HeaderSize] == old(buffer[..36]) + DataChunkHeader(dataSize)
    ensures buffer[HeaderSize..] == old(buffer[HeaderSize..])
  {
    ghost var rest := buffer[HeaderSize..];
    Write(buffer, "data", 36);
    assert buffer[HeaderSize..] == buffer[40..][4..] == rest;
    WriteUInt32LE(buffer, dataSize, 40);
  }

  /** `buildWavBuffer`: allocates the file and fills it header first, then sample by sample. */
  method BuildWavBuffer(samples: seq<int16>) returns (buffer: array<byte>)
    requires FitsRiffSize(|samples|)
    ensures fresh(buffer)
    ensures buffer[..] == WavFile(samples)
  {
    var dataSize := |samples| * BytesPerSample;
    buffer := new byte[HeaderSize + dataSize];
    WriteHeader(buffer, |samples|);

    ghost var header := WavHeader(|samples|);
    assert samples[..0] == [];
    assert buffer[..HeaderSize + 0 * BytesPerSample] == header + SampleBytes(samples[..0]);
    var i := 0;
    while i < |samples|
      invariant 0 <= i <= |samples|
      invariant buffer.Length == HeaderSize + dataSize
      invariant buffer[..HeaderSize + i * BytesPerSample] == header + SampleBytes(samples[..i])
    {
      var offset := HeaderSize + i * BytesPerSample;
      ghost var written := buffer[..offset];
      WriteInt16LE(buffer, samples[i], offset);
      assert buffer[..offset + 2] == written + Int16LE(samples[i]);
      assert samples[..i + 1][..i] == samples[..i];
      assert SampleBytes(samples[..i + 1]) == SampleBytes(samples[..i]) + Int16LE(samples[i]);
      assert offset + 2 == HeaderSize + (i + 1) * BytesPerSample;
      assert written + Int16LE(samples[i])
             == header + (SampleBytes(samples[..i]) + Int16LE(samples[i]));
      i := i + 1;
    }
    assert samples[..i] == samples;
    assert buffer[..] == buffer[..HeaderSize + i * BytesPerSample];
  }

  // ---------------------------------------------------------------------------
  // Properties of the file
  // ---------------------------------------------------------------------------

  /** The file starts with the RIFF descriptor, the `fmt ` chunk and the data chunk header. */
  lemma FileChunks(samples: seq<int16>)
    requires FitsRiffSize(|samples|)
    ensures var f := WavFile(samples);
      var dataSize := BytesPerSample * |samples|;
      f[..12] == RiffDescriptor(dataSize) && f[12..36] == FmtChunk() &&
      f[36..HeaderSize] == DataChunkHeader(dataSize)
  {
    var f := WavFile(samples);
    var dataSize := BytesPerSample * |samples|;
    var riff, fmt, data := RiffDescriptor(dataSize), FmtChunk(), DataChunkHeader(dataSize);
    assert f == riff + fmt + data + SampleBytes(samples);
    assert f[..12] == riff;
    assert f[12..36] == fmt;
    assert f[36..HeaderSize] == data;
  }

  /** The four chunk tags sit at offsets 0, 8, 12 and 36. */
  lemma WavTags(samples: seq<int16>)
    requires FitsRiffSize(|samples|)
    ensures var f := WavFile(samples);
      f[0..4] == Ascii("RIFF") && f[8..12] == Ascii("WAVE") &&
      f[12..16] == Ascii("fmt ") && f[36..40] == Ascii("data")
  {
    var f := WavFile(samples);
    var dataSize := BytesPerSample * |samples|;
    FileChunks(samples);
    assert f[0..4] == f[..12][0..4] == RiffDescriptor(dataSize)[0..4];
    assert f[8..12] == f[..12][8..12] == RiffDescriptor(dataSize)[8..12];
    assert f[12..16] == f[12..36][0..4] == FmtChunk()[0..4];
    assert f[36..40] == f[36..HeaderSize][0..4] == DataChunkHeader(dataSize)[0..4];
  }

  /**
   * The little-endian fields of the header: the RIFF size 36 + data size, a
   * 16-byte PCM `fmt ` chunk for one channel at 44100 Hz (88200 bytes per
   * second, blocks of 2 bytes, 16 bits per sample), and the data size.
   */
  lemma WavHeaderFields(samples: seq<int16>)
    requires FitsRiffSize(|samples|)
    ensures var f := WavFile(samples);
      var dataSize := BytesPerSample * |samples|;
      ReadUInt32LE(f, 4) == 36 + dataSize &&
      ReadUInt32LE(f, 16) == 16 &&
      ReadUInt16LE(f, 20) == 1 &&
      ReadUInt16LE(f, 22) == 1 &&
      ReadUInt32LE(f, 24) == SampleRate &&
      ReadUInt32LE(f, 28) == SampleRate * BytesPerSample &&
      ReadUInt16LE(f, 32) == BytesPerSample &&
      ReadUInt16LE(f, 34) == 16 &&
      ReadUInt32LE(f, 40) == dataSize
  {
    var f := WavFile(samples);
    var dataSize := BytesPerSample * |samples|;
    FileChunks(samples);
    assert f[4..8] == UInt32LE(36 + dataSize) by {
      assert f[4..8] == f[..12][4..8];
      assert RiffDescriptor(dataSize)[4..8] == UInt32LE(36 + dataSize);
    }
    UInt32LERoundTrip(36 + dataSize, f, 4);
    FmtFields(f, 12);
    assert f[40..44] == UInt32LE(dataSize) by {
      assert f[40..44] == f[36..HeaderSize][4..8];
    }
    UInt32LERoundTrip(dataSize, f, 40);
  }

  /** The fields of a `fmt ` chunk stored at `offset`. */
  lemma FmtFields(b: seq<byte>, offset: nat)
    requires offset + 24 <= |b| && b[offset..offset + 24] == FmtChunk()
    ensures ReadUInt32LE(b, offset + 4) == 16
    ensures ReadUInt16LE(b, offset + 8) == 1 && ReadUInt16LE(b, offset + 10) == 1
    ensures ReadUInt32LE(b, offset + 12) == SampleRate
    ensures ReadUInt32LE(b, offset + 16) == SampleRate * BytesPerSample
    ensures ReadUInt16LE(b, offset + 20) == BytesPerSample
    ensures ReadUInt16LE(b, offset + 22) == 16
  {
    FmtChunkBytes();
    var c := b[offset..offset + 24];
    forall k | 0 <= k < 24 ensures b[offset + k] == c[k] {
    }
  }

  /** The `fmt ` chunk byte by byte: 44100 is 0xAC44 and 88200 is 0x15888. */
  lemma FmtChunkBytes()
    ensures FmtChunk() == [0x66, 0x6D, 0x74, 0x20, 16, 0, 0, 0, 1, 0, 1, 0,
                           0x44, 0xAC, 0, 0, 0x88, 0x58, 0x01, 0, 2, 0, 16, 0]
  {
    assert Ascii("fmt ") == [0x66, 0x6D, 0x74, 0x20];
    assert UInt32LE(SampleRate) == [0x44, 0xAC, 0, 0];
    assert UInt32LE(SampleRate * BytesPerSample) == [0x88, 0x58, 0x01, 0];
  }

  /** Sample `i` is stored, and only it, at offsets `2i` and `2i + 1` of the data chunk. */
  lemma {:induction false} SampleBytesAt(samples: seq<int16>, i: nat)
    requires i < |samples|
    ensures SampleBytes(samples)[2 * i..2 * i + 2] == Int16LE(samples[i])
    decreases |samples|
  {
    var n := |samples|;
    var init := samples[..n - 1];
    var front := SampleBytes(init);
    assert |front| == 2 * n - 2;
    assert SampleBytes(samples) == front + Int16LE(samples[n - 1]);
    if i < n - 1 {
      SampleBytesAt(init, i);
      assert 2 * i + 2 <= |front|;
      assert SampleBytes(samples)[2 * i..2 * i + 2] == front[2 * i..2 * i + 2];
    } else {
      assert 2 * i == |front|;
    }
  }

  /** Every sample can be read back from its own two bytes of the file. */
  lemma WavSampleAt(samples: seq<int16>, i: nat)
    requires FitsRiffSize(|samples|) && i < |samples|
    ensures var f := WavFile(samples);
      f[HeaderSize + 2 * i..HeaderSize + 2 * i + 2] == Int16LE(samples[i]) &&
      ReadInt16LE(f, HeaderSize + 2 * i) == samples[i]
  {
    var f := WavFile(samples);
    SampleBytesAt(samples, i);
    assert f[HeaderSize + 2 * i..HeaderSize + 2 * i + 2]
           == SampleBytes(samples)[2 * i..2 * i + 2];
    Int16LERoundTrip(samples[i], f, HeaderSize + 2 * i);
  }

  /** Decoding the data chunk recovers the sample sequence exactly. */
  lemma {:induction false} DecodeSampleBytes(samples: seq<int16>, data: seq<byte>, count: nat)
    requires count <= |samples| && 2 * count <= |data|
    requires forall i :: 0 <= i < count ==> data[2 * i..2 * i + 2] == Int16LE(samples[i])
    ensures DecodeSamples(data, count) == samples[..count]
    decreases count
  {
    if count > 0 {
      DecodeSampleBytes(samples, data, count - 1);
      Int16LERoundTrip(samples[count - 1], data, 2 * (count - 1));
      assert samples[..count] == samples[..count - 1] + [samples[count - 1]];
    }
  }

  lemma WavRoundTrip(samples: seq<int16>)
    requires FitsRiffSize(|samples|)
    ensures var f := WavFile(samples);
      DecodeSamples(f[HeaderSize..], |samples|) == samples
  {
    var f := WavFile(samples);
    assert f[HeaderSize..] == SampleBytes(samples);
    forall i | 0 <= i < |samples|
      ensures f[HeaderSize..][2 * i..2 * i + 2] == Int16LE(samples[i])
    {
      SampleBytesAt(samples, i);
    }
    DecodeSampleBytes(samples, f[HeaderSize..], |samples|);
    assert samples[..|samples|] == samples;
  }

  /** The header depends on the number of samples only, never on their values. */
  lemma HeaderIgnoresSampleValues(s1: seq<int16>, s2: seq<int16>)
    requires FitsRiffSize(|s1|) && |s1| == |s2|
    ensures WavFile(s1)[..HeaderSize] == WavFile(s2)[..HeaderSize]
  {
    assert WavFile(s1)[..HeaderSize] == WavHeader(|s1|);
    assert WavFile(s2)[..HeaderSize] == WavHeader(|s2|);
  }

  /** Every byte after the header is one of the two bytes of one sample. */
  lemma DataByte(samples: seq<int16>, k: nat)
    requires FitsRiffSize(|samples|) && HeaderSize <= k < |WavFile(samples)|
    ensures var j := (k - HeaderSize) / 2;
      j < |samples| && WavFile(samples)[k] == Int16LE(samples[j])[(k - HeaderSize) % 2]
  {
    var f := WavFile(samples);
    var j := (k - HeaderSize) / 2;
    var o := HeaderSize + 2 * j;
    WavSampleAt(samples, j);
    assert f[k] == f[o..o + 2][k - o];
  }

  /** Changing sample `i` changes no byte outside its own two. */
  lemma SampleChangeIsLocal(s1: seq<int16>, s2: seq<int16>, i: nat)
    requires FitsRiffSize(|s1|) && |s1| == |s2| && i < |s1|
    requires forall j :: 0 <= j < |s1| && j != i ==> s1[j] == s2[j]
    ensures |WavFile(s1)| == |WavFile(s2)|
    ensures forall k :: 0 <= k < |WavFile(s1)| && k != HeaderSize + 2 * i && k != HeaderSize + 2 * i + 1
              ==> WavFile(s1)[k] == WavFile(s2)[k]
  {
    var f1, f2 := WavFile(s1), WavFile(s2);
    HeaderIgnoresSampleValues(s1, s2);
    forall k | 0 <= k < |f1| && k != HeaderSize + 2 * i && k != HeaderSize + 2 * i + 1
      ensures f1[k] == f2[k]
    {
      if k < HeaderSize {
        assert f1[k] == f1[..HeaderSize][k];
        assert f2[k] == f2[..HeaderSize][k];
      } else {
        DataByte(s1, k);
        DataByte(s2, k);
      }
    }
  }
}
