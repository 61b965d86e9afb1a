/** `writeString` and `createWavBlob` of components/OutputSection.tsx: a
    44-byte RIFF WAVE header for mono 16-bit PCM is filled in place through a
    `DataView` and followed by the raw PCM bytes. The `DataView` over the
    header's `ArrayBuffer` is an array of bytes here. */
module Wav {
  import opened JsText
  import opened Bytes
  import opened Seqs

  /** `writeString(view, offset, string)`: character `i` goes to byte
      `offset + i`; no other byte changes. */
  method WriteString(view: array<Byte>, offset: nat, s: string)
    requires offset + |s| <= view.Length
    modifies view
    ensures view[..] == old(view[..offset]) + Codes(s) + old(view[offset + |s|..])
    ensures view[..offset + |s|] == old(view[..offset]) + Codes(s)
    ensures forall i :: offset + |s| <= i < view.Length ==> view[i] == old(view[i])
  {
    for i := 0 to |s|
      invariant view[..offset] == old(view[..offset])
      invariant view[offset..offset + i] == Codes(s)[..i]
      invariant view[offset + i..] == old(view[offset + i..])
    {
      view[offset + i] := s[i] as int % 256;
      assert view[offset..offset + i + 1] == view[offset..offset + i] + [view[offset + i]];
    }
    assert view[..] == view[..offset] + view[offset..offset + |s|] + view[offset + |s|..];
  }

  /** Stores the `width` low-order bytes of `v`, least significant first,
      as `setUint16`/`setUint32` with `littleEndian` set do. */
  method StoreLE(view: array<Byte>, offset: nat, v: nat, width: nat)
    requires offset + width <= view.Length
    modifies view
    ensures view[..] == old(view[..offset]) + LE(v, width) + old(view[offset + width..])
    ensures view[..offset + width] == old(view[..offset]) + LE(v, width)
    ensures forall i :: offset + width <= i < view.Length ==> view[i] == old(view[i])
  {
    var x := v;
    for k := 0 to width
      invariant view[..offset] == old(view[..offset])
      invariant view[offset..offset + k] + LE(x, width - k) == LE(v, width)
      invariant view[offset + k..] == old(view[offset + k..])
    {
      view[offset + k] := x % 256;
      assert LE(x, width - k) == [x % 256] + LE(x / 256, width - k - 1);
      assert view[offset..offset + k + 1] == view[offset..offset + k] + [x % 256];
      x := x / 256;
    }
    assert view[offset..offset + width] == LE(v, width) by {
      assert LE(x, 0) == [];
    }
    Joined3(view[..], offset, offset + width);
    assert view[..offset + width] == view[..offset] + view[offset..offset + width];
  }

  /** `view.setUint16(offset, v, true)`. */
  method SetUint16(view: array<Byte>, offset: nat, v: int)
    requires offset + 2 <= view.Length
    modifies view
    ensures view[..] == old(view[..offset]) + U16(v) + old(view[offset + 2..])
    ensures view[..offset + 2] == old(view[..offset]) + U16(v)
    ensures forall i :: offset + 2 <= i < view.Length ==> view[i] == old(view[i])
  {
    StoreLE(view, offset, v % 0x1_0000, 2);
  }

  /** `view.setUint32(offset, v, true)`. */
  method SetUint32(view: array<Byte>, offset: nat, v: int)
    requires offset + 4 <= view.Length
    modifies view
    ensures view[..] == old(view[..offset]) + U32(v) + old(view[offset + 4..])
    ensures view[..offset + 4] == old(view[..offset]) + U32(v)
    ensures forall i :: offset + 4 <= i < view.Length ==> view[i] == old(view[i])
  {
    StoreLE(view, offset, v % 0x1_0000_0000, 4);
  }

  /** The RIFF chunk descriptor: tag, size of the rest of the file, format. */
  function RiffDescriptor(dataLength: nat): (r: seq<Byte>)
    ensures |r| == 12
  {
    Codes("RIFF") + U32(36 + dataLength) + Codes("WAVE")
  }

  /** The first half of the `fmt ` sub-chunk: tag, size 16, audio format 1
      (PCM) and one channel. */
  function FmtFormatFields(): (r: seq<Byte>)
    ensures |r| == 12
  {
    Codes("fmt ") + U32(16) + U16(1) + U16(1)
  }

  /** The second half of the `fmt ` sub-chunk: the sample rate, the byte
      rate `sampleRate * 2`, block align 2 and 16 bits per sample. */
  function FmtRateFields(sampleRate: int): (r: seq<Byte>)
    ensures |r| == 12
  {
    U32(sampleRate) + U32(sampleRate * 2) + U16(2) + U16(16)
  }

  function FmtSubchunk(sampleRate: int): (r: seq<Byte>)
    ensures |r| == 24
  {
    FmtFormatFields() + FmtRateFields(sampleRate)
  }

  /** The `data` sub-chunk header: tag and byte count of the samples. */
  function DataSubchunkHeader(dataLength: nat): (r: seq<Byte>)
    ensures |r| == 8
  {
    Codes("data") + U32(dataLength)
  }

  /** The header `createWavBlob` writes for `dataLength` bytes of mono
      16-bit PCM at `sampleRate`. */
  function WavHeader(dataLength: nat, sampleRate: int): (h: seq<Byte>)
    ensures |h| == 44
  {
    RiffDescriptor(dataLength) + FmtSubchunk(sampleRate) + DataSubchunkHeader(dataLength)
  }

  /** The contents of the blob `createWavBlob(pcm, sampleRate)` returns. */
  function WavFile(pcm: seq<Byte>, sampleRate: int): (f: seq<Byte>)
    ensures |f| == 44 + |pcm|
  {
    WavHeader(|pcm|, sampleRate) + pcm
  }

  /** Each writer below fills the next field group of the header: it states
      the header's prefix up to the end of that group, and that the bytes
      after the group keep their values. */
  method WriteRiffDescriptor(view: array<Byte>, dataLength: nat)
    requires view.Length == 44
    modifies view
    ensures view[..12] == RiffDescriptor(dataLength)
    ensures view[12..] == old(view[12..])
  {
    WriteString(view, 0, "RIFF");
    SetUint32(view, 4, 36 + dataLength);
    WriteString(view, 8, "WAVE");
    assert view[..0] == [];
  }

  method WriteFmtFormatFields(view: array<Byte>)
    requires view.Length == 44
    modifies view
    ensures view[..24] == old(view[..12]) + FmtFormatFields()
    ensures view[24..] == old(view[24..])
  {
    WriteString(view, 12, "fmt ");
    SetUint32(view, 16, 16);
    SetUint16(view, 20, 1);
    SetUint16(view, 22, 1);
    Append4(old(view[..12]), Codes("fmt "), U32(16), U16(1), U16(1));
    assert view[24..] == old(view[24..]) by {
      assert forall i :: 24 <= i < 44 ==> view[i] == old(view[i]);
    }
  }

  method WriteFmtRateFields(view: array<Byte>, sampleRate: int)
    requires view.Length == 44
    modifies view
    ensures view[..36] == old(view[..24]) + FmtRateFields(sampleRate)
    ensures view[36..] == old(view[36..])
  {
    SetUint32(view, 24, sampleRate);
    SetUint32(view, 28, sampleRate * 2);
    SetUint16(view, 32, 2);
    SetUint16(view, 34, 16);
    Append4(old(view[..24]), U32(sampleRate), U32(sampleRate * 2), U16(2), U16(16));
    assert view[36..] == old(view[36..]) by {
      assert forall i :: 36 <= i < 44 ==> view[i] == old(view[i]);
    }
  }

  method WriteDataSubchunkHeader(view: array<Byte>, dataLength: nat)
    requires view.Length == 44
    modifies view
    ensures view[..] == old(view[..36]) + DataSubchunkHeader(dataLength)
  {
    WriteString(view, 36, "data");
    SetUint32(view, 40, dataLength);
    assert view[..] == view[..44];
  }

  /** `createWavBlob(pcmData, sampleRate)`: a fresh 44-byte header written
      field by field, then the samples. */
  method CreateWavBlob(pcm: seq<Byte>, sampleRate: int) returns (blob: seq<Byte>)
    ensures blob == WavFile(pcm, sampleRate)
  {
    var header := new Byte[44];
    WriteRiffDescriptor(header, |pcm|);
    WriteFmtFormatFields(header);
    WriteFmtRateFields(header, sampleRate);
    WriteDataSubchunkHeader(header, |pcm|);
    Regroup5(RiffDescriptor(|pcm|), FmtFormatFields(), FmtRateFields(sampleRate), DataSubchunkHeader(|pcm|), pcm);
    blob := header[..] + pcm;
  }

  // ---------------------------------------------------------------------
  // The partner: reading such a file back.

  /** What a mono 16-bit PCM WAVE file carries. */
  datatype WavInfo = WavInfo(sampleRate: nat, pcm: seq<Byte>)

  /** The RIFF size field of a well-formed chunk descriptor. */
  function ParseRiffDescriptor(c: seq<Byte>): (r: Option<nat>)
    requires |c| == 12
  {
    if c[0..4] == Codes("RIFF") && c[8..12] == Codes("WAVE") then Some(FromLE(c[4..8])) else None
  }

  /** The sample rate of the second half of a `fmt ` sub-chunk, when the
      byte rate, block align and sample width are those of mono 16-bit PCM. */
  function ParseFmtRateFields(c: seq<Byte>): (r: Option<nat>)
    requires |c| == 12
    ensures r.Some? ==> r.value < 0x1_0000_0000
  {
    var rate := FromLE(c[0..4]);
    if FromLE(c[4..8]) == rate * 2 % 0x1_0000_0000 && FromLE(c[8..10]) == 2 && FromLE(c[10..12]) == 16
    then Some(rate)
    else None
  }

  /** The sample rate of a well-formed mono 16-bit PCM `fmt ` sub-chunk: its
      first half must be exactly the tag, size, format and channel count. */
  function ParseFmtSubchunk(c: seq<Byte>): (r: Option<nat>)
    requires |c| == 24
    ensures r.Some? ==> r.value < 0x1_0000_0000
  {
    if c[0..12] == FmtFormatFields() then ParseFmtRateFields(c[12..24]) else None
  }

  /** The byte count of a well-formed `data` sub-chunk header. */
  function ParseDataSubchunkHeader(c: seq<Byte>): (r: Option<nat>)
    requires |c| == 8
  {
    if c[0..4] == Codes("data") then Some(FromLE(c[4..8])) else None
  }

  /** Reads a canonical 44-byte-header mono 16-bit PCM WAVE file: every tag
      and format field must be the expected one and both size fields must
      agree with the length of the file. */
  function ParseWav(f: seq<Byte>): (r: Option<WavInfo>)
    ensures r.Some? ==> |f| >= 44 && r.value.pcm == f[44..] && r.value.sampleRate < 0x1_0000_0000
  {
    if |f| < 44 then None
    else match (ParseRiffDescriptor(f[0..12]), ParseFmtSubchunk(f[12..36]), ParseDataSubchunkHeader(f[36..44]))
      case (Some(size), Some(rate), Some(n)) =>
        if size == |f| - 8 && n == |f| - 44 then Some(WavInfo(rate, f[44..]))
        else None
      case _ => None
  }

  lemma ParseRiffDescriptorOf(n: nat)
    requires 36 + n < 0x1_0000_0000
    ensures ParseRiffDescriptor(RiffDescriptor(n)) == Some(36 + n)
  {
    Parts3(Codes("RIFF"), U32(36 + n), Codes("WAVE"));
  }

  lemma ParseFmtRateFieldsOf(rate: int)
    requires 0 <= rate < 0x1_0000_0000
    ensures ParseFmtRateFields(FmtRateFields(rate)) == Some(rate)
  {
    var c := FmtRateFields(rate);
    Parts4(U32(rate), U32(rate * 2), U16(2), U16(16));
    RateFieldsRead(c, rate);
  }

  /** The reader accepts twelve bytes whose fields hold `rate`, its double,
      2 and 16. */
  lemma RateFieldsRead(c: seq<Byte>, rate: nat)
    requires |c| == 12 && rate < 0x1_0000_0000
    requires FromLE(c[0..4]) == rate % 0x1_0000_0000
    requires FromLE(c[4..8]) == rate * 2 % 0x1_0000_0000
    requires FromLE(c[8..10]) == 2 % 0x1_0000 && FromLE(c[10..12]) == 16 % 0x1_0000
    ensures ParseFmtRateFields(c) == Some(rate)
  {
  }

  lemma ParseFmtSubchunkOf(rate: int)
    requires 0 <= rate < 0x1_0000_0000
    ensures ParseFmtSubchunk(FmtSubchunk(rate)) == Some(rate)
  {
    var c := FmtSubchunk(rate);
    assert c[0..12] == FmtFormatFields() && c[12..24] == FmtRateFields(rate) by {
      Parts2(FmtFormatFields(), FmtRateFields(rate));
    }
    ParseFmtRateFieldsOf(rate);
  }

  lemma ParseDataSubchunkHeaderOf(n: nat)
    requires n < 0x1_0000_0000
    ensures ParseDataSubchunkHeader(DataSubchunkHeader(n)) == Some(n)
  {
    var c := DataSubchunkHeader(n);
    Parts2(Codes("data"), U32(n));
    assert c[0..4] == Codes("data") && FromLE(c[4..8]) == n;
  }

  lemma RiffDescriptorOfParse(c: seq<Byte>, n: nat)
    requires |c| == 12 && ParseRiffDescriptor(c) == Some(36 + n)
    ensures c == RiffDescriptor(n)
  {
    FieldIs32(c[4..8], 36 + n);
    Joined3(c, 4, 8);
  }

  lemma FmtRateFieldsOfParse(c: seq<Byte>)
    requires |c| == 12 && ParseFmtRateFields(c).Some?
    ensures c == FmtRateFields(ParseFmtRateFields(c).value)
  {
    var rate := ParseFmtRateFields(c).value;
    FieldIs32(c[0..4], rate);
    FieldIs32(c[4..8], rate * 2);
    FieldIs16(c[8..10], 2);
    FieldIs16(c[10..12], 16);
    Joined4(c, 4, 8, 10);
  }

  lemma FmtSubchunkOfParse(c: seq<Byte>)
    requires |c| == 24 && ParseFmtSubchunk(c).Some?
    ensures c == FmtSubchunk(ParseFmtSubchunk(c).value)
  {
    FmtRateFieldsOfParse(c[12..24]);
    Joined3(c, 12, 24);
  }

  lemma DataSubchunkHeaderOfParse(c: seq<Byte>)
    requires |c| == 8 && ParseDataSubchunkHeader(c).Some?
    ensures c == DataSubchunkHeader(ParseDataSubchunkHeader(c).value)
  {
    FieldIs32(c[4..8], ParseDataSubchunkHeader(c).value);
    Joined3(c, 4, 8);
  }

  /** Reading back the blob gives the samples and the rate, as long as the
      RIFF size field and the rate fit in 32 bits. */
  lemma ParseWavFile(pcm: seq<Byte>, sampleRate: int)
    requires 36 + |pcm| < 0x1_0000_0000 && 0 <= sampleRate < 0x1_0000_0000
    ensures ParseWav(WavFile(pcm, sampleRate)) == Some(WavInfo(sampleRate, pcm))
  {
    Parts4(RiffDescriptor(|pcm|), FmtSubchunk(sampleRate), DataSubchunkHeader(|pcm|), pcm);
    ParseRiffDescriptorOf(|pcm|);
    ParseFmtSubchunkOf(sampleRate);
    ParseDataSubchunkHeaderOf(|pcm|);
  }

  /** Every file the reader accepts is exactly the blob `createWavBlob`
      builds from the samples and rate it reports. */
  lemma ParseWavOnlyWavFiles(f: seq<Byte>)
    requires ParseWav(f).Some?
    ensures var info := ParseWav(f).value; f == WavFile(info.pcm, info.sampleRate)
  {
    var info := ParseWav(f).value;
    assert ParseRiffDescriptor(f[0..12]) == Some(36 + |info.pcm|);
    assert ParseFmtSubchunk(f[12..36]) == Some(info.sampleRate);
    assert ParseDataSubchunkHeader(f[36..44]) == Some(|info.pcm|);
    RiffDescriptorOfParse(f[0..12], |info.pcm|);
    FmtSubchunkOfParse(f[12..36]);
    DataSubchunkHeaderOfParse(f[36..44]);
    Joined4(f, 12, 36, 44);
  }

  /** A 4-byte field holding `v` modulo 2^32 is the field `setUint32` writes for `v`. */
  lemma FieldIs32(b: seq<Byte>, v: int)
    requires |b| == 4 && FromLE(b) == v % 0x1_0000_0000
    ensures b == U32(v)
  {
    LEOfFromLE(b);
  }

  /** A 2-byte field holding `v` modulo 2^16 is the field `setUint16` writes for `v`. */
  lemma FieldIs16(b: seq<Byte>, v: int)
    requires |b| == 2 && FromLE(b) == v % 0x1_0000
    ensures b == U16(v)
  {
    LEOfFromLE(b);
  }
}
