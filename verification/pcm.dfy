/** The audio helpers of components/OutputSection.tsx that turn the speech
    service's base64 payload into samples: `base64ToUint8Array` and
    `decodePCM` (raw little-endian signed 16-bit mono PCM at 24 kHz, each
    sample scaled into [-1, 1) by dividing by 32768). */
module Pcm {
  import opened JsText
  import opened Bytes
  import opened Base64

  /** The rate `decodePCM` is called with and the WAV export uses. */
  const SampleRate := 24000

  // ---------------------------------------------------------------------
  // base64ToUint8Array

  /** What `base64ToUint8Array(s)` returns; None where `atob` throws. */
  function BytesOfBase64(s: string): (r: Option<seq<Byte>>)
    ensures r.None? <==> Atob(s).None?
    ensures r.Some? ==> |r.value| == |Atob(s).value|
  {
    match Atob(s)
    case None => None
    case Some(bin) => Some(Codes(bin))
  }

  /** `base64ToUint8Array(base64)`: the binary string's codes copied one by
      one into a fresh byte array. */
  method Base64ToUint8Array(base64: string) returns (r: Option<seq<Byte>>)
    ensures r == BytesOfBase64(base64)
  {
    var decoded := Atob(base64);
    if decoded.None? {
      return None;
    }
    var binaryString := decoded.value;
    var len := |binaryString|;
    var bytes := new Byte[len];
    for i := 0 to len
      invariant bytes[..i] == Codes(binaryString)[..i]
    {
      bytes[i] := binaryString[i] as int % 256;
      assert bytes[..i + 1] == bytes[..i] + [bytes[i]];
    }
    assert bytes[..] == bytes[..len];
    assert Codes(binaryString)[..len] == Codes(binaryString);
    r := Some(bytes[..]);
  }

  /** The payload round trip: the bytes encoded by `btoa` come back
      unchanged. */
  lemma BytesOfBase64Btoa(b: seq<Byte>)
    ensures BytesOfBase64(Btoa(b)) == Some(b)
  {
    AtobBtoa(b);
    var bin := Atob(Btoa(b)).value;
    assert bin == BinaryString(b);
    assert Codes(bin) == Codes(BinaryString(b));
    CodesOfBinaryString(b);
  }

  /** Reading the codes of a binary string back gives its bytes. */
  lemma CodesOfBinaryString(b: seq<Byte>)
    ensures Codes(BinaryString(b)) == b
  {
    var r := Codes(BinaryString(b));
    forall i | 0 <= i < |b| ensures r[i] == b[i] {
      assert BinaryString(b)[i] as int == b[i];
    }
  }

  // ---------------------------------------------------------------------
  // decodePCM

  /** The signed 16-bit integer a little-endian `Int16Array` element with
      bytes `lo`, `hi` holds (two's complement). */
  function Int16(lo: Byte, hi: Byte): (v: int)
    ensures -0x8000 <= v < 0x8000
    ensures (v - FromLE([lo, hi])) % 0x1_0000 == 0
  {
    var u := lo + 256 * hi;
    assert FromLE([lo, hi]) == u by { assert [lo, hi][1..] == [hi]; }
    if u >= 0x8000 then u - 0x1_0000 else u
  }

  /** Storing the element back (as `setInt16`/`setUint16` do, modulo 2^16)
      gives the two bytes it was read from. */
  lemma Int16Bytes(lo: Byte, hi: Byte)
    ensures U16(Int16(lo, hi)) == [lo, hi]
  {
    var v := Int16(lo, hi);
    assert v % 0x1_0000 == FromLE([lo, hi]);
    LEOfFromLE([lo, hi]);
  }

  /** The `Int16Array` view of the bytes, which must be of even length. */
  function Int16View(data: seq<Byte>): (r: seq<int>)
    requires |data| % 2 == 0
    ensures |r| == |data| / 2
    ensures forall i :: 0 <= i < |r| ==> r[i] == Int16(data[2 * i], data[2 * i + 1])
  {
    seq(|data| / 2, i requires 0 <= i < |data| / 2 => Int16(data[2 * i], data[2 * i + 1]))
  }

  /** The channel data `decodePCM(data, ctx)` fills in; None where it throws:
      an odd byte count (`new Int16Array` rejects the buffer) or none at all
      (`createBuffer` rejects a zero-length buffer). */
  function PcmSamples(data: seq<Byte>): (r: Option<seq<real>>)
    ensures r.None? <==> |data| % 2 == 1 || |data| == 0
    ensures r.Some? ==> |r.value| == |data| / 2
  {
    if |data| % 2 == 1 || |data| == 0 then None
    else
      var ints := Int16View(data);
      Some(seq(|ints|, i requires 0 <= i < |ints| => ints[i] as real / 32768.0))
  }

  /** Every sample lies in [-1, 32767/32768]. */
  lemma PcmSamplesInRange(data: seq<Byte>)
    requires PcmSamples(data).Some?
    ensures var s := PcmSamples(data).value;
      forall i :: 0 <= i < |s| ==> -1.0 <= s[i] <= 32767.0 / 32768.0
  {
    var s := PcmSamples(data).value;
    forall i | 0 <= i < |s| ensures -1.0 <= s[i] <= 32767.0 / 32768.0 {
      var v := Int16(data[2 * i], data[2 * i + 1]);
      assert s[i] == v as real / 32768.0;
    }
  }

  /** The partner of the decoder: each sample scaled back to a 16-bit
      integer and stored little-endian. */
  function EncodePcm(samples: seq<real>): (data: seq<Byte>)
    ensures |data| == 2 * |samples|
  {
    if samples == [] then []
    else U16((samples[0] * 32768.0).Floor) + EncodePcm(samples[1..])
  }

  /** Multiplying a scaled sample by 32768 gives back the integer. */
  lemma ScaleBack(v: int)
    ensures (v as real / 32768.0 * 32768.0).Floor == v
  {
    assert v as real / 32768.0 * 32768.0 == v as real;
  }

  /** The samples after the first are the samples of the bytes after the
      first two. */
  lemma PcmSamplesTail(data: seq<Byte>)
    requires PcmSamples(data).Some? && |data| > 2
    ensures PcmSamples(data[2..]).Some?
    ensures PcmSamples(data[2..]).value == PcmSamples(data).value[1..]
  {
    var s := PcmSamples(data).value;
    var rest := data[2..];
    var t := PcmSamples(rest).value;
    forall i | 0 <= i < |t| ensures t[i] == s[1..][i] {
      assert rest[2 * i] == data[2 * (i + 1)] && rest[2 * i + 1] == data[2 * (i + 1) + 1];
    }
  }

  /** A sample scaled from a 16-bit integer re-encodes to that integer's
      two bytes. */
  lemma EncodeFirst(x: real, v: int, rest: seq<real>)
    requires x == v as real / 32768.0
    ensures EncodePcm([x] + rest) == U16(v) + EncodePcm(rest)
  {
    ScaleBack(v);
    assert ([x] + rest)[1..] == rest;
  }

  /** The first sample re-encodes to the first two bytes. */
  lemma EncodePcmHead(data: seq<Byte>)
    requires PcmSamples(data).Some?
    ensures var s := PcmSamples(data).value;
      EncodePcm(s) == [data[0], data[1]] + EncodePcm(s[1..])
  {
    var s := PcmSamples(data).value;
    var v := Int16(data[0], data[1]);
    assert s == [s[0]] + s[1..];
    EncodeFirst(s[0], v, s[1..]);
    Int16Bytes(data[0], data[1]);
  }

  /** Scaling by 1/32768 loses nothing: re-encoding the decoded samples gives
      the original bytes. */
  lemma {:induction false} EncodePcmSamples(data: seq<Byte>)
    requires PcmSamples(data).Some?
    ensures EncodePcm(PcmSamples(data).value) == data
    decreases |data|
  {
    var s := PcmSamples(data).value;
    EncodePcmHead(data);
    if |data| > 2 {
      PcmSamplesTail(data);
      EncodePcmSamples(data[2..]);
      assert EncodePcm(s[1..]) == EncodePcm(PcmSamples(data[2..]).value);
      assert data == [data[0], data[1]] + data[2..];
    } else {
      assert s[1..] == [];
      assert data == [data[0], data[1]];
    }
  }

  /** `decodePCM(data, ctx)`: a one-channel buffer of `data.length / 2`
      frames whose channel data is filled sample by sample. */
  method DecodePcm(data: seq<Byte>) returns (r: Option<seq<real>>)
    ensures r == PcmSamples(data)
  {
    if |data| % 2 == 1 {
      return None;  // new Int16Array(data.buffer) throws RangeError
    }
    var dataInt16 := Int16View(data);
    if |dataInt16| == 0 {
      return None;  // createBuffer with zero frames throws NotSupportedError
    }
    var channelData := new real[|dataInt16|];
    for i := 0 to |dataInt16|
      invariant forall k :: 0 <= k < i ==> channelData[k] == dataInt16[k] as real / 32768.0
    {
      channelData[i] := dataInt16[i] as real / 32768.0;
    }
    assert channelData[..] == PcmSamples(data).value;
    r := Some(channelData[..]);
  }
}
