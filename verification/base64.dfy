/** The browser's `atob`, which `base64ToUint8Array` in
    components/OutputSection.tsx calls on the speech payload. `atob` runs the
    forgiving-base64 decode of the WHATWG Infra standard over the alphabet of
    section 4 of RFC 4648 and returns a "binary string" whose characters are
    the decoded bytes; on failure it throws. Its partner here is the canonical
    padded encoder of the same RFC section (`btoa`). */
module Base64 {
  import opened JsText
  import opened Bytes

  /** The ASCII whitespace that forgiving-base64 removes first: TAB, LF, FF,
      CR and SPACE. */
  predicate IsAsciiWhitespace(c: char) {
    c == '\t' || c == '\n' || c == '\U{000C}' || c == '\r' || c == ' '
  }

  /** The 6-bit value of a character of the base64 alphabet. */
  function SextetOf(c: char): (r: Option<int>)
    ensures r.Some? ==> 0 <= r.value < 64
  {
    if 'A' <= c <= 'Z' then Some(c as int - 'A' as int)
    else if 'a' <= c <= 'z' then Some(c as int - 'a' as int + 26)
    else if '0' <= c <= '9' then Some(c as int - '0' as int + 52)
    else if c == '+' then Some(62)
    else if c == '/' then Some(63)
    else None
  }

  /** The alphabet character of a 6-bit value. */
  function SextetChar(v: int): (c: char)
    requires 0 <= v < 64
    ensures SextetOf(c) == Some(v) && !IsAsciiWhitespace(c) && c != '='
  {
    if v < 26 then ('A' as int + v) as char
    else if v < 52 then ('a' as int + v - 26) as char
    else if v < 62 then ('0' as int + v - 52) as char
    else if v == 62 then '+'
    else '/'
  }

  predicate IsSextets(v: seq<int>) {
    forall i :: 0 <= i < |v| ==> 0 <= v[i] < 64
  }

  /** The string with every ASCII whitespace character removed. */
  function RemoveWhitespace(s: string): (r: string)
    ensures forall i :: 0 <= i < |r| ==> !IsAsciiWhitespace(r[i])
    ensures (forall i :: 0 <= i < |s| ==> !IsAsciiWhitespace(s[i])) ==> r == s
  {
    if s == [] then []
    else if IsAsciiWhitespace(s[0]) then RemoveWhitespace(s[1..])
    else [s[0]] + RemoveWhitespace(s[1..])
  }

  /** When the length is a multiple of four, one or two trailing `=` go. */
  function StripPadding(s: string): string {
    if |s| % 4 != 0 then s
    else if |s| >= 2 && s[|s| - 2..] == "==" then s[..|s| - 2]
    else if |s| >= 1 && s[|s| - 1] == '=' then s[..|s| - 1]
    else s
  }

  /** The 6-bit values of the characters, or None if one of them is outside
      the alphabet. */
  function SextetsOf(s: string): (r: Option<seq<int>>)
    ensures r.Some? ==> |r.value| == |s| && IsSextets(r.value)
  {
    if s == [] then Some([])
    else match (SextetOf(s[0]), SextetsOf(s[1..]))
      case (Some(v), Some(vs)) => Some([v] + vs)
      case _ => None
  }

  /** Four 6-bit values make three bytes; a final two or three make one or
      two bytes, and the leftover low bits are dropped. */
  function DecodeSextets(v: seq<int>): (r: seq<Byte>)
    requires IsSextets(v) && |v| % 4 != 1
    ensures |r| == |v| * 3 / 4
  {
    if |v| >= 4 then
      [v[0] * 4 + v[1] / 16, (v[1] % 16) * 16 + v[2] / 4, (v[2] % 4) * 64 + v[3]]
        + DecodeSextets(v[4..])
    else if |v| == 3 then [v[0] * 4 + v[1] / 16, (v[1] % 16) * 16 + v[2] / 4]
    else if |v| == 2 then [v[0] * 4 + v[1] / 16]
    else []
  }

  /** The binary string whose character codes are the given bytes. */
  function BinaryString(b: seq<Byte>): (s: string)
    ensures |s| == |b| && forall i :: 0 <= i < |b| ==> s[i] as int == b[i]
  {
    seq(|b|, i requires 0 <= i < |b| => b[i] as char)
  }

  /** `atob(s)`: None where the browser throws `InvalidCharacterError`. */
  function Atob(s: string): (r: Option<string>)
    ensures r.Some? ==> forall i :: 0 <= i < |r.value| ==> r.value[i] as int < 256
  {
    var d := StripPadding(RemoveWhitespace(s));
    if |d| % 4 == 1 then None
    else match SextetsOf(d)
      case None => None
      case Some(v) => Some(BinaryString(DecodeSextets(v)))
  }

  // ---------------------------------------------------------------------
  // The partner: canonical padded base64 encoding.

  /** Three bytes make four 6-bit values; a final one or two bytes make two
      or three, padded with zero bits. */
  function EncodeSextets(b: seq<Byte>): (v: seq<int>)
    ensures IsSextets(v)
    ensures |v| == |b| / 3 * 4 + (if |b| % 3 == 0 then 0 else |b| % 3 + 1)
  {
    if |b| >= 3 then
      [b[0] / 4, (b[0] % 4) * 16 + b[1] / 16, (b[1] % 16) * 4 + b[2] / 64, b[2] % 64]
        + EncodeSextets(b[3..])
    else if |b| == 2 then [b[0] / 4, (b[0] % 4) * 16 + b[1] / 16, (b[1] % 16) * 4]
    else if |b| == 1 then [b[0] / 4, (b[0] % 4) * 16]
    else []
  }

  function Chars(v: seq<int>): (s: string)
    requires IsSextets(v)
    ensures |s| == |v|
    ensures forall i :: 0 <= i < |s| ==> s[i] == SextetChar(v[i])
  {
    seq(|v|, i requires 0 <= i < |v| => SextetChar(v[i]))
  }

  /** The sextet count plus the padding is a multiple of four. */
  lemma PaddedLength(n: nat)
    ensures var r := n % 3;
      (n / 3 * 4 + (if r == 0 then 0 else r + 1) + (if r == 1 then 2 else if r == 2 then 1 else 0)) % 4 == 0
  {
    var q, r := n / 3, n % 3;
    var k := if r == 0 then q else q + 1;
    assert n / 3 * 4 + (if r == 0 then 0 else r + 1) + (if r == 1 then 2 else if r == 2 then 1 else 0) == 4 * k;
  }

  /** `btoa` on the binary string of `b`: the canonical encoding with `=`
      padding to a multiple of four characters. */
  function Btoa(b: seq<Byte>): (s: string)
    ensures |s| % 4 == 0
  {
    var v := EncodeSextets(b);
    PaddedLength(|b|);
    Chars(v) + (if |b| % 3 == 1 then "==" else if |b| % 3 == 2 then "=" else "")
  }

  lemma {:induction false} DecodeEncodeSextets(b: seq<Byte>)
    ensures DecodeSextets(EncodeSextets(b)) == b
    decreases |b|
  {
    var v := EncodeSextets(b);
    if |b| >= 3 {
      DecodeEncodeSextets(b[3..]);
      assert v[4..] == EncodeSextets(b[3..]);
      var b0, b1, b2 := b[0], b[1], b[2];
      assert v[0] * 4 + v[1] / 16 == b0 by {
        assert v[1] / 16 == b0 % 4;
      }
      assert (v[1] % 16) * 16 + v[2] / 4 == b1 by {
        assert v[1] % 16 == b1 / 16;
        assert v[2] / 4 == b1 % 16;
      }
      assert (v[2] % 4) * 64 + v[3] == b2 by {
        assert v[2] % 4 == b2 / 64;
      }
      assert b == [b0, b1, b2] + b[3..];
    } else if |b| == 2 {
      assert v[1] / 16 == b[0] % 4;
      assert v[1] % 16 == b[1] / 16;
      assert v[2] / 4 == b[1] % 16;
    } else if |b| == 1 {
      assert v[1] / 16 == b[0] % 4;
    }
  }

  lemma {:induction false} SextetsOfChars(v: seq<int>)
    requires IsSextets(v)
    ensures SextetsOf(Chars(v)) == Some(v)
    decreases |v|
  {
    if v != [] {
      SextetsOfChars(v[1..]);
      var c := Chars(v);
      assert c[1..] == Chars(v[1..]);
      assert SextetOf(c[0]) == Some(v[0]);
      assert v == [v[0]] + v[1..];
    }
  }

  lemma BtoaHasNoWhitespace(b: seq<Byte>)
    ensures RemoveWhitespace(Btoa(b)) == Btoa(b)
  {
    var body := Chars(EncodeSextets(b));
    var s := Btoa(b);
    forall i | 0 <= i < |s| ensures !IsAsciiWhitespace(s[i]) {
      if i < |body| { assert s[i] == body[i]; }
    }
  }

  lemma StripTwo(body: string)
    requires (|body| + 2) % 4 == 0
    ensures StripPadding(body + "==") == body
  {
    var s := body + "==";
    assert s[|s| - 2..] == "==" && s[..|s| - 2] == body;
  }

  lemma StripOne(body: string)
    requires (|body| + 1) % 4 == 0 && body != [] && body[|body| - 1] != '='
    ensures StripPadding(body + "=") == body
  {
    var s := body + "=";
    assert s[|s| - 2] == body[|body| - 1];
    assert s[|s| - 2..] != "==" by {
      assert s[|s| - 2..][0] == s[|s| - 2];
    }
    assert s[..|s| - 1] == body;
  }

  lemma StripNone(s: string)
    requires |s| % 4 == 0 && (s == [] || s[|s| - 1] != '=')
    ensures StripPadding(s) == s
  {
    if |s| >= 2 {
      assert s[|s| - 2..][1] == s[|s| - 1];
    }
  }

  lemma StripPaddingOfBtoa(b: seq<Byte>)
    ensures StripPadding(Btoa(b)) == Chars(EncodeSextets(b))
  {
    var v := EncodeSextets(b);
    var body := Chars(v);
    if |body| > 0 {
      assert body[|body| - 1] == SextetChar(v[|v| - 1]);
    }
    if |b| % 3 == 1 {
      StripTwo(body);
    } else if |b| % 3 == 2 {
      StripOne(body);
    } else {
      assert Btoa(b) == body + "";
      assert body + "" == body;
      StripNone(body);
    }
  }

  lemma {:induction false} EncodedLength(b: seq<Byte>)
    ensures |EncodeSextets(b)| % 4 != 1
    decreases |b|
  {
    if |b| >= 3 {
      EncodedLength(b[3..]);
    }
  }

  /** `atob` undoes `btoa`: decoding the canonical encoding of any bytes
      gives back their binary string. */
  lemma AtobBtoa(b: seq<Byte>)
    ensures Atob(Btoa(b)) == Some(BinaryString(b))
  {
    var v := EncodeSextets(b);
    BtoaHasNoWhitespace(b);
    StripPaddingOfBtoa(b);
    var d := StripPadding(RemoveWhitespace(Btoa(b)));
    assert d == Chars(v);
    EncodedLength(b);
    SextetsOfChars(v);
    DecodeEncodeSextets(b);
  }
}
