/** Lower-case hexadecimal spelling of 32-byte digests, and the tolerant decoder
    that also reads upper-case digits. */
module Hex {
  import opened Text

  newtype byte = x: int | 0 <= x < 256

  /** A SHA-256 digest. */
  type Hash = h: seq<byte> | |h| == 32 witness seq(32, _ => 0)

  function HexDigit(v: int): (c: char)
    requires 0 <= v < 16
    ensures LowerHex(c)
  {
    if v < 10 then ('0' as int + v) as char else ('a' as int + v - 10) as char
  }

  predicate LowerHex(c: char)
  {
    '0' <= c <= '9' || 'a' <= c <= 'f'
  }

  function DigitValue(c: char): (v: Option<int>)
    ensures v.Some? ==> 0 <= v.value < 16
    ensures LowerHex(c) ==> v.Some?
  {
    if '0' <= c <= '9' then Some(c as int - '0' as int)
    else if 'a' <= c <= 'f' then Some(c as int - 'a' as int + 10)
    else if 'A' <= c <= 'F' then Some(c as int - 'A' as int + 10)
    else None
  }

  function EncodeHex(bytes: seq<byte>): (text: string)
    ensures |text| == 2 * |bytes|
    ensures AllLower(text)
  {
    if |bytes| == 0 then ""
    else [HexDigit(bytes[0] as int / 16), HexDigit(bytes[0] as int % 16)] + EncodeHex(bytes[1..])
  }

  function JoinNibbles(hi: int, lo: int): (b: byte)
    requires 0 <= hi < 16 && 0 <= lo < 16
    ensures b as int / 16 == hi && b as int % 16 == lo
  {
    (hi * 16 + lo) as byte
  }

  function DecodePairs(text: string): (r: Option<seq<byte>>)
    requires |text| % 2 == 0
    ensures r.Some? ==> 2 * |r.value| == |text|
  {
    if |text| == 0 then Some([])
    else
      match (DigitValue(text[0]), DigitValue(text[1]), DecodePairs(text[2..]))
      case (Some(hi), Some(lo), Some(rest)) => Some([JoinNibbles(hi, lo)] + rest)
      case _ => None
  }

  /** `decode_hex_array::<32>`. */
  function DecodeHash(text: string): (r: Option<Hash>)
  {
    if |text| != 64 then None else DecodePairs(text)
  }

  /** `is_canonical_sha256_hex`. */
  predicate CanonicalHex(text: string)
  {
    |text| == 64 && AllLower(text)
  }

  lemma DigitRoundTrip(v: int)
    requires 0 <= v < 16
    ensures DigitValue(HexDigit(v)) == Some(v)
  {
  }

  lemma {:induction false} DecodeOfEncode(bytes: seq<byte>)
    ensures DecodePairs(EncodeHex(bytes)) == Some(bytes)
  {
    if |bytes| > 0 {
      var text := EncodeHex(bytes);
      DecodeOfEncode(bytes[1..]);
      DigitRoundTrip(bytes[0] as int / 16);
      DigitRoundTrip(bytes[0] as int % 16);
      assert text[2..] == EncodeHex(bytes[1..]);
      assert bytes == [bytes[0]] + bytes[1..];
    }
  }

  lemma DigitSpelling(c: char)
    requires DigitValue(c).Some?
    ensures HexDigit(DigitValue(c).value) == c <==> LowerHex(c)
  {
  }

  /** Lower-case text decodes, and re-encoding reproduces it. */
  lemma {:induction false} EncodeOfDecode(text: string)
    requires |text| % 2 == 0 && AllLower(text)
    ensures DecodePairs(text).Some? && EncodeHex(DecodePairs(text).value) == text
  {
    if |text| > 0 {
      AllLowerCons(text);
      hide EncodeHex, HexDigit, LowerHex, AllLower, DigitValue;
      EncodeOfDecode(text[2..]);
      DigitSpelling(text[0]);
      DigitSpelling(text[1]);
      var hi, lo, rest := DigitValue(text[0]).value, DigitValue(text[1]).value, DecodePairs(text[2..]).value;
      var b := JoinNibbles(hi, lo);
      EncodeCons(b, rest);
      assert text == [text[0], text[1]] + text[2..];
    }
  }

  predicate AllLower(text: string)
  {
    forall i :: 0 <= i < |text| ==> LowerHex(text[i])
  }

  lemma AllLowerCons(text: string)
    requires |text| >= 2
    ensures AllLower(text) <==> LowerHex(text[0]) && LowerHex(text[1]) && AllLower(text[2..])
  {
    assert text == [text[0], text[1]] + text[2..];
  }

  lemma EncodeCons(b: byte, rest: seq<byte>)
    ensures EncodeHex([b] + rest) == [HexDigit(b as int / 16), HexDigit(b as int % 16)] + EncodeHex(rest)
  {
    assert ([b] + rest)[1..] == rest;
  }

  /** A digest spelling is canonical exactly when it is what the encoder writes. */
  lemma CanonicalHexIsEncoded(text: string)
    ensures CanonicalHex(text) <==> DecodeHash(text).Some? && EncodeHex(DecodeHash(text).value) == text
  {
    if CanonicalHex(text) {
      EncodeOfDecode(text);
    }
  }

  lemma EncodeInjective(a: seq<byte>, b: seq<byte>)
    requires EncodeHex(a) == EncodeHex(b)
    ensures a == b
  {
    DecodeOfEncode(a);
    DecodeOfEncode(b);
  }

  lemma {:induction false} EncodeSnoc(bytes: seq<byte>, b: byte)
    ensures EncodeHex(bytes + [b]) == EncodeHex(bytes) + [HexDigit(b as int / 16), HexDigit(b as int % 16)]
  {
    if |bytes| > 0 {
      EncodeSnoc(bytes[1..], b);
      assert (bytes + [b])[1..] == bytes[1..] + [b];
    }
  }

  /** The source's encoding loop. */
  method Encode(bytes: seq<byte>) returns (text: string)
    ensures text == EncodeHex(bytes)
  {
    text := "";
    for i := 0 to |bytes|
      invariant text == EncodeHex(bytes[..i])
    {
      EncodeSnoc(bytes[..i], bytes[i]);
      assert bytes[..i] + [bytes[i]] == bytes[..i + 1];
      text := text + [HexDigit(bytes[i] as int / 16)];
      text := text + [HexDigit(bytes[i] as int % 16)];
    }
    assert bytes[..|bytes|] == bytes;
  }

  ghost function Prepend(prefix: seq<byte>, r: Option<seq<byte>>): Option<seq<byte>>
  {
    match r case None => None case Some(rest) => Some(prefix + rest)
  }

  lemma DecodeStep(text: string, output: seq<byte>)
    requires |text| % 2 == 0 && |text| > 0
    ensures Prepend(output, DecodePairs(text)) ==
            match (DigitValue(text[0]), DigitValue(text[1]))
            case (Some(hi), Some(lo)) => Prepend(output + [JoinNibbles(hi, lo)], DecodePairs(text[2..]))
            case _ => None
  {
    var rest := DecodePairs(text[2..]);
    match (DigitValue(text[0]), DigitValue(text[1]))
    case (Some(hi), Some(lo)) =>
      var next := JoinNibbles(hi, lo);
      assert rest.Some? ==> output + ([next] + rest.value) == output + [next] + rest.value;
    case _ =>
  }

  function Lower(c: char): char
  {
    if 'A' <= c <= 'F' then (c as int - 'A' as int + 'a' as int) as char else c
  }

  function Lowered(text: string): (r: string)
    ensures |r| == |text|
  {
    seq(|text|, k requires 0 <= k < |text| => Lower(text[k]))
  }

  lemma LowerDigit(c: char)
    ensures DigitValue(Lower(c)) == DigitValue(c)
  {
  }

  /** Upper-case digits decode like lower-case ones. */
  lemma {:induction false} CaseDoesNotMatter(text: string)
    requires |text| % 2 == 0
    ensures DecodePairs(Lowered(text)) == DecodePairs(text)
    decreases |text|
  {
    hide DigitValue, Lower, JoinNibbles;
    if |text| > 0 {
      LowerDigit(text[0]);
      LowerDigit(text[1]);
      CaseDoesNotMatter(text[2..]);
      assert Lowered(text)[2..] == Lowered(text[2..]);
    }
  }

  /** The digits of either case and nothing else. */
  lemma HexDigitRule(c: char)
    ensures DigitValue(c) ==
            if 48 <= c as int <= 57 then Some(c as int - 48)
            else if 97 <= c as int <= 102 then Some(c as int - 87)
            else if 65 <= c as int <= 70 then Some(c as int - 55)
            else None
  {
  }

  lemma NoPairs()
    ensures DecodePairs("") == Some([])
  {
  }

  lemma PrependNothing(r: Option<seq<byte>>)
    ensures Prepend([], r) == r
  {
    assert r.Some? ==> [] + r.value == r.value;
  }

  /** The source's decoding loop over pairs of digits. */
  method Decode(text: string) returns (r: Option<Hash>)
    ensures r == DecodeHash(text)
  {
    if |text| != 64 {
      return None;
    }
    hide DecodePairs, DigitValue, JoinNibbles;
    NoPairs();
    PrependNothing(DecodePairs(text));
    var output: seq<byte> := [];
    var index := 0;
    assert text[0..] == text;
    while index < 64
      invariant index <= 64 && index % 2 == 0 && 2 * |output| == index
      invariant Prepend(output, DecodePairs(text[index..])) == DecodePairs(text)
    {
      DecodeStep(text[index..], output);
      assert text[index..][2..] == text[index + 2..];
      var hi, lo := DigitValue(text[index]), DigitValue(text[index + 1]);
      if hi.None? || lo.None? {
        return None;
      }
      output := output + [JoinNibbles(hi.value, lo.value)];
      index := index + 2;
    }
    assert text[index..] == "" && output + [] == output;
    r := Some(output);
  }
}
