/** The encoders of the receipts: captured output in base64, text as JSON strings.
    Each is shown against an independent reader of its standard. */
module Receipts {
  import opened Text
  import opened Hex

  // ---------- base64, section 4 of RFC 4648 ----------

  /** The base64 alphabet: letters, digits, plus and slash. */
  function Symbol(v: nat): char
    requires v < 64
  {
    if v < 26 then ('A' as int + v) as char
    else if v < 52 then ('a' as int + (v - 26)) as char
    else if v < 62 then ('0' as int + (v - 52)) as char
    else if v == 62 then '+'
    else '/'
  }

  /** The value of a base64 digit. */
  function Digit(c: char): (r: Option<nat>)
    ensures r.Some? ==> r.value < 64
  {
    if 'A' <= c <= 'Z' then Some(c as int - 'A' as int)
    else if 'a' <= c <= 'z' then Some(c as int - 'a' as int + 26)
    else if '0' <= c <= '9' then Some(c as int - '0' as int + 52)
    else if c == '+' then Some(62)
    else if c == '/' then Some(63)
    else None
  }

  lemma AlphabetIsComplete(v: nat)
    requires v < 64
    ensures Digit(Symbol(v)) == Some(v) && Symbol(v) != '='
  {
  }

  /** Three bytes from four digits, for groups with and without padding. */
  function Joined(a: nat, b: nat, c: nat, d: nat): (r: seq<byte>)
    requires a < 64 && b < 64 && c < 64 && d < 64
    ensures |r| == 3
  {
    [(a * 4 + b / 16) as byte, (b % 16 * 16 + c / 4) as byte, (c % 4 * 64 + d) as byte]
  }

  /** The reader of one group; bits that padding leaves unused must be zero. */
  function DecodeGroup(g: string): Option<seq<byte>>
    requires |g| == 4
  {
    var a, b, c, d := Digit(g[0]), Digit(g[1]), Digit(g[2]), Digit(g[3]);
    if a.None? || b.None? then None
    else if g[2] == '=' && g[3] == '=' then
      if b.value % 16 == 0 then Some(Joined(a.value, b.value, 0, 0)[..1]) else None
    else if c.None? then None
    else if g[3] == '=' then
      if c.value % 4 == 0 then Some(Joined(a.value, b.value, c.value, 0)[..2]) else None
    else if d.None? then None
    else Some(Joined(a.value, b.value, c.value, d.value))
  }

  /** The reader: padding only in the last group. */
  function Decode64(s: string): Option<seq<byte>>
  {
    if |s| == 0 then Some([])
    else if |s| < 4 then None
    else
      match (DecodeGroup(s[..4]), Decode64(s[4..]))
      case (Some(head), Some(tail)) => if |head| < 3 && |s| > 4 then None else Some(head + tail)
      case _ => None
  }

  /** What `write_base64` writes for one chunk of at most three bytes. */
  function EncodeChunk(chunk: seq<byte>): (r: string)
    requires 1 <= |chunk| <= 3
    ensures |r| == 4
  {
    var first := chunk[0] as int;
    var second := if |chunk| > 1 then chunk[1] as int else 0;
    var third := if |chunk| > 2 then chunk[2] as int else 0;
    [Symbol(first / 4),
     Symbol(first % 4 * 16 + second / 16),
     if |chunk| > 1 then Symbol(second % 16 * 4 + third / 64) else '=',
     if |chunk| > 2 then Symbol(third % 64) else '=']
  }

  function Encode64(bytes: seq<byte>): string
  {
    if |bytes| == 0 then ""
    else if |bytes| <= 3 then EncodeChunk(bytes)
    else EncodeChunk(bytes[..3]) + Encode64(bytes[3..])
  }

  lemma JoinedSplit(first: nat, second: nat, third: nat)
    requires first < 256 && second < 256 && third < 256
    ensures Joined(first / 4, first % 4 * 16 + second / 16, second % 16 * 4 + third / 64, third % 64) ==
            [first as byte, second as byte, third as byte]
  {
  }

  /** What the digits of a chunk decode to, one by one. */
  lemma ChunkDigits(first: nat, second: nat, third: nat)
    requires first < 256 && second < 256 && third < 256
    ensures Digit(Symbol(first / 4)) == Some(first / 4)
    ensures Digit(Symbol(first % 4 * 16 + second / 16)) == Some(first % 4 * 16 + second / 16)
    ensures Digit(Symbol(second % 16 * 4 + third / 64)) == Some(second % 16 * 4 + third / 64)
    ensures Digit(Symbol(third % 64)) == Some(third % 64)
    ensures Symbol(second % 16 * 4 + third / 64) != '=' && Symbol(third % 64) != '='
  {
    hide Digit, Symbol;
    AlphabetIsComplete(first / 4);
    AlphabetIsComplete(first % 4 * 16 + second / 16);
    AlphabetIsComplete(second % 16 * 4 + third / 64);
    AlphabetIsComplete(third % 64);
  }

  lemma OneByte(a: byte)
    ensures DecodeGroup(EncodeChunk([a])) == Some([a])
  {
    hide Digit, Symbol, Joined;
    ChunkDigits(a as int, 0, 0);
    JoinedSplit(a as int, 0, 0);
    assert (a as int % 4 * 16) % 16 == 0;
    assert [a] == [a, 0, 0][..1];
  }

  lemma TwoBytes(a: byte, b: byte)
    ensures DecodeGroup(EncodeChunk([a, b])) == Some([a, b])
  {
    hide Digit, Symbol, Joined;
    ChunkDigits(a as int, b as int, 0);
    JoinedSplit(a as int, b as int, 0);
    assert (b as int % 16 * 4) % 4 == 0;
    assert [a, b] == [a, b, 0][..2];
  }

  lemma ThreeBytes(a: byte, b: byte, c: byte)
    ensures DecodeGroup(EncodeChunk([a, b, c])) == Some([a, b, c])
  {
    hide Digit, Symbol, Joined;
    ChunkDigits(a as int, b as int, c as int);
    JoinedSplit(a as int, b as int, c as int);
  }

  lemma ChunkRoundTrip(chunk: seq<byte>)
    requires 1 <= |chunk| <= 3
    ensures DecodeGroup(EncodeChunk(chunk)) == Some(chunk)
  {
    hide DecodeGroup, EncodeChunk;
    if |chunk| == 1 {
      OneByte(chunk[0]);
      assert chunk == [chunk[0]];
    } else if |chunk| == 2 {
      TwoBytes(chunk[0], chunk[1]);
      assert chunk == [chunk[0], chunk[1]];
    } else {
      ThreeBytes(chunk[0], chunk[1], chunk[2]);
      assert chunk == [chunk[0], chunk[1], chunk[2]];
    }
  }

  lemma EncodeCut(bytes: seq<byte>, cut: nat)
    requires |bytes| > 0 && cut == if |bytes| <= 3 then |bytes| else 3
    ensures Encode64(bytes) == EncodeChunk(bytes[..cut]) + Encode64(bytes[cut..])
  {
    hide EncodeChunk;
    if |bytes| <= 3 {
      assert bytes[..cut] == bytes && bytes[cut..] == [];
    }
  }

  /** Reading back what was written gives the same bytes. */
  lemma {:induction false} Base64RoundTrip(bytes: seq<byte>)
    ensures Decode64(Encode64(bytes)) == Some(bytes)
  {
    hide DecodeGroup, EncodeChunk;
    if |bytes| > 0 {
      var cut := if |bytes| <= 3 then |bytes| else 3;
      var head, tail := bytes[..cut], bytes[cut..];
      ChunkRoundTrip(head);
      Base64RoundTrip(tail);
      EncodeCut(bytes, cut);
      var s := Encode64(bytes);
      assert bytes == head + tail;
      assert s[..4] == EncodeChunk(head) && s[4..] == Encode64(tail);
    }
  }

  /** `write_base64`. */
  method WriteBase64(bytes: seq<byte>) returns (out: string)
    ensures Decode64(out) == Some(bytes) && |out| == (|bytes| + 2) / 3 * 4
  {
    hide EncodeChunk, Decode64;
    Base64RoundTrip(bytes);
    out := "";
    var rest := bytes;
    while |rest| > 0
      invariant out + Encode64(rest) == Encode64(bytes)
      invariant |out| + (|rest| + 2) / 3 * 4 == (|bytes| + 2) / 3 * 4
      decreases |rest|
    {
      var size := if |rest| < 3 then |rest| else 3;
      var chunk := rest[..size];
      EncodeCut(rest, size);
      Assoc(out, EncodeChunk(chunk), Encode64(rest[size..]));
      out := out + EncodeChunk(chunk);
      rest := rest[size..];
    }
    assert out + "" == out;
  }

  lemma Assoc(a: string, b: string, c: string)
    ensures (a + b) + c == a + (b + c)
  {
  }

  // ---------- strings, section 7 of RFC 8259 ----------

  /** What `write_json_string` writes for one character. */
  function Escape(c: char): string
  {
    if c == '"' then ['\\', '"']
    else if c == '\\' then ['\\', '\\']
    else if c == '\n' then ['\\', 'n']
    else if c == '\r' then ['\\', 'r']
    else if c == '\t' then ['\\', 't']
    else if c as int <= 0x1f then ['\\', 'u', '0', '0', HexDigit(c as int / 16), HexDigit(c as int % 16)]
    else [c]
  }

  function EscapeAll(text: string): string
  {
    if |text| == 0 then "" else Escape(text[0]) + EscapeAll(text[1..])
  }

  function Quote(text: string): string
  {
    ['"'] + EscapeAll(text) + ['"']
  }

  /** The reader of one character of a string: the character and how many were read. */
  function ReadChar(s: string): Option<(char, nat)>
  {
    if |s| == 0 || s[0] == '"' || s[0] as int <= 0x1f then None
    else if s[0] != '\\' then Some((s[0], 1))
    else if |s| < 2 then None
    else if s[1] == '"' || s[1] == '\\' || s[1] == '/' then Some((s[1], 2))
    else if s[1] == 'b' then Some((0x08 as char, 2))
    else if s[1] == 'f' then Some((0x0c as char, 2))
    else if s[1] == 'n' then Some(('\n', 2))
    else if s[1] == 'r' then Some(('\r', 2))
    else if s[1] == 't' then Some(('\t', 2))
    else if s[1] == 'u' then ReadUnicode(s)
    else None
  }

  function Hex4(s: string): (r: Option<nat>)
    requires |s| == 4
    ensures r.Some? ==> r.value <= 0xffff
  {
    var a, b, c, d := DigitValue(s[0]), DigitValue(s[1]), DigitValue(s[2]), DigitValue(s[3]);
    if a.Some? && b.Some? && c.Some? && d.Some? then
      Some(((a.value * 16 + b.value) * 16 + c.value) * 16 + d.value)
    else None
  }

  /** A unicode escape: one code unit, or two that form a surrogate pair. A lone
      surrogate, which is no character, is refused. */
  function ReadUnicode(s: string): Option<(char, nat)>
    requires |s| >= 2
  {
    if |s| < 6 || Hex4(s[2..6]).None? then None
    else
      var unit := Hex4(s[2..6]).value;
      if unit < 0xd800 || unit >= 0xe000 then Some((unit as char, 6))
      else if unit >= 0xdc00 || |s| < 12 || s[6] != '\\' || s[7] != 'u' || Hex4(s[8..12]).None? then None
      else
        var low := Hex4(s[8..12]).value;
        if low < 0xdc00 || low >= 0xe000 then None
        else Some((((unit - 0xd800) * 0x400 + (low - 0xdc00) + 0x10000) as char, 12))
  }

  /** The reader of a string up to its closing quote: the text and what follows. */
  function ReadBody(s: string): Option<(string, string)>
    decreases |s|
  {
    if |s| > 0 && s[0] == '"' then Some(("", s[1..]))
    else
      var c := ReadChar(s);
      if c.None? || c.value.1 > |s| || c.value.1 == 0 then None
      else
        var rest := ReadBody(s[c.value.1..]);
        if rest.None? then None else Some(([c.value.0] + rest.value.0, rest.value.1))
  }

  function ReadString(s: string): Option<(string, string)>
  {
    if |s| > 0 && s[0] == '"' then ReadBody(s[1..]) else None
  }

  lemma CharRoundTrip(c: char, rest: string)
    ensures ReadChar(Escape(c) + rest) == Some((c, |Escape(c)|))
  {
    if c as int <= 0x1f {
      DigitRoundTrip(c as int / 16);
      DigitRoundTrip(c as int % 16);
      var s := Escape(c) + rest;
      assert c !in ['\n', '\r', '\t'] ==>
               s[2..6] == ['0', '0', HexDigit(c as int / 16), HexDigit(c as int % 16)];
      assert DigitValue('0') == Some(0);
    }
  }

  /** Only quotes, backslashes and control characters are escaped. */
  lemma EscapeIsMinimal(c: char)
    ensures Escape(c) == [c] <==> c != '"' && c != '\\' && c as int > 0x1f
  {
  }

  lemma EscapeOpens(c: char)
    ensures |Escape(c)| > 0 && Escape(c)[0] != '"'
  {
  }

  lemma {:induction false} BodyRoundTrip(text: string, rest: string)
    ensures ReadBody(EscapeAll(text) + ['"'] + rest) == Some((text, rest))
  {
    hide ReadChar, Escape;
    var s := EscapeAll(text) + ['"'] + rest;
    if |text| == 0 {
      assert s == ['"'] + rest && s[1..] == rest;
    } else {
      var head := Escape(text[0]);
      var tail := EscapeAll(text[1..]) + ['"'] + rest;
      EscapeOpens(text[0]);
      assert s == head + tail;
      CharRoundTrip(text[0], tail);
      assert s[|head|..] == tail;
      BodyRoundTrip(text[1..], rest);
      assert text == [text[0]] + text[1..];
    }
  }

  /** A written string reads back as its text, and the reader stops exactly at its
      end, whatever follows and whatever quotes or controls the text holds. */
  lemma JsonStringRoundTrip(text: string, rest: string)
    ensures ReadString(Quote(text) + rest) == Some((text, rest))
  {
    hide ReadBody, EscapeAll;
    BodyRoundTrip(text, rest);
    var s := Quote(text) + rest;
    assert s[1..] == EscapeAll(text) + ['"'] + rest;
  }

  /** `write_json_string`. */
  method WriteJsonString(text: string) returns (out: string)
    ensures forall rest: string :: ReadString(out + rest) == Some((text, rest))
  {
    hide Escape, ReadString;
    out := ['"'];
    for i := 0 to |text|
      invariant out + EscapeAll(text[i..]) == ['"'] + EscapeAll(text)
    {
      assert text[i..][1..] == text[i + 1..];
      Assoc(out, Escape(text[i]), EscapeAll(text[i + 1..]));
      out := out + Escape(text[i]);
    }
    assert text[|text|..] == "" && out + "" == out;
    out := out + ['"'];
    forall rest: string
      ensures ReadString(out + rest) == Some((text, rest))
    {
      JsonStringRoundTrip(text, rest);
    }
  }
}
