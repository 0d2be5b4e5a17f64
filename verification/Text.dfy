/** Character-level text tools behind the registry governance file: separators,
    lines, whitespace-separated fields and canonical decimal numbers. */
module Text {

  datatype Option<+T> = None | Some(value: T)

  // ---------- separators ----------

  /** Position of the first `c`, or the length of `s` when there is none. */
  function IndexOf(s: string, c: char): (i: nat)
    ensures i <= |s|
    ensures i < |s| ==> s[i] == c
    ensures c !in s[..i]
    ensures i == |s| <==> c !in s
  {
    if s == "" then 0
    else if s[0] == c then 0
    else
      var rest := IndexOf(s[1..], c);
      assert s[..1 + rest] == [s[0]] + s[1..][..rest];
      assert s == [s[0]] + s[1..];
      1 + rest
  }

  /** `str::split(sep)`: always at least one part, and no part holds the separator. */
  function Split(s: string, sep: char): (parts: seq<string>)
    ensures |parts| >= 1
    ensures forall k :: 0 <= k < |parts| ==> sep !in parts[k]
    decreases |s|
  {
    var i := IndexOf(s, sep);
    if i == |s| then [s] else [s[..i]] + Split(s[i + 1..], sep)
  }

  function Join(parts: seq<string>, sep: char): string
  {
    if |parts| == 0 then ""
    else if |parts| == 1 then parts[0]
    else parts[0] + [sep] + Join(parts[1..], sep)
  }

  lemma {:induction false} IndexOfPrefix(a: string, c: char, rest: string)
    requires c !in a
    ensures IndexOf(a + [c] + rest, c) == |a|
  {
    var s := a + [c] + rest;
    var i := IndexOf(s, c);
    assert forall j :: 0 <= j < |a| ==> s[j] == a[j];
    assert s[|a|] == c;
    assert forall j :: 0 <= j < i ==> s[..i][j] == s[j];
  }

  lemma {:induction false} SplitCons(a: string, sep: char, rest: string)
    requires sep !in a
    ensures Split(a + [sep] + rest, sep) == [a] + Split(rest, sep)
  {
    var s := a + [sep] + rest;
    IndexOfPrefix(a, sep, rest);
    assert s[..|a|] == a && s[|a| + 1..] == rest;
  }

  /** Splitting undoes joining when no part holds the separator. */
  lemma {:induction false} SplitOfJoin(parts: seq<string>, sep: char)
    requires |parts| >= 1
    requires forall k :: 0 <= k < |parts| ==> sep !in parts[k]
    ensures Split(Join(parts, sep), sep) == parts
  {
    if |parts| > 1 {
      SplitOfJoin(parts[1..], sep);
      SplitCons(parts[0], sep, Join(parts[1..], sep));
      assert parts == [parts[0]] + parts[1..];
    }
  }

  lemma JoinCons(a: string, rest: seq<string>, sep: char)
    requires |rest| >= 1
    ensures Join([a] + rest, sep) == a + [sep] + Join(rest, sep)
  {
    assert ([a] + rest)[1..] == rest;
  }

  lemma SplitUnfolds(s: string, sep: char)
    ensures var i := IndexOf(s, sep);
            Split(s, sep) == if i == |s| then [s] else [s[..i]] + Split(s[i + 1..], sep)
  {
  }

  lemma JoinOne(s: string, sep: char)
    ensures Join([s], sep) == s
  {
  }

  lemma CutAt(s: string, i: nat)
    requires i < |s|
    ensures s == s[..i] + [s[i]] + s[i + 1..]
  {
  }

  /** Joining undoes splitting, for every text. */
  lemma {:induction false} JoinOfSplit(s: string, sep: char)
    ensures Join(Split(s, sep), sep) == s
    decreases |s|
  {
    hide Split, Join, IndexOf;
    var i := IndexOf(s, sep);
    SplitUnfolds(s, sep);
    if i == |s| {
      JoinOne(s, sep);
    } else {
      JoinOfSplit(s[i + 1..], sep);
      JoinCons(s[..i], Split(s[i + 1..], sep), sep);
      CutAt(s, i);
    }
  }

  // ---------- lines ----------

  function StripCarriageReturn(s: string): string
  {
    if |s| > 0 && s[|s| - 1] == '\r' then s[..|s| - 1] else s
  }

  /** `str::lines`: a final newline opens no further line, and a carriage return
      is dropped only in front of a newline. */
  function Lines(s: string): seq<string>
    decreases |s|
  {
    if s == "" then []
    else
      var i := IndexOf(s, '\n');
      if i == |s| then [s] else [StripCarriageReturn(s[..i])] + Lines(s[i + 1..])
  }

  function Render(lines: seq<string>): string
  {
    if |lines| == 0 then "" else lines[0] + "\n" + Render(lines[1..])
  }

  predicate PlainLine(s: string)
  {
    '\n' !in s && (|s| > 0 ==> s[|s| - 1] != '\r')
  }

  lemma {:induction false} LinesCons(line: string, rest: string)
    requires PlainLine(line)
    ensures Lines(line + ['\n'] + rest) == [line] + Lines(rest)
  {
    var s := line + ['\n'] + rest;
    IndexOfPrefix(line, '\n', rest);
    assert s[..|line|] == line;
    assert s[|line| + 1..] == rest;
  }

  lemma {:induction false} LinesOfRender(lines: seq<string>)
    requires forall k :: 0 <= k < |lines| ==> PlainLine(lines[k])
    ensures Lines(Render(lines)) == lines
  {
    if |lines| > 0 {
      LinesOfRender(lines[1..]);
      LinesCons(lines[0], Render(lines[1..]));
      assert lines == [lines[0]] + lines[1..];
    }
  }

  lemma SeqAssociative(a: string, b: string, c: string)
    ensures a + (b + c) == a + b + c
  {
  }

  lemma {:induction false} RenderConcat(a: seq<string>, b: seq<string>)
    ensures Render(a + b) == Render(a) + Render(b)
  {
    if |a| == 0 {
      assert a + b == b;
    } else {
      RenderConcat(a[1..], b);
      assert (a + b)[1..] == a[1..] + b;
      assert Render(a + b) == a[0] + "\n" + (Render(a[1..]) + Render(b));
      SeqAssociative(a[0] + "\n", Render(a[1..]), Render(b));
    }
  }

  lemma {:induction false} RenderLength(lines: seq<string>, bound: nat)
    requires forall k :: 0 <= k < |lines| ==> |lines[k]| <= bound
    ensures |Render(lines)| <= |lines| * (bound + 1)
  {
    if |lines| > 0 {
      RenderLength(lines[1..], bound);
    }
  }

  // ---------- whitespace ----------

  /** `u8::is_ascii_whitespace`. */
  predicate AsciiSpace(c: char)
  {
    c == ' ' || c == '\t' || c == '\n' || c == '\r' || c == '\U{000C}'
  }

  /** The Unicode White_Space property, as `str::trim` uses it. */
  predicate UnicodeSpace(c: char)
  {
    || '\t' <= c <= '\r'
    || c == ' ' || c == '\U{0085}' || c == '\U{00A0}' || c == '\U{1680}'
    || '\U{2000}' <= c <= '\U{200A}'
    || c == '\U{2028}' || c == '\U{2029}' || c == '\U{202F}' || c == '\U{205F}' || c == '\U{3000}'
  }

  function TrimStart(s: string): string
  {
    if |s| > 0 && UnicodeSpace(s[0]) then TrimStart(s[1..]) else s
  }

  function TrimEnd(s: string): string
  {
    if |s| > 0 && UnicodeSpace(s[|s| - 1]) then TrimEnd(s[..|s| - 1]) else s
  }

  function Trim(s: string): string
  {
    TrimEnd(TrimStart(s))
  }

  function WordLength(s: string): (k: nat)
    ensures k <= |s|
    ensures forall i :: 0 <= i < k ==> !AsciiSpace(s[i])
    ensures k < |s| ==> AsciiSpace(s[k])
  {
    if |s| == 0 || AsciiSpace(s[0]) then 0 else 1 + WordLength(s[1..])
  }

  /** `str::split_ascii_whitespace`. */
  function Fields(s: string): seq<string>
    decreases |s|
  {
    if |s| == 0 then []
    else if AsciiSpace(s[0]) then Fields(s[1..])
    else [s[..WordLength(s)]] + Fields(s[WordLength(s)..])
  }

  predicate Word(s: string)
  {
    |s| > 0 && forall i :: 0 <= i < |s| ==> ' ' < s[i] < '\U{007F}'
  }

  function Words(words: seq<string>): string
  {
    Join(words, ' ')
  }

  lemma {:induction false} FieldsCons(w: string, rest: string)
    requires Word(w)
    requires |rest| > 0 ==> AsciiSpace(rest[0])
    ensures Fields(w + rest) == [w] + Fields(rest)
  {
    var s := w + rest;
    var k := WordLength(s);
    assert s[0] == w[0];
    assert forall j :: 0 <= j < |w| ==> s[j] == w[j] && !AsciiSpace(s[j]);
    assert |rest| > 0 ==> s[|w|] == rest[0];
    assert k == |w|;
    assert s[..k] == w && s[k..] == rest;
  }

  /** A line made of words splits back into exactly those words. */
  lemma {:induction false} FieldsOfWords(words: seq<string>)
    requires forall k :: 0 <= k < |words| ==> Word(words[k])
    ensures Fields(Words(words)) == words
  {
    if |words| == 1 {
      FieldsCons(words[0], "");
      assert words[0] + "" == words[0];
    } else if |words| > 1 {
      FieldsOfWords(words[1..]);
      var tail := Words(words[1..]);
      var rest := [' '] + tail;
      assert Words(words) == words[0] + rest;
      FieldsCons(words[0], rest);
      assert rest[1..] == tail;
      assert words == [words[0]] + words[1..];
    }
  }

  predicate Printable(s: string)
  {
    forall i :: 0 <= i < |s| ==> ' ' <= s[i] < '\U{007F}'
  }

  lemma {:induction false} WordsShape(words: seq<string>)
    requires |words| > 0
    requires forall k :: 0 <= k < |words| ==> Word(words[k])
    ensures var s := Words(words);
            && |s| > 0 && |words[0]| > 0 && s[0] == words[0][0] && ' ' < s[|s| - 1] && Printable(s)
  {
    if |words| > 1 {
      WordsShape(words[1..]);
      assert Words(words) == words[0] + [' '] + Words(words[1..]);
    }
  }

  lemma PrintableLine(s: string)
    requires Printable(s) && |s| > 0 && ' ' < s[0] && ' ' < s[|s| - 1]
    ensures PlainLine(s) && Trim(s) == s
  {
    assert !UnicodeSpace(s[0]) && !UnicodeSpace(s[|s| - 1]);
  }

  // ---------- UTF-8 length ----------

  function CharBytes(c: char): nat
  {
    if c < '\U{0080}' then 1 else if c < '\U{0800}' then 2 else if c < '\U{10000}' then 3 else 4
  }

  /** `str::len`, the length in UTF-8 bytes. */
  function ByteLength(s: string): nat
  {
    if |s| == 0 then 0 else CharBytes(s[0]) + ByteLength(s[1..])
  }

  lemma {:induction false} AsciiByteLength(s: string)
    requires forall i :: 0 <= i < |s| ==> s[i] < '\U{0080}'
    ensures ByteLength(s) == |s|
  {
    if |s| > 0 {
      AsciiByteLength(s[1..]);
    }
  }

  // ---------- decimal numbers ----------

  const U64_LIMIT: nat := 0x1_0000_0000_0000_0000

  function DigitChar(d: nat): (c: char)
    requires d < 10
    ensures '0' <= c <= '9'
  {
    ('0' as int + d) as char
  }

  predicate IsDigit(c: char)
  {
    '0' <= c <= '9'
  }

  predicate AllDigits(s: string)
  {
    forall i :: 0 <= i < |s| ==> IsDigit(s[i])
  }

  function Decimal(n: nat): (s: string)
    ensures |s| > 0 && AllDigits(s)
  {
    if n < 10 then [DigitChar(n)] else Decimal(n / 10) + [DigitChar(n % 10)]
  }

  function DecimalValue(s: string): nat
    requires AllDigits(s)
  {
    if |s| == 0 then 0
    else DecimalValue(s[..|s| - 1]) * 10 + (s[|s| - 1] as int - '0' as int)
  }

  lemma {:induction false} DecimalValueOfDecimal(n: nat)
    ensures DecimalValue(Decimal(n)) == n
  {
    if n >= 10 {
      DecimalValueOfDecimal(n / 10);
      var s := Decimal(n);
      assert s[..|s| - 1] == Decimal(n / 10);
    }
  }

  /** Fewer digits than the number's magnitude allows never occur. */
  lemma {:induction false} DecimalLength(n: nat, digits: nat)
    requires digits >= 1 && n < Power10(digits)
    ensures |Decimal(n)| <= digits
  {
    if n >= 10 {
      assert Power10(1) == 10 * Power10(0);
      assert n < 10 * Power10(digits - 1);
      DecimalLength(n / 10, digits - 1);
    }
  }

  function Power10(k: nat): nat
  {
    if k == 0 then 1 else 10 * Power10(k - 1)
  }

  /** `str::parse::<u64>`: an optional plus sign, at least one digit, no overflow. */
  function ParseU64(s: string): Option<nat>
  {
    var digits := if |s| > 0 && s[0] == '+' then s[1..] else s;
    if |digits| == 0 || !AllDigits(digits) || DecimalValue(digits) >= U64_LIMIT then None
    else Some(DecimalValue(digits))
  }

  /** The sequence rule of an audit line: parse, then insist on the canonical spelling. */
  function ParseCanonicalU64(s: string): Option<nat>
  {
    match ParseU64(s)
    case None => None
    case Some(n) => if Decimal(n) == s then Some(n) else None
  }

  /** Exactly the canonical spellings below 2^64 are accepted. */
  lemma CanonicalU64(s: string, n: nat)
    ensures ParseCanonicalU64(s) == Some(n) <==> n < U64_LIMIT && s == Decimal(n)
  {
    DecimalValueOfDecimal(n);
    if s == Decimal(n) {
      assert IsDigit(s[0]);
    }
  }
}
