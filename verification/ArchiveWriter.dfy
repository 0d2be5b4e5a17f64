/** A writer of `ar` archives, as the reference for the parser: names in the header,
    in the payload (BSD) or in a name table (GNU). */
module ArchiveWriter {
  import opened Text
  import opened Hex
  import opened Archive

  datatype Style = Plain | Bsd(padding: nat) | Gnu(offset: nat)

  /** Where a symbol index has its name: `/`, `/SYM64/`, or `__.SYMDEF` in its variants,
      in the header or in the payload. */
  datatype Index =
    | Gnu32
    | Gnu64
    | BsdHeader(wide: bool, padding: nat)
    | BsdSorted
    | BsdInline(wide: bool, sorted: bool, padding: nat)

  /** What an archive is made of: a table of long names, a symbol index, or a file. */
  datatype Piece =
    | Table(names: seq<byte>)
    | Symbols(index: Index, payload: seq<byte>)
    | File(style: Style, name: seq<byte>, payload: seq<byte>)

  const SYMDEF: seq<byte> := [95, 95, 46, 83, 89, 77, 68, 69, 70] // __.SYMDEF
  const WIDE: seq<byte> := [95, 54, 52] // _64
  const SORTED: seq<byte> := [32, 83, 79, 82, 84, 69, 68] // SORTED behind a space

  function SymbolName(wide: bool, sorted: bool): (r: seq<byte>)
    ensures 9 <= |r| <= 19 && r[|r| - 1] != 0
  {
    SYMDEF + (if wide then WIDE else []) + (if sorted then SORTED else [])
  }

  lemma SymbolNamesAreTables(wide: bool, sorted: bool)
    ensures BsdSymbolTable(SymbolName(wide, sorted))
  {
    assert SYMDEF + [] == SYMDEF && SYMDEF + WIDE + [] == SYMDEF + WIDE;
  }

  // ---------- numbers and padding ----------

  function Decimals(n: nat): (r: seq<byte>)
    ensures |r| > 0 && Digits(r)
  {
    var last := [(48 + n % 10) as byte];
    if n < 10 then last else Decimals(n / 10) + last
  }

  lemma {:induction false} DecimalsValue(n: nat)
    ensures Value(Decimals(n)) == n
  {
    var r := Decimals(n);
    if n >= 10 {
      DecimalsValue(n / 10);
      assert r[..|r| - 1] == Decimals(n / 10);
    } else {
      assert r[..|r| - 1] == [];
    }
  }

  function Repeat(c: byte, n: nat): (r: seq<byte>)
    ensures |r| == n && forall i :: 0 <= i < n ==> r[i] == c
  {
    seq(n, _ => c)
  }

  function Pad(s: seq<byte>, width: nat): (r: seq<byte>)
    requires |s| <= width
    ensures |r| == width
  {
    s + Repeat(SPACE, width - |s|)
  }

  lemma {:induction false} TrimRepeat(s: seq<byte>, c: byte, n: nat)
    requires |s| > 0 ==> s[|s| - 1] != c
    ensures TrimEndOf(s + Repeat(c, n), c) == s
  {
    var t := s + Repeat(c, n);
    if n == 0 {
      assert t == s;
    } else {
      assert t[..|t| - 1] == s + Repeat(c, n - 1);
      TrimRepeat(s, c, n - 1);
    }
  }

  lemma FieldRoundTrip(n: nat, width: nat)
    requires n < U64_LIMIT && |Decimals(n)| <= width
    ensures DecimalField(Pad(Decimals(n), width)) == Some(n)
    ensures DecimalField(Decimals(n)) == Some(n)
  {
    var s := Decimals(n);
    TrimRepeat(s, SPACE, width - |s|);
    TrimRepeat(s, SPACE, 0);
    assert s + Repeat(SPACE, 0) == s;
    DecimalsValue(n);
  }

  lemma {:induction false} TakeStops(s: seq<byte>, rest: seq<byte>)
    requires SPACE !in s && (rest == [] || rest[0] == SPACE)
    ensures TakeUntilSpace(s + rest) == s
  {
    var t := s + rest;
    if |s| == 0 {
      assert t == rest;
    } else {
      assert t[1..] == s[1..] + rest;
      TakeStops(s[1..], rest);
      assert s == [s[0]] + s[1..];
    }
  }

  // ---------- what is written ----------

  function Raw(p: Piece): seq<byte>
  {
    match p
    case Table(_) => LONG_NAMES
    case Symbols(Gnu32, _) => [SLASH]
    case Symbols(Gnu64, _) => SYMBOLS64
    case Symbols(BsdHeader(wide, padding), _) => SymbolName(wide, false) + Repeat(0, padding)
    case Symbols(BsdSorted, _) => SymbolName(false, true)
    case Symbols(BsdInline(wide, sorted, padding), _) =>
      BSD_PREFIX + Decimals(|SymbolName(wide, sorted)| + padding)
    case File(Plain, name, _) => name + [SLASH]
    case File(Bsd(padding), name, _) => BSD_PREFIX + Decimals(|name| + padding)
    case File(Gnu(offset), _, _) => [SLASH] + Decimals(offset)
  }

  /** The part of it that is read: a space ends the name. */
  function Read(p: Piece): seq<byte>
  {
    if p.Symbols? && p.index.BsdSorted? then SymbolName(false, false) else Raw(p)
  }

  /** Bytes of the name at the start of the body. */
  function Inline(p: Piece): seq<byte>
  {
    match p
    case File(Bsd(padding), name, _) => name + Repeat(0, padding)
    case Symbols(BsdInline(wide, sorted, padding), _) => SymbolName(wide, sorted) + Repeat(0, padding)
    case _ => []
  }

  function Content(p: Piece): seq<byte>
  {
    match p case Table(names) => names case File(_, _, payload) => payload case Symbols(_, payload) => payload
  }

  function Body(p: Piece): seq<byte>
  {
    Inline(p) + Content(p)
  }

  predicate NameFits(p: Piece, first: bool, names: seq<byte>)
    requires p.File?
  {
    match p.style
    case Plain => |p.name| <= 15 && SPACE !in p.name && p.name != [35, 49]
    case Bsd(padding) => padding <= 7 && |p.name| + padding <= MAX_NAME && !(first && BsdSymbolTable(p.name))
    case Gnu(offset) =>
      && offset + |p.name| + 2 <= |names|
      && names[offset..offset + |p.name| + 2] == p.name + [SLASH, NEWLINE]
  }

  /** A BSD index must come first; its name is padded to at most eight bytes alignment. */
  predicate IndexFits(index: Index, first: bool)
  {
    match index
    case Gnu32 => true
    case Gnu64 => true
    case BsdSorted => first
    case BsdHeader(_, padding) => first && padding <= 7
    case BsdInline(_, _, padding) => first && padding <= 7
  }

  /** A piece that can be written at its place: the numbers fit their fields, and a
      file's name suits its style. */
  predicate Fits(p: Piece, first: bool, names: seq<byte>)
  {
    && |Raw(p)| <= 16 && |Decimals(|Body(p)|)| <= 10 && |Body(p)| < U64_LIMIT
    && (p.Table? ==> |p.names| <= MAX_NAME_TABLE)
    && (p.Symbols? ==> IndexFits(p.index, first))
    && (p.File? ==> SafeName(p.name) && NameFits(p, first, names))
    && (p.File? && p.style.Gnu? ==> p.style.offset < U64_LIMIT)
  }

  function Header(p: Piece): (r: seq<byte>)
    requires |Raw(p)| <= 16 && |Decimals(|Body(p)|)| <= 10
    ensures |r| == HEADER
  {
    Pad(Raw(p), 16) + Repeat(SPACE, 32) + Pad(Decimals(|Body(p)|), 10) + [96, NEWLINE]
  }

  function Tail(p: Piece): seq<byte>
  {
    if |Body(p)| % 2 == 0 then [] else [NEWLINE]
  }

  function Cell(p: Piece): seq<byte>
    requires |Raw(p)| <= 16 && |Decimals(|Body(p)|)| <= 10
  {
    Header(p) + (Body(p) + Tail(p))
  }

  function NamesAfter(p: Piece, names: seq<byte>): seq<byte>
  {
    if p.Table? then p.names else names
  }

  function Kept(p: Piece, at: nat): Option<Member>
  {
    if !p.File? then None else Some(Member(p.name, at + HEADER + |Inline(p)|, |p.payload|))
  }

  // ---------- reading one piece back ----------

  lemma NoSeparators(name: seq<byte>)
    requires forall i :: 0 <= i < |name| ==> !Separator(name[i])
    ensures BaseName(name) == name
  {
    if |name| > 0 {
      NoSeparators(name[..|name| - 1]);
    }
  }

  lemma SafeBytes(name: seq<byte>)
    requires SafeName(name)
    ensures |name| > 0 && name[|name| - 1] != 0 && 0 !in name
    ensures forall k :: 0 <= k < |name| ==> !Control(name[k]) && !Separator(name[k])
  {
  }

  lemma KeepSafe(name: seq<byte>)
    requires SafeName(name)
    ensures KeepName(name) == Some(name) && KeepName(name + [SLASH]) == Some(name)
  {
    hide BaseName;
    SafeBytes(name);
    NoSeparators(name);
    var raw := name + [SLASH];
    assert raw[..|raw| - 1] == name;
    assert name[|name| - 1] != SLASH;
  }

  lemma {:induction false} NameEndsAt(s: seq<byte>, i: nat, name: seq<byte>)
    requires i + |name| + 2 <= |s| && s[i..i + |name| + 2] == name + [SLASH, NEWLINE]
    requires forall k :: 0 <= k < |name| ==> !Control(name[k]) && !Separator(name[k])
    ensures NameEnd(s, i) == i + |name|
    decreases |name|
  {
    var here := s[i..i + |name| + 2];
    assert s[i] == here[0] && s[i + 1] == here[1];
    if |name| > 0 {
      assert s[i] == name[0];
      assert s[i + 1..i + 1 + |name[1..]| + 2] == here[1..];
      assert (name + [SLASH, NEWLINE])[1..] == name[1..] + [SLASH, NEWLINE];
      NameEndsAt(s, i + 1, name[1..]);
    }
  }

  lemma GnuRoundTrip(name: seq<byte>, offset: nat, names: seq<byte>)
    requires SafeName(name) && offset < U64_LIMIT && offset + |name| + 2 <= |names|
    requires names[offset..offset + |name| + 2] == name + [SLASH, NEWLINE]
    ensures GnuName([SLASH] + Decimals(offset), names) == Some(Named(0, name))
  {
    hide DecimalField, NameEnd, KeepName, SafeName, Control, Separator;
    var raw := [SLASH] + Decimals(offset);
    assert raw[1..] == Decimals(offset);
    FieldRoundTrip(offset, |Decimals(offset)|);
    SafeBytes(name);
    NameEndsAt(names, offset, name);
    Front(names, offset, name, [SLASH, NEWLINE]);
    KeepSafe(name);
  }

  /** The front of a slice is a shorter slice. */
  lemma Front(s: seq<byte>, i: nat, a: seq<byte>, b: seq<byte>)
    requires i + |a| + |b| <= |s| && s[i..i + |a| + |b|] == a + b
    ensures s[i..i + |a|] == a && s[i + |a|..i + |a| + |b|] == b
  {
    assert s[i..i + |a|] == (a + b)[..|a|];
    assert s[i + |a|..i + |a| + |b|] == (a + b)[|a|..];
  }

  lemma BsdNamed(file: seq<byte>, raw: seq<byte>, data: nat, size: nat, first: bool, n: nat, name: seq<byte>)
    requires |raw| >= 3 && data + size <= |file| && n <= size && n <= MAX_NAME
    requires DecimalField(raw[3..]) == Some(n) && TrimPadding(file[data..data + n]) == Some(name)
    requires KeepName(name) == Some(name) && !(first && BsdSymbolTable(name))
    ensures BsdName(file, raw, data, size, first) == Some(Named(n, name))
  {
    hide DecimalField, TrimPadding, KeepName, BsdSymbolTable;
  }

  lemma BsdRoundTrip(file: seq<byte>, data: nat, size: nat, first: bool, name: seq<byte>, padding: nat)
    requires SafeName(name) && padding <= 7 && |name| + padding <= MAX_NAME && |name| + padding <= size
    requires data + size <= |file| && file[data..data + |name| + padding] == name + Repeat(0, padding)
    requires !(first && BsdSymbolTable(name))
    ensures BsdName(file, BSD_PREFIX + Decimals(|name| + padding), data, size, first)
            == Some(Named(|name| + padding, name))
  {
    hide BsdName, DecimalField, KeepName, BsdSymbolTable, SafeName, TrimEndOf, Repeat, Decimals;
    var n := |name| + padding;
    var raw := BSD_PREFIX + Decimals(n);
    assert raw[3..] == Decimals(n);
    FieldRoundTrip(n, |Decimals(n)|);
    SafeBytes(name);
    PaddingLimit(name, padding);
    KeepSafe(name);
    BsdNamed(file, raw, data, size, first, n, name);
  }

  /** A plain name, closed by a slash, is taken for nothing else. */
  lemma PlainRoundTrip(file: seq<byte>, data: nat, size: nat, first: bool, names: seq<byte>, name: seq<byte>)
    requires SafeName(name) && name != [35, 49] && data + size <= |file|
    ensures Classify(file, name + [SLASH], data, size, first, names) == Some(Named(0, name))
  {
    hide KeepName, SafeName, GnuName, BsdName;
    KeepSafe(name);
    PlainIsNotSpecial(name);
    PlainIsNotSymbols(name);
    hide BsdSymbolTable, TrimPadding;
  }

  /** A safe plain name is understood exactly unless it is `#1`, which its closing
      slash turns into the BSD marker. */
  lemma PlainUnderstoodIff(file: seq<byte>, data: nat, size: nat, first: bool, names: seq<byte>, name: seq<byte>)
    requires SafeName(name) && data + size <= |file|
    ensures Classify(file, name + [SLASH], data, size, first, names) == Some(Named(0, name)) <==> name != [35, 49]
  {
    if name != [35, 49] {
      PlainRoundTrip(file, data, size, first, names, name);
    } else {
      assert name + [SLASH] == BSD_PREFIX;
      MarkerIsRefused(file, data, size, first, names);
    }
  }

  lemma MarkerIsRefused(file: seq<byte>, data: nat, size: nat, first: bool, names: seq<byte>)
    requires data + size <= |file|
    ensures Classify(file, BSD_PREFIX, data, size, first, names) == None
  {
    hide BsdSymbolTable, KeepName, GnuName;
    PlainIsNotSymbols([35, 49]);
    assert [35, 49] + [SLASH] == BSD_PREFIX;
    assert BSD_PREFIX[..3] == BSD_PREFIX && BSD_PREFIX[3..] == [];
  }

  lemma PlainIsNotSpecial(name: seq<byte>)
    requires SafeName(name) && name != [35, 49]
    ensures var raw := name + [SLASH];
            && |raw| >= 2 && raw[0] != SLASH
            && (|raw| >= 3 ==> raw[..3] != BSD_PREFIX)
  {
    var raw := name + [SLASH];
    SafeBytes(name);
    assert raw[0] == name[0];
    if |raw| == 3 {
      assert name == [name[0], name[1]];
      assert raw[..3] == [name[0], name[1], SLASH];
    } else if |raw| > 3 {
      assert raw[..3][2] == name[2];
    }
  }

  lemma PlainIsNotSymbols(name: seq<byte>)
    ensures TrimPadding(name + [SLASH]) == Some(name + [SLASH]) && !BsdSymbolTable(name + [SLASH])
  {
    var raw := name + [SLASH];
    TrimRepeat(raw, 0, 0);
    assert raw + Repeat(0, 0) == raw;
    assert raw[|raw| - 1] == SLASH;
  }

  /** The parser understands the name of every piece. */
  lemma NameRoundTrip(file: seq<byte>, p: Piece, data: nat, first: bool, names: seq<byte>)
    requires Fits(p, first, names) && data + |Body(p)| <= |file| && file[data..data + |Body(p)|] == Body(p)
    ensures Classify(file, Read(p), data, |Body(p)|, first, names)
            == Some(if !p.File? then Skip else Named(|Inline(p)|, p.name))
  {
    hide SafeName, Classify, Decimals, BsdSymbolTable, Repeat, SymbolName;
    match p
    case Table(_) => TableRoundTrip(file, data, |Body(p)|, first, names);
    case Symbols(_, _) => IndexRoundTrip(file, p, data, first, names);
    case File(Plain, name, _) => PlainRoundTrip(file, data, |Body(p)|, first, names, name);
    case File(Bsd(padding), name, payload) =>
      Front(file, data, Inline(p), payload);
      BsdClassified(file, data, |Body(p)|, first, names, name, padding);
    case File(Gnu(offset), name, _) => GnuClassified(file, data, |Body(p)|, first, names, name, offset);
  }

  /** Symbol indexes are skipped. */
  lemma IndexRoundTrip(file: seq<byte>, p: Piece, data: nat, first: bool, names: seq<byte>)
    requires p.Symbols? && Fits(p, first, names)
    requires data + |Body(p)| <= |file| && file[data..data + |Body(p)|] == Body(p)
    ensures Classify(file, Read(p), data, |Body(p)|, first, names) == Some(Skip)
  {
    hide SafeName, Classify, Decimals, BsdSymbolTable, Repeat, SymbolName;
    match p.index
    case Gnu32 => GnuIndexSkipped(file, data, |Body(p)|, first, names);
    case Gnu64 => GnuIndexSkipped(file, data, |Body(p)|, first, names);
    case BsdSorted => BsdIndexSkipped(file, data, |Body(p)|, names, false, 0);
    case BsdHeader(wide, padding) => BsdIndexSkipped(file, data, |Body(p)|, names, wide, padding);
    case BsdInline(wide, sorted, padding) =>
      Front(file, data, Inline(p), p.payload);
      InlineIndexSkipped(file, data, |Body(p)|, names, wide, sorted, padding);
  }

  lemma GnuIndexSkipped(file: seq<byte>, data: nat, size: nat, first: bool, names: seq<byte>)
    requires data + size <= |file|
    ensures Classify(file, [SLASH], data, size, first, names) == Some(Skip)
    ensures Classify(file, SYMBOLS64, data, size, first, names) == Some(Skip)
  {
  }

  /** A BSD index named in its header is skipped, if it comes first. */
  lemma BsdIndexSkipped(file: seq<byte>, data: nat, size: nat, names: seq<byte>, wide: bool, padding: nat)
    requires data + size <= |file| && padding <= 7
    ensures Classify(file, SymbolName(wide, false) + Repeat(0, padding), data, size, true, names) == Some(Skip)
    ensures padding == 0 ==> Classify(file, SymbolName(wide, false), data, size, true, names) == Some(Skip)
  {
    hide BsdSymbolTable, Repeat, KeepName, GnuName, BsdName, TrimEndOf;
    var name := SymbolName(wide, false);
    SymbolNamesAreTables(wide, false);
    TrimRepeat(name, 0, padding);
    IndexIsNotSpecial(wide, padding);
    if padding == 0 {
      assert name + Repeat(0, 0) == name;
    }
  }

  lemma IndexIsNotSpecial(wide: bool, padding: nat)
    ensures var raw := SymbolName(wide, false) + Repeat(0, padding);
            raw != LONG_NAMES && raw != [SLASH] && raw != SYMBOLS64
  {
    var raw := SymbolName(wide, false) + Repeat(0, padding);
    assert raw[0] == 95;
  }

  lemma BsdSkipped(file: seq<byte>, raw: seq<byte>, data: nat, size: nat, n: nat, name: seq<byte>)
    requires |raw| >= 3 && data + size <= |file| && n <= size && n <= MAX_NAME
    requires DecimalField(raw[3..]) == Some(n) && TrimPadding(file[data..data + n]) == Some(name)
    requires BsdSymbolTable(name)
    ensures BsdName(file, raw, data, size, true) == Some(Skip)
  {
    hide DecimalField, TrimPadding, KeepName, BsdSymbolTable;
  }

  /** So is one whose name stands in its payload. */
  lemma InlineIndexSkipped(file: seq<byte>, data: nat, size: nat, names: seq<byte>, wide: bool, sorted: bool, padding: nat)
    requires data + size <= |file| && padding <= 7 && |SymbolName(wide, sorted)| + padding <= size
    requires file[data..data + |SymbolName(wide, sorted)| + padding] == SymbolName(wide, sorted) + Repeat(0, padding)
    ensures Classify(file, BSD_PREFIX + Decimals(|SymbolName(wide, sorted)| + padding), data, size, true, names) == Some(Skip)
  {
    hide BsdName, BsdSymbolTable, Repeat, KeepName, GnuName, Decimals, DecimalField, SymbolName, TrimPadding;
    var name := SymbolName(wide, sorted);
    var n := |name| + padding;
    var raw := BSD_PREFIX + Decimals(n);
    assert raw[3..] == Decimals(n);
    FieldRoundTrip(n, |Decimals(n)|);
    SymbolNamesAreTables(wide, sorted);
    PaddingLimit(name, padding);
    BsdSkipped(file, raw, data, size, n, name);
    InlineNotSpecial(n);
  }

  lemma InlineNotSpecial(n: nat)
    ensures var raw := BSD_PREFIX + Decimals(n);
            && raw != LONG_NAMES && raw != [SLASH] && raw != SYMBOLS64 && raw[..3] == BSD_PREFIX
            && TrimPadding(raw) == Some(raw) && !BsdSymbolTable(raw)
  {
    hide Decimals;
    BsdIsNotSpecial(Decimals(n));
  }

  lemma TableRoundTrip(file: seq<byte>, data: nat, size: nat, first: bool, names: seq<byte>)
    requires data + size <= |file| && size <= MAX_NAME_TABLE
    ensures Classify(file, LONG_NAMES, data, size, first, names) == Some(Skip)
  {
  }

  lemma BsdClassified(file: seq<byte>, data: nat, size: nat, first: bool, names: seq<byte>, name: seq<byte>, padding: nat)
    requires SafeName(name) && padding <= 7 && |name| + padding <= MAX_NAME && |name| + padding <= size
    requires data + size <= |file| && file[data..data + |name| + padding] == name + Repeat(0, padding)
    requires !(first && BsdSymbolTable(name))
    ensures Classify(file, BSD_PREFIX + Decimals(|name| + padding), data, size, first, names)
            == Some(Named(|name| + padding, name))
  {
    hide SafeName, BsdName, Decimals, BsdSymbolTable, TrimPadding, Repeat;
    BsdRoundTrip(file, data, size, first, name, padding);
    BsdIsNotSpecial(Decimals(|name| + padding));
  }

  lemma GnuClassified(file: seq<byte>, data: nat, size: nat, first: bool, names: seq<byte>, name: seq<byte>, offset: nat)
    requires SafeName(name) && offset < U64_LIMIT && offset + |name| + 2 <= |names| && data + size <= |file|
    requires names[offset..offset + |name| + 2] == name + [SLASH, NEWLINE]
    ensures Classify(file, [SLASH] + Decimals(offset), data, size, first, names) == Some(Named(0, name))
  {
    hide SafeName, GnuName, BsdName, Decimals, BsdSymbolTable, TrimPadding;
    GnuRoundTrip(name, offset, names);
    GnuIsNotSpecial(Decimals(offset));
  }

  lemma BsdIsNotSpecial(digits: seq<byte>)
    requires |digits| > 0 && Digits(digits)
    ensures var raw := BSD_PREFIX + digits;
            && raw != LONG_NAMES && raw != [SLASH] && raw != SYMBOLS64 && raw[..3] == BSD_PREFIX
            && TrimPadding(raw) == Some(raw) && !BsdSymbolTable(raw)
  {
    var raw := BSD_PREFIX + digits;
    assert raw[0] == 35 && raw[|raw| - 1] == digits[|digits| - 1];
    TrimRepeat(raw, 0, 0);
    assert raw + Repeat(0, 0) == raw;
  }

  lemma GnuIsNotSpecial(digits: seq<byte>)
    requires |digits| > 0 && Digits(digits)
    ensures var raw := [SLASH] + digits;
            && raw != LONG_NAMES && raw != [SLASH] && raw != SYMBOLS64
            && TrimPadding(raw) == Some(raw) && !BsdSymbolTable(raw)
            && (|raw| >= 3 ==> raw[..3] != BSD_PREFIX)
  {
    var raw := [SLASH] + digits;
    assert raw[0] == SLASH && raw[1] == digits[0] && raw[|raw| - 1] == digits[|digits| - 1];
    TrimRepeat(raw, 0, 0);
    assert raw + Repeat(0, 0) == raw;
    if |raw| >= 3 {
      assert raw[..3][0] == SLASH;
    }
  }

  lemma CellSize(p: Piece)
    requires |Raw(p)| <= 16 && |Decimals(|Body(p)|)| <= 10
    ensures |Cell(p)| == HEADER + |Body(p)| + |Body(p)| % 2
    ensures |Cell(p)| % 2 == 0 && |Cell(p)| >= HEADER
  {
    hide Raw, Decimals, Body;
  }

  /** Where the parts of a cell are found in a file that holds it. */
  lemma CellParts(file: seq<byte>, at: nat, p: Piece)
    requires |Raw(p)| <= 16 && |Decimals(|Body(p)|)| <= 10
    requires at + |Cell(p)| <= |file| && file[at..at + |Cell(p)|] == Cell(p)
    ensures file[at..at + 16] == Pad(Raw(p), 16)
    ensures file[at + 48..at + 58] == Pad(Decimals(|Body(p)|), 10)
    ensures file[at + 58] == 96 && file[at + 59] == NEWLINE
    ensures file[at + HEADER..at + HEADER + |Body(p)|] == Body(p)
    ensures |Cell(p)| == HEADER + |Body(p)| + |Body(p)| % 2
    ensures |Body(p)| % 2 == 1 ==> file[at + HEADER + |Body(p)|] == NEWLINE
  {
    hide Raw, Decimals, Body, Pad, Repeat;
    CellSize(p);
    var h, b, t := Header(p), Body(p), Tail(p);
    Front(file, at, h, b + t);
    Front(file, at + HEADER, b, t);
    HeaderParts(p);
    hide Header, Cell, Tail;
    Within(file, at, h, 0, 16);
    Within(file, at, h, 48, 58);
    Within(file, at, h, 58, 60);
    assert file[at + 58] == file[at + 58..at + 60][0] && file[at + 59] == file[at + 58..at + 60][1];
    if |b| % 2 == 1 {
      assert file[at + HEADER + |b|] == file[at + HEADER + |b|..at + HEADER + |b| + |t|][0];
    }
  }

  /** A slice of a slice. */
  lemma Within(s: seq<byte>, at: nat, x: seq<byte>, i: nat, j: nat)
    requires i <= j <= |x| && at + |x| <= |s| && s[at..at + |x|] == x
    ensures s[at + i..at + j] == x[i..j]
  {
    var part := s[at + i..at + j];
    forall k | 0 <= k < |part|
      ensures part[k] == x[i..j][k]
    {
      assert x[i + k] == s[at..at + |x|][i + k] == s[at + (i + k)];
    }
  }

  lemma HeaderParts(p: Piece)
    requires |Raw(p)| <= 16 && |Decimals(|Body(p)|)| <= 10
    ensures var h := Header(p);
            && h[..16] == Pad(Raw(p), 16) && h[48..58] == Pad(Decimals(|Body(p)|), 10)
            && h[58] == 96 && h[59] == NEWLINE
  {
    hide Raw, Decimals, Body, Pad, Repeat;
    var a, b, c, d: seq<byte> := Pad(Raw(p), 16), Repeat(SPACE, 32), Pad(Decimals(|Body(p)|), 10), [96, NEWLINE];
    var h := Header(p);
    assert h == a + b + c + d;
    assert h[..16] == a && h[48..58] == c;
  }

  lemma ReadHasNoSpace(p: Piece, first: bool, names: seq<byte>)
    requires Fits(p, first, names)
    ensures SPACE !in Read(p)
  {
    hide Decimals, SafeName, BsdSymbolTable;
  }

  /** One written piece reads back as itself, wherever it stands. */
  lemma PieceRoundTrip(file: seq<byte>, at: nat, p: Piece, first: bool, names: seq<byte>)
    requires Fits(p, first, names) && at % 2 == 0
    requires at + |Cell(p)| <= |file| && file[at..at + |Cell(p)|] == Cell(p)
    ensures at < |file|
    ensures ParseEntry(file, at, first, names) == Some(Entry(Kept(p, at), NamesAfter(p, names), at + |Cell(p)|))
  {
    hide Fits, Decimals, DecimalField, Pad, Raw, Read, RawName, Body, Cell, Inline, Kept, ParseEntry, Classify;
    SizeIsRead(p, first, names);
    CellParts(file, at, p);
    CellSize(p);
    RawIsRead(file, at, p, first, names);
    NameRoundTrip(file, p, at + HEADER, first, names);
    TableIsNamed(p, first, names);
    BodySplits(p);
    Assemble(file, at, p, first, names, Read(p), Body(p));
  }

  lemma BodySplits(p: Piece)
    ensures Body(p) == Inline(p) + Content(p) && |Body(p)| == |Inline(p)| + |Content(p)|
  {
    hide Inline;
  }

  lemma Assemble(file: seq<byte>, at: nat, p: Piece, first: bool, names: seq<byte>, raw: seq<byte>, body: seq<byte>)
    requires at % 2 == 0 && at + HEADER + |body| + |body| % 2 <= |file|
    requires file[at + 58] == 96 && file[at + 59] == NEWLINE
    requires DecimalField(file[at + 48..at + 58]) == Some(|body|)
    requires RawName(file, at) == raw && (raw == LONG_NAMES <==> p.Table?)
    requires Classify(file, raw, at + HEADER, |body|, first, names)
             == Some(if !p.File? then Skip else Named(|Inline(p)|, p.name))
    requires |body| == |Inline(p)| + |Content(p)| && file[at + HEADER..at + HEADER + |body|] == body
    requires p.Table? ==> body == p.names
    requires |body| % 2 == 1 ==> file[at + HEADER + |body|] == NEWLINE
    ensures ParseEntry(file, at, first, names)
            == Some(Entry(Kept(p, at), NamesAfter(p, names), at + HEADER + |body| + |body| % 2))
  {
    hide DecimalField, Classify, RawName, Inline;
  }

  lemma SizeIsRead(p: Piece, first: bool, names: seq<byte>)
    requires Fits(p, first, names)
    ensures |Raw(p)| <= 16 && |Decimals(|Body(p)|)| <= 10
    ensures DecimalField(Pad(Decimals(|Body(p)|), 10)) == Some(|Body(p)|)
  {
    FieldRoundTrip(|Body(p)|, 10);
  }

  lemma RawIsRead(file: seq<byte>, at: nat, p: Piece, first: bool, names: seq<byte>)
    requires Fits(p, first, names) && at + HEADER <= |file| && file[at..at + 16] == Pad(Raw(p), 16)
    ensures RawName(file, at) == Read(p)
  {
    hide Decimals, SafeName, NameFits, Body, Raw, Read, Fits;
    ReadHasNoSpace(p, first, names);
    Behind(p, first, names);
    TakeStops(Read(p), Pad(Raw(p), 16)[|Read(p)|..]);
  }

  /** In the header, what is read is followed by a space or nothing. */
  lemma Behind(p: Piece, first: bool, names: seq<byte>)
    requires Fits(p, first, names)
    ensures |Raw(p)| <= 16 && |Read(p)| <= |Raw(p)|
    ensures var field := Pad(Raw(p), 16);
            && field == Read(p) + field[|Read(p)|..]
            && (field[|Read(p)|..] == [] || field[|Read(p)|..][0] == SPACE)
  {
    hide Decimals, SafeName, NameFits, Body;
    var field := Pad(Raw(p), 16);
    if p.Symbols? && p.index.BsdSorted? {
      assert Raw(p) == SYMDEF + [] + SORTED && Read(p) == SYMDEF + [] + [];
      assert field[..9] == Raw(p)[..9] == SYMDEF && field[9] == Raw(p)[9] == SPACE;
    } else {
      hide Raw;
      assert field[..|Raw(p)|] == Raw(p);
    }
  }

  lemma TableIsNamed(p: Piece, first: bool, names: seq<byte>)
    requires Fits(p, first, names)
    ensures Read(p) == LONG_NAMES <==> p.Table?
    ensures p.Table? ==> Body(p) == p.names
  {
    hide Decimals;
    match p
    case Table(t) => assert [] + t == t;
    case Symbols(Gnu32, _) =>
    case Symbols(Gnu64, _) =>
    case Symbols(BsdSorted, _) => assert |Read(p)| >= 9;
    case Symbols(BsdHeader(_, _), _) => assert |Read(p)| >= 9;
    case Symbols(BsdInline(wide, sorted, padding), _) => InlineNotSpecial(|SymbolName(wide, sorted)| + padding);
    case File(Plain, name, _) => SafeBytes(name); assert Read(p)[0] == name[0];
    case File(Bsd(padding), name, _) => BsdIsNotSpecial(Decimals(|name| + padding));
    case File(Gnu(offset), name, _) => GnuIsNotSpecial(Decimals(offset));
  }

  // ---------- the whole archive ----------

  predicate AllFit(pieces: seq<Piece>, first: bool, names: seq<byte>)
  {
    pieces == [] || (Fits(pieces[0], first, names) && AllFit(pieces[1..], false, NamesAfter(pieces[0], names)))
  }

  function Cells(pieces: seq<Piece>, first: bool, names: seq<byte>): (r: seq<byte>)
    requires AllFit(pieces, first, names)
  {
    if pieces == [] then []
    else Cell(pieces[0]) + Cells(pieces[1..], false, NamesAfter(pieces[0], names))
  }

  /** The members that a list of pieces stands for, from position `at` on. */
  function Expected(pieces: seq<Piece>, at: nat): seq<Member>
    requires forall k :: 0 <= k < |pieces| ==> |Raw(pieces[k])| <= 16 && |Decimals(|Body(pieces[k])|)| <= 10
  {
    if pieces == [] then []
    else
      var kept := Kept(pieces[0], at);
      (if kept.Some? then [kept.value] else []) + Expected(pieces[1..], at + |Cell(pieces[0])|)
  }

  lemma {:induction false} FitsAreSized(pieces: seq<Piece>, first: bool, names: seq<byte>)
    requires AllFit(pieces, first, names)
    ensures forall k :: 0 <= k < |pieces| ==> |Raw(pieces[k])| <= 16 && |Decimals(|Body(pieces[k])|)| <= 10
  {
    hide NameFits, SafeName, Raw, Decimals, Body;
    if pieces != [] {
      FitsAreSized(pieces[1..], false, NamesAfter(pieces[0], names));
    }
  }

  lemma {:induction false} CellsRoundTrip(file: seq<byte>, at: nat, pieces: seq<Piece>, count: nat, names: seq<byte>)
    requires AllFit(pieces, count == 0, names) && count + |pieces| <= MAX_MEMBERS && at % 2 == 0
    requires at <= |file| && file[at..] == Cells(pieces, count == 0, names)
    ensures forall k :: 0 <= k < |pieces| ==> |Raw(pieces[k])| <= 16 && |Decimals(|Body(pieces[k])|)| <= 10
    ensures ParseFrom(file, at, count, names) == Some(Expected(pieces, at))
    decreases |pieces|
  {
    hide Fits, ParseEntry, Cell, Raw, Decimals, Body, Kept;
    FitsAreSized(pieces, count == 0, names);
    if pieces == [] {
      assert at == |file|;
    } else {
      var p := pieces[0];
      var rest := Cells(pieces[1..], false, NamesAfter(p, names));
      CellSize(p);
      assert file[at..at + |Cell(p)|] == Cell(p) && file[at + |Cell(p)|..] == rest by {
        assert file[at..] == Cell(p) + rest;
        assert file[at..][..|Cell(p)|] == Cell(p) && file[at..][|Cell(p)|..] == rest;
      }
      PieceRoundTrip(file, at, p, count == 0, names);
      CellsRoundTrip(file, at + |Cell(p)|, pieces[1..], count + 1, NamesAfter(p, names));
    }
  }

  /** Every archive that the writer can produce, with symbol indexes and name tables, is
      accepted, and exactly its files are found, under their names, at the place and with
      the length of their payloads. */
  lemma WriteThenParse(pieces: seq<Piece>)
    requires AllFit(pieces, true, []) && |pieces| <= MAX_MEMBERS && exists k :: 0 <= k < |pieces| && pieces[k].File?
    ensures forall k :: 0 <= k < |pieces| ==> |Raw(pieces[k])| <= 16 && |Decimals(|Body(pieces[k])|)| <= 10
    ensures MembersOf(MAGIC + Cells(pieces, true, [])) == Some(Expected(pieces, 8))
  {
    hide AllFit, ParseFrom, Raw, Decimals, Body, Cells;
    var file := MAGIC + Cells(pieces, true, []);
    assert file[8..] == Cells(pieces, true, []) && file[..8] == MAGIC;
    CellsRoundTrip(file, 8, pieces, 0, []);
    var k :| 0 <= k < |pieces| && pieces[k].File?;
    SomeMember(pieces, 8, k);
  }

  lemma {:induction false} SomeMember(pieces: seq<Piece>, at: nat, k: nat)
    requires forall i :: 0 <= i < |pieces| ==> |Raw(pieces[i])| <= 16 && |Decimals(|Body(pieces[i])|)| <= 10
    requires k < |pieces| && pieces[k].File?
    ensures |Expected(pieces, at)| > 0
    decreases k
  {
    hide Raw, Decimals, Body, Cell;
    if k > 0 {
      SomeMember(pieces[1..], at + |Cell(pieces[0])|, k - 1);
    }
  }

  /** The range given for a member holds its payload. */
  lemma MemberHoldsPayload(file: seq<byte>, at: nat, p: Piece)
    requires p.File? && |Raw(p)| <= 16 && |Decimals(|Body(p)|)| <= 10
    requires at + |Cell(p)| <= |file| && file[at..at + |Cell(p)|] == Cell(p)
    ensures var m := Kept(p, at).value;
            m.offset + m.len <= |file| && file[m.offset..m.offset + m.len] == p.payload
  {
    hide Raw, Decimals, Cell, Inline;
    CellParts(file, at, p);
    Front(file, at + HEADER, Inline(p), p.payload);
  }

  // ---------- what is accepted ----------

  /** A path that ends in this name, behind nothing or behind a separator. */
  predicate EndsInName(path: seq<byte>, name: seq<byte>)
  {
    && |name| <= |path| && path[|path| - |name|..] == name
    && (|name| == |path| || Separator(path[|path| - |name| - 1]))
  }

  lemma {:induction false} BaseNameIs(path: seq<byte>)
    ensures EndsInName(path, BaseName(path))
  {
    hide Separator;
    if |path| > 0 && !Separator(path[|path| - 1]) {
      var shorter := path[..|path| - 1];
      BaseNameIs(shorter);
      var base := BaseName(shorter);
      assert BaseName(path) == base + [path[|path| - 1]];
      if |base| < |shorter| {
        assert shorter[|shorter| - |base| - 1] == path[|path| - (|base| + 1) - 1];
      }
    }
  }

  lemma BaseNameIsOnly(path: seq<byte>, name: seq<byte>)
    requires EndsInName(path, name) && forall i :: 0 <= i < |name| ==> !Separator(name[i])
    ensures BaseName(path) == name
  {
    BaseNameIs(path);
    var base := BaseName(path);
    hide BaseName, Separator;
    assert forall i :: 0 <= i < |name| ==> name[i] == path[|path| - |name| + i];
    assert forall i :: 0 <= i < |base| ==> base[i] == path[|path| - |base| + i];
    assert forall k :: |path| - |name| <= k < |path| ==> path[k] == name[k - (|path| - |name|)];
    assert forall k :: |path| - |base| <= k < |path| ==> path[k] == base[k - (|path| - |base|)];
  }

  /** A raw name is kept exactly as the safe last component of a path without control
      bytes; one closing slash does not count. */
  lemma KeepNameIff(raw: seq<byte>, name: seq<byte>)
    ensures KeepName(raw) == Some(name) <==>
            && SafeName(name) && EndsInName(WithoutSlash(raw), name)
            && forall i :: 0 <= i < |WithoutSlash(raw)| ==> !Control(WithoutSlash(raw)[i])
  {
    hide BaseName, Separator, EndsInName;
    var path := WithoutSlash(raw);
    BaseNameIs(path);
    assert KeepName(raw).Some? ==> KeepName(raw).value == BaseName(path);
    if SafeName(name) && EndsInName(path, name) {
      SafeBytes(name);
      BaseNameIsOnly(path, name);
      assert BaseName(path) == name && 0 !in name;
    }
  }

  /** Safe names in numbers: one to 1024 bytes, no control byte, no slash or backslash,
      and neither `.` nor `..`. */
  lemma SafeNameRule(s: seq<byte>)
    ensures SafeName(s) <==>
            && 0 < |s| <= 1024 && s != [46] && s != [46, 46]
            && forall i :: 0 <= i < |s| ==> 32 <= s[i] && s[i] != 127 && s[i] != 47 && s[i] != 92
  {
  }

  /** At most seven bytes of padding behind a BSD name. */
  lemma PaddingLimit(name: seq<byte>, n: nat)
    requires |name| > 0 ==> name[|name| - 1] != 0
    ensures TrimPadding(name + Repeat(0, n)) == if n <= 7 then Some(name) else None
  {
    hide Repeat;
    TrimRepeat(name, 0, n);
  }

  /** A name from the table is terminated there, at the first possible place. */
  lemma AcceptedGnu(raw: seq<byte>, names: seq<byte>)
    requires |raw| > 1 && GnuName(raw, names).Some?
    ensures DecimalField(raw[1..]).Some?
    ensures var off := DecimalField(raw[1..]).value;
            && off <= |names|
            && var end := NameEnd(names, off);
               && end < |names| && Terminates(names, end)
               && (forall k :: off <= k < end ==> !Terminates(names, k))
               && GnuName(raw, names).value.Named? && KeepName(names[off..end]) == Some(GnuName(raw, names).value.name)
  {
    hide DecimalField, KeepName, NameEnd;
    NameEndIs(names, DecimalField(raw[1..]).value);
  }

  predicate Terminates(s: seq<byte>, k: nat)
    requires k < |s|
  {
    s[k] == 0 || (k + 1 < |s| && s[k] == SLASH && s[k + 1] == NEWLINE)
  }

  lemma {:induction false} NameEndIs(s: seq<byte>, i: nat)
    requires i <= |s|
    ensures NameEnd(s, i) < |s| ==> Terminates(s, NameEnd(s, i))
    ensures forall k :: i <= k < NameEnd(s, i) ==> !Terminates(s, k)
    decreases |s| - i
  {
    if i < |s| && !Terminates(s, i) {
      NameEndIs(s, i + 1);
    }
  }

  /** Nothing but a proper header is accepted: terminated, with a decimal size that fits
      the file, and followed by a newline where the size is odd. */
  lemma AcceptedHeader(file: seq<byte>, at: nat, first: bool, names: seq<byte>)
    requires at < |file| && at % 2 == 0 && ParseEntry(file, at, first, names).Some?
    ensures at + HEADER <= |file| && file[at + 58..at + HEADER] == [96, NEWLINE]
    ensures DecimalField(file[at + 48..at + 58]).Some?
    ensures var size := DecimalField(file[at + 48..at + 58]).value;
            && at + HEADER + size <= |file|
            && ParseEntry(file, at, first, names).value.next == at + HEADER + size + size % 2
            && (size % 2 == 1 ==> at + HEADER + size < |file| && file[at + HEADER + size] == NEWLINE)
  {
    hide DecimalField, Classify, RawName;
  }

  /** And nothing but an archive: the magic comes first. */
  lemma AcceptedMagic(file: seq<byte>)
    requires MembersOf(file).Some?
    ensures |file| >= 8 && file[..8] == [33, 60, 97, 114, 99, 104, 62, 10]
  {
    hide ParseFrom;
  }
}
