/** The `ar` member parser: GNU, BSD and plain member names. */
module Archive {
  import opened Text
  import opened Hex

  const MAX_MEMBERS: nat := 16384
  const MAX_NAME: nat := 1024
  const MAX_NAME_TABLE: nat := 8 * 1024 * 1024
  const HEADER: nat := 60

  const SLASH: byte := 47
  const BACKSLASH: byte := 92
  const DOT: byte := 46
  const SPACE: byte := 32
  const NEWLINE: byte := 10

  datatype Member = Member(name: seq<byte>, offset: nat, len: nat)

  // ---------- small decoders ----------

  function TrimEndOf(s: seq<byte>, c: byte): (t: seq<byte>)
    ensures |t| <= |s| && t == s[..|t|]
    ensures |t| > 0 ==> t[|t| - 1] != c
    ensures forall i :: |t| <= i < |s| ==> s[i] == c
  {
    if |s| > 0 && s[|s| - 1] == c then TrimEndOf(s[..|s| - 1], c) else s
  }

  predicate Digits(s: seq<byte>)
  {
    forall i :: 0 <= i < |s| ==> 48 <= s[i] <= 57
  }

  function Value(s: seq<byte>): nat
    requires Digits(s)
  {
    if |s| == 0 then 0 else Value(s[..|s| - 1]) * 10 + (s[|s| - 1] - 48) as int
  }

  /** `decimal`: trailing spaces dropped, then one or more digits below 2^64. */
  function DecimalField(s: seq<byte>): Option<nat>
  {
    var t := TrimEndOf(s, SPACE);
    if |t| == 0 || !Digits(t) || Value(t) >= U64_LIMIT then None else Some(Value(t))
  }

  predicate Control(b: byte)
  {
    b < 32 || b == 127
  }

  predicate Separator(b: byte)
  {
    b == SLASH || b == BACKSLASH
  }

  /** The part after the last separator. */
  function BaseName(s: seq<byte>): (t: seq<byte>)
    ensures |t| <= |s| && t == s[|s| - |t|..]
    ensures forall i :: 0 <= i < |t| ==> !Separator(t[i])
  {
    if |s| == 0 || Separator(s[|s| - 1]) then []
    else
      var rest := BaseName(s[..|s| - 1]);
      assert s[|s| - 1 - |rest|..] == rest + [s[|s| - 1]];
      rest + [s[|s| - 1]]
  }

  predicate SafeName(s: seq<byte>)
  {
    && 0 < |s| <= MAX_NAME && s != [DOT] && s != [DOT, DOT]
    && forall i :: 0 <= i < |s| ==> !Control(s[i]) && !Separator(s[i])
  }

  /** One closing slash belongs to the archive format, not to the name. */
  function WithoutSlash(raw: seq<byte>): seq<byte>
  {
    if |raw| > 0 && raw[|raw| - 1] == SLASH then raw[..|raw| - 1] else raw
  }

  predicate HasControl(s: seq<byte>)
  {
    exists i :: 0 <= i < |s| && Control(s[i])
  }

  /** `safe_name`: only the basename of a path without control bytes is kept. */
  function KeepName(raw: seq<byte>): (r: Option<seq<byte>>)
    ensures r.Some? ==> SafeName(r.value)
  {
    var path := WithoutSlash(raw);
    if HasControl(path) then None
    else
      var base := BaseName(path);
      assert forall i :: 0 <= i < |base| ==> base[i] == path[|path| - |base| + i];
      if |base| == 0 || |base| > MAX_NAME || 0 in base || base == [DOT] || base == [DOT, DOT] then None else Some(base)
  }

  /** `trim_bsd_name_padding`. */
  function TrimPadding(s: seq<byte>): Option<seq<byte>>
  {
    var t := TrimEndOf(s, 0);
    if |s| - |t| > 7 then None else Some(t)
  }

  /** `__.SYMDEF`, `__.SYMDEF SORTED` and their 64-bit forms. */
  predicate BsdSymbolTable(s: seq<byte>)
  {
    var symdef: seq<byte> := [95, 95, 46, 83, 89, 77, 68, 69, 70];
    var sorted: seq<byte> := [32, 83, 79, 82, 84, 69, 68];
    var wide: seq<byte> := [95, 54, 52];
    s == symdef || s == symdef + sorted || s == symdef + wide || s == symdef + wide + sorted
  }

  function TakeUntilSpace(s: seq<byte>): (t: seq<byte>)
    ensures |t| <= |s|
  {
    if |s| == 0 || s[0] == SPACE then [] else [s[0]] + TakeUntilSpace(s[1..])
  }

  /** First index at or after `i` holding NUL or starting slash-newline; the
      table length when there is none. */
  function NameEnd(s: seq<byte>, i: nat): (e: nat)
    requires i <= |s|
    ensures i <= e <= |s|
    decreases |s| - i
  {
    if i == |s| then i
    else if s[i] == 0 || (i + 1 < |s| && s[i] == SLASH && s[i + 1] == NEWLINE) then i
    else NameEnd(s, i + 1)
  }

  // ---------- one member ----------

  /** What a header tells: the name to keep if any, where the payload is, the name
      table from here on, and where the next header starts. */
  datatype Entry = Entry(kept: Option<Member>, names: seq<byte>, next: nat)

  function RawName(file: seq<byte>, cursor: nat): seq<byte>
    requires cursor + HEADER <= |file|
  {
    TakeUntilSpace(file[cursor..cursor + 16])
  }

  const LONG_NAMES: seq<byte> := [SLASH, SLASH]
  const SYMBOLS64: seq<byte> := [47, 83, 89, 77, 54, 52, 47]
  const BSD_PREFIX: seq<byte> := [35, 49, 47]

  /** A classified name: how many payload bytes the name itself takes, and the
      bytes to keep (nothing for symbol and name tables). */
  datatype Named = Skip | Named(inline: nat, name: seq<byte>)

  function GnuName(raw: seq<byte>, names: seq<byte>): Option<Named>
    requires |raw| > 1
  {
    match DecimalField(raw[1..])
    case None => None
    case Some(off) =>
      if off > |names| then None
      else
        var end := NameEnd(names, off);
        if end == |names| then None
        else
          match KeepName(names[off..end])
          case Some(name) => Some(Named(0, name))
          case None => None
  }

  function BsdName(file: seq<byte>, raw: seq<byte>, data: nat, size: nat, first: bool): Option<Named>
    requires |raw| >= 3 && data + size <= |file|
  {
    match DecimalField(raw[3..])
    case None => None
    case Some(n) =>
      if n > size || n > MAX_NAME then None
      else
        match TrimPadding(file[data..data + n])
        case None => None
        case Some(name) =>
          if first && BsdSymbolTable(name) then Some(Skip)
          else
            match KeepName(name)
            case Some(kept) => Some(Named(n, kept))
            case None => None
  }

  function PlainName(raw: seq<byte>): Option<Named>
  {
    match KeepName(raw)
    case Some(name) => Some(Named(0, name))
    case None => None
  }

  function Classify(file: seq<byte>, raw: seq<byte>, data: nat, size: nat, first: bool, names: seq<byte>): Option<Named>
    requires data + size <= |file|
  {
    if raw == LONG_NAMES then if size > MAX_NAME_TABLE then None else Some(Skip)
    else if raw == [SLASH] || raw == SYMBOLS64 then Some(Skip)
    else if first && TrimPadding(raw).None? then None
    else if first && BsdSymbolTable(TrimPadding(raw).value) then Some(Skip)
    else if |raw| >= 3 && raw[..3] == BSD_PREFIX then BsdName(file, raw, data, size, first)
    else if |raw| > 1 && raw[0] == SLASH then GnuName(raw, names)
    else PlainName(raw)
  }

  /** Header position after a payload: members start at even offsets. */
  function NextHeader(file: seq<byte>, end: nat): Option<nat>
    requires end <= |file|
  {
    if end % 2 == 0 then Some(end)
    else if end + 1 > |file| || file[end] != NEWLINE then None
    else Some(end + 1)
  }

  function ParseEntry(file: seq<byte>, cursor: nat, first: bool, names: seq<byte>): (r: Option<Entry>)
    requires cursor < |file|
    ensures r.Some? ==> cursor + HEADER <= r.value.next <= |file|
  {
    if cursor + HEADER > |file| then None
    else if file[cursor + 58] != 96 || file[cursor + 59] != NEWLINE then None
    else
      match DecimalField(file[cursor + 48..cursor + 58])
      case None => None
      case Some(size) =>
        var data := cursor + HEADER;
        if data + size > |file| then None
        else
          var raw := RawName(file, cursor);
          match (Classify(file, raw, data, size, first, names), NextHeader(file, data + size))
          case (Some(named), Some(next)) =>
            var kept := match named
              case Skip => None
              case Named(inline, name) =>
                if inline <= size then Some(Member(name, data + inline, size - inline)) else None;
            Some(Entry(kept, if raw == LONG_NAMES then file[data..data + size] else names, next))
          case _ => None
  }

  // ---------- the whole archive ----------

  const MAGIC: seq<byte> := [33, 60, 97, 114, 99, 104, 62, 10]

  function ParseFrom(file: seq<byte>, cursor: nat, count: nat, names: seq<byte>): Option<seq<Member>>
    requires cursor <= |file|
    decreases |file| - cursor
  {
    if cursor == |file| then Some([])
    else if count >= MAX_MEMBERS then None
    else
      match ParseEntry(file, cursor, count == 0, names)
      case None => None
      case Some(e) =>
        match ParseFrom(file, e.next, count + 1, e.names)
        case None => None
        case Some(rest) => Some((if e.kept.Some? then [e.kept.value] else []) + rest)
  }

  function MembersOf(file: seq<byte>): Option<seq<Member>>
  {
    if |file| < 8 || file[..8] != MAGIC then None
    else
      match ParseFrom(file, 8, 0, [])
      case Some(ms) => if |ms| == 0 then None else Some(ms)
      case None => None
  }

  /** `members`: the cursor loop. Every read is in bounds and the cursor strictly
      advances, so the loop ends. */
  method Members(file: seq<byte>) returns (r: Option<seq<Member>>)
    requires |file| < U64_LIMIT
    ensures r == MembersOf(file)
  {
    hide ParseEntry;
    if |file| < 8 || file[..8] != MAGIC {
      return None;
    }
    var cursor: nat, out: seq<Member>, names: seq<byte>, count: nat := 8, [], [], 0;
    ghost var goal := ParseFrom(file, 8, 0, []);
    ghost var rest := goal;
    assert goal.Some? ==> [] + goal.value == goal.value;
    while cursor < |file|
      invariant 8 <= cursor <= |file| && rest == ParseFrom(file, cursor, count, names)
      invariant goal.Some? <==> rest.Some?
      invariant goal.Some? ==> goal.value == out + rest.value
      decreases |file| - cursor
    {
      if count >= MAX_MEMBERS {
        return None;
      }
      var entry := ParseEntry(file, cursor, count == 0, names);
      if entry.None? {
        return None;
      }
      count := count + 1;
      ghost var before := out;
      rest := ParseFrom(file, entry.value.next, count, entry.value.names);
      if entry.value.kept.Some? {
        out := out + [entry.value.kept.value];
        assert rest.Some? ==> before + ([entry.value.kept.value] + rest.value) == out + rest.value;
      } else {
        assert rest.Some? ==> [] + rest.value == rest.value;
      }
      cursor, names := entry.value.next, entry.value.names;
    }
    assert out + [] == out;
    r := if |out| == 0 then None else Some(out);
  }

  // ---------- what success guarantees ----------

  /** The header positions visited, ending with the position after the last member. */
  ghost function Cuts(file: seq<byte>, cursor: nat, count: nat, names: seq<byte>): seq<nat>
    requires cursor <= |file|
    decreases |file| - cursor
  {
    if cursor == |file| then [cursor]
    else
      match ParseEntry(file, cursor, count == 0, names)
      case None => [cursor]
      case Some(e) => [cursor] + Cuts(file, e.next, count + 1, e.names)
  }

  /** A member lies in one cell between two cuts, behind the header. */
  predicate InCell(m: Member, lo: nat, hi: nat)
  {
    lo + HEADER <= m.offset && m.offset + m.len <= hi
  }

  lemma EntryInCell(file: seq<byte>, cursor: nat, first: bool, names: seq<byte>)
    requires cursor < |file| && ParseEntry(file, cursor, first, names).Some?
    ensures var e := ParseEntry(file, cursor, first, names).value;
            && cursor + HEADER <= e.next <= |file|
            && (e.kept.Some? ==> InCell(e.kept.value, cursor, e.next) && SafeName(e.kept.value.name))
  {
    hide DecimalField, TakeUntilSpace, SafeName, Classify;
    var size := DecimalField(file[cursor + 48..cursor + 58]).value;
    var data := cursor + HEADER;
    ClassifiedSafe(file, RawName(file, cursor), data, size, first, names);
  }

  lemma ClassifiedSafe(file: seq<byte>, raw: seq<byte>, data: nat, size: nat, first: bool, names: seq<byte>)
    requires data + size <= |file|
    ensures match Classify(file, raw, data, size, first, names)
            case Some(Named(inline, name)) => inline <= size && SafeName(name)
            case _ => true
  {
    hide DecimalField, TakeUntilSpace, SafeName, BsdSymbolTable, TrimPadding;
  }

  /** Members in order, each in its own part of the file, none overlapping. */
  ghost predicate Ordered(ms: seq<Member>, lo: nat, hi: nat)
  {
    && (forall k :: 0 <= k < |ms| ==> lo + HEADER <= ms[k].offset && ms[k].offset + ms[k].len <= hi && SafeName(ms[k].name))
    && forall j, k :: 0 <= j < k < |ms| ==> ms[j].offset + ms[j].len + HEADER <= ms[k].offset
  }

  lemma OrderedCons(m: Member, ms: seq<Member>, lo: nat, mid: nat, hi: nat)
    requires InCell(m, lo, mid) && SafeName(m.name) && lo <= mid <= hi && Ordered(ms, mid, hi)
    ensures Ordered([m] + ms, lo, hi)
  {
    hide SafeName;
    var all := [m] + ms;
    forall j, k | 0 <= j < k < |all| ensures all[j].offset + all[j].len + HEADER <= all[k].offset {
      assert all[k] == ms[k - 1];
      if j > 0 {
        assert all[j] == ms[j - 1];
      }
    }
    forall k | 0 <= k < |all|
      ensures lo + HEADER <= all[k].offset && all[k].offset + all[k].len <= hi && SafeName(all[k].name)
    {
      if k > 0 {
        assert all[k] == ms[k - 1];
      }
    }
  }

  lemma OrderedWiden(ms: seq<Member>, lo: nat, mid: nat, hi: nat)
    requires lo <= mid && Ordered(ms, mid, hi)
    ensures Ordered(ms, lo, hi)
  {
    hide SafeName;
  }

  lemma NoneOrdered(at: nat)
    ensures Ordered([], at, at)
  {
  }

  lemma {:induction false} ParseFromOrdered(file: seq<byte>, cursor: nat, count: nat, names: seq<byte>)
    requires cursor <= |file| && ParseFrom(file, cursor, count, names).Some?
    ensures Ordered(ParseFrom(file, cursor, count, names).value, cursor, |file|)
    decreases |file| - cursor
  {
    hide ParseEntry, SafeName, InCell, Ordered;
    if cursor == |file| {
      NoneOrdered(cursor);
    } else {
      var e := ParseEntry(file, cursor, count == 0, names).value;
      EntryInCell(file, cursor, count == 0, names);
      var rest := ParseFrom(file, e.next, count + 1, e.names).value;
      ParseFromOrdered(file, e.next, count + 1, e.names);
      if e.kept.Some? {
        OrderedCons(e.kept.value, rest, cursor, e.next, |file|);
      } else {
        OrderedWiden(rest, cursor, e.next, |file|);
        assert [] + rest == rest;
      }
    }
  }

  /** Whenever parsing succeeds there is at least one member; payloads are in
      order, pairwise disjoint (a header apart), inside the file behind the magic
      and a header, and every kept name is a safe non-empty bounded basename. */
  lemma MembersAreSound(file: seq<byte>)
    requires MembersOf(file).Some?
    ensures |MembersOf(file).value| > 0 && Ordered(MembersOf(file).value, 8, |file|)
  {
    hide Ordered, ParseEntry;
    ParseFromOrdered(file, 8, 0, []);
  }

  ghost predicate Tiling(cuts: seq<nat>, lo: nat, hi: nat)
  {
    && |cuts| > 0 && cuts[0] == lo && cuts[|cuts| - 1] == hi
    && forall k :: 0 <= k < |cuts| - 1 ==> cuts[k] + HEADER <= cuts[k + 1]
  }

  lemma TilingCons(lo: nat, rest: seq<nat>, mid: nat, hi: nat)
    requires lo + HEADER <= mid && Tiling(rest, mid, hi)
    ensures Tiling([lo] + rest, lo, hi)
  {
    var cuts := [lo] + rest;
    forall k | 0 <= k < |cuts| - 1 ensures cuts[k] + HEADER <= cuts[k + 1] {
      if k > 0 {
        assert cuts[k] == rest[k - 1] && cuts[k + 1] == rest[k];
      }
    }
  }

  lemma EntryAdvances(file: seq<byte>, cursor: nat, count: nat, names: seq<byte>) returns (e: Entry)
    requires cursor < |file| && ParseFrom(file, cursor, count, names).Some?
    ensures count < MAX_MEMBERS && ParseEntry(file, cursor, count == 0, names) == Some(e)
    ensures cursor + HEADER <= e.next <= |file| && ParseFrom(file, e.next, count + 1, e.names).Some?
  {
    hide ParseEntry;
    e := ParseEntry(file, cursor, count == 0, names).value;
  }

  lemma CutsAdvance(file: seq<byte>, cursor: nat, count: nat, names: seq<byte>, e: Entry)
    requires cursor < |file| && e.next <= |file| && ParseEntry(file, cursor, count == 0, names) == Some(e)
    ensures Cuts(file, cursor, count, names) == [cursor] + Cuts(file, e.next, count + 1, e.names)
  {
    hide ParseEntry;
  }

  lemma LastCut(file: seq<byte>, count: nat, names: seq<byte>)
    requires ParseFrom(file, |file|, count, names).Some?
    ensures Cuts(file, |file|, count, names) == [|file|] && Tiling([|file|], |file|, |file|)
  {
  }

  /** The headers tile the file exactly: each cut is at least a header further on,
      the last one is the end of the file, so nothing is skipped or left over, and
      there are no more headers than the member limit allows. */
  lemma {:induction false} FileIsConsumed(file: seq<byte>, cursor: nat, count: nat, names: seq<byte>)
    requires cursor <= |file| && count <= MAX_MEMBERS && ParseFrom(file, cursor, count, names).Some?
    ensures Tiling(Cuts(file, cursor, count, names), cursor, |file|)
    ensures |Cuts(file, cursor, count, names)| <= 1 + MAX_MEMBERS - count
    decreases |file| - cursor
  {
    hide ParseEntry, Cuts, ParseFrom, Tiling;
    if cursor == |file| {
      LastCut(file, count, names);
    } else {
      var e := EntryAdvances(file, cursor, count, names);
      CutsAdvance(file, cursor, count, names, e);
      FileIsConsumed(file, e.next, count + 1, e.names);
      TilingCons(cursor, Cuts(file, e.next, count + 1, e.names), e.next, |file|);
    }
  }
}
