/** The flat credentials file that predates governance, and the end-to-end
    guarantee of migrating it. */
module GovernanceLegacy {
  import opened Text
  import opened Hex
  import opened Names
  import opened Governance
  import opened GovernanceReplay
  import opened GovernanceChain
  import opened GovernanceFile
  import opened GovernanceMigration

  /** `serialize_governance_state`, for one order of writing the sets. */
  ghost function Serialize(sha: Digest, l: Listing, st: State): Option<string>
    requires ListingOf(l, st.data)
  {
    if Valid(sha, st) && ByteLength(Printed(l, st)) <= MAX_FILE_BYTES then Some(Printed(l, st)) else None
  }

  datatype LegacyLine = Blank | Entry(credential: Credential) | Malformed

  /** `parse_credential_line`: unlike governance lines, upper-case digests are accepted. */
  function ParseLegacyLine(raw: string): LegacyLine
  {
    var line := Trim(raw);
    if ByteLength(raw) > MAX_LINE_BYTES then Malformed
    else if line == "" || line[0] == '#' then Blank
    else
      var f := Fields(line);
      if |f| != 2 then Malformed
      else
        match ParseHashText(f[0])
        case None => Malformed
        case Some(h) => if ValidName(f[1]) then Entry((h, f[1])) else Malformed
  }

  function ParseLegacyLines(found: seq<Credential>, lines: seq<string>): Option<seq<Credential>>
    decreases |lines|
  {
    if |lines| == 0 then Some(found)
    else
      match ParseLegacyLine(lines[0])
      case Malformed => None
      case Blank => ParseLegacyLines(found, lines[1..])
      case Entry(c) =>
        if |found| >= MAX_ACL || c in found then None else ParseLegacyLines(found + [c], lines[1..])
  }

  /** The first line that is neither blank nor a comment. */
  function FirstRecord(lines: seq<string>): Option<string>
  {
    if |lines| == 0 then None
    else
      var line := Trim(lines[0]);
      if line == "" || line[0] == '#' then FirstRecord(lines[1..]) else Some(line)
  }

  /** Some line is neither blank nor a comment. */
  predicate HasRecord(lines: seq<string>)
  {
    exists k :: 0 <= k < |lines| && Trim(lines[k]) != "" && Trim(lines[k])[0] != '#'
  }

  lemma {:induction false} FirstRecordIs(lines: seq<string>)
    ensures FirstRecord(lines).Some? <==> HasRecord(lines)
  {
    hide Trim;
    if |lines| > 0 {
      FirstRecordIs(lines[1..]);
      assert forall k :: 0 < k < |lines| ==> lines[k] == lines[1..][k - 1];
    }
  }

  /** `parse_credential_records` on a file that is not under governance yet. */
  function ParseLegacy(text: string): Option<seq<Credential>>
  {
    if ByteLength(text) > MAX_FILE_BYTES || FirstRecord(Lines(text)) == Some(SCHEMA) then None
    else ParseLegacyLines([], Lines(text))
  }

  /** The parsing loop over lines. */
  method ReadLegacy(text: string) returns (r: Option<seq<Credential>>)
    ensures r == ParseLegacy(text)
  {
    hide ParseLegacyLine, ByteLength, FirstRecord, Lines;
    if ByteLength(text) > MAX_FILE_BYTES || FirstRecord(Lines(text)) == Some(SCHEMA) {
      return None;
    }
    var lines := Lines(text);
    var credentials: seq<Credential> := [];
    var seen: set<Credential> := {};
    assert lines[0..] == lines;
    for index := 0 to |lines|
      invariant ParseLegacyLines(credentials, lines[index..]) == ParseLegacy(text)
      invariant forall c :: c in seen <==> c in credentials
    {
      assert lines[index..][1..] == lines[index + 1..];
      match ParseLegacyLine(lines[index]) {
        case Malformed => return None;
        case Blank =>
        case Entry(c) =>
          if |credentials| >= MAX_ACL {
            return None;
          }
          if c in seen {
            return None;
          }
          seen := seen + {c};
          credentials := credentials + [c];
      }
    }
    assert lines[|lines|..] == [];
    r := Some(credentials);
  }

  /** What the legacy parser promises: bounded, duplicate-free, well named. */
  predicate LegacyList(legacy: seq<Credential>)
  {
    && |legacy| <= MAX_ACL
    && (forall k :: 0 <= k < |legacy| ==> ValidName(legacy[k].1))
    && (forall i, j :: 0 <= i < j < |legacy| ==> legacy[i] != legacy[j])
  }

  lemma {:induction false} LegacyListKept(found: seq<Credential>, lines: seq<string>)
    requires LegacyList(found) && ParseLegacyLines(found, lines).Some?
    ensures LegacyList(ParseLegacyLines(found, lines).value)
    decreases |lines|
  {
    if |lines| > 0 {
      LegacyEntryNamed(lines[0]);
      hide ValidName, ParseLegacyLine;
      match ParseLegacyLine(lines[0])
      case Blank => LegacyListKept(found, lines[1..]);
      case Entry(c) => LegacyListKept(found + [c], lines[1..]);
      case Malformed =>
    }
  }

  lemma LegacyEntryNamed(raw: string)
    ensures match ParseLegacyLine(raw) case Entry(c) => ValidName(c.1) case _ => true
  {
    hide ValidName, ParseHashText, Fields, Trim, ByteLength;
  }

  lemma ParsedLegacy(text: string)
    requires ParseLegacy(text).Some?
    ensures LegacyList(ParseLegacy(text).value)
  {
    hide ParseLegacyLines, ValidName;
    LegacyListKept([], Lines(text));
  }

  // ---------- printed size ----------

  /** Size of the text of a block of records. */
  ghost function Size(rs: seq<Record>): nat
  {
    |Render(RecordLines(rs))|
  }

  lemma SizeConcat(a: seq<Record>, b: seq<Record>)
    ensures Size(a + b) == Size(a) + Size(b)
  {
    hide Render, RecordLine;
    assert RecordLines(a + b) == RecordLines(a) + RecordLines(b);
    RenderConcat(RecordLines(a), RecordLines(b));
  }

  lemma BlockSize(rs: seq<Record>, bound: nat)
    requires forall k :: 0 <= k < |rs| ==> Writable(rs[k]) && LineBound(rs[k]) <= bound
    ensures Size(rs) <= |rs| * (bound + 1)
  {
    hide Writable, RecordLine, Render, RecordLines, PlainLine;
    PrintedShape(rs);
    var lines := RecordLines(rs);
    forall k | 0 <= k < |lines| ensures |lines[k]| <= bound {
      assert Writable(rs[k]);
      BoundedLine(rs[k]);
    }
    RenderLength(lines, bound);
  }

  lemma BoundedLine(r: Record)
    requires Writable(r)
    ensures |RecordLine(r)| <= LineBound(r)
  {
    LineLength(r);
  }

  lemma WritableBlock(rs: seq<Record>, before: seq<Record>, after: seq<Record>)
    requires forall k :: 0 <= k < |before + rs + after| ==> Writable((before + rs + after)[k])
    ensures forall k :: 0 <= k < |rs| ==> Writable(rs[k])
  {
    hide Writable;
    forall k | 0 <= k < |rs| ensures Writable(rs[k]) {
      assert (before + rs + after)[|before| + k] == rs[k];
    }
  }

  /** How much text a valid state prints to, from its record counts alone. */
  lemma PrintedSize(sha: Digest, l: Listing, st: State)
    requires Valid(sha, st) && ListingOf(l, st.data)
    ensures |Printed(l, st)| <= 9 + 75 * |st.data.developers| + 70 * |st.data.teams| + 137 * |st.data.members|
                                + 146 * |st.data.owners| + 216 * |st.data.tokens| + 609 * |st.audits|
  {
    hide Writable, Valid, Printed, Size, DeveloperRecords, TeamRecords, MemberRecords, OwnerRecords, TokenRecords, AuditRecords;
    var all := Records(l, st);
    forall k | 0 <= k < |all| ensures Writable(all[k]) {
      AllWritable(sha, l, st, k);
    }
    var r1, r2, r3 := DeveloperRecords(l.developers), TeamRecords(l.teams), MemberRecords(l.members);
    var r4, r5, r6 := OwnerRecords(l.packages, st.data.owners), TokenRecords(l.tokens), AuditRecords(st.audits);
    WritableBlocks(r1, r2, r3, r4, r5, r6);
    ListedSizes(l, st.data);
    BlockBounds(l, st);
    BlockSize(r1, 74);
    BlockSize(r2, 69);
    BlockSize(r3, 136);
    BlockSize(r4, 145);
    BlockSize(r5, 215);
    BlockSize(r6, 608);
    TextSize(l, st);
  }

  lemma BlockBounds(l: Listing, st: State)
    requires ListingOf(l, st.data)
    ensures var rs := DeveloperRecords(l.developers); |rs| == |l.developers| && forall k :: 0 <= k < |rs| ==> LineBound(rs[k]) <= 74
    ensures var rs := TeamRecords(l.teams); |rs| == |l.teams| && forall k :: 0 <= k < |rs| ==> LineBound(rs[k]) <= 69
    ensures var rs := MemberRecords(l.members); |rs| == |l.members| && forall k :: 0 <= k < |rs| ==> LineBound(rs[k]) <= 136
    ensures var rs := OwnerRecords(l.packages, st.data.owners);
            |rs| == |l.packages| && forall k :: 0 <= k < |rs| ==> LineBound(rs[k]) <= 145
    ensures var rs := TokenRecords(l.tokens); |rs| == |l.tokens| && forall k :: 0 <= k < |rs| ==> LineBound(rs[k]) <= 215
    ensures var rs := AuditRecords(st.audits); |rs| == |st.audits| && forall k :: 0 <= k < |rs| ==> LineBound(rs[k]) <= 608
  {
  }

  lemma TextSize(l: Listing, st: State)
    requires ListingOf(l, st.data)
    ensures |Printed(l, st)| == 9 + Size(DeveloperRecords(l.developers)) + Size(TeamRecords(l.teams))
      + Size(MemberRecords(l.members)) + Size(OwnerRecords(l.packages, st.data.owners)) + Size(TokenRecords(l.tokens))
      + Size(AuditRecords(st.audits))
  {
    var r1 := DeveloperRecords(l.developers);
    var r2 := TeamRecords(l.teams);
    var r3 := MemberRecords(l.members);
    var r4 := OwnerRecords(l.packages, st.data.owners);
    var r5 := TokenRecords(l.tokens);
    var r6 := AuditRecords(st.audits);
    var body := RecordLines(Records(l, st));
    assert |Render(PrintedLines(l, st))| == 9 + |Render(body)| by {
      assert PrintedLines(l, st)[1..] == body;
    }
    assert |Render(body)| == Size(Records(l, st));
    assert Records(l, st) == r1 + r2 + r3 + r4 + r5 + r6;
    hide Render, RecordLines, Size, Records;
    SizeConcat(r1, r2);
    SizeConcat(r1 + r2, r3);
    SizeConcat(r1 + r2 + r3, r4);
    SizeConcat(r1 + r2 + r3 + r4, r5);
    SizeConcat(r1 + r2 + r3 + r4 + r5, r6);
  }

  lemma WritableBlocks(r1: seq<Record>, r2: seq<Record>, r3: seq<Record>, r4: seq<Record>, r5: seq<Record>, r6: seq<Record>)
    requires forall k :: 0 <= k < |r1 + r2 + r3 + r4 + r5 + r6| ==> Writable((r1 + r2 + r3 + r4 + r5 + r6)[k])
    ensures (forall k :: 0 <= k < |r1| ==> Writable(r1[k])) && (forall k :: 0 <= k < |r2| ==> Writable(r2[k]))
    ensures (forall k :: 0 <= k < |r3| ==> Writable(r3[k])) && (forall k :: 0 <= k < |r4| ==> Writable(r4[k]))
    ensures (forall k :: 0 <= k < |r5| ==> Writable(r5[k])) && (forall k :: 0 <= k < |r6| ==> Writable(r6[k]))
  {
    hide Writable;
    var all := r1 + r2 + r3 + r4 + r5 + r6;
    assert all == [] + r1 + (r2 + r3 + r4 + r5 + r6);
    WritableBlock(r1, [], r2 + r3 + r4 + r5 + r6);
    assert all == r1 + r2 + (r3 + r4 + r5 + r6);
    WritableBlock(r2, r1, r3 + r4 + r5 + r6);
    assert all == r1 + r2 + r3 + (r4 + r5 + r6);
    WritableBlock(r3, r1 + r2, r4 + r5 + r6);
    assert all == r1 + r2 + r3 + r4 + (r5 + r6);
    WritableBlock(r4, r1 + r2 + r3, r5 + r6);
    WritableBlock(r5, r1 + r2 + r3 + r4, r6);
    assert all == r1 + r2 + r3 + r4 + r5 + r6 + [];
    WritableBlock(r6, r1 + r2 + r3 + r4 + r5, []);
  }

  lemma ListedSizes(l: Listing, d: Data)
    requires ListingOf(l, d)
    ensures |l.developers| == |d.developers| && |l.teams| == |d.teams| && |l.members| == |d.members|
    ensures |l.packages| == |d.owners| && |l.tokens| == |d.tokens|
  {
    ListedSet(l.developers, d.developers);
    ListedSet(l.teams, d.teams);
    ListedSet(l.members, d.members);
    ListedSet(l.packages, d.owners.Keys);
    ListedSet(l.tokens, d.tokens);
  }

  lemma {:induction false} RenderAscii(lines: seq<string>)
    requires forall k :: 0 <= k < |lines| ==> Printable(lines[k])
    ensures ByteLength(Render(lines)) == |Render(lines)|
  {
    RenderChars(lines);
    AsciiByteLength(Render(lines));
  }

  lemma {:induction false} RenderChars(lines: seq<string>)
    requires forall k :: 0 <= k < |lines| ==> Printable(lines[k])
    ensures forall i :: 0 <= i < |Render(lines)| ==> Render(lines)[i] < '\U{0080}'
  {
    if |lines| > 0 {
      RenderChars(lines[1..]);
      assert Printable(lines[0]);
    }
  }

  lemma PrintedAscii(sha: Digest, l: Listing, st: State)
    requires Valid(sha, st) && ListingOf(l, st.data)
    ensures ByteLength(Printed(l, st)) == |Printed(l, st)|
  {
    hide Writable, Valid, Records, ListingOf, RecordLine, Render, ByteLength, PlainLine, Printable;
    var rs := Records(l, st);
    forall k | 0 <= k < |rs| ensures Writable(rs[k]) {
      AllWritable(sha, l, st, k);
    }
    PrintedShape(rs);
    var lines := PrintedLines(l, st);
    forall k | 0 <= k < |lines| ensures Printable(lines[k]) {
      if k == 0 {
        SchemaPrintable();
      } else {
        assert Writable(rs[k - 1]);
        PlainRecordLine(rs[k - 1]);
        assert lines[k] == RecordLine(rs[k - 1]);
      }
    }
    RenderAscii(lines);
  }

  lemma SchemaPrintable()
    ensures Printable(SCHEMA)
  {
  }

  // ---------- end to end ----------

  lemma {:induction false} GrantedSize(legacy: seq<Credential>)
    ensures |Granted(legacy)| <= |legacy|
  {
    if |legacy| == 0 {
      assert Granted(legacy) == {};
    } else {
      GrantedSize(legacy[..|legacy| - 1]);
      GrantedSnoc(legacy);
    }
  }

  /** Migration end to end. Whatever non-empty list the legacy parser accepts,
      the migrated state validates, its file always fits the size limit in every
      order of writing, the file parses back to that state, and the effective
      access list is exactly the legacy one. */
  lemma LegacyFileMigrates(sha: Digest, text: string, developer: string, l: Listing)
    requires ParseLegacy(text).Some? && |ParseLegacy(text).value| > 0 && ValidName(developer)
    requires var st := Migrate(sha, ParseLegacy(text).value, developer); ListingOf(l, st.data) && Moves(st.audits)
    ensures var legacy := ParseLegacy(text).value;
            var st := Migrate(sha, legacy, developer);
            && Serialize(sha, l, st).Some?
            && Parse(sha, Serialize(sha, l, st).value) == Some(st)
            && Acl(st.data) == Granted(legacy)
  {
    hide ParseLegacy, ValidName, Migrate, ListingOf, Valid, Printed, Parse, Granted, Acl, Moves, Chained, Replay, ByteLength;
    var legacy := ParseLegacy(text).value;
    var st := Migrate(sha, legacy, developer);
    ParsedLegacy(text);
    MigrationIsExact(sha, legacy, developer);
    GrantedSize(legacy);
    MigratedSizes(sha, legacy, developer);
    PrintedSize(sha, l, st);
    PrintedAscii(sha, l, st);
    PrintThenParse(sha, l, st);
  }

  lemma MigratedSizes(sha: Digest, legacy: seq<Credential>, developer: string)
    requires |legacy| > 0 && ValidName(developer) && forall k :: 0 <= k < |legacy| ==> ValidName(legacy[k].1)
    ensures var d := Migrate(sha, legacy, developer).data;
            && |d.tokens| == |Granted(legacy)| && |d.owners| <= |Granted(legacy)|
            && |d.developers| == 1 && |d.teams| == 0 && |d.members| == 0
  {
    hide ValidName, Granted, Expected, Replay, Chained, ImportAll;
    MigrationReplays(sha, legacy, developer);
    ExpectedSizes(legacy, developer);
  }
}
