/** The governance file: its records, its printer and its parser. */
module GovernanceFile {
  import opened Text
  import opened Hex
  import opened Names
  import opened Governance
  import opened GovernanceReplay
  import opened GovernanceChain

  const SCHEMA := "schema 2"

  const NO_STATE := State(NO_DATA, [])

  /** One line of the file below the schema line. */
  datatype Record =
    | DeveloperRecord(name: string)
    | TeamRecord(name: string)
    | MemberRecord(team: string, developer: string)
    | OwnerRecord(package: string, owner: Owner)
    | TokenRecord(token: Token)
    | AuditRecord(audit: Audit)

  function RecordFields(r: Record): seq<string>
  {
    match r
    case DeveloperRecord(name) => ["developer", name]
    case TeamRecord(name) => ["team", name]
    case MemberRecord(team, developer) => ["member", team, developer]
    case OwnerRecord(package, o) => ["owner", package, OwnerText(o)]
    case TokenRecord(t) => ["token", HashText(t.hash), t.developer, ScopeText(t.scope)]
    case AuditRecord(a) =>
      ["audit", Decimal(a.sequence), a.previousHash, a.eventHash, a.beforeTransition, a.transition, a.action, a.subject]
  }

  function RecordLine(r: Record): string
  {
    Words(RecordFields(r))
  }

  predicate ValidAudit(a: Audit)
  {
    && a.sequence < U64_LIMIT
    && (a.previousHash == AUDIT_ROOT || CanonicalHex(a.previousHash))
    && CanonicalHex(a.eventHash) && CanonicalHex(a.beforeTransition) && CanonicalHex(a.transition)
    && ValidName(a.action) && |a.subject| <= MAX_SUBJECT_BYTES && Plain(a.subject)
  }

  predicate ValidRecord(r: Record)
  {
    match r
    case DeveloperRecord(name) => ValidName(name)
    case TeamRecord(name) => ValidName(name)
    case MemberRecord(team, developer) => ValidName(team) && ValidName(developer)
    case OwnerRecord(package, o) => ValidName(package) && ValidName(o.name)
    case TokenRecord(t) => ValidToken(t)
    case AuditRecord(a) => ValidAudit(a)
  }

  // ---------- parsing one line ----------

  function ParseScope(text: string): Option<Scope>
  {
    if text == "all" then Some(All)
    else if |text| >= 8 && text[..8] == "package:" && ValidName(text[8..]) then Some(Package(text[8..]))
    else None
  }

  function ParseTokenHash(text: string): Option<Hash>
  {
    if |text| >= 7 && text[..7] == "sha256-" && CanonicalHex(text[7..]) then DecodeHash(text[7..]) else None
  }

  function ParseToken(f: seq<string>): Option<Record>
    requires |f| == 4
  {
    match (ParseTokenHash(f[1]), ParseScope(f[3]))
    case (Some(h), Some(scope)) => if ValidName(f[2]) then Some(TokenRecord(Token(h, f[2], scope))) else None
    case _ => None
  }

  function ParseAudit(f: seq<string>): Option<Record>
    requires |f| == 8
  {
    match ParseCanonicalU64(f[1])
    case None => None
    case Some(n) =>
      var a := Audit(n, f[2], f[3], f[4], f[5], f[6], f[7]);
      if ValidAudit(a) then Some(AuditRecord(a)) else None
  }

  function ParseFields(f: seq<string>): Option<Record>
  {
    if |f| == 2 && f[0] == "developer" then if ValidName(f[1]) then Some(DeveloperRecord(f[1])) else None
    else if |f| == 2 && f[0] == "team" then if ValidName(f[1]) then Some(TeamRecord(f[1])) else None
    else if |f| == 3 && f[0] == "member" then
      if ValidName(f[1]) && ValidName(f[2]) then Some(MemberRecord(f[1], f[2])) else None
    else if |f| == 3 && f[0] == "owner" then
      match ParseOwner(f[2])
      case Some(o) => if ValidName(f[1]) then Some(OwnerRecord(f[1], o)) else None
      case None => None
    else if |f| == 4 && f[0] == "token" then ParseToken(f)
    else if |f| == 8 && f[0] == "audit" then ParseAudit(f)
    else None
  }

  /** Capacity and duplicate rules, then the insertion. */
  function Insert(st: State, r: Record): Option<State>
  {
    var d := st.data;
    match r
    case DeveloperRecord(name) =>
      if |d.developers| >= MAX_RECORDS || name in d.developers then None
      else Some(st.(data := d.(developers := d.developers + {name})))
    case TeamRecord(name) =>
      if |d.teams| >= MAX_RECORDS || name in d.teams then None
      else Some(st.(data := d.(teams := d.teams + {name})))
    case MemberRecord(team, developer) =>
      if |d.members| >= MAX_RECORDS || (team, developer) in d.members then None
      else Some(st.(data := d.(members := d.members + {(team, developer)})))
    case OwnerRecord(package, o) =>
      if |d.owners| >= MAX_RECORDS || package in d.owners then None
      else Some(st.(data := d.(owners := d.owners[package := o])))
    case TokenRecord(t) =>
      if |d.tokens| >= MAX_RECORDS || t in d.tokens then None
      else Some(st.(data := d.(tokens := d.tokens + {t})))
    case AuditRecord(a) =>
      if |st.audits| >= MAX_AUDITS then None else Some(st.(audits := st.audits + [a]))
  }

  datatype Progress = Progress(sawSchema: bool, state: State)

  function ParseLine(p: Progress, raw: string): Option<Progress>
  {
    var line := Trim(raw);
    if ByteLength(raw) > MAX_LINE_BYTES then None
    else if line == "" || line[0] == '#' then Some(p)
    else if !p.sawSchema then if line == SCHEMA then Some(p.(sawSchema := true)) else None
    else
      match ParseFields(Fields(line))
      case None => None
      case Some(r) =>
        match Insert(p.state, r)
        case None => None
        case Some(st) => Some(p.(state := st))
  }

  function ParseLines(p: Progress, lines: seq<string>): Option<Progress>
    decreases |lines|
  {
    if |lines| == 0 then Some(p)
    else
      match ParseLine(p, lines[0])
      case None => None
      case Some(next) => ParseLines(next, lines[1..])
  }

  /** `parse_governance_state`. */
  function Parse(sha: Digest, text: string): (r: Option<State>)
    ensures r.Some? ==> Valid(sha, r.value)
  {
    match ParseLines(Progress(false, NO_STATE), Lines(text))
    case None => None
    case Some(p) => if p.sawSchema && Valid(sha, p.state) then Some(p.state) else None
  }

  // ---------- printing ----------

  /** An order in which the sets are written out. The source uses the sorted
      order; nothing below depends on which one it is. */
  datatype Listing = Listing(
    developers: seq<string>,
    teams: seq<string>,
    members: seq<(string, string)>,
    packages: seq<string>,
    tokens: seq<Token>)

  ghost predicate Lists<T(!new)>(xs: seq<T>, s: set<T>)
  {
    && (forall x :: x in xs <==> x in s)
    && (forall i, j :: 0 <= i < j < |xs| ==> xs[i] != xs[j])
  }

  ghost predicate ListingOf(l: Listing, d: Data)
  {
    && Lists(l.developers, d.developers) && Lists(l.teams, d.teams) && Lists(l.members, d.members)
    && Lists(l.packages, d.owners.Keys) && Lists(l.tokens, d.tokens)
  }

  function DeveloperRecords(xs: seq<string>): seq<Record>
  {
    seq(|xs|, k requires 0 <= k < |xs| => DeveloperRecord(xs[k]))
  }

  function TeamRecords(xs: seq<string>): seq<Record>
  {
    seq(|xs|, k requires 0 <= k < |xs| => TeamRecord(xs[k]))
  }

  function MemberRecords(xs: seq<(string, string)>): seq<Record>
  {
    seq(|xs|, k requires 0 <= k < |xs| => MemberRecord(xs[k].0, xs[k].1))
  }

  function OwnerRecords(xs: seq<string>, owners: map<string, Owner>): seq<Record>
    requires forall k :: 0 <= k < |xs| ==> xs[k] in owners
  {
    seq(|xs|, k requires 0 <= k < |xs| => OwnerRecord(xs[k], owners[xs[k]]))
  }

  function TokenRecords(xs: seq<Token>): seq<Record>
  {
    seq(|xs|, k requires 0 <= k < |xs| => TokenRecord(xs[k]))
  }

  function AuditRecords(xs: seq<Audit>): seq<Record>
  {
    seq(|xs|, k requires 0 <= k < |xs| => AuditRecord(xs[k]))
  }

  ghost function Records(l: Listing, st: State): seq<Record>
    requires ListingOf(l, st.data)
  {
    DeveloperRecords(l.developers) + TeamRecords(l.teams) + MemberRecords(l.members)
    + OwnerRecords(l.packages, st.data.owners) + TokenRecords(l.tokens) + AuditRecords(st.audits)
  }

  function RecordLines(rs: seq<Record>): seq<string>
  {
    seq(|rs|, k requires 0 <= k < |rs| => RecordLine(rs[k]))
  }

  ghost function PrintedLines(l: Listing, st: State): seq<string>
    requires ListingOf(l, st.data)
  {
    [SCHEMA] + RecordLines(Records(l, st))
  }

  ghost function Printed(l: Listing, st: State): string
    requires ListingOf(l, st.data)
  {
    Render(PrintedLines(l, st))
  }

  // ---------- one record survives printing and parsing ----------

  lemma ScopeCodec(text: string, s: Scope)
    ensures ParseScope(text) == Some(s) <==> text == ScopeText(s) && (s.Package? ==> ValidName(s.package))
  {
    hide ValidName;
    match s {
      case All =>
        assert ScopeText(s) == "all";
        if |text| >= 8 {
          assert text != "all";
        }
      case Package(p) =>
        JoinPair("package", p);
        var full := ScopeText(s);
        assert full == "package:" + p;
        assert full[..8] == "package:" && full[8..] == p;
        assert full != "all";
        if |text| >= 8 && text[..8] == "package:" {
          assert text == "package:" + text[8..];
        }
    }
  }

  lemma TokenHashCodec(text: string, h: Hash)
    ensures ParseTokenHash(text) == Some(h) <==> text == HashText(h)
  {
    var full := HashText(h);
    assert full[..7] == "sha256-" && full[7..] == EncodeHex(h);
    hide CanonicalHex, EncodeHex, DecodeHash;
    DecodeHashOfEncode(h);
    CanonicalHexIsEncoded(EncodeHex(h));
    if |text| >= 7 && text[..7] == "sha256-" {
      CanonicalHexIsEncoded(text[7..]);
      assert text == "sha256-" + text[7..];
    }
  }

  lemma DecodeHashOfEncode(h: Hash)
    ensures DecodeHash(EncodeHex(h)) == Some(h)
  {
    DecodeOfEncode(h);
  }

  lemma TokenFieldsCodec(f: seq<string>, t: Token)
    requires |f| == 4 && f[0] == "token"
    ensures ParseToken(f) == Some(TokenRecord(t)) <==> f == RecordFields(TokenRecord(t)) && ValidToken(t)
  {
    hide ValidName, ParseTokenHash, ParseScope, HashText, ScopeText;
    TokenHashCodec(f[1], t.hash);
    ScopeCodec(f[3], t.scope);
    assert f == ["token", f[1], f[2], f[3]];
  }

  lemma AuditFieldsCodec(f: seq<string>, a: Audit)
    requires |f| == 8 && f[0] == "audit"
    ensures ParseAudit(f) == Some(AuditRecord(a)) <==> f == RecordFields(AuditRecord(a)) && ValidAudit(a)
  {
    hide ValidName, ParseCanonicalU64, Decimal, CanonicalHex, Plain;
    CanonicalU64(f[1], a.sequence);
    assert f == ["audit", f[1], f[2], f[3], f[4], f[5], f[6], f[7]];
  }

  /** Lines are accepted in exactly one spelling: the field list of a record
      parses to that record and no other field list does. */
  lemma RecordCodec(f: seq<string>, r: Record)
    ensures ParseFields(f) == Some(r) <==> f == RecordFields(r) && ValidRecord(r)
  {
    hide ValidName, ParseToken, ParseAudit, ParseOwner, OwnerText, HashText, ScopeText, Decimal, ValidToken, ValidAudit;
    ShortFields(f);
    match r
    case DeveloperRecord(name) =>
    case TeamRecord(name) =>
    case MemberRecord(team, developer) =>
    case OwnerRecord(package, o) =>
      if |f| == 3 {
        OwnerCodec(f[2], o);
      }
    case TokenRecord(t) =>
      if |f| == 4 && f[0] == "token" {
        TokenFieldsCodec(f, t);
      }
    case AuditRecord(a) =>
      if |f| == 8 && f[0] == "audit" {
        AuditFieldsCodec(f, a);
      }
  }

  lemma ShortFields(f: seq<string>)
    ensures |f| == 2 ==> f == [f[0], f[1]]
    ensures |f| == 3 ==> f == [f[0], f[1], f[2]]
    ensures |f| == 4 ==> match ParseToken(f) case Some(r) => r.TokenRecord? case None => true
    ensures |f| == 8 ==> match ParseAudit(f) case Some(r) => r.AuditRecord? case None => true
  {
    hide ValidName, ParseTokenHash, ParseScope, ValidAudit, ParseCanonicalU64;
  }

  // ---------- the shape of printed lines ----------

  lemma NameWord(s: string)
    requires ValidName(s)
    ensures Word(s) && |s| <= 64
  {
  }

  lemma HexWord(s: string)
    requires CanonicalHex(s)
    ensures Word(s) && |s| == 64
  {
    assert forall i :: 0 <= i < |s| ==> LowerHex(s[i]);
  }

  lemma DecimalWord(n: nat)
    ensures Word(Decimal(n))
  {
    assert forall i :: 0 <= i < |Decimal(n)| ==> IsDigit(Decimal(n)[i]);
  }

  lemma HeadWords()
    ensures Word("developer") && Word("team") && Word("member") && Word("owner") && Word("token") && Word("audit")
    ensures Word("root") && Word("schema") && Word("2")
  {
  }

  /** Fields of a valid record are words, so the line splits back into them. */
  lemma FieldsAreWords(r: Record)
    requires ValidRecord(r) && (r.AuditRecord? ==> |r.audit.subject| > 0)
    ensures var f := RecordFields(r); |f| > 0 && forall k :: 0 <= k < |f| ==> Word(f[k])
  {
    hide Word, ValidName, CanonicalHex, Plain, OwnerText, ScopeText, HashText, Decimal;
    HeadWords();
    match r
    case DeveloperRecord(name) => NameWord(name);
    case TeamRecord(name) => NameWord(name);
    case MemberRecord(team, developer) => NameWord(team); NameWord(developer);
    case OwnerRecord(package, o) =>
      NameWord(package);
      OwnerTextPlain(o);
      PlainWord(OwnerText(o));
    case TokenRecord(t) =>
      NameWord(t.developer);
      HashTextPlain(t.hash);
      ScopeTextPlain(t.scope);
      PlainWord(ScopeText(t.scope));
    case AuditRecord(a) =>
      DecimalWord(a.sequence);
      if a.previousHash != AUDIT_ROOT {
        HexWord(a.previousHash);
      }
      HexWord(a.eventHash);
      HexWord(a.beforeTransition);
      HexWord(a.transition);
      NameWord(a.action);
      PlainWord(a.subject);
  }

  /** Upper bounds on the printed length of each kind of record. */
  function LineBound(r: Record): nat
  {
    match r
    case DeveloperRecord(_) => 74
    case TeamRecord(_) => 69
    case MemberRecord(_, _) => 136
    case OwnerRecord(_, _) => 145
    case TokenRecord(_) => 215
    case AuditRecord(_) => 608
  }

  lemma AddField(a: string, rest: seq<string>)
    requires |rest| > 0
    ensures |Words([a] + rest)| == |a| + 1 + |Words(rest)|
  {
    JoinCons(a, rest, ' ');
  }

  lemma TwoFields(a: string, b: string)
    ensures |Words([a, b])| == |a| + |b| + 1
  {
    AddField(a, [b]);
    assert [a] + [b] == [a, b];
  }

  lemma ThreeFields(a: string, b: string, c: string)
    ensures |Words([a, b, c])| == |a| + |b| + |c| + 2
  {
    TwoFields(b, c);
    AddField(a, [b, c]);
    assert [a] + [b, c] == [a, b, c];
  }

  lemma FourFields(a: string, b: string, c: string, d: string)
    ensures |Words([a, b, c, d])| == |a| + |b| + |c| + |d| + 3
  {
    ThreeFields(b, c, d);
    AddField(a, [b, c, d]);
    assert [a] + [b, c, d] == [a, b, c, d];
  }

  lemma AuditLineLength(f: seq<string>)
    requires |f| == 8
    ensures |Words(f)| == |f[0]| + |f[1]| + |f[2]| + |f[3]| + |f[4]| + |f[5]| + |f[6]| + |f[7]| + 7
  {
    hide Words;
    FourFields(f[4], f[5], f[6], f[7]);
    assert f[4..] == [f[4], f[5], f[6], f[7]];
    AddField(f[3], f[4..]);
    assert f[3..] == [f[3]] + f[4..];
    AddField(f[2], f[3..]);
    assert f[2..] == [f[2]] + f[3..];
    AddField(f[1], f[2..]);
    assert f[1..] == [f[1]] + f[2..];
    AddField(f[0], f[1..]);
    assert f == [f[0]] + f[1..];
  }

  lemma SequenceDigits(n: nat)
    requires n < U64_LIMIT
    ensures |Decimal(n)| <= 20
  {
    assert Power10(4) == 10000 by {
      assert Power10(2) == 100;
    }
    assert Power10(8) == 100000000 by {
      assert Power10(6) == 100 * Power10(4);
    }
    assert Power10(12) == 1000000000000 by {
      assert Power10(10) == 100 * Power10(8);
    }
    assert Power10(16) == 10000000000000000 by {
      assert Power10(14) == 100 * Power10(12);
    }
    assert Power10(20) == 100000000000000000000 by {
      assert Power10(18) == 100 * Power10(16);
    }
    DecimalLength(n, 20);
  }

  lemma LineLength(r: Record)
    requires ValidRecord(r)
    ensures |RecordLine(r)| <= LineBound(r)
  {
    hide Word, ValidName, CanonicalHex, Plain, OwnerText, ScopeText, HashText, Decimal, Words;
    match r
    case DeveloperRecord(name) => NamePlain(name); TwoFields("developer", name);
    case TeamRecord(name) => NamePlain(name); TwoFields("team", name);
    case MemberRecord(team, developer) =>
      NamePlain(team); NamePlain(developer); ThreeFields("member", team, developer);
    case OwnerRecord(package, o) =>
      NamePlain(package);
      OwnerTextPlain(o);
      ThreeFields("owner", package, OwnerText(o));
    case TokenRecord(t) =>
      NamePlain(t.developer);
      HashTextPlain(t.hash);
      ScopeTextPlain(t.scope);
      FourFields("token", HashText(t.hash), t.developer, ScopeText(t.scope));
    case AuditRecord(a) => AuditLineBound(a);
  }

  lemma AuditLineBound(a: Audit)
    requires ValidAudit(a)
    ensures |RecordLine(AuditRecord(a))| <= 608
  {
    hide ValidName, Plain, Decimal, Words, AllLower;
    NamePlain(a.action);
    SequenceDigits(a.sequence);
    AuditLineLength(RecordFields(AuditRecord(a)));
  }

  /** A printed record line parses back to its record. */
  lemma LineRoundTrip(st: State, r: Record)
    requires ValidRecord(r) && (r.AuditRecord? ==> |r.audit.subject| > 0) && Insert(st, r).Some?
    ensures ParseLine(Progress(true, st), RecordLine(r)) == Some(Progress(true, Insert(st, r).value))
    ensures PlainLine(RecordLine(r)) && Printable(RecordLine(r))
  {
    hide ValidRecord, Insert, ParseFields, Fields, Trim, ByteLength, Printable, PlainLine, Word;
    FieldsAreWords(r);
    var f := RecordFields(r);
    var line := RecordLine(r);
    HeadLetter(r);
    WordsShape(f);
    FieldsOfWords(f);
    PrintableLine(line);
    PrintableBytes(line);
    LineLength(r);
    RecordCodec(f, r);
  }

  lemma HeadLetter(r: Record)
    ensures var f := RecordFields(r); |f| > 0 && |f[0]| > 0 && f[0][0] != '#' && f[0][0] > ' '
  {
    hide OwnerText, ScopeText, HashText, Decimal;
  }

  lemma PrintableBytes(s: string)
    requires Printable(s)
    ensures ByteLength(s) == |s|
  {
    AsciiByteLength(s);
  }

  // ---------- whole files ----------

  function InsertAll(st: State, rs: seq<Record>): Option<State>
    decreases |rs|
  {
    if |rs| == 0 then Some(st)
    else
      match Insert(st, rs[0])
      case None => None
      case Some(next) => InsertAll(next, rs[1..])
  }

  predicate Writable(r: Record)
  {
    ValidRecord(r) && (r.AuditRecord? ==> |r.audit.subject| > 0)
  }

  /** Parsing printed records is inserting them one after the other. */
  lemma {:induction false} ParsePrinted(st: State, rs: seq<Record>)
    requires forall k :: 0 <= k < |rs| ==> Writable(rs[k])
    requires InsertAll(st, rs).Some?
    ensures ParseLines(Progress(true, st), RecordLines(rs)) == Some(Progress(true, InsertAll(st, rs).value))
    decreases |rs|
  {
    hide Writable, Insert, RecordLine, ParseLine, InsertAll, ParseLines;
    var lines := RecordLines(rs);
    if |rs| == 0 {
      InsertNone(st, rs);
      ParseNone(Progress(true, st), lines);
    } else {
      InsertCons(st, rs);
      ParseCons(Progress(true, st), lines);
      RecordParses(st, rs[0]);
      ParsePrinted(Insert(st, rs[0]).value, rs[1..]);
      assert lines[1..] == RecordLines(rs[1..]);
    }
  }

  lemma RecordParses(st: State, r: Record)
    requires Writable(r) && Insert(st, r).Some?
    ensures ParseLine(Progress(true, st), RecordLine(r)) == Some(Progress(true, Insert(st, r).value))
  {
    LineRoundTrip(st, r);
  }

  lemma ParseNone(p: Progress, lines: seq<string>)
    requires |lines| == 0
    ensures ParseLines(p, lines) == Some(p)
  {
  }

  lemma ParseCons(p: Progress, lines: seq<string>)
    requires |lines| > 0
    ensures ParseLines(p, lines) ==
            match ParseLine(p, lines[0]) case None => None case Some(next) => ParseLines(next, lines[1..])
  {
    hide ParseLine;
  }

  lemma PrintedShape(rs: seq<Record>)
    requires forall k :: 0 <= k < |rs| ==> Writable(rs[k])
    ensures var lines := RecordLines(rs);
            |lines| == |rs| && forall k :: 0 <= k < |lines| ==> lines[k] == RecordLine(rs[k]) && PlainLine(lines[k])
  {
    hide Writable, RecordLine, PlainLine, Printable;
    forall k | 0 <= k < |rs| ensures PlainLine(RecordLines(rs)[k]) {
      PlainRecordLine(rs[k]);
    }
  }

  lemma PlainRecordLine(r: Record)
    requires Writable(r)
    ensures PlainLine(RecordLine(r)) && Printable(RecordLine(r))
  {
    hide ValidRecord, PlainLine, Printable, Word, Trim;
    FieldsAreWords(r);
    HeadLetter(r);
    WordsShape(RecordFields(r));
    PrintableLine(RecordLine(r));
  }

  lemma InsertCons(st: State, rs: seq<Record>)
    requires |rs| > 0
    ensures InsertAll(st, rs) == match Insert(st, rs[0]) case None => None case Some(next) => InsertAll(next, rs[1..])
  {
    hide Insert;
  }

  lemma InsertNone(st: State, rs: seq<Record>)
    requires |rs| == 0
    ensures InsertAll(st, rs) == Some(st)
  {
  }

  lemma {:induction false} InsertConcat(st: State, a: seq<Record>, b: seq<Record>)
    requires InsertAll(st, a).Some?
    ensures InsertAll(st, a + b) == InsertAll(InsertAll(st, a).value, b)
    decreases |a|
  {
    hide Insert, InsertAll;
    if |a| == 0 {
      assert a + b == b;
      InsertNone(st, a);
    } else {
      InsertCons(st, a);
      InsertCons(st, a + b);
      assert (a + b)[0] == a[0] && (a + b)[1..] == a[1..] + b;
      InsertConcat(Insert(st, a[0]).value, a[1..], b);
    }
  }

  /** Inserting records one by one walks through the given states. */
  lemma {:induction false} InsertSteps(rs: seq<Record>, at: seq<State>)
    requires |at| == |rs| + 1
    requires forall k :: 0 <= k < |rs| ==> Insert(at[k], rs[k]) == Some(at[k + 1])
    ensures InsertAll(at[0], rs) == Some(at[|rs|])
    decreases |rs|
  {
    hide Insert, InsertAll;
    if |rs| == 0 {
      InsertNone(at[0], rs);
    } else {
      InsertCons(at[0], rs);
      assert Insert(at[0], rs[0]) == Some(at[1]);
      forall k | 0 <= k < |rs| - 1 ensures Insert(at[1..][k], rs[1..][k]) == Some(at[1..][k + 1]) {
        assert Insert(at[k + 1], rs[k + 1]) == Some(at[k + 2]);
      }
      InsertSteps(rs[1..], at[1..]);
    }
  }

  /** The elements before position `k`. */
  ghost function Before<T>(xs: seq<T>, k: nat): set<T>
    requires k <= |xs|
  {
    set i | 0 <= i < k :: xs[i]
  }

  lemma {:induction false} BeforeStep<T>(xs: seq<T>, k: nat)
    requires k < |xs|
    ensures Before(xs, k + 1) == Before(xs, k) + {xs[k]}
  {
    assert xs[k] in Before(xs, k + 1);
  }

  lemma {:induction false} BeforeSize<T>(xs: seq<T>, k: nat)
    requires k <= |xs| && forall i, j :: 0 <= i < j < |xs| ==> xs[i] != xs[j]
    ensures |Before(xs, k)| == k
  {
    if k == 0 {
      assert Before(xs, 0) == {};
    } else {
      BeforeSize(xs, k - 1);
      BeforeStep(xs, k - 1);
      assert xs[k - 1] !in Before(xs, k - 1);
    }
  }

  lemma ListedSet<T(!new)>(xs: seq<T>, s: set<T>)
    requires Lists(xs, s)
    ensures Before(xs, |xs|) == s && |s| == |xs|
  {
    BeforeSize(xs, |xs|);
    forall x ensures x in Before(xs, |xs|) <==> x in s {
      assert x in xs <==> x in s;
    }
  }

  lemma BeforeNone<T>(xs: seq<T>)
    ensures Before(xs, 0) == {}
  {
  }

  /** One more element of a list without repetitions. */
  lemma BeforeGrows<T(!new)>(xs: seq<T>, k: nat)
    requires k < |xs| && Lists(xs, Before(xs, |xs|))
    ensures Before(xs, k + 1) == Before(xs, k) + {xs[k]} && |Before(xs, k)| == k && xs[k] !in Before(xs, k)
  {
    BeforeStep(xs, k);
    BeforeSize(xs, k);
  }

  // Inserting a listing of each kind, in any order, builds the listed set.

  lemma InsertDeveloper(st: State, xs: seq<string>, k: nat)
    requires Lists(xs, Before(xs, |xs|)) && k < |xs| <= MAX_RECORDS
    ensures Insert(st.(data := st.data.(developers := Before(xs, k))), DeveloperRecord(xs[k]))
            == Some(st.(data := st.data.(developers := Before(xs, k + 1))))
  {
    hide Before;
    BeforeGrows(xs, k);
  }

  lemma InsertDevelopers(st: State, xs: seq<string>)
    requires st.data.developers == {} && Lists(xs, Before(xs, |xs|)) && |xs| <= MAX_RECORDS
    ensures InsertAll(st, DeveloperRecords(xs)) == Some(st.(data := st.data.(developers := Before(xs, |xs|))))
  {
    hide Before, InsertAll, Insert, Lists;
    BeforeNone(xs);
    var at := seq(|xs| + 1, k requires 0 <= k <= |xs| => st.(data := st.data.(developers := Before(xs, k))));
    forall k | 0 <= k < |xs| ensures Insert(at[k], DeveloperRecords(xs)[k]) == Some(at[k + 1]) {
      InsertDeveloper(st, xs, k);
    }
    InsertSteps(DeveloperRecords(xs), at);
  }

  lemma InsertTeam(st: State, xs: seq<string>, k: nat)
    requires Lists(xs, Before(xs, |xs|)) && k < |xs| <= MAX_RECORDS
    ensures Insert(st.(data := st.data.(teams := Before(xs, k))), TeamRecord(xs[k]))
            == Some(st.(data := st.data.(teams := Before(xs, k + 1))))
  {
    hide Before;
    BeforeGrows(xs, k);
  }

  lemma InsertTeams(st: State, xs: seq<string>)
    requires st.data.teams == {} && Lists(xs, Before(xs, |xs|)) && |xs| <= MAX_RECORDS
    ensures InsertAll(st, TeamRecords(xs)) == Some(st.(data := st.data.(teams := Before(xs, |xs|))))
  {
    hide Before, InsertAll, Insert, Lists;
    BeforeNone(xs);
    var at := seq(|xs| + 1, k requires 0 <= k <= |xs| => st.(data := st.data.(teams := Before(xs, k))));
    forall k | 0 <= k < |xs| ensures Insert(at[k], TeamRecords(xs)[k]) == Some(at[k + 1]) {
      InsertTeam(st, xs, k);
    }
    InsertSteps(TeamRecords(xs), at);
  }

  lemma InsertMember(st: State, xs: seq<(string, string)>, k: nat)
    requires Lists(xs, Before(xs, |xs|)) && k < |xs| <= MAX_RECORDS
    ensures Insert(st.(data := st.data.(members := Before(xs, k))), MemberRecord(xs[k].0, xs[k].1))
            == Some(st.(data := st.data.(members := Before(xs, k + 1))))
  {
    hide Before;
    BeforeGrows(xs, k);
    assert xs[k] == (xs[k].0, xs[k].1);
  }

  lemma InsertMembers(st: State, xs: seq<(string, string)>)
    requires st.data.members == {} && Lists(xs, Before(xs, |xs|)) && |xs| <= MAX_RECORDS
    ensures InsertAll(st, MemberRecords(xs)) == Some(st.(data := st.data.(members := Before(xs, |xs|))))
  {
    hide Before, InsertAll, Insert, Lists;
    BeforeNone(xs);
    var at := seq(|xs| + 1, k requires 0 <= k <= |xs| => st.(data := st.data.(members := Before(xs, k))));
    forall k | 0 <= k < |xs| ensures Insert(at[k], MemberRecords(xs)[k]) == Some(at[k + 1]) {
      InsertMember(st, xs, k);
    }
    InsertSteps(MemberRecords(xs), at);
  }

  lemma InsertToken(st: State, xs: seq<Token>, k: nat)
    requires Lists(xs, Before(xs, |xs|)) && k < |xs| <= MAX_RECORDS
    ensures Insert(st.(data := st.data.(tokens := Before(xs, k))), TokenRecord(xs[k]))
            == Some(st.(data := st.data.(tokens := Before(xs, k + 1))))
  {
    hide Before;
    BeforeGrows(xs, k);
  }

  lemma InsertTokens(st: State, xs: seq<Token>)
    requires st.data.tokens == {} && Lists(xs, Before(xs, |xs|)) && |xs| <= MAX_RECORDS
    ensures InsertAll(st, TokenRecords(xs)) == Some(st.(data := st.data.(tokens := Before(xs, |xs|))))
  {
    hide Before, InsertAll, Insert, Lists;
    BeforeNone(xs);
    var at := seq(|xs| + 1, k requires 0 <= k <= |xs| => st.(data := st.data.(tokens := Before(xs, k))));
    forall k | 0 <= k < |xs| ensures Insert(at[k], TokenRecords(xs)[k]) == Some(at[k + 1]) {
      InsertToken(st, xs, k);
    }
    InsertSteps(TokenRecords(xs), at);
  }

  ghost function OwnersBefore(xs: seq<string>, owners: map<string, Owner>, k: nat): map<string, Owner>
    requires k <= |xs| && forall i :: 0 <= i < |xs| ==> xs[i] in owners
  {
    map x | x in Before(xs, k) :: owners[x]
  }

  lemma OwnersKeys(xs: seq<string>, owners: map<string, Owner>, k: nat)
    requires k <= |xs| && forall i :: 0 <= i < |xs| ==> xs[i] in owners
    ensures OwnersBefore(xs, owners, k).Keys == Before(xs, k) && |OwnersBefore(xs, owners, k)| == |Before(xs, k)|
  {
    hide Before;
    var m := OwnersBefore(xs, owners, k);
    assert m.Keys == Before(xs, k);
    assert |m| == |m.Keys|;
  }

  lemma OwnersStep(xs: seq<string>, owners: map<string, Owner>, k: nat)
    requires k < |xs| && forall i :: 0 <= i < |xs| ==> xs[i] in owners
    requires forall i, j :: 0 <= i < j < |xs| ==> xs[i] != xs[j]
    ensures OwnersBefore(xs, owners, k + 1) == OwnersBefore(xs, owners, k)[xs[k] := owners[xs[k]]]
    ensures |OwnersBefore(xs, owners, k)| == k && xs[k] !in OwnersBefore(xs, owners, k)
  {
    NotBefore(xs, k);
    hide Before;
    BeforeStep(xs, k);
    BeforeSize(xs, k);
    OwnersKeys(xs, owners, k);
    OwnersKeys(xs, owners, k + 1);
  }

  lemma NotBefore(xs: seq<string>, k: nat)
    requires k < |xs| && forall i, j :: 0 <= i < j < |xs| ==> xs[i] != xs[j]
    ensures xs[k] !in Before(xs, k)
  {
  }

  lemma OwnersEnds(xs: seq<string>, owners: map<string, Owner>)
    requires Lists(xs, owners.Keys)
    ensures OwnersBefore(xs, owners, 0) == map[] && OwnersBefore(xs, owners, |xs|) == owners
  {
    ListedSet(xs, owners.Keys);
  }

  lemma InsertOwners(st: State, xs: seq<string>, owners: map<string, Owner>)
    requires st.data.owners == map[] && Lists(xs, owners.Keys) && |xs| <= MAX_RECORDS
    ensures InsertAll(st, OwnerRecords(xs, owners)) == Some(st.(data := st.data.(owners := owners)))
  {
    hide OwnersBefore, InsertAll;
    OwnersEnds(xs, owners);
    var at := seq(|xs| + 1, k requires 0 <= k <= |xs| => st.(data := st.data.(owners := OwnersBefore(xs, owners, k))));
    forall k | 0 <= k < |xs| ensures Insert(at[k], OwnerRecords(xs, owners)[k]) == Some(at[k + 1]) {
      OwnersStep(xs, owners, k);
    }
    InsertSteps(OwnerRecords(xs, owners), at);
  }

  lemma InsertAudits(st: State, xs: seq<Audit>)
    requires st.audits == [] && |xs| <= MAX_AUDITS
    ensures InsertAll(st, AuditRecords(xs)) == Some(st.(audits := xs))
  {
    var at := seq(|xs| + 1, k requires 0 <= k <= |xs| => st.(audits := xs[..k]));
    forall k | 0 <= k < |xs| ensures Insert(at[k], AuditRecords(xs)[k]) == Some(at[k + 1]) {
      assert xs[..k + 1] == xs[..k] + [xs[k]];
    }
    assert xs[..|xs|] == xs;
    InsertSteps(AuditRecords(xs), at);
  }

  ghost function Filled(st: State, developers: bool, teams: bool, members: bool, owners: bool, tokens: bool): State
  {
    State(Data(if developers then st.data.developers else {}, if teams then st.data.teams else {},
               if members then st.data.members else {}, if owners then st.data.owners else map[],
               if tokens then st.data.tokens else {}), [])
  }

  /** Inserting everything a listing prints rebuilds the state from nothing. */
  lemma InsertListing(l: Listing, st: State)
    requires ListingOf(l, st.data) && RecordsFit(st)
    ensures InsertAll(NO_STATE, Records(l, st)) == Some(st)
  {
    hide InsertAll, Before, DeveloperRecords, TeamRecords, MemberRecords, OwnerRecords, TokenRecords, AuditRecords;
    ListedSet(l.developers, st.data.developers);
    ListedSet(l.teams, st.data.teams);
    ListedSet(l.members, st.data.members);
    ListedSet(l.packages, st.data.owners.Keys);
    ListedSet(l.tokens, st.data.tokens);
    var r1 := DeveloperRecords(l.developers);
    var r2 := r1 + TeamRecords(l.teams);
    var r3 := r2 + MemberRecords(l.members);
    var r4 := r3 + OwnerRecords(l.packages, st.data.owners);
    var r5 := r4 + TokenRecords(l.tokens);
    InsertDevelopers(NO_STATE, l.developers);
    InsertTeams(Filled(st, true, false, false, false, false), l.teams);
    InsertConcat(NO_STATE, r1, TeamRecords(l.teams));
    InsertMembers(Filled(st, true, true, false, false, false), l.members);
    InsertConcat(NO_STATE, r2, MemberRecords(l.members));
    InsertOwners(Filled(st, true, true, true, false, false), l.packages, st.data.owners);
    InsertConcat(NO_STATE, r3, OwnerRecords(l.packages, st.data.owners));
    InsertTokens(Filled(st, true, true, true, true, false), l.tokens);
    InsertConcat(NO_STATE, r4, TokenRecords(l.tokens));
    InsertAudits(Filled(st, true, true, true, true, true), st.audits);
    InsertConcat(NO_STATE, r5, AuditRecords(st.audits));
  }

  // ---------- valid states print writable records ----------

  /** Names in the data are well formed only because replay rebuilt them. */
  lemma ReplayedNames(sha: Digest, st: State)
    requires Valid(sha, st)
    ensures WellNamed(st.data)
  {
    ReplayIsSafe(st.audits);
  }

  lemma AuditTextWritable(log: seq<Audit>, k: nat)
    requires Replay(log).Some? && k < |log|
    ensures ValidName(log[k].action) && ValidSubject(log[k].subject)
  {
    hide Replay, DecodeEvent, ValidEvent, SubjectText, KindText, ValidName, Plain;
    ReplayPrefix(log, k + 1);
    var shorter := log[..k + 1];
    LastDecodes(shorter);
    var a := log[k];
    assert shorter[k] == a;
    var e := DecodeEvent(a.action, a.subject).value;
    EventCodec(a.action, a.subject, e);
    SubjectIsValid(e);
    ActionIsName(KindOf(e));
  }

  lemma AuditHashesWritable(sha: Digest, log: seq<Audit>, k: nat)
    requires Chained(sha, log) && k < |log|
    ensures var a := log[k];
            && a.sequence == k + 1 && (a.previousHash == AUDIT_ROOT || CanonicalHex(a.previousHash))
            && CanonicalHex(a.eventHash) && CanonicalHex(a.beforeTransition) && CanonicalHex(a.transition)
  {
    assert Linked(sha, log, k) && (k > 0 ==> Linked(sha, log, k - 1));
    hide CanonicalHex, Chained, Linked, HashHex;
    LinkedHex(sha, log, k);
    SequenceOf(sha, log, k);
    if k > 0 {
      LinkedHex(sha, log, k - 1);
      assert log[..k][k - 1] == log[k - 1];
    }
  }

  lemma AuditIsWritable(sha: Digest, st: State, k: nat)
    requires Valid(sha, st) && k < |st.audits|
    ensures Writable(AuditRecord(st.audits[k]))
  {
    hide Replay, CanonicalHex, ValidName, Plain, Chained, AllAuthorized, ReferencesResolve, DigestsCoherent, ScopesOwned;
    AuditTextWritable(st.audits, k);
    AuditHashesWritable(sha, st.audits, k);
  }

  lemma SequenceOf(sha: Digest, log: seq<Audit>, k: nat)
    requires k < |log| && Linked(sha, log, k)
    ensures log[k].sequence == k + 1
  {
  }

  lemma AllWritable(sha: Digest, l: Listing, st: State, k: nat)
    requires Valid(sha, st) && ListingOf(l, st.data) && k < |Records(l, st)|
    ensures Writable(Records(l, st)[k])
  {
    hide ValidName, ValidToken, Replay, Valid, ValidAudit;
    ReplayedNames(sha, st);
    var r := Records(l, st)[k];
    match r
    case DeveloperRecord(name) => assert name in l.developers;
    case TeamRecord(name) => assert name in l.teams;
    case MemberRecord(team, developer) => assert (team, developer) in l.members;
    case OwnerRecord(package, o) => assert package in l.packages;
    case TokenRecord(t) => assert t in l.tokens;
    case AuditRecord(a) =>
      var j :| 0 <= j < |st.audits| && st.audits[j] == a;
      AuditIsWritable(sha, st, j);
  }

  // ---------- the printer and the parser undo each other ----------

  lemma SchemaLine()
    ensures ParseLine(Progress(false, NO_STATE), SCHEMA) == Some(Progress(true, NO_STATE)) && PlainLine(SCHEMA)
  {
    hide Trim, ByteLength, PlainLine, Fields, ParseFields, Insert;
    assert Printable(SCHEMA);
    PrintableLine(SCHEMA);
    PrintableBytes(SCHEMA);
    SchemaTrims();
  }

  lemma SchemaTrims()
    ensures Trim(SCHEMA) == SCHEMA
  {
  }

  lemma PrintedIsPlain(sha: Digest, l: Listing, st: State)
    requires Valid(sha, st) && ListingOf(l, st.data)
    ensures Lines(Printed(l, st)) == PrintedLines(l, st)
  {
    hide Writable, Records, Valid, Lines, Render, PlainLine, RecordLine;
    var rs := Records(l, st);
    forall k | 0 <= k < |rs| ensures Writable(rs[k]) {
      AllWritable(sha, l, st, k);
    }
    PrintedShape(rs);
    SchemaLine();
    LinesOfRender(PrintedLines(l, st));
  }

  /** Parsing undoes printing: for every valid state and every order of writing
      its sets, the parser reads back exactly that state. */
  lemma PrintThenParse(sha: Digest, l: Listing, st: State)
    requires Valid(sha, st) && ListingOf(l, st.data)
    ensures Parse(sha, Printed(l, st)) == Some(st)
  {
    hide Writable, Records, Valid, Lines, Render, PlainLine, RecordLine, ParseLine, InsertAll, ListingOf;
    PrintedIsPlain(sha, l, st);
    var rs := Records(l, st);
    forall k | 0 <= k < |rs| ensures Writable(rs[k]) {
      AllWritable(sha, l, st, k);
    }
    ValidFits(sha, st);
    InsertListing(l, st);
    ParsePrinted(NO_STATE, rs);
    SchemaLine();
    var lines := PrintedLines(l, st);
    assert lines[0] == SCHEMA && lines[1..] == RecordLines(rs);
  }

  lemma ValidFits(sha: Digest, st: State)
    requires Valid(sha, st)
    ensures RecordsFit(st)
  {
  }

  /** Re-printing whatever was parsed and parsing again changes nothing. */
  lemma ParseIsStable(sha: Digest, text: string, l: Listing)
    requires Parse(sha, text).Some? && ListingOf(l, Parse(sha, text).value.data)
    ensures Parse(sha, Printed(l, Parse(sha, text).value)) == Parse(sha, text)
  {
    hide Parse, Printed, ListingOf, Valid;
    PrintThenParse(sha, l, Parse(sha, text).value);
  }
}
