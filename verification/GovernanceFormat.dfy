/** The governance file format as documented: the literal forms that are written, the
    spellings that readers tolerate, and a writer of legacy files as the reference for
    their parser. */
module GovernanceFormat {
  import opened Text
  import opened Hex
  import opened Names
  import opened Governance
  import opened GovernanceReplay
  import opened GovernanceChain
  import opened GovernanceMigration
  import opened GovernanceFile
  import opened GovernanceLegacy

  // ---------- what is written ----------

  lemma Pair(a: string, b: string, sep: char)
    ensures Join([a, b], sep) == a + [sep] + b
  {
    assert [a, b][1..] == [b];
  }

  lemma Triple(a: string, b: string, c: string, sep: char)
    ensures Join([a, b, c], sep) == a + [sep] + b + [sep] + c
  {
    assert [a, b, c][1..] == [b, c];
    Pair(b, c, sep);
  }

  lemma Quad(a: string, b: string, c: string, d: string, sep: char)
    ensures Join([a, b, c, d], sep) == a + [sep] + b + [sep] + c + [sep] + d
  {
    assert [a, b, c, d][1..] == [b, c, d];
    Triple(b, c, d, sep);
  }

  /** The action names of the audit log. */
  lemma ActionNames(e: Event)
    ensures ActionText(e) ==
            match e
            case Init(_) => "init"
            case MigrationInit(_) => "migration-init"
            case DeveloperCreate(_) => "developer-create"
            case TeamCreate(_) => "team-create"
            case MemberAdd(_, _) => "team-member-add"
            case MemberRemove(_, _) => "team-member-remove"
            case Claim(_, _) => "package-claim"
            case Transfer(_, _) => "package-transfer"
            case TokenIssue(_) => "developer-token-issue"
            case TokenImport(_) => "migration-token-import"
            case MigrationComplete(_) => "migration-complete"
            case Revoke(_, _) => "developer-token-revoke"
            case RevokeHash(_, _) => "developer-token-revoke-hash"
  {
  }

  lemma OwnerForms(name: string)
    ensures OwnerText(Developer(name)) == "developer:" + name && OwnerText(Team(name)) == "team:" + name
    ensures ScopeText(All) == "all" && ScopeText(Package(name)) == "package:" + name
  {
    Pair("developer", name, ':');
    Pair("team", name, ':');
    Pair("package", name, ':');
  }

  /** The subjects of the audit log, literally. */
  lemma SubjectForms(e: Event)
    ensures SubjectText(e) ==
            match e
            case MemberAdd(team, dev) => team + ":" + dev
            case MemberRemove(team, dev) => team + ":" + dev
            case Claim(p, o) => p + ":" + OwnerText(o)
            case Transfer(p, o) => p + ":" + OwnerText(o)
            case TokenIssue(t) => t.developer + ":sha256-" + EncodeHex(t.hash) + ":" + ScopeText(t.scope)
            case TokenImport(t) => t.developer + ":sha256-" + EncodeHex(t.hash) + ":" + ScopeText(t.scope)
            case Revoke(dev, h) => dev + ":sha256-" + EncodeHex(h)
            case RevokeHash(dev, h) => dev + ":sha256-" + EncodeHex(h)
            case TeamCreate(team) => team
            case _ => e.developer
  {
    hide Join, EncodeHex;
    match e
    case MemberAdd(team, dev) => Pair(team, dev, ':');
    case MemberRemove(team, dev) => Pair(team, dev, ':');
    case Claim(p, o) => OwnerSubjectForm(p, o);
    case Transfer(p, o) => OwnerSubjectForm(p, o);
    case TokenIssue(t) => TokenSubjectForm(t);
    case TokenImport(t) => TokenSubjectForm(t);
    case Revoke(dev, h) => Pair(dev, HashText(h), ':');
    case RevokeHash(dev, h) => Pair(dev, HashText(h), ':');
    case _ =>
  }

  lemma OwnerSubjectForm(p: string, o: Owner)
    ensures OwnerSubject(p, o) == p + ":" + OwnerText(o)
  {
    hide Join;
    OwnerForms(o.name);
    var kind := OwnerFields(o)[0];
    assert [p] + OwnerFields(o) == [p, kind, o.name];
    Triple(p, kind, o.name, ':');
    Pair(kind, o.name, ':');
    assert OwnerFields(o) == [kind, o.name];
  }

  lemma TokenSubjectForm(t: Token)
    ensures TokenSubject(t) == t.developer + ":sha256-" + EncodeHex(t.hash) + ":" + ScopeText(t.scope)
  {
    hide Join, EncodeHex;
    match t.scope
    case All =>
      OwnerForms("");
      assert [t.developer, HashText(t.hash)] + ["all"] == [t.developer, HashText(t.hash), "all"];
      Triple(t.developer, HashText(t.hash), "all", ':');
    case Package(p) =>
      OwnerForms(p);
      assert [t.developer, HashText(t.hash)] + ["package", p] == [t.developer, HashText(t.hash), "package", p];
      Quad(t.developer, HashText(t.hash), "package", p, ':');
  }

  /** The lines of the file, literally. */
  lemma RecordForms(r: Record)
    ensures match r
            case DeveloperRecord(name) => RecordLine(r) == "developer " + name
            case TeamRecord(name) => RecordLine(r) == "team " + name
            case MemberRecord(team, dev) => RecordLine(r) == "member " + team + " " + dev
            case OwnerRecord(p, o) => RecordLine(r) == "owner " + p + " " + OwnerText(o)
            case TokenRecord(t) =>
              RecordLine(r) == "token sha256-" + EncodeHex(t.hash) + " " + t.developer + " " + ScopeText(t.scope)
            case AuditRecord(a) =>
              RecordLine(r) == "audit " + Decimal(a.sequence) + " " + a.previousHash + " " + a.eventHash + " "
                               + AuditTail(a)
  {
    hide Join, EncodeHex, OwnerText, ScopeText, Decimal;
    match r
    case DeveloperRecord(name) => Pair("developer", name, ' ');
    case TeamRecord(name) => Pair("team", name, ' ');
    case MemberRecord(team, dev) => Triple("member", team, dev, ' ');
    case OwnerRecord(p, o) => Triple("owner", p, OwnerText(o), ' ');
    case TokenRecord(t) => TokenForm(t);
    case AuditRecord(a) => AuditForm(a);
  }

  lemma TokenForm(t: Token)
    ensures RecordLine(TokenRecord(t)) ==
            "token sha256-" + EncodeHex(t.hash) + " " + t.developer + " " + ScopeText(t.scope)
  {
    hide Join, EncodeHex, ScopeText;
    Quad("token", HashText(t.hash), t.developer, ScopeText(t.scope), ' ');
    assert "token " + ("sha256-" + EncodeHex(t.hash)) == "token sha256-" + EncodeHex(t.hash);
  }

  function AuditTail(a: Audit): string
  {
    a.beforeTransition + " " + a.transition + " " + a.action + " " + a.subject
  }

  lemma JoinHead(a: string, rest: seq<string>, sep: char)
    requires |rest| > 0
    ensures Join([a] + rest, sep) == a + [sep] + Join(rest, sep)
  {
    assert ([a] + rest)[1..] == rest;
  }

  lemma AuditForm(a: Audit)
    ensures RecordLine(AuditRecord(a)) ==
            "audit " + Decimal(a.sequence) + " " + a.previousHash + " " + a.eventHash + " " + AuditTail(a)
  {
    hide Join, Decimal;
    var tail := [a.beforeTransition, a.transition, a.action, a.subject];
    Quad(a.beforeTransition, a.transition, a.action, a.subject, ' ');
    var t3 := [a.eventHash] + tail;
    var t2 := [a.previousHash] + t3;
    var t1 := [Decimal(a.sequence)] + t2;
    JoinHead(a.eventHash, tail, ' ');
    JoinHead(a.previousHash, t3, ' ');
    JoinHead(Decimal(a.sequence), t2, ' ');
    JoinHead("audit", t1, ' ');
    assert RecordFields(AuditRecord(a)) == ["audit"] + t1;
  }

  /** The texts that are hashed, literally. */
  lemma HashedTexts(a: Audit, before: string, action: string, subject: string)
    ensures TransitionText(before, action, subject) == before + "\n" + action + "\n" + subject + "\n"
    ensures EventText(a) == Decimal(a.sequence) + "\n" + a.previousHash + "\n" + a.beforeTransition + "\n"
                            + TransitionText(a.transition, a.action, a.subject)
  {
    hide Join, Decimal;
    assert [before, action, subject] + [""] == [before, action, subject, ""];
    Quad(before, action, subject, "", '\n');
    var tail := [a.transition, a.action, a.subject] + [""];
    var t2 := [a.beforeTransition] + tail;
    var t1 := [a.previousHash] + t2;
    JoinHead(a.beforeTransition, tail, '\n');
    JoinHead(a.previousHash, t2, '\n');
    JoinHead(Decimal(a.sequence), t1, '\n');
    assert EventParts(a.sequence, a.previousHash, a.beforeTransition, a.transition, a.action, a.subject) + [""]
           == [Decimal(a.sequence)] + t1;
  }

  /** The documented limits: 4096 records of each kind, 32768 audit events, 4096 effective
      authorizations, 8192 bytes a line, 8 MiB a file. */
  lemma DocumentedLimits(st: State)
    ensures RecordsFit(st) <==>
            && |st.data.developers| <= 4096 && |st.data.teams| <= 4096 && |st.data.members| <= 4096
            && |st.data.owners| <= 4096 && |st.data.tokens| <= 4096 && |st.audits| <= 32768
    ensures MAX_ACL == 4096 && MAX_LINE_BYTES == 8192 && MAX_FILE_BYTES == 8 * 1024 * 1024
  {
  }

  /** Lengths are counted in UTF-8 bytes. */
  lemma {:induction false} Utf8Length(s: string, c: char)
    ensures ByteLength(s + [c]) == ByteLength(s) +
            if c as int <= 0x7f then 1 else if c as int <= 0x7ff then 2 else if c as int <= 0xffff then 3 else 4
  {
    if |s| == 0 {
      assert s + [c] == [c] && [c][1..] == "";
    } else {
      assert (s + [c])[1..] == s[1..] + [c];
      Utf8Length(s[1..], c);
    }
  }

  /** Audit subjects: one to 256 letters, digits, colons, dashes, underscores and dots. */
  lemma SubjectRule(s: string)
    ensures ValidSubject(s) <==>
            && 0 < |s| <= 256
            && forall i :: 0 <= i < |s| ==>
                 || 48 <= s[i] as int <= 57 || 65 <= s[i] as int <= 90 || 97 <= s[i] as int <= 122
                 || s[i] as int in {45, 46, 58, 95}
  {
  }

  // ---------- what readers refuse ----------

  /** One refused line refuses the file. */
  lemma {:induction false} RefusedLine(p: Progress, lines: seq<string>, k: nat)
    requires k < |lines| && forall q :: ParseLine(q, lines[k]).None?
    ensures ParseLines(p, lines).None?
    decreases k
  {
    hide ParseLine;
    if k > 0 && ParseLine(p, lines[0]).Some? {
      RefusedLine(ParseLine(p, lines[0]).value, lines[1..], k - 1);
    }
  }

  /** A line longer than the limit is refused, whatever it holds. */
  lemma LongLine(p: Progress, line: string)
    requires ByteLength(line) > 8192
    ensures ParseLine(p, line).None?
  {
  }

  /** No record but an audit event may be repeated. */
  lemma RepeatedRecord(st: State, r: Record)
    requires !r.AuditRecord? && Insert(st, r).Some?
    ensures Insert(Insert(st, r).value, r).None?
  {
  }

  /** A legacy file beyond the limit is refused. */
  lemma LargeLegacyFile(text: string)
    requires ByteLength(text) > 8 * 1024 * 1024
    ensures ParseLegacy(text).None?
  {
    hide ByteLength, Lines, FirstRecord, ParseLegacyLines;
  }

  // ---------- what readers tolerate ----------

  /** Fields end at ASCII white space; lines are trimmed of all Unicode white space. */
  lemma SpaceRule(c: char)
    ensures AsciiSpace(c) <==> c as int in {9, 10, 12, 13, 32}
    ensures UnicodeSpace(c) <==>
            c as int in {9, 10, 11, 12, 13, 0x20, 0x85, 0xa0, 0x1680, 0x2028, 0x2029, 0x202f, 0x205f, 0x3000}
            || 0x2000 <= c as int <= 0x200a
  {
  }

  predicate Blanks(x: string)
  {
    forall i :: 0 <= i < |x| ==> UnicodeSpace(x[i])
  }

  lemma {:induction false} TrimStartDrops(x: string, s: string)
    requires Blanks(x) && (|s| > 0 ==> !UnicodeSpace(s[0]))
    ensures TrimStart(x + s) == s
  {
    hide UnicodeSpace;
    if |x| > 0 {
      assert (x + s)[1..] == x[1..] + s;
      TrimStartDrops(x[1..], s);
    } else {
      assert x + s == s;
    }
  }

  lemma {:induction false} TrimEndDrops(s: string, y: string)
    requires Blanks(y) && (|s| > 0 ==> !UnicodeSpace(s[|s| - 1]))
    ensures TrimEnd(s + y) == s
  {
    hide UnicodeSpace;
    if |y| > 0 {
      var t := s + y;
      assert t[..|t| - 1] == s + y[..|y| - 1];
      TrimEndDrops(s, y[..|y| - 1]);
    } else {
      assert s + y == s;
    }
  }

  /** White space around a line does not matter. */
  lemma TrimIs(x: string, s: string, y: string)
    requires Blanks(x) && Blanks(y) && (|s| > 0 ==> !UnicodeSpace(s[0]) && !UnicodeSpace(s[|s| - 1]))
    ensures Trim(x + s + y) == s
  {
    hide UnicodeSpace, TrimStart, TrimEnd;
    if |s| == 0 {
      assert x + s + y == x + y;
      BlanksConcat(x, y);
      TrimStartDrops(x + y, "");
      assert (x + y) + "" == x + y;
      TrimEndDrops("", "");
      assert "" + "" == "";
    } else {
      assert x + s + y == x + (s + y);
      TrimStartDrops(x, s + y);
      TrimEndDrops(s, y);
    }
  }

  lemma BlanksConcat(x: string, y: string)
    requires Blanks(x) && Blanks(y)
    ensures Blanks(x + y)
  {
    hide UnicodeSpace;
  }

  /** A blank line, or a comment behind white space. */
  predicate Ignorable(line: string)
  {
    Blanks(line) || exists k :: 0 <= k < |line| && Blanks(line[..k]) && line[k] == '#'
  }

  lemma IgnorableTrims(line: string)
    requires Ignorable(line)
    ensures Trim(line) == "" || Trim(line)[0] == '#'
  {
    hide Trim;
    if Blanks(line) {
      TrimIs(line, "", "");
      assert line + "" + "" == line;
    } else {
      var k :| 0 <= k < |line| && Blanks(line[..k]) && line[k] == '#';
      CommentTrims(line[..k], line[k..]);
      assert line == line[..k] + line[k..];
    }
  }

  lemma CommentTrims(x: string, comment: string)
    requires Blanks(x) && |comment| > 0 && comment[0] == '#'
    ensures |Trim(x + comment)| > 0 && Trim(x + comment)[0] == '#'
  {
    hide UnicodeSpace;
    HashIsNoSpace();
    TrimStartDrops(x, comment);
    TrimEndKeeps(comment);
  }

  lemma HashIsNoSpace()
    ensures !UnicodeSpace('#')
  {
  }

  lemma {:induction false} TrimEndKeeps(s: string)
    requires |s| > 0 && !UnicodeSpace(s[0])
    ensures |TrimEnd(s)| > 0 && TrimEnd(s)[0] == s[0]
  {
    hide UnicodeSpace;
    if UnicodeSpace(s[|s| - 1]) {
      TrimEndKeeps(s[..|s| - 1]);
    }
  }

  /** Blank lines and comments may stand anywhere in the file. */
  lemma {:induction false} IgnoredLine(p: Progress, before: seq<string>, line: string, rest: seq<string>)
    requires Ignorable(line) && ByteLength(line) <= MAX_LINE_BYTES
    ensures ParseLines(p, before + [line] + rest) == ParseLines(p, before + rest)
    decreases |before|
  {
    hide ParseLine, Ignorable;
    if |before| == 0 {
      assert before + [line] + rest == [line] + rest && before + rest == rest;
      assert ([line] + rest)[1..] == rest;
      IgnoredHere(p, line);
    } else {
      assert (before + [line] + rest)[1..] == before[1..] + [line] + rest;
      assert (before + rest)[1..] == before[1..] + rest;
      if ParseLine(p, before[0]).Some? {
        IgnoredLine(ParseLine(p, before[0]).value, before[1..], line, rest);
      }
    }
  }

  lemma IgnoredHere(p: Progress, line: string)
    requires Ignorable(line) && ByteLength(line) <= MAX_LINE_BYTES
    ensures ParseLine(p, line) == Some(p)
  {
    hide Trim, ByteLength, Fields, ParseFields, Insert, Ignorable;
    IgnorableTrims(line);
  }

  /** A carriage return in front of a newline is dropped. */
  lemma CarriageReturn(line: string, rest: string)
    requires '\n' !in line
    ensures Lines(line + "\r\n" + rest) == [line] + Lines(rest)
  {
    var s := line + "\r\n" + rest;
    var whole := line + "\r";
    assert s == whole + ['\n'] + rest;
    IndexOfPrefix(whole, '\n', rest);
    assert s[..|whole|] == whole && s[|whole| + 1..] == rest;
    assert whole[..|whole| - 1] == line;
  }

  // ---------- words with any white space between them ----------

  predicate Gap(x: string)
  {
    forall i :: 0 <= i < |x| ==> AsciiSpace(x[i])
  }

  lemma {:induction false} FieldsSkip(x: string, s: string)
    requires Gap(x)
    ensures Fields(x + s) == Fields(s)
  {
    hide AsciiSpace;
    if |x| > 0 {
      assert (x + s)[1..] == x[1..] + s && (x + s)[0] == x[0];
      FieldsSkip(x[1..], s);
    } else {
      assert x + s == s;
    }
  }

  /** Each word followed by its gap. */
  function Spaced(words: seq<string>, gaps: seq<string>): string
    requires |gaps| == |words|
  {
    if |words| == 0 then "" else words[0] + (gaps[0] + Spaced(words[1..], gaps[1..]))
  }

  predicate GapsFit(gaps: seq<string>)
  {
    forall k :: 0 <= k < |gaps| ==> Gap(gaps[k]) && (k + 1 < |gaps| ==> |gaps[k]| > 0)
  }

  /** Splitting at white space finds the words, whatever the gaps. */
  lemma {:induction false} SpacedFields(words: seq<string>, gaps: seq<string>)
    requires |gaps| == |words| && GapsFit(gaps) && forall k :: 0 <= k < |words| ==> Word(words[k])
    ensures Fields(Spaced(words, gaps)) == words
  {
    hide AsciiSpace, Word, Fields;
    if |words| > 0 {
      var rest := Spaced(words[1..], gaps[1..]);
      SpacedFields(words[1..], gaps[1..]);
      FieldsSkip(gaps[0], rest);
      assert |gaps[0]| > 0 ==> (gaps[0] + rest)[0] == gaps[0][0];
      assert |gaps[0]| == 0 ==> |words| == 1 && rest == "";
      FieldsCons(words[0], gaps[0] + rest);
      assert words == [words[0]] + words[1..];
    } else {
      NoFields();
    }
  }

  lemma NoFields()
    ensures Fields("") == []
  {
  }

  /** A record line may be indented and its fields spaced apart freely. */
  lemma SpacedRecord(st: State, r: Record, x: string, gaps: seq<string>, y: string)
    requires ValidRecord(r) && (r.AuditRecord? ==> |r.audit.subject| > 0) && Insert(st, r).Some?
    requires Blanks(x) && Blanks(y) && |gaps| == |RecordFields(r)| && GapsFit(gaps) && gaps[|gaps| - 1] == ""
    requires ByteLength(x + Spaced(RecordFields(r), gaps) + y) <= MAX_LINE_BYTES
    ensures ParseLine(Progress(true, st), x + Spaced(RecordFields(r), gaps) + y)
            == Some(Progress(true, Insert(st, r).value))
  {
    hide Trim, ByteLength, Fields, ParseFields, Insert, ValidRecord, GapsFit, Spaced, Word, Blanks;
    var words := RecordFields(r);
    FieldsAreWords(r);
    SpacedFields(words, gaps);
    SpacedEnds(words, gaps);
    Keyword(r);
    TrimIs(x, Spaced(words, gaps), y);
    RecordCodec(words, r);
  }

  lemma Keyword(r: Record)
    ensures |RecordFields(r)| > 0 && |RecordFields(r)[0]| > 0 && RecordFields(r)[0][0] != '#'
  {
    hide Decimal, EncodeHex, OwnerText, ScopeText;
  }

  lemma WordEnds(w: string)
    requires Word(w)
    ensures |w| > 0 && !UnicodeSpace(w[0]) && !UnicodeSpace(w[|w| - 1])
  {
  }

  lemma {:induction false} SpacedEnds(words: seq<string>, gaps: seq<string>)
    requires |gaps| == |words| > 0 && gaps[|gaps| - 1] == "" && forall k :: 0 <= k < |words| ==> Word(words[k])
    ensures var s := Spaced(words, gaps);
            |s| > 0 && |words[0]| > 0 && s[0] == words[0][0] && !UnicodeSpace(s[0]) && !UnicodeSpace(s[|s| - 1])
  {
    hide Word, UnicodeSpace;
    WordEnds(words[0]);
    if |words| == 1 {
      assert words[1..] == [] && gaps[1..] == [];
      assert Spaced(words, gaps) == words[0];
    } else {
      SpacedEnds(words[1..], gaps[1..]);
    }
  }

  // ---------- legacy files ----------

  /** A line of a legacy file: ignored text, or a credential whose digest is spelled
      with digits of either case. */
  datatype Source = Remark(text: string) | Grant(digits: string, credential: Credential)

  function SourceText(s: Source): string
  {
    match s
    case Remark(text) => text
    case Grant(digits, c) => "sha256-" + digits + " " + c.1
  }

  predicate Sound(s: Source)
  {
    && ByteLength(SourceText(s)) <= MAX_LINE_BYTES && PlainLine(SourceText(s))
    && match s
       case Remark(text) => Ignorable(text)
       case Grant(digits, c) => Word(digits) && DecodeHash(digits) == Some(c.0) && ValidName(c.1)
  }

  function SourceTexts(ss: seq<Source>): seq<string>
  {
    seq(|ss|, k requires 0 <= k < |ss| => SourceText(ss[k]))
  }

  function GrantsOf(ss: seq<Source>): seq<Credential>
  {
    if |ss| == 0 then [] else (if ss[0].Grant? then [ss[0].credential] else []) + GrantsOf(ss[1..])
  }

  lemma GrantReads(digits: string, c: Credential)
    requires Sound(Grant(digits, c))
    ensures ParseLegacyLine(SourceText(Grant(digits, c))) == Entry(c)
    ensures Trim(SourceText(Grant(digits, c))) == SourceText(Grant(digits, c))
  {
    hide Trim, ByteLength, Fields, DecodeHash, ValidName, PlainLine;
    var first := "sha256-" + digits;
    var words := [first, c.1];
    NamePlain(c.1);
    NameWord(c.1);
    DigestWord(digits);
    Pair(first, c.1, ' ');
    FieldsOfWords(words);
    WordsShape(words);
    PrintableLine(Words(words));
    assert first[..7] == "sha256-" && first[7..] == digits;
    assert SourceText(Grant(digits, c)) == Words(words);
  }

  lemma NameWord(s: string)
    requires ValidName(s)
    ensures Word(s)
  {
    NameIsPlain(s);
  }

  lemma DigestWord(digits: string)
    requires Word(digits)
    ensures Word("sha256-" + digits)
  {
    assert Word("sha256-");
  }

  lemma SourceReads(s: Source)
    requires Sound(s)
    ensures ParseLegacyLine(SourceText(s)) == if s.Grant? then Entry(s.credential) else Blank
  {
    hide Trim, ByteLength, Fields, Ignorable, ParseHashText, ValidName;
    match s
    case Remark(text) => IgnorableTrims(text);
    case Grant(digits, c) => GrantReads(digits, c);
  }

  /** What a legacy line is: text to ignore, a credential, or neither. */
  lemma LegacyLineMeans(raw: string, c: Credential)
    ensures ParseLegacyLine(raw) == Blank <==>
            ByteLength(raw) <= 8192 && (Trim(raw) == "" || Trim(raw)[0] == '#')
    ensures ParseLegacyLine(raw) == Entry(c) <==>
            && ByteLength(raw) <= 8192 && Trim(raw) != "" && Trim(raw)[0] != '#'
            && |Fields(Trim(raw))| == 2 && ValidName(c.1) && Fields(Trim(raw))[1] == c.1
            && var digest := Fields(Trim(raw))[0];
               |digest| == 71 && digest[..7] == "sha256-" && DecodePairs(digest[7..]) == Some(c.0)
  {
    hide Trim, Fields, ByteLength, ValidName, DecodePairs;
  }

  /** A line that is neither refuses the whole file. */
  lemma {:induction false} MalformedRefused(found: seq<Credential>, lines: seq<string>, k: nat)
    requires k < |lines| && ParseLegacyLine(lines[k]) == Malformed
    ensures ParseLegacyLines(found, lines).None?
    decreases k
  {
    hide ParseLegacyLine;
    if k > 0 {
      match ParseLegacyLine(lines[0])
      case Blank => MalformedRefused(found, lines[1..], k - 1);
      case Entry(c) => if c !in found && |found| < MAX_ACL { MalformedRefused(found + [c], lines[1..], k - 1); }
      case Malformed =>
    }
  }

  predicate NoRepeats(cs: seq<Credential>)
  {
    forall i, j :: 0 <= i < j < |cs| ==> cs[i] != cs[j]
  }

  /** Credentials are collected in order, and refused exactly for a repetition or for
      more than the limit. */
  lemma {:induction false} LinesRead(found: seq<Credential>, ss: seq<Source>)
    requires NoRepeats(found) && |found| <= MAX_ACL && forall k :: 0 <= k < |ss| ==> Sound(ss[k])
    ensures ParseLegacyLines(found, SourceTexts(ss)) ==
            if NoRepeats(found + GrantsOf(ss)) && |found| + |GrantsOf(ss)| <= MAX_ACL then Some(found + GrantsOf(ss)) else None
    decreases |ss|
  {
    hide Sound, ParseLegacyLine, NoRepeats;
    if |ss| == 0 {
      assert found + [] == found;
    } else {
      SourceReads(ss[0]);
      assert SourceTexts(ss)[1..] == SourceTexts(ss[1..]);
      if ss[0].Remark? {
        LinesRead(found, ss[1..]);
        assert [] + GrantsOf(ss[1..]) == GrantsOf(ss[1..]);
      } else {
        var c := ss[0].credential;
        assert found + ([c] + GrantsOf(ss[1..])) == (found + [c]) + GrantsOf(ss[1..]);
        OneMore(found, c);
        if c in found || |found| >= MAX_ACL {
          Repeated(found, c, GrantsOf(ss[1..]));
        } else {
          LinesRead(found + [c], ss[1..]);
        }
      }
    }
  }

  lemma OneMore(found: seq<Credential>, c: Credential)
    requires NoRepeats(found)
    ensures NoRepeats(found + [c]) <==> c !in found
  {
    if c in found {
      var i :| 0 <= i < |found| && found[i] == c;
      assert (found + [c])[i] == (found + [c])[|found|];
    }
  }

  lemma Repeated(found: seq<Credential>, c: Credential, rest: seq<Credential>)
    ensures c in found ==> !NoRepeats(found + [c] + rest)
  {
    if c in found {
      var i :| 0 <= i < |found| && found[i] == c;
      var all := found + [c] + rest;
      assert all[i] == all[|found|];
    }
  }

  lemma {:induction false} NoSchema(ss: seq<Source>)
    requires forall k :: 0 <= k < |ss| ==> Sound(ss[k])
    ensures FirstRecord(SourceTexts(ss)) != Some(SCHEMA)
  {
    hide Sound, Trim;
    if |ss| > 0 {
      assert SourceTexts(ss)[1..] == SourceTexts(ss[1..]);
      NoSchema(ss[1..]);
      NotSchema(ss[0]);
    }
  }

  lemma NotSchema(s: Source)
    requires Sound(s)
    ensures var line := Trim(SourceText(s)); line == "" || line[0] == '#' || line != SCHEMA
  {
    hide Trim, Ignorable, ByteLength, PlainLine, DecodeHash, ValidName;
    match s
    case Remark(text) => IgnorableTrims(text);
    case Grant(digits, c) =>
      GrantReads(digits, c);
      assert SourceText(s)[1] == 'h' && SCHEMA[1] == 'c';
  }

  /** The legacy parser reads back every well-written file, comments and either case of
      digits included, and refuses it exactly for a repeated credential or too many. */
  lemma WriteThenReadLegacy(ss: seq<Source>)
    requires forall k :: 0 <= k < |ss| ==> Sound(ss[k])
    requires ByteLength(Render(SourceTexts(ss))) <= MAX_FILE_BYTES
    ensures ParseLegacy(Render(SourceTexts(ss))) ==
            if NoRepeats(GrantsOf(ss)) && |GrantsOf(ss)| <= MAX_ACL then Some(GrantsOf(ss)) else None
  {
    hide Lines, Render, ByteLength, FirstRecord, ParseLegacyLines, PlainLine;
    forall k | 0 <= k < |ss|
      ensures PlainLine(SourceTexts(ss)[k])
    {
    }
    LinesOfRender(SourceTexts(ss));
    NoSchema(ss);
    LinesRead([], ss);
    assert [] + GrantsOf(ss) == GrantsOf(ss);
  }
}
