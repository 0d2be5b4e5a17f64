/** The registry governance data model and the textual form of its audit events. */
module Governance {
  import opened Text
  import opened Hex
  import opened Names

  datatype Owner = Developer(name: string) | Team(name: string)

  datatype Scope = All | Package(package: string)

  datatype Token = Token(hash: Hash, developer: string, scope: Scope)

  datatype Data = Data(
    developers: set<string>,
    teams: set<string>,
    members: set<(string, string)>,
    owners: map<string, Owner>,
    tokens: set<Token>)

  datatype Audit = Audit(
    sequence: nat,
    previousHash: string,
    eventHash: string,
    beforeTransition: string,
    transition: string,
    action: string,
    subject: string)

  datatype State = State(data: Data, audits: seq<Audit>)

  datatype Phase = Empty | Migrating | Normal

  const NO_DATA := Data({}, {}, {}, map[], {})

  const MAX_RECORDS: nat := 4096
  const MAX_AUDITS: nat := 32768
  const MAX_ACL: nat := 4096
  const MAX_LINE_BYTES: nat := 8192
  const MAX_FILE_BYTES: nat := 8388608

  // ---------- audit events ----------

  datatype Event =
    | Init(developer: string)
    | MigrationInit(developer: string)
    | DeveloperCreate(developer: string)
    | TeamCreate(team: string)
    | MemberAdd(team: string, developer: string)
    | MemberRemove(team: string, developer: string)
    | Claim(package: string, owner: Owner)
    | Transfer(package: string, owner: Owner)
    | TokenIssue(token: Token)
    | TokenImport(token: Token)
    | MigrationComplete(developer: string)
    | Revoke(developer: string, hash: Hash)
    | RevokeHash(developer: string, hash: Hash)

  predicate ValidToken(t: Token)
  {
    ValidName(t.developer) && (t.scope.Package? ==> ValidName(t.scope.package))
  }

  predicate ValidEvent(e: Event)
  {
    match e
    case Init(d) => ValidName(d)
    case MigrationInit(d) => ValidName(d)
    case DeveloperCreate(d) => ValidName(d)
    case TeamCreate(t) => ValidName(t)
    case MemberAdd(t, d) => ValidName(t) && ValidName(d)
    case MemberRemove(t, d) => ValidName(t) && ValidName(d)
    case Claim(p, o) => ValidName(p) && ValidName(o.name)
    case Transfer(p, o) => ValidName(p) && ValidName(o.name)
    case TokenIssue(t) => ValidToken(t)
    case TokenImport(t) => ValidToken(t)
    case MigrationComplete(d) => ValidName(d)
    case Revoke(d, h) => ValidName(d)
    case RevokeHash(d, h) => ValidName(d)
  }

  /** The fixed action set. */
  datatype Kind =
    | InitKind | MigrationInitKind | DeveloperCreateKind | TeamCreateKind | MemberAddKind | MemberRemoveKind
    | ClaimKind | TransferKind | TokenIssueKind | TokenImportKind | MigrationCompleteKind | RevokeKind | RevokeHashKind

  function KindOf(e: Event): Kind
  {
    match e
    case Init(_) => InitKind
    case MigrationInit(_) => MigrationInitKind
    case DeveloperCreate(_) => DeveloperCreateKind
    case TeamCreate(_) => TeamCreateKind
    case MemberAdd(_, _) => MemberAddKind
    case MemberRemove(_, _) => MemberRemoveKind
    case Claim(_, _) => ClaimKind
    case Transfer(_, _) => TransferKind
    case TokenIssue(_) => TokenIssueKind
    case TokenImport(_) => TokenImportKind
    case MigrationComplete(_) => MigrationCompleteKind
    case Revoke(_, _) => RevokeKind
    case RevokeHash(_, _) => RevokeHashKind
  }

  function KindText(k: Kind): (text: string)
    ensures |text| == KindKey(k).0 && text[0] == KindKey(k).1
  {
    match k
    case InitKind => "init"
    case MigrationInitKind => "migration-init"
    case DeveloperCreateKind => "developer-create"
    case TeamCreateKind => "team-create"
    case MemberAddKind => "team-member-add"
    case MemberRemoveKind => "team-member-remove"
    case ClaimKind => "package-claim"
    case TransferKind => "package-transfer"
    case TokenIssueKind => "developer-token-issue"
    case TokenImportKind => "migration-token-import"
    case MigrationCompleteKind => "migration-complete"
    case RevokeKind => "developer-token-revoke"
    case RevokeHashKind => "developer-token-revoke-hash"
  }

  /** Length and first letter already tell the thirteen actions apart. */
  function KindKey(k: Kind): (nat, char)
  {
    match k
    case InitKind => (4, 'i')
    case MigrationInitKind => (14, 'm')
    case DeveloperCreateKind => (16, 'd')
    case TeamCreateKind => (11, 't')
    case MemberAddKind => (15, 't')
    case MemberRemoveKind => (18, 't')
    case ClaimKind => (13, 'p')
    case TransferKind => (16, 'p')
    case TokenIssueKind => (21, 'd')
    case TokenImportKind => (22, 'm')
    case MigrationCompleteKind => (18, 'm')
    case RevokeKind => (22, 'd')
    case RevokeHashKind => (27, 'd')
  }

  const KINDS: seq<Kind> := [
    InitKind, MigrationInitKind, DeveloperCreateKind, TeamCreateKind, MemberAddKind, MemberRemoveKind,
    ClaimKind, TransferKind, TokenIssueKind, TokenImportKind, MigrationCompleteKind, RevokeKind, RevokeHashKind]

  function FindKind(kinds: seq<Kind>, action: string): Option<Kind>
  {
    if |kinds| == 0 then None
    else if KindText(kinds[0]) == action then Some(kinds[0])
    else FindKind(kinds[1..], action)
  }

  function ParseKind(action: string): Option<Kind>
  {
    FindKind(KINDS, action)
  }

  // ---------- subjects ----------

  function HashText(h: Hash): string
  {
    "sha256-" + EncodeHex(h)
  }

  function OwnerFields(o: Owner): seq<string>
  {
    match o case Developer(n) => ["developer", n] case Team(n) => ["team", n]
  }

  function OwnerText(o: Owner): string
  {
    Join(OwnerFields(o), ':')
  }

  function ScopeFields(s: Scope): seq<string>
  {
    match s case All => ["all"] case Package(p) => ["package", p]
  }

  function ScopeText(s: Scope): string
  {
    Join(ScopeFields(s), ':')
  }

  function MemberSubject(team: string, developer: string): string
  {
    Join([team, developer], ':')
  }

  function OwnerSubject(package: string, o: Owner): string
  {
    Join([package] + OwnerFields(o), ':')
  }

  function TokenSubject(t: Token): string
  {
    Join([t.developer, HashText(t.hash)] + ScopeFields(t.scope), ':')
  }

  function RevokeSubject(developer: string, h: Hash): string
  {
    Join([developer, HashText(h)], ':')
  }

  function SubjectText(e: Event): string
  {
    match e
    case Init(d) => d
    case MigrationInit(d) => d
    case DeveloperCreate(d) => d
    case TeamCreate(t) => t
    case MemberAdd(t, d) => MemberSubject(t, d)
    case MemberRemove(t, d) => MemberSubject(t, d)
    case Claim(p, o) => OwnerSubject(p, o)
    case Transfer(p, o) => OwnerSubject(p, o)
    case TokenIssue(t) => TokenSubject(t)
    case TokenImport(t) => TokenSubject(t)
    case MigrationComplete(d) => d
    case Revoke(d, h) => RevokeSubject(d, h)
    case RevokeHash(d, h) => RevokeSubject(d, h)
  }

  function ParseHashText(text: string): Option<Hash>
  {
    if |text| >= 7 && text[..7] == "sha256-" then DecodeHash(text[7..]) else None
  }

  function ParseOwner(text: string): Option<Owner>
  {
    var i := IndexOf(text, ':');
    if i == |text| then None
    else
      var kind, name := text[..i], text[i + 1..];
      if !ValidName(name) then None
      else if kind == "developer" then Some(Developer(name))
      else if kind == "team" then Some(Team(name))
      else None
  }

  function ParseMemberSubject(subject: string): Option<(string, string)>
  {
    var f := Split(subject, ':');
    if |f| == 2 && ValidName(f[0]) && ValidName(f[1]) then Some((f[0], f[1])) else None
  }

  function ParseOwnerSubject(subject: string): Option<(string, Owner)>
  {
    var f := Split(subject, ':');
    if |f| == 3 && ValidName(f[0]) then
      match ParseOwner(Join([f[1], f[2]], ':'))
      case Some(o) => Some((f[0], o))
      case None => None
    else None
  }

  function ParseTokenSubject(subject: string): Option<Token>
  {
    var f := Split(subject, ':');
    var scope :=
      if |f| == 3 && f[2] == "all" then Some(All)
      else if |f| == 4 && f[2] == "package" && ValidName(f[3]) then Some(Package(f[3]))
      else None;
    if scope.None? || !ValidName(f[0]) then None
    else
      match ParseHashText(f[1])
      case None => None
      case Some(h) =>
        var token := Token(h, f[0], scope.value);
        if TokenSubject(token) == subject then Some(token) else None
  }

  function ParseRevokeSubject(subject: string): Option<(string, Hash)>
  {
    var f := Split(subject, ':');
    if |f| == 2 && ValidName(f[0]) then
      match ParseHashText(f[1])
      case None => None
      case Some(h) => if RevokeSubject(f[0], h) == subject then Some((f[0], h)) else None
    else None
  }

  function ParseSubject(k: Kind, subject: string): Option<Event>
  {
    match k
    case InitKind => if ValidName(subject) then Some(Init(subject)) else None
    case MigrationInitKind => if ValidName(subject) then Some(MigrationInit(subject)) else None
    case DeveloperCreateKind => if ValidName(subject) then Some(DeveloperCreate(subject)) else None
    case TeamCreateKind => if ValidName(subject) then Some(TeamCreate(subject)) else None
    case MigrationCompleteKind => if ValidName(subject) then Some(MigrationComplete(subject)) else None
    case MemberAddKind =>
      (match ParseMemberSubject(subject) case Some((t, d)) => Some(MemberAdd(t, d)) case None => None)
    case MemberRemoveKind =>
      (match ParseMemberSubject(subject) case Some((t, d)) => Some(MemberRemove(t, d)) case None => None)
    case ClaimKind =>
      (match ParseOwnerSubject(subject) case Some((p, o)) => Some(Claim(p, o)) case None => None)
    case TransferKind =>
      (match ParseOwnerSubject(subject) case Some((p, o)) => Some(Transfer(p, o)) case None => None)
    case TokenIssueKind =>
      (match ParseTokenSubject(subject) case Some(t) => Some(TokenIssue(t)) case None => None)
    case TokenImportKind =>
      (match ParseTokenSubject(subject) case Some(t) => Some(TokenImport(t)) case None => None)
    case RevokeKind =>
      (match ParseRevokeSubject(subject) case Some((d, h)) => Some(Revoke(d, h)) case None => None)
    case RevokeHashKind =>
      (match ParseRevokeSubject(subject) case Some((d, h)) => Some(RevokeHash(d, h)) case None => None)
  }

  /** What an audit record says, or nothing when its action or subject is malformed. */
  function DecodeEvent(action: string, subject: string): Option<Event>
  {
    match ParseKind(action)
    case None => None
    case Some(k) => ParseSubject(k, subject)
  }

  function ActionText(e: Event): string
  {
    KindText(KindOf(e))
  }

  // ---------- the codecs accept exactly the canonical spelling ----------

  lemma HashTextPlain(h: Hash)
    ensures ':' !in HashText(h) && '\n' !in HashText(h) && Word(HashText(h)) && |HashText(h)| == 71
  {
    var text := HashText(h);
    forall i | 0 <= i < |text|
      ensures text[i] != ':' && text[i] != '\n' && ' ' < text[i] < '\U{007F}'
    {
      if i >= 7 {
        assert LowerHex(EncodeHex(h)[i - 7]);
      }
    }
  }

  lemma HashTextCodec(text: string, h: Hash)
    ensures ParseHashText(HashText(h)) == Some(h)
    ensures ParseHashText(text) == Some(h) && HashText(h) == text <==> text == HashText(h)
  {
    assert HashText(h)[..7] == "sha256-" && HashText(h)[7..] == EncodeHex(h);
    DecodeOfEncode(h);
  }

  lemma {:induction false} FindKindSound(kinds: seq<Kind>, action: string)
    ensures match FindKind(kinds, action)
            case Some(k) => k in kinds && KindText(k) == action
            case None => forall k :: k in kinds ==> KindText(k) != action
  {
    if |kinds| > 0 {
      FindKindSound(kinds[1..], action);
      assert kinds == [kinds[0]] + kinds[1..];
    }
  }

  lemma KindTextInjective(a: Kind, b: Kind)
    requires KindText(a) == KindText(b)
    ensures a == b
  {
    assert KindKey(a) == KindKey(b);
  }

  lemma KindListed(k: Kind)
    ensures k in KINDS
  {
    var i := match k
      case InitKind => 0 case MigrationInitKind => 1 case DeveloperCreateKind => 2 case TeamCreateKind => 3
      case MemberAddKind => 4 case MemberRemoveKind => 5 case ClaimKind => 6 case TransferKind => 7
      case TokenIssueKind => 8 case TokenImportKind => 9 case MigrationCompleteKind => 10
      case RevokeKind => 11 case RevokeHashKind => 12;
    assert KINDS[i] == k;
  }

  lemma KindCodec(action: string, k: Kind)
    ensures ParseKind(action) == Some(k) <==> action == KindText(k)
  {
    FindKindSound(KINDS, action);
    KindListed(k);
    match ParseKind(action) {
      case Some(other) => if action == KindText(k) { KindTextInjective(other, k); }
      case None =>
    }
  }

  lemma JoinPair(a: string, b: string)
    ensures Join([a, b], ':') == a + [':'] + b
  {
    assert [a, b][1..] == [b];
  }

  lemma OwnerTextShape(o: Owner)
    ensures OwnerText(o) == OwnerFields(o)[0] + [':'] + o.name
    ensures ':' !in OwnerFields(o)[0] && Word(OwnerFields(o)[0]) && '\n' !in OwnerFields(o)[0]
    ensures OwnerFields(o)[0] == "developer" <==> o.Developer?
  {
    JoinPair(OwnerFields(o)[0], o.name);
    assert OwnerFields(o) == [OwnerFields(o)[0], o.name];
  }

  lemma OwnerTextParses(o: Owner)
    requires ValidName(o.name)
    ensures ParseOwner(OwnerText(o)) == Some(o)
  {
    hide ValidName, IndexOf, OwnerText;
    var kind, text := OwnerFields(o)[0], OwnerText(o);
    OwnerTextShape(o);
    IndexOfPrefix(kind, ':', o.name);
    var i := IndexOf(text, ':');
    assert text[..i] == kind && text[i + 1..] == o.name;
  }

  lemma ParsedOwnerText(text: string)
    requires ParseOwner(text).Some?
    ensures var o := ParseOwner(text).value; text == OwnerText(o) && ValidName(o.name)
  {
    hide ValidName, IndexOf, OwnerText;
    var i := IndexOf(text, ':');
    CutAt(text, i);
    OwnerTextShape(ParseOwner(text).value);
  }

  lemma OwnerCodec(text: string, o: Owner)
    ensures ParseOwner(text) == Some(o) <==> text == OwnerText(o) && ValidName(o.name)
  {
    hide ParseOwner, ValidName, OwnerText;
    if ValidName(o.name) {
      OwnerTextParses(o);
    }
    if ParseOwner(text).Some? {
      ParsedOwnerText(text);
    }
  }

  lemma MemberSubjectCodec(subject: string, team: string, developer: string)
    ensures ParseMemberSubject(subject) == Some((team, developer)) <==>
            subject == MemberSubject(team, developer) && ValidName(team) && ValidName(developer)
  {
    var f := Split(subject, ':');
    JoinOfSplit(subject, ':');
    if ValidName(team) && ValidName(developer) {
      NameIsPlain(team);
      NameIsPlain(developer);
      SplitOfJoin([team, developer], ':');
    }
    if |f| == 2 {
      assert f == [f[0], f[1]];
    }
  }

  lemma OwnerSubjectDecodes(package: string, o: Owner)
    requires ValidName(package) && ValidName(o.name)
    ensures ParseOwnerSubject(OwnerSubject(package, o)) == Some((package, o))
  {
    NameIsPlain(package);
    NameIsPlain(o.name);
    OwnerTextShape(o);
    var fields := OwnerFields(o);
    var parts := [package] + fields;
    SplitOfJoin(parts, ':');
    assert [parts[1], parts[2]] == fields;
    OwnerCodec(OwnerText(o), o);
  }

  lemma OwnerSubjectCanonical(subject: string, package: string, o: Owner)
    requires ParseOwnerSubject(subject) == Some((package, o))
    ensures subject == OwnerSubject(package, o) && ValidName(package) && ValidName(o.name)
  {
    hide ValidName, Split, ParseOwner;
    var f := Split(subject, ':');
    JoinOfSplit(subject, ':');
    var pair := [f[1], f[2]];
    OwnerCodec(Join(pair, ':'), o);
    NameIsPlain(o.name);
    OwnerTextShape(o);
    SplitOfJoin(pair, ':');
    SplitOfJoin(OwnerFields(o), ':');
    assert f == [f[0]] + pair;
  }

  /** Package subjects: accepted exactly in their one canonical spelling. */
  lemma OwnerSubjectCodec(subject: string, package: string, o: Owner)
    ensures ParseOwnerSubject(subject) == Some((package, o)) <==>
            subject == OwnerSubject(package, o) && ValidName(package) && ValidName(o.name)
  {
    if ParseOwnerSubject(subject) == Some((package, o)) {
      OwnerSubjectCanonical(subject, package, o);
    } else if ValidName(package) && ValidName(o.name) {
      OwnerSubjectDecodes(package, o);
    }
  }

  lemma TokenSubjectDecodes(t: Token)
    requires ValidToken(t)
    ensures ParseTokenSubject(TokenSubject(t)) == Some(t)
  {
    hide ValidName, Split, Join, HashText, ParseHashText;
    var parts := [t.developer, HashText(t.hash)] + ScopeFields(t.scope);
    HashTextPlain(t.hash);
    HashTextCodec("", t.hash);
    NameIsPlain(t.developer);
    if t.scope.Package? {
      NameIsPlain(t.scope.package);
    }
    SplitOfJoin(parts, ':');
  }

  /** Token subjects: upper-case digests, extra fields and unknown scopes all fail. */
  lemma TokenSubjectCodec(subject: string, t: Token)
    ensures ParseTokenSubject(subject) == Some(t) <==> subject == TokenSubject(t) && ValidToken(t)
  {
    if ValidToken(t) {
      TokenSubjectDecodes(t);
    }
  }

  lemma RevokeSubjectCodec(subject: string, developer: string, h: Hash)
    ensures ParseRevokeSubject(subject) == Some((developer, h)) <==>
            subject == RevokeSubject(developer, h) && ValidName(developer)
  {
    if ValidName(developer) {
      NameIsPlain(developer);
      HashTextPlain(h);
      HashTextCodec("", h);
      SplitOfJoin([developer, HashText(h)], ':');
    }
  }

  lemma SubjectCodec(subject: string, e: Event)
    ensures ParseSubject(KindOf(e), subject) == Some(e) <==> subject == SubjectText(e) && ValidEvent(e)
  {
    hide ParseMemberSubject, ParseOwnerSubject, ParseTokenSubject, ParseRevokeSubject, ValidName;
    hide MemberSubject, OwnerSubject, TokenSubject, RevokeSubject;
    match e
    case Init(d) =>
    case MigrationInit(d) =>
    case DeveloperCreate(d) =>
    case TeamCreate(t) =>
    case MemberAdd(t, d) => MemberSubjectCodec(subject, t, d);
    case MemberRemove(t, d) => MemberSubjectCodec(subject, t, d);
    case Claim(p, o) => OwnerSubjectCodec(subject, p, o);
    case Transfer(p, o) => OwnerSubjectCodec(subject, p, o);
    case TokenIssue(t) => TokenSubjectCodec(subject, t);
    case TokenImport(t) => TokenSubjectCodec(subject, t);
    case MigrationComplete(d) =>
    case Revoke(d, h) => RevokeSubjectCodec(subject, d, h);
    case RevokeHash(d, h) => RevokeSubjectCodec(subject, d, h);
  }

  lemma ParsedKind(k: Kind, subject: string)
    ensures ParseSubject(k, subject).Some? ==> KindOf(ParseSubject(k, subject).value) == k
  {
    hide ParseMemberSubject, ParseOwnerSubject, ParseTokenSubject, ParseRevokeSubject, ValidName;
  }

  /** Audit records and events correspond one to one: decoding succeeds exactly
      on the action and subject that a well-formed event is written as. */
  lemma EventCodec(action: string, subject: string, e: Event)
    ensures DecodeEvent(action, subject) == Some(e) <==>
            action == ActionText(e) && subject == SubjectText(e) && ValidEvent(e)
  {
    KindCodec(action, KindOf(e));
    SubjectCodec(subject, e);
    match ParseKind(action) {
      case Some(k) => ParsedKind(k, subject);
      case None =>
    }
  }

  // ---------- subjects are short and plain ----------

  /** The characters `validate_audit_subject` and the file parser allow. */
  predicate SubjectChar(c: char)
  {
    'a' <= c <= 'z' || 'A' <= c <= 'Z' || '0' <= c <= '9' || c == ':' || c == '-' || c == '_' || c == '.'
  }

  predicate Plain(s: string)
  {
    forall i :: 0 <= i < |s| ==> SubjectChar(s[i])
  }

  const MAX_SUBJECT_BYTES: nat := 256

  /** `validate_audit_subject`. */
  predicate ValidSubject(s: string)
  {
    0 < |s| <= MAX_SUBJECT_BYTES && Plain(s)
  }

  lemma PlainWord(s: string)
    requires Plain(s) && |s| > 0
    ensures Word(s) && '\n' !in s
  {
    assert forall i :: 0 <= i < |s| ==> SubjectChar(s[i]);
  }

  lemma NamePlain(s: string)
    requires ValidName(s)
    ensures Plain(s) && 0 < |s| <= 64
  {
    assert forall i :: 0 <= i < |s| ==> NameChar(s[i]);
  }

  lemma HashPlain(h: Hash)
    ensures Plain(HashText(h)) && |HashText(h)| == 71
  {
    var hex := EncodeHex(h);
    assert forall i :: 0 <= i < |hex| ==> LowerHex(hex[i]);
  }

  lemma JoinPlain(a: string, rest: seq<string>)
    requires Plain(a) && |rest| > 0 && Plain(Join(rest, ':'))
    ensures Plain(Join([a] + rest, ':')) && |Join([a] + rest, ':')| == |a| + 1 + |Join(rest, ':')|
  {
    JoinCons(a, rest, ':');
  }

  lemma PairPlain(a: string, b: string)
    requires Plain(a) && Plain(b)
    ensures Plain(Join([a, b], ':')) && |Join([a, b], ':')| == |a| + 1 + |b|
  {
    JoinPlain(a, [b]);
    assert [a] + [b] == [a, b];
  }

  lemma OwnerTextPlain(o: Owner)
    requires ValidName(o.name)
    ensures Plain(OwnerText(o)) && 0 < |OwnerText(o)| <= 74
  {
    hide ValidName;
    NamePlain(o.name);
    PairPlain(OwnerFields(o)[0], o.name);
    assert OwnerFields(o) == [OwnerFields(o)[0], o.name];
  }

  lemma ScopeTextPlain(s: Scope)
    requires s.Package? ==> ValidName(s.package)
    ensures Plain(ScopeText(s)) && 0 < |ScopeText(s)| <= 72
  {
    hide ValidName;
    if s.Package? {
      NamePlain(s.package);
      PairPlain("package", s.package);
    }
  }

  lemma MemberSubjectPlain(team: string, developer: string)
    requires ValidName(team) && ValidName(developer)
    ensures ValidSubject(MemberSubject(team, developer)) && |MemberSubject(team, developer)| <= 129
  {
    hide ValidName, Join, Plain;
    NamePlain(team);
    NamePlain(developer);
    PairPlain(team, developer);
  }

  lemma OwnerSubjectPlain(package: string, o: Owner)
    requires ValidName(package) && ValidName(o.name)
    ensures ValidSubject(OwnerSubject(package, o)) && |OwnerSubject(package, o)| <= 139
  {
    hide ValidName, Join, Plain;
    NamePlain(package);
    OwnerTextPlain(o);
    JoinPlain(package, OwnerFields(o));
  }

  lemma TokenSubjectPlain(t: Token)
    requires ValidToken(t)
    ensures ValidSubject(TokenSubject(t)) && |TokenSubject(t)| <= 209
  {
    hide ValidName, Join, Plain, HashText;
    NamePlain(t.developer);
    HashPlain(t.hash);
    ScopeTextPlain(t.scope);
    var tail := [HashText(t.hash)] + ScopeFields(t.scope);
    JoinPlain(HashText(t.hash), ScopeFields(t.scope));
    JoinPlain(t.developer, tail);
    assert [t.developer] + tail == [t.developer, HashText(t.hash)] + ScopeFields(t.scope);
  }

  lemma RevokeSubjectPlain(developer: string, h: Hash)
    requires ValidName(developer)
    ensures ValidSubject(RevokeSubject(developer, h)) && |RevokeSubject(developer, h)| <= 136
  {
    hide ValidName, Join, Plain, HashText;
    NamePlain(developer);
    HashPlain(h);
    PairPlain(developer, HashText(h));
  }

  /** The subject of a well-formed event always passes the subject check. */
  lemma SubjectIsValid(e: Event)
    requires ValidEvent(e)
    ensures ValidSubject(SubjectText(e)) && |SubjectText(e)| <= 209
  {
    hide ValidName, Plain, MemberSubject, OwnerSubject, TokenSubject, RevokeSubject, ValidToken;
    match e
    case Init(d) => NamePlain(d);
    case MigrationInit(d) => NamePlain(d);
    case DeveloperCreate(d) => NamePlain(d);
    case TeamCreate(t) => NamePlain(t);
    case MemberAdd(t, d) => MemberSubjectPlain(t, d);
    case MemberRemove(t, d) => MemberSubjectPlain(t, d);
    case Claim(p, o) => OwnerSubjectPlain(p, o);
    case Transfer(p, o) => OwnerSubjectPlain(p, o);
    case TokenIssue(t) => TokenSubjectPlain(t);
    case TokenImport(t) => TokenSubjectPlain(t);
    case MigrationComplete(d) => NamePlain(d);
    case Revoke(d, h) => RevokeSubjectPlain(d, h);
    case RevokeHash(d, h) => RevokeSubjectPlain(d, h);
  }

  lemma BootstrapKindChars(k: Kind, i: nat)
    requires k in {InitKind, MigrationInitKind, TokenImportKind, MigrationCompleteKind} && i < |KindText(k)|
    ensures NameChar(KindText(k)[i])
  {
  }

  lemma TeamKindChars(k: Kind, i: nat)
    requires k in {TeamCreateKind, MemberAddKind, MemberRemoveKind, ClaimKind, TransferKind} && i < |KindText(k)|
    ensures NameChar(KindText(k)[i])
  {
  }

  lemma DeveloperKindChars(k: Kind, i: nat)
    requires k in {DeveloperCreateKind, TokenIssueKind, RevokeKind, RevokeHashKind} && i < |KindText(k)|
    ensures NameChar(KindText(k)[i])
  {
  }

  lemma KindChars(k: Kind, i: nat)
    requires i < |KindText(k)|
    ensures NameChar(KindText(k)[i])
  {
    hide KindText;
    if k in {InitKind, MigrationInitKind, TokenImportKind, MigrationCompleteKind} {
      BootstrapKindChars(k, i);
    } else if k in {TeamCreateKind, MemberAddKind, MemberRemoveKind, ClaimKind, TransferKind} {
      TeamKindChars(k, i);
    } else {
      DeveloperKindChars(k, i);
    }
  }

  lemma LongNotReserved(s: string)
    requires |s| > 4
    ensures !ReservedDevice(s)
  {
  }

  /** Every action text is itself a valid name, as the file parser demands. */
  lemma ActionIsName(k: Kind)
    ensures ValidName(KindText(k)) && |KindText(k)| <= 27
  {
    var text := KindText(k);
    assert !ReservedDevice(text) by {
      if k == InitKind {
        assert text == "init" && text[..3] != "com" && text[..3] != "lpt" by {
          assert text[..3][0] == 'i';
        }
      } else {
        LongNotReserved(text);
      }
    }
    hide KindText, ReservedDevice;
    forall i | 0 <= i < |text| ensures NameChar(text[i]) {
      KindChars(k, i);
    }
  }
}
