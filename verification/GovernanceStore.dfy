/** The mutable governance state and the credentials file it is stored in. Every
    method is tied to the functions of the value-level model. */
module GovernanceStore {
  import opened Text
  import opened Hex
  import opened Names
  import opened Governance
  import opened GovernanceReplay
  import opened GovernanceChain
  import opened GovernanceCommands
  import opened GovernanceMigration
  import opened GovernanceFile
  import opened GovernanceLegacy
  import Acl = GovernanceAcl

  class GovernanceState {
    var developers: set<string>
    var teams: set<string>
    var members: set<(string, string)>
    var owners: map<string, Owner>
    var tokens: set<Token>
    var audits: seq<Audit>

    function Held(): Data
      reads this
    {
      Data(developers, teams, members, owners, tokens)
    }

    function Value(): State
      reads this
    {
      State(Held(), audits)
    }

    constructor ()
      ensures Value() == NO_STATE
    {
      developers, teams, members, owners, tokens, audits := {}, {}, {}, map[], {}, [];
    }

    /** `append_governance_audit`. */
    method AppendAudit(sha: Digest, action: string, subject: string)
      modifies this`audits
      ensures audits == old(audits) + [NextAudit(sha, old(audits), action, subject)]
    {
      var sequence := |audits| + 1;
      var previous := if |audits| == 0 then AUDIT_ROOT else audits[|audits| - 1].eventHash;
      var before := if |audits| == 0 then RootTransition(sha) else audits[|audits| - 1].transition;
      var after := HashHex(sha, TransitionText(before, action, subject));
      var unsigned := Audit(sequence, previous, "", before, after, action, subject);
      audits := audits + [unsigned.(eventHash := HashHex(sha, EventText(unsigned)))];
    }

    /** `insert_replayed_governance_token`. */
    method InsertReplayedToken(t: Token) returns (ok: bool)
      modifies this`tokens
      ensures ok <==> Insertable(old(Held()), t)
      ensures ok ==> tokens == old(tokens) + {t}
    {
      if t.developer !in developers || exists x :: x in tokens && Conflicts(x, t) {
        return false;
      }
      ok := t !in tokens;
      tokens := tokens + {t};
    }

    /** `apply_governance_audit_event`: decode the record, check, and edit in place.
        What a refused event leaves behind is never looked at again. */
    method ApplyAuditEvent(phase: Phase, action: string, subject: string) returns (ok: bool, phase': Phase)
      modifies this`developers, this`teams, this`members, this`owners, this`tokens
      ensures ok <==> Apply(old(Held()), phase, action, subject).Some?
      ensures ok ==> (Held(), phase') == Apply(old(Held()), phase, action, subject).value
    {
      hide DecodeEvent, HasActiveToken, AllAuthorized, OwnerExists, Insertable, MigrationClosable, StepRevoke;
      ok, phase' := false, phase;
      var decoded := DecodeEvent(action, subject);
      if decoded.None? {
        return;
      }
      match decoded.value {
        case Init(dev) =>
          if phase != Empty || Held() != NO_DATA { return; }
          developers := developers + {dev};
          phase' := Normal;
        case MigrationInit(dev) =>
          if phase != Empty || Held() != NO_DATA { return; }
          developers := developers + {dev};
          phase' := Migrating;
        case DeveloperCreate(dev) =>
          if phase != Normal || dev in developers { return; }
          developers := developers + {dev};
        case TeamCreate(team) =>
          if phase != Normal || team in teams { return; }
          teams := teams + {team};
        case MemberAdd(team, dev) =>
          if phase != Normal || team !in teams || dev !in developers || (team, dev) in members { return; }
          members := members + {(team, dev)};
        case MemberRemove(team, dev) =>
          if phase != Normal || (team, dev) !in members { return; }
          members := members - {(team, dev)};
          var authorized := Acl.AllPackagesRemainAuthorized(Held());
          if !authorized { return; }
        case Claim(p, o) =>
          if phase == Empty { return; }
          var active := Acl.OwnerHasActiveToken(Held(), p, o);
          if !OwnerExists(Held(), o) || !active || p in owners { return; }
          owners := owners[p := o];
        case Transfer(p, o) =>
          if phase != Normal { return; }
          var active := Acl.OwnerHasActiveToken(Held(), p, o);
          if !OwnerExists(Held(), o) || !active || p !in owners || owners[p] == o { return; }
          owners := owners[p := o];
        case TokenIssue(t) =>
          if phase != Normal || !t.scope.All? { return; }
          var inserted := InsertReplayedToken(t);
          if !inserted { return; }
        case TokenImport(t) =>
          if phase != Migrating || !t.scope.Package? { return; }
          var inserted := InsertReplayedToken(t);
          if !inserted { return; }
        case MigrationComplete(dev) =>
          var closable := CanCloseMigration(dev);
          if phase != Migrating || !closable { return; }
          phase' := Normal;
        case Revoke(dev, h) =>
          ok := RevokeInPlace(phase, dev, h);
          return;
        case RevokeHash(dev, h) =>
          ok := RevokeInPlace(phase, dev, h);
          return;
      }
      ok := true;
    }

    method CanCloseMigration(dev: string) returns (ok: bool)
      ensures ok <==> MigrationClosable(Held(), dev)
    {
      hide AllAuthorized;
      ok := Acl.AllPackagesRemainAuthorized(Held());
      assert developers == {dev} ==> |developers| == 1;
      if |developers| == 1 && dev in developers {
        Singleton(developers, dev);
      }
      ok := ok && |developers| == 1 && dev in developers && tokens != {} && owners != map[]
            && forall t :: t in tokens ==> t.scope.Package?;
    }

    /** `tokens.retain(..)` followed by the length and authorization checks. */
    method RevokeInPlace(phase: Phase, dev: string, h: Hash) returns (ok: bool)
      modifies this`tokens
      ensures ok <==> StepRevoke(old(Held()), phase, dev, h).Some?
      ensures ok ==> (Held(), phase) == StepRevoke(old(Held()), phase, dev, h).value
    {
      hide AllAuthorized;
      var before := |tokens|;
      RetainShrinks(Held(), dev, h);
      tokens := set t | t in tokens && (t.hash != h || t.developer != dev);
      if phase != Normal || |tokens| == before {
        return false;
      }
      ok := Acl.AllPackagesRemainAuthorized(Held());
    }

    // ---------- validation ----------

    /** The token loops of `validate_governance_state`. */
    method TokensAreCoherent() returns (ok: bool)
      ensures ok <==> (forall t :: t in tokens ==> t.developer in developers) && DigestsCoherent(Held()) && ScopesOwned(Held())
    {
      hide ValidName;
      var identities: map<Hash, string> := map[];
      var allScoped: set<Hash> := {};
      var todo := tokens;
      while todo != {}
        invariant todo <= tokens
        invariant forall t :: t in tokens - todo ==> t.developer in developers && TokenScopeOwned(Held(), t)
        invariant forall t :: t in tokens - todo ==> t.hash in identities && identities[t.hash] == t.developer
        invariant forall h :: h in identities ==> exists t :: t in tokens - todo && t.hash == h
        invariant forall h :: h in allScoped <==> exists t :: t in tokens - todo && t.hash == h && t.scope.All?
        decreases todo
      {
        var t :| t in todo;
        if t.developer !in developers || !TokenScopeOwned(Held(), t) {
          return false;
        }
        if (t.hash in identities && identities[t.hash] != t.developer) || (t.scope.All? && t.hash in allScoped) {
          return false;
        }
        identities := identities[t.hash := t.developer];
        allScoped := if t.scope.All? then allScoped + {t.hash} else allScoped;
        todo := todo - {t};
      }
      assert tokens - todo == tokens;
      ok := forall t :: t in tokens && t.scope.Package? ==> t.hash !in allScoped;
      if ok {
        forall s, t | s in tokens && t in tokens && s.hash == t.hash && s != t
          ensures s.developer == t.developer && s.scope.Package? && t.scope.Package?
        {
        }
      }
    }

    /** The replay loop of `validate_governance_state`, on a scratch state. */
    method ChainReplays(sha: Digest) returns (ok: bool)
      ensures ok <==> Chained(sha, audits) && Moves(audits) && Replay(audits) == Some((Held(), Normal))
    {
      hide Apply, EventText, TransitionText, HashHex, Replay, Good, PreviousHash, LastTransition, Chained, Moves;
      var log := audits;
      var previous := AUDIT_ROOT;
      var transition := RootTransition(sha);
      var phase := Empty;
      var replayed := new GovernanceState();
      EmptyReplay(sha, log);
      for index := 0 to |log|
        invariant fresh(replayed) && audits == log && Held() == old(Held())
        invariant previous == PreviousHash(log[..index]) && transition == LastTransition(sha, log[..index])
        invariant forall k :: 0 <= k < index ==> Good(sha, log, k)
        invariant Replay(log[..index]) == Some((replayed.Held(), phase))
      {
        var event := log[index];
        GoodRecord(sha, log, index);
        ReplayNext(log, index);
        if event.beforeTransition != transition {
          BadRecord(sha, log, index);
          return false;
        }
        var applied, next := replayed.ApplyAuditEvent(phase, event.action, event.subject);
        if !applied {
          return false;
        }
        phase := next;
        var expectedTransition := HashHex(sha, TransitionText(transition, event.action, event.subject));
        var expectedHash := HashHex(sha, EventText(event));
        if event.transition != expectedTransition || event.transition == event.beforeTransition
           || event.sequence != index + 1 || event.previousHash != previous || event.eventHash != expectedHash {
          BadRecord(sha, log, index);
          return false;
        }
        previous, transition := event.eventHash, event.transition;
      }
      AllGood(sha, log);
      assert log[..|log|] == log;
      ok := phase == Normal && replayed.Held() == Held();
    }

    /** `validate_governance_state`. */
    method Validate(sha: Digest) returns (ok: bool)
      ensures ok <==> Valid(sha, Value())
    {
      hide AllAuthorized, Chained, Moves, Replay, DigestsCoherent, ScopesOwned;
      if |developers| > MAX_RECORDS || |teams| > MAX_RECORDS || |members| > MAX_RECORDS || |owners| > MAX_RECORDS
         || |tokens| > MAX_RECORDS || |audits| > MAX_AUDITS {
        return false;
      }
      if exists m :: m in members && (m.0 !in teams || m.1 !in developers) {
        return false;
      }
      if exists p :: p in owners && !OwnerExists(Held(), owners[p]) {
        return false;
      }
      var coherent := TokensAreCoherent();
      if !coherent || |audits| == 0 {
        return false;
      }
      var authorized := Acl.AllPackagesRemainAuthorized(Held());
      if !authorized {
        return false;
      }
      ok := ChainReplays(sha);
    }

    // ---------- commands ----------

    /** The in-place edit of one command, its authorization check, and its audit
        record: the closures given to `mutate_governance_from_env` and the bodies of
        the token commands. */
    method Execute(sha: Digest, c: Command) returns (refused: Option<Refusal>)
      modifies this
      ensures refused.None? ==> Run(old(Held()), c).Changed? && Value() == Commit(sha, old(Value()), c)
      ensures refused.Some? ==> Run(old(Held()), c) == Refused(refused.value)
    {
      hide HasActiveToken, OwnerExists, AllAuthorized, NextAudit, ActionText, SubjectText;
      refused := EditInPlace(c);
      if refused.Some? {
        return;
      }
      if !c.IssueToken? {
        var authorized := Acl.AllPackagesRemainAuthorized(Held());
        if !authorized {
          return Some(if c.RevokeToken? then LastCredential else OwnerHasNoActiveToken);
        }
      }
      var e := CommandEvent(c);
      AppendAudit(sha, ActionText(e), SubjectText(e));
    }

    method EditInPlace(c: Command) returns (refused: Option<Refusal>)
      modifies this`developers, this`teams, this`members, this`owners, this`tokens
      ensures refused.None? ==> Edit(old(Held()), c) == Changed(Held())
      ensures refused.Some? ==> Edit(old(Held()), c) == Refused(refused.value)
    {
      hide HasActiveToken, OwnerExists;
      refused := None;
      match c {
        case CreateDeveloper(dev) =>
          if dev in developers { return Some(DeveloperExists); }
          developers := developers + {dev};
        case CreateTeam(team) =>
          if team in teams { return Some(TeamExists); }
          teams := teams + {team};
        case AddMember(team, dev) =>
          if team !in teams || dev !in developers { return Some(GovernanceNotFound); }
          if (team, dev) in members { return Some(MemberExists); }
          members := members + {(team, dev)};
        case RemoveMember(team, dev) =>
          if (team, dev) !in members { return Some(MemberNotFound); }
          members := members - {(team, dev)};
        case ChangeOwner(p, o, transfer) =>
          if !OwnerExists(Held(), o) { return Some(OwnerNotFound); }
          var active := Acl.OwnerHasActiveToken(Held(), p, o);
          if !active { return Some(OwnerHasNoActiveToken); }
          if p !in owners && transfer { return Some(PackageNotOwned); }
          if p in owners && !transfer { return Some(PackageOwned); }
          if p in owners && owners[p] == o { return Some(OwnerUnchanged); }
          owners := owners[p := o];
        case IssueToken(dev, h) =>
          if dev !in developers { return Some(DeveloperNotFound); }
          if exists t :: t in tokens && t.hash == h { return Some(DigestInUse); }
          tokens := tokens + {Token(h, dev, All)};
        case RevokeToken(dev, h, _) =>
          var before := |tokens|;
          RetainShrinks(Held(), dev, h);
          tokens := set t | t in tokens && (t.hash != h || t.developer != dev);
          if |tokens| == before { return Some(CredentialNotFound); }
      }
    }

    // ---------- migration ----------

    /** `migrate_legacy_credentials`, run on a fresh state. */
    method MigrateLegacy(sha: Digest, legacy: seq<Credential>, developer: string)
      requires Value() == NO_STATE
      modifies this
      ensures Value() == Migrate(sha, legacy, developer)
    {
      hide NextAudit, ActionText, SubjectText, ImportAll;
      ImportNone(sha, developer);
      developers := developers + {developer};
      AppendAudit(sha, ActionText(MigrationInit(developer)), SubjectText(MigrationInit(developer)));
      assert legacy[..0] == [];
      for k := 0 to |legacy|
        invariant Value() == ImportAll(sha, legacy[..k], developer)
      {
        var r := legacy[k];
        ImportNext(sha, legacy, k, developer);
        var token := Token(r.0, developer, Package(r.1));
        if token !in tokens {
          tokens := tokens + {token};
          AppendAudit(sha, ActionText(TokenImport(token)), SubjectText(TokenImport(token)));
        }
        if r.1 !in owners {
          var claim := Claim(r.1, Developer(developer));
          owners := owners[r.1 := Developer(developer)];
          AppendAudit(sha, ActionText(claim), SubjectText(claim));
        }
      }
      assert legacy[..|legacy|] == legacy;
      AppendAudit(sha, ActionText(MigrationComplete(developer)), SubjectText(MigrationComplete(developer)));
    }

    // ---------- the file ----------

    method InsertRecord(r: Record) returns (ok: bool)
      modifies this
      ensures ok <==> Insert(old(Value()), r).Some?
      ensures ok ==> Value() == Insert(old(Value()), r).value
    {
      ok := true;
      match r {
        case DeveloperRecord(name) =>
          if |developers| >= MAX_RECORDS || name in developers { return false; }
          developers := developers + {name};
        case TeamRecord(name) =>
          if |teams| >= MAX_RECORDS || name in teams { return false; }
          teams := teams + {name};
        case MemberRecord(team, developer) =>
          if |members| >= MAX_RECORDS || (team, developer) in members { return false; }
          members := members + {(team, developer)};
        case OwnerRecord(package, o) =>
          if |owners| >= MAX_RECORDS || package in owners { return false; }
          owners := owners[package := o];
        case TokenRecord(t) =>
          if |tokens| >= MAX_RECORDS || t in tokens { return false; }
          tokens := tokens + {t};
        case AuditRecord(a) =>
          if |audits| >= MAX_AUDITS { return false; }
          audits := audits + [a];
      }
    }

    /** `parse_governance_state`, filling a fresh state line by line. */
    method ReadFrom(sha: Digest, text: string) returns (ok: bool)
      requires Value() == NO_STATE
      modifies this
      ensures ok <==> Parse(sha, text).Some?
      ensures ok ==> Value() == Parse(sha, text).value
    {
      hide Lines, Trim, ByteLength, Fields, ParseFields, Insert, Valid, ParseLines;
      var lines := Lines(text);
      var sawSchema := false;
      ghost var goal := ParseLines(Progress(false, NO_STATE), lines);
      assert lines[0..] == lines;
      for index := 0 to |lines|
        invariant ParseLines(Progress(sawSchema, Value()), lines[index..]) == goal
      {
        ParseCons(Progress(sawSchema, Value()), lines[index..]);
        assert lines[index..][1..] == lines[index + 1..];
        var raw := lines[index];
        if ByteLength(raw) > MAX_LINE_BYTES {
          return false;
        }
        var line := Trim(raw);
        if line == "" || line[0] == '#' {
          continue;
        }
        if !sawSchema {
          if line != SCHEMA {
            return false;
          }
          sawSchema := true;
          continue;
        }
        var record := ParseFields(Fields(line));
        if record.None? {
          return false;
        }
        var inserted := InsertRecord(record.value);
        if !inserted {
          return false;
        }
      }
      ParseNone(Progress(sawSchema, Value()), lines[|lines|..]);
      if !sawSchema {
        return false;
      }
      ok := Validate(sha);
    }

    /** `serialize_governance_state`. The ghost result names the order in which the
        sets were written. */
    method WriteTo(sha: Digest) returns (r: Option<string>, ghost l: Listing)
      ensures ListingOf(l, Held()) && r == Serialize(sha, l, Value())
      ensures r.Some? ==> Valid(sha, Value()) && ByteLength(r.value) <= MAX_FILE_BYTES
      ensures r.Some? ==> Parse(sha, r.value) == Some(Value())
    {
      hide Parse, Valid, ByteLength, RecordLine, Render, ListingOf, Lists;
      var ds := Enumerate(developers);
      var ts := Enumerate(teams);
      var ms := Enumerate(members);
      var ps := Enumerate(owners.Keys);
      var ks := Enumerate(tokens);
      l := Listing(ds, ts, ms, ps, ks);
      ListingFrom(l, Held());
      var valid := Validate(sha);
      if !valid {
        return None, l;
      }
      AllListed(ps, owners);
      var output := SCHEMA + "\n";
      var body := WriteRecords(DeveloperRecords(ds) + TeamRecords(ts) + MemberRecords(ms)
                               + OwnerRecords(ps, owners) + TokenRecords(ks) + AuditRecords(audits));
      output := output + body;
      PrintedText(l, Value());
      PrintThenParse(sha, l, Value());
      r := if ByteLength(output) > MAX_FILE_BYTES then None else Some(output);
    }
  }

  /** Some order of the elements of a set. */
  method Enumerate<T(==, !new)>(s: set<T>) returns (xs: seq<T>)
    ensures Lists(xs, s)
  {
    xs := [];
    var todo := s;
    while todo != {}
      invariant todo <= s && Lists(xs, s - todo)
      decreases todo
    {
      var x :| x in todo;
      xs := xs + [x];
      todo := todo - {x};
    }
    assert s - todo == s;
  }

  lemma ListingFrom(l: Listing, d: Data)
    requires Lists(l.developers, d.developers) && Lists(l.teams, d.teams) && Lists(l.members, d.members)
    requires Lists(l.packages, d.owners.Keys) && Lists(l.tokens, d.tokens)
    ensures ListingOf(l, d)
  {
  }

  lemma AllListed(packages: seq<string>, owners: map<string, Owner>)
    requires Lists(packages, owners.Keys)
    ensures forall k :: 0 <= k < |packages| ==> packages[k] in owners
  {
    assert forall k :: 0 <= k < |packages| ==> packages[k] in packages;
  }

  lemma PrintedText(l: Listing, st: State)
    requires ListingOf(l, st.data)
    ensures Printed(l, st) == SCHEMA + "\n" + Render(RecordLines(Records(l, st)))
  {
    hide RecordLines, Records;
    assert PrintedLines(l, st)[1..] == RecordLines(Records(l, st));
  }

  /** Append one line per record. */
  method WriteRecords(rs: seq<Record>) returns (output: string)
    ensures output == Render(RecordLines(rs))
  {
    hide RecordLine, Render;
    output := "";
    RenderNone();
    assert RecordLines(rs[..0]) == [];
    for k := 0 to |rs|
      invariant output == Render(RecordLines(rs[..k]))
    {
      RenderSnoc(RecordLines(rs[..k]), RecordLine(rs[k]));
      assert RecordLines(rs[..k + 1]) == RecordLines(rs[..k]) + [RecordLine(rs[k])];
      output := output + RecordLine(rs[k]) + "\n";
    }
    assert rs[..|rs|] == rs;
  }

  lemma RenderNone()
    ensures Render([]) == ""
  {
  }

  lemma RenderSnoc(lines: seq<string>, line: string)
    ensures Render(lines + [line]) == Render(lines) + line + "\n"
  {
    RenderConcat(lines, [line]);
    assert [line][1..] == [];
    assert Render([line]) == line + "\n";
  }

  lemma ImportNone(sha: Digest, developer: string)
    ensures ImportAll(sha, [], developer) == Start(sha, developer)
  {
  }

  lemma ImportNext(sha: Digest, legacy: seq<Credential>, k: nat, developer: string)
    requires k < |legacy|
    ensures ImportAll(sha, legacy[..k + 1], developer) ==
            ImportRecord(sha, ImportAll(sha, legacy[..k], developer), legacy[k], developer)
  {
    hide ImportRecord;
    assert legacy[..k + 1][..k] == legacy[..k];
  }

  predicate TokenScopeOwned(d: Data, t: Token)
  {
    t.scope.Package? ==> ValidName(t.scope.package) && t.scope.package in d.owners
  }

  /** Record `k` continues the chain and moves the transition. */
  predicate Good(sha: Digest, log: seq<Audit>, k: nat)
    requires k < |log|
  {
    Linked(sha, log, k) && log[k].transition != log[k].beforeTransition
  }

  lemma GoodRecord(sha: Digest, log: seq<Audit>, k: nat)
    requires k < |log|
    ensures Good(sha, log, k) <==>
            var a := log[k];
            && a.sequence == k + 1 && a.previousHash == PreviousHash(log[..k])
            && a.beforeTransition == LastTransition(sha, log[..k])
            && a.transition == HashHex(sha, TransitionText(a.beforeTransition, a.action, a.subject))
            && a.eventHash == HashHex(sha, EventText(a)) && a.transition != a.beforeTransition
    ensures PreviousHash(log[..k + 1]) == log[k].eventHash && LastTransition(sha, log[..k + 1]) == log[k].transition
  {
    hide HashHex, TransitionText, Terminated;
  }

  lemma BadRecord(sha: Digest, log: seq<Audit>, k: nat)
    requires k < |log| && !Good(sha, log, k)
    ensures !(Chained(sha, log) && Moves(log))
  {
    hide Linked;
  }

  lemma AllGood(sha: Digest, log: seq<Audit>)
    requires forall k :: 0 <= k < |log| ==> Good(sha, log, k)
    ensures Chained(sha, log) && Moves(log)
  {
    hide Linked;
    forall k | 0 <= k < |log| ensures Linked(sha, log, k) && log[k].transition != log[k].beforeTransition {
      assert Good(sha, log, k);
    }
  }

  lemma EmptyReplay(sha: Digest, log: seq<Audit>)
    ensures Replay(log[..0]) == Some((NO_DATA, Empty))
    ensures PreviousHash(log[..0]) == AUDIT_ROOT && LastTransition(sha, log[..0]) == RootTransition(sha)
  {
  }

  lemma ReplayNext(log: seq<Audit>, k: nat)
    requires k < |log| && Replay(log[..k]).Some?
    ensures Replay(log[..k + 1]) == Apply(Replay(log[..k]).value.0, Replay(log[..k]).value.1, log[k].action, log[k].subject)
    ensures Replay(log[..k + 1]).None? ==> Replay(log).None?
  {
    hide Apply, Replay;
    assert log[..k + 1] == log[..k] + [log[k]];
    ReplayAppend(log[..k], log[k]);
    if Replay(log).Some? {
      ReplayPrefix(log, k + 1);
    }
  }

  lemma Singleton(s: set<string>, x: string)
    requires |s| == 1 && x in s
    ensures s == {x}
  {
    assert |s - {x}| == 0;
  }

  /** Retaining removes something exactly when the developer held the digest. */
  lemma RetainShrinks(d: Data, dev: string, h: Hash)
    ensures |DropTokens(d, dev, h).tokens| == |d.tokens| <==> !HoldsToken(d, dev, h)
  {
    var kept := DropTokens(d, dev, h).tokens;
    assert d.tokens == kept + (d.tokens - kept);
    if HoldsToken(d, dev, h) {
      var t :| t in d.tokens && t.hash == h && t.developer == dev;
      assert t in d.tokens - kept;
    } else {
      assert kept == d.tokens;
    }
  }

  // ---------- the credentials file ----------

  lemma {:induction false} ParsedHasSchema(p: Progress, lines: seq<string>)
    requires ParseLines(p, lines).Some? && ParseLines(p, lines).value.sawSchema && !p.sawSchema
    ensures FirstRecord(lines) == Some(SCHEMA)
    decreases |lines|
  {
    hide ByteLength, Fields, ParseFields, Insert;
    if |lines| > 0 {
      var line := Trim(lines[0]);
      if line == "" || line[0] == '#' {
        ParsedHasSchema(p, lines[1..]);
      }
    }
  }

  /** What a file command reports. */
  datatype Report = Done | Unreadable | BadName | RefusedFor(why: Refusal) | NoFreshToken | NotSerializable

  /** The credentials file, empty when absent. Locking and atomic replacement are
      abstracted: a command either replaces the whole text or leaves it alone. */
  class CredentialsFile {
    var text: string

    constructor (contents: string)
      ensures text == contents
    {
      text := contents;
    }

    /** `initialize_governance_from_env`: goes through exactly for a valid name and a
        file without records, digest fixed points aside. */
    method Initialize(sha: Digest, developer: string) returns (report: Report, ghost l: Listing)
      modifies this
      ensures report != Done ==> text == old(text)
      ensures report == Done ==> Parse(sha, text) == Some(Bootstrap(sha, developer))
      ensures report == BadName <==> !ValidName(developer)
      ensures report == Unreadable <==> ValidName(developer) && HasRecord(Lines(old(text)))
      ensures report == Done <==>
                && ValidName(developer) && !HasRecord(Lines(old(text)))
                && NextTransition(sha, [], ActionText(Init(developer)), developer) != RootTransition(sha)
    {
      hide Parse, Valid, ListingOf, Printed, ByteLength, Lines, FirstRecord, HasRecord, NextAudit, ActionText, SubjectText;
      l := Listing([], [], [], [], []);
      FirstRecordIs(Lines(text));
      if !ValidName(developer) {
        return BadName, l;
      }
      if FirstRecord(Lines(text)).Some? {
        return Unreadable, l;
      }
      var state := new GovernanceState();
      state.developers := state.developers + {developer};
      assert state.developers == {developer};
      state.AppendAudit(sha, ActionText(Init(developer)), SubjectText(Init(developer)));
      var replacement;
      replacement, l := state.WriteTo(sha);
      BootstrapFits(sha, developer, l);
      if replacement.None? {
        return NotSerializable, l;
      }
      PrintThenParse(sha, l, state.Value());
      text := replacement.value;
      report := Done;
    }

    /** `migrate_governance_from_env`. */
    method MigrateFile(sha: Digest, developer: string) returns (report: Report, ghost l: Listing)
      modifies this
      ensures report != Done ==> text == old(text)
      ensures report == Done ==>
                && ParseLegacy(old(text)).Some?
                && Parse(sha, text) == Some(Migrate(sha, ParseLegacy(old(text)).value, developer))
                && GovernanceReplay.Acl(Migrate(sha, ParseLegacy(old(text)).value, developer).data)
                   == Granted(ParseLegacy(old(text)).value)
      // the only thing that can stop a readable legacy file is a digest fixed point
      ensures report == Done <==>
                && ValidName(developer) && ParseLegacy(old(text)).Some? && ParseLegacy(old(text)).value != []
                && Moves(Migrate(sha, ParseLegacy(old(text)).value, developer).audits)
      ensures report == BadName <==> !ValidName(developer)
      ensures report == Unreadable <==>
                ValidName(developer) && (ParseLegacy(old(text)).None? || ParseLegacy(old(text)).value == [])
    {
      hide Parse, Valid, ListingOf, Printed, ByteLength, ParseLegacy, Migrate, GovernanceReplay.Acl, Granted, Moves;
      l := Listing([], [], [], [], []);
      if !ValidName(developer) {
        return BadName, l;
      }
      var legacy := ReadLegacy(text);
      if legacy.None? || legacy.value == [] {
        return Unreadable, l;
      }
      var state := new GovernanceState();
      state.MigrateLegacy(sha, legacy.value, developer);
      var replacement;
      replacement, l := state.WriteTo(sha);
      MigrationOutcome(sha, text, developer, l);
      if replacement.None? {
        return NotSerializable, l;
      }
      text := replacement.value;
      report := Done;
    }

    /** Any administrative command: read, check, edit, audit, serialize, replace. On
        success the new file parses to exactly the committed state. */
    method RunCommand(sha: Digest, c: Command) returns (report: Report, ghost l: Listing)
      modifies this
      ensures report != Done ==> text == old(text)
      ensures report == Done ==>
                && Parse(sha, old(text)).Some? && WellFormed(c) && Run(Parse(sha, old(text)).value.data, c).Changed?
                && Parse(sha, text) == Some(Commit(sha, Parse(sha, old(text)).value, c))
      ensures report == Unreadable <==> WellFormed(c) && Parse(sha, old(text)).None?
      ensures report.RefusedFor? <==>
                WellFormed(c) && Parse(sha, old(text)).Some? && Run(Parse(sha, old(text)).value.data, c).Refused?
      ensures report.RefusedFor? ==> Run(Parse(sha, old(text)).value.data, c) == Refused(report.why)
      ensures report == BadName <==> !WellFormed(c)
      ensures report != NoFreshToken
      ensures report == NotSerializable ==>
                && Parse(sha, old(text)).Some? && Run(Parse(sha, old(text)).value.data, c).Changed?
                && var next := Commit(sha, Parse(sha, old(text)).value, c);
                   ListingOf(l, next.data) && Serialize(sha, l, next).None?
    {
      hide Valid, ListingOf, Printed, ByteLength, Lines, FirstRecord, ParseLines, WellFormed, Run, Commit;
      l := Listing([], [], [], [], []);
      if !WellFormed(c) {
        return BadName, l;
      }
      if Parse(sha, text).Some? {
        ParsedHasSchema(Progress(false, NO_STATE), Lines(text));
      }
      if FirstRecord(Lines(text)) != Some(SCHEMA) {
        return Unreadable, l;
      }
      var state := new GovernanceState();
      var readable := state.ReadFrom(sha, text);
      if !readable {
        return Unreadable, l;
      }
      var refused := state.Execute(sha, c);
      if refused.Some? {
        return RefusedFor(refused.value), l;
      }
      var replacement;
      replacement, l := state.WriteTo(sha);
      if replacement.None? {
        return NotSerializable, l;
      }
      PrintThenParse(sha, l, state.Value());
      text := replacement.value;
      report := Done;
    }

    /** `issue_developer_token_from_env`: the first candidate digest that is not in use
        is issued; the candidates stand for the random generator's attempts. Every other
        outcome is reported for exactly its reason. */
    method IssueFresh(sha: Digest, developer: string, candidates: seq<Hash>)
      returns (report: Report, chosen: Option<Hash>, ghost l: Listing)
      modifies this
      ensures report == BadName <==> !ValidName(developer)
      ensures report == Unreadable <==> ValidName(developer) && Parse(sha, old(text)).None?
      ensures report != Done ==> text == old(text) && chosen.None?
      ensures ValidName(developer) && Parse(sha, old(text)).Some? ==>
                IssueOutcome(sha, Parse(sha, old(text)).value, Parse(sha, text), developer, candidates, report, chosen, l)
    {
      hide Parse, IssueOutcome, ListingOf, Serialize, Run, Commit, WellFormed, ValidName, FirstFresh, InUse, Valid;
      l := Listing([], [], [], [], []);
      if !ValidName(developer) {
        return BadName, None, l;
      }
      var state := new GovernanceState();
      var readable := state.ReadFrom(sha, text);
      if !readable {
        return Unreadable, None, l;
      }
      ghost var st := state.Value();
      if developer !in state.developers {
        UnknownDeveloper(sha, st, developer, candidates, l);
        return RefusedFor(DeveloperNotFound), None, l;
      }
      var k := Draw(state.Held(), candidates);
      if k == |candidates| {
        AllInUse(sha, st, developer, candidates, l);
        return NoFreshToken, None, l;
      }
      FreshRuns(st.data, developer, candidates[k]);
      report, l := RunCommand(sha, IssueToken(developer, candidates[k]));
      chosen := if report == Done then Some(candidates[k]) else None;
      IssuedFirst(sha, st, Parse(sha, text), developer, candidates, report, chosen, l);
    }
  }

  /** What issuing a token to a developer of a readable file comes to. */
  ghost predicate IssueOutcome(sha: Digest, st: State, after: Option<State>, developer: string, candidates: seq<Hash>,
                               report: Report, chosen: Option<Hash>, l: Listing)
  {
    var k := FirstFresh(st.data, candidates);
    && (report == RefusedFor(DeveloperNotFound) <==> developer !in st.data.developers)
    && (report == NoFreshToken <==> developer in st.data.developers && k == |candidates|)
    && (chosen.Some? <==> report == Done)
    && (developer in st.data.developers && k < |candidates| ==>
          IssuesAt(sha, st, after, IssueToken(developer, candidates[k]), report, l)
          && (report == Done ==> chosen == Some(candidates[k])))
  }

  /** The command goes through, or its state cannot be written. */
  ghost predicate IssuesAt(sha: Digest, st: State, after: Option<State>, c: Command, report: Report, l: Listing)
  {
    && Run(st.data, c).Changed? && (report == Done || report == NotSerializable)
    && (report == Done ==> after == Some(Commit(sha, st, c)))
    && (report == NotSerializable ==>
          ListingOf(l, Commit(sha, st, c).data) && Serialize(sha, l, Commit(sha, st, c)).None?)
  }

  lemma UnknownDeveloper(sha: Digest, st: State, developer: string, candidates: seq<Hash>, l: Listing)
    requires developer !in st.data.developers
    ensures forall after ::
              IssueOutcome(sha, st, after, developer, candidates, RefusedFor(DeveloperNotFound), None, l)
  {
    hide IssuesAt, FirstFresh;
  }

  lemma AllInUse(sha: Digest, st: State, developer: string, candidates: seq<Hash>, l: Listing)
    requires developer in st.data.developers && FirstFresh(st.data, candidates) == |candidates|
    ensures forall after :: IssueOutcome(sha, st, after, developer, candidates, NoFreshToken, None, l)
  {
    hide IssuesAt, FirstFresh;
  }

  lemma IssuedFirst(sha: Digest, st: State, after: Option<State>, developer: string, candidates: seq<Hash>,
                    report: Report, chosen: Option<Hash>, l: Listing)
    requires developer in st.data.developers && FirstFresh(st.data, candidates) < |candidates|
    requires IssuesAt(sha, st, after, IssueToken(developer, candidates[FirstFresh(st.data, candidates)]), report, l)
    requires chosen == if report == Done then Some(candidates[FirstFresh(st.data, candidates)]) else None
    ensures IssueOutcome(sha, st, after, developer, candidates, report, chosen, l)
  {
    hide FirstFresh, Run, Commit, Serialize, ListingOf;
  }

  /** The drawing loop. */
  method Draw(d: Data, candidates: seq<Hash>) returns (k: nat)
    ensures k == FirstFresh(d, candidates)
    ensures k < |candidates| ==> !InUse(d, candidates[k])
  {
    hide InUse, FirstFresh;
    k := 0;
    while k < |candidates| && InUse(d, candidates[k])
      invariant k <= |candidates| && forall i :: 0 <= i < k ==> InUse(d, candidates[i])
    {
      k := k + 1;
    }
    FirstFreshIs(d, candidates, k);
  }

  predicate InUse(d: Data, h: Hash)
  {
    exists t :: t in d.tokens && t.hash == h
  }

  lemma FreshRuns(d: Data, developer: string, h: Hash)
    requires ValidName(developer) && developer in d.developers && !InUse(d, h)
    ensures WellFormed(IssueToken(developer, h)) && Run(d, IssueToken(developer, h)).Changed?
  {
  }

  /** The first candidate that no token uses, or the number of candidates. */
  function FirstFresh(d: Data, candidates: seq<Hash>): (k: nat)
    ensures k <= |candidates|
  {
    if candidates == [] || !InUse(d, candidates[0]) then 0 else 1 + FirstFresh(d, candidates[1..])
  }

  lemma {:induction false} FirstFreshIs(d: Data, candidates: seq<Hash>, k: nat)
    requires k <= |candidates| && forall i :: 0 <= i < k ==> InUse(d, candidates[i])
    requires k < |candidates| ==> !InUse(d, candidates[k])
    ensures FirstFresh(d, candidates) == k
  {
    hide InUse;
    if k > 0 {
      FirstFreshIs(d, candidates[1..], k - 1);
    }
  }

  /** The bootstrap state is always small enough to be written. */
  lemma BootstrapFits(sha: Digest, developer: string, l: Listing)
    requires ValidName(developer) && ListingOf(l, Bootstrap(sha, developer).data)
    ensures Serialize(sha, l, Bootstrap(sha, developer)).Some? <==>
            NextTransition(sha, [], ActionText(Init(developer)), developer) != RootTransition(sha)
  {
    hide Valid, ListingOf, Printed, ByteLength, NextTransition, NextAudit;
    var st := Bootstrap(sha, developer);
    BootstrapValid(sha, developer);
    if Valid(sha, st) {
      PrintedSize(sha, l, st);
      PrintedAscii(sha, l, st);
    }
  }

  lemma ValidMoves(sha: Digest, st: State)
    requires Valid(sha, st)
    ensures Moves(st.audits)
  {
    hide Moves, Chained, Replay, RecordsFit, AllAuthorized, ReferencesResolve, DigestsCoherent, ScopesOwned;
  }

  lemma MigrationOutcome(sha: Digest, text: string, developer: string, l: Listing)
    requires ParseLegacy(text).Some? && ParseLegacy(text).value != [] && ValidName(developer)
    requires ListingOf(l, Migrate(sha, ParseLegacy(text).value, developer).data)
    ensures var legacy := ParseLegacy(text).value;
            var st := Migrate(sha, legacy, developer);
            && GovernanceReplay.Acl(st.data) == Granted(legacy)
            && (Serialize(sha, l, st).Some? ==> Parse(sha, Serialize(sha, l, st).value) == Some(st))
            && (Moves(st.audits) <==> Serialize(sha, l, st).Some?)
  {
    hide Parse, Valid, ListingOf, Printed, ByteLength, ParseLegacy, Migrate, GovernanceReplay.Acl, Granted, Moves, ValidName;
    var legacy := ParseLegacy(text).value;
    var st := Migrate(sha, legacy, developer);
    ParsedLegacy(text);
    MigrationIsExact(sha, legacy, developer);
    if Moves(st.audits) {
      LegacyFileMigrates(sha, text, developer, l);
    }
    if Serialize(sha, l, st).Some? {
      ValidMoves(sha, st);
      PrintThenParse(sha, l, st);
    }
  }
}
