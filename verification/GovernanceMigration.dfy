/** Migration of a flat (digest, package) access list into governed state. */
module GovernanceMigration {
  import opened Text
  import opened Hex
  import opened Names
  import opened Governance
  import opened GovernanceReplay
  import opened GovernanceChain
  import opened GovernanceCommands

  /** One authorization of the flat file: this digest may publish this package. */
  type Credential = (Hash, string)

  function ImportedToken(r: Credential, developer: string): Token
  {
    Token(r.0, developer, Package(r.1))
  }

  function Start(sha: Digest, developer: string): State
  {
    State(NO_DATA.(developers := {developer}), Append(sha, [], MigrationInit(developer)))
  }

  function ImportToken(sha: Digest, st: State, r: Credential, developer: string): State
  {
    var token := ImportedToken(r, developer);
    if token in st.data.tokens then st
    else State(AddToken(st.data, token), Append(sha, st.audits, TokenImport(token)))
  }

  function ClaimOnce(sha: Digest, st: State, r: Credential, developer: string): State
  {
    if r.1 in st.data.owners then st
    else State(st.data.(owners := st.data.owners[r.1 := Developer(developer)]),
               Append(sha, st.audits, Claim(r.1, Developer(developer))))
  }

  function ImportRecord(sha: Digest, st: State, r: Credential, developer: string): State
  {
    ClaimOnce(sha, ImportToken(sha, st, r, developer), r, developer)
  }

  function ImportAll(sha: Digest, legacy: seq<Credential>, developer: string): State
  {
    if |legacy| == 0 then Start(sha, developer)
    else ImportRecord(sha, ImportAll(sha, legacy[..|legacy| - 1], developer), legacy[|legacy| - 1], developer)
  }

  /** `migrate_legacy_credentials`. */
  function Migrate(sha: Digest, legacy: seq<Credential>, developer: string): State
  {
    var st := ImportAll(sha, legacy, developer);
    State(st.data, Append(sha, st.audits, MigrationComplete(developer)))
  }

  function Granted(legacy: seq<Credential>): set<Credential>
  {
    set k | 0 <= k < |legacy| :: legacy[k]
  }

  function Packages(granted: set<Credential>): set<string>
  {
    set r | r in granted :: r.1
  }

  /** What the imported data must be, said without the import loop. */
  function Expected(legacy: seq<Credential>, developer: string): Data
  {
    Data({developer}, {}, {},
         map p | p in Packages(Granted(legacy)) :: Developer(developer),
         set r | r in Granted(legacy) :: ImportedToken(r, developer))
  }

  lemma GrantedSnoc(legacy: seq<Credential>)
    requires |legacy| > 0
    ensures Granted(legacy) == Granted(legacy[..|legacy| - 1]) + {legacy[|legacy| - 1]}
  {
    var init := legacy[..|legacy| - 1];
    forall r | r in Granted(legacy)
      ensures r in Granted(init) + {legacy[|legacy| - 1]}
    {
      var k :| 0 <= k < |legacy| && legacy[k] == r;
      if k < |init| {
        assert init[k] == r;
      }
    }
    forall r | r in Granted(init)
      ensures r in Granted(legacy)
    {
      var k :| 0 <= k < |init| && init[k] == r;
      assert legacy[k] == r;
    }
  }

  predicate Importing(sha: Digest, st: State, d: Data)
  {
    && st.data == d
    && Replay(st.audits) == Some((d, Migrating))
    && Chained(sha, st.audits)
    && |st.audits| == 1 + |d.tokens| + |d.owners|
  }

  /** One accepted migration event extends a faithful import. */
  lemma Extend(sha: Digest, st: State, e: Event, d: Data, next: Data)
    requires Importing(sha, st, d) && ValidEvent(e) && Step(d, Migrating, e) == Some((next, Migrating))
    requires |next.tokens| + |next.owners| == |d.tokens| + |d.owners| + 1
    ensures Importing(sha, State(next, Append(sha, st.audits, e)), next)
  {
    hide Append, Chained, Replay, ValidEvent, Step;
    AppendReplay(sha, st.audits, e);
    AppendChained(sha, st.audits, e);
    AppendLength(sha, st.audits, e);
  }

  lemma AppendLength(sha: Digest, log: seq<Audit>, e: Event)
    ensures |Append(sha, log, e)| == |log| + 1
  {
  }

  lemma TokenImported(sha: Digest, st: State, r: Credential, developer: string, d: Data)
    requires ValidName(developer) && ValidName(r.1) && Importing(sha, st, d)
    requires d.developers == {developer}
    requires forall t :: t in d.tokens ==> t.developer == developer && t.scope.Package?
    ensures Importing(sha, ImportToken(sha, st, r, developer), AddToken(d, ImportedToken(r, developer)))
  {
    hide Append, Chained, Replay, ValidName;
    var token := ImportedToken(r, developer);
    if token in d.tokens {
      assert d.tokens + {token} == d.tokens;
    } else {
      assert Insertable(d, token);
      assert |d.tokens + {token}| == |d.tokens| + 1;
      Extend(sha, st, TokenImport(token), d, AddToken(d, token));
    }
  }

  lemma PackageClaimed(sha: Digest, st: State, r: Credential, developer: string, d: Data)
    requires ValidName(developer) && ValidName(r.1) && Importing(sha, st, d)
    requires d.developers == {developer} && ImportedToken(r, developer) in d.tokens
    requires r.1 in d.owners ==> d.owners[r.1] == Developer(developer)
    ensures Importing(sha, ClaimOnce(sha, st, r, developer), d.(owners := d.owners[r.1 := Developer(developer)]))
  {
    hide Append, Chained, Replay, ValidName;
    var o := Developer(developer);
    if r.1 in d.owners {
      assert d.owners[r.1 := o] == d.owners;
    } else {
      assert HasActiveToken(d, r.1, o) by {
        var t := ImportedToken(r, developer);
        assert t in d.tokens && ScopeMatches(t.scope, r.1) && Covers(d, o, t.developer);
      }
      hide HasActiveToken;
      var next := d.(owners := d.owners[r.1 := o]);
      assert next.owners.Keys == d.owners.Keys + {r.1};
      Extend(sha, st, Claim(r.1, o), d, next);
    }
  }

  lemma ExpectedSnoc(legacy: seq<Credential>, developer: string)
    requires |legacy| > 0
    ensures var before := Expected(legacy[..|legacy| - 1], developer);
            var r := legacy[|legacy| - 1];
            var imported := AddToken(before, ImportedToken(r, developer));
            Expected(legacy, developer) == imported.(owners := imported.owners[r.1 := Developer(developer)])
  {
    GrantedSnoc(legacy);
    hide Granted;
    var init, r := legacy[..|legacy| - 1], legacy[|legacy| - 1];
    var before := Expected(init, developer);
    var after := Expected(legacy, developer);
    assert after.tokens == before.tokens + {ImportedToken(r, developer)};
    assert after.owners == before.owners[r.1 := Developer(developer)];
  }

  lemma StartImporting(sha: Digest, developer: string)
    requires ValidName(developer)
    ensures Importing(sha, Start(sha, developer), Expected([], developer))
  {
    AppendReplay(sha, [], MigrationInit(developer));
    AppendChained(sha, [], MigrationInit(developer));
    assert {} + {developer} == {developer};
    assert Granted([]) == {};
    hide NextAudit, Chained, Replay;
    var d := Expected([], developer);
    assert d.tokens == {} && d.owners == map[];
  }

  /** The import loop builds exactly the expected data and a log that replays to it. */
  lemma {:induction false} ImportAllCorrect(sha: Digest, legacy: seq<Credential>, developer: string)
    requires ValidName(developer)
    requires forall k :: 0 <= k < |legacy| ==> ValidName(legacy[k].1)
    ensures Importing(sha, ImportAll(sha, legacy, developer), Expected(legacy, developer))
  {
    if |legacy| == 0 {
      StartImporting(sha, developer);
      assert legacy == [];
    } else {
      hide ValidName, Importing, ImportToken, ClaimOnce, Granted;
      var init, r := legacy[..|legacy| - 1], legacy[|legacy| - 1];
      ImportAllCorrect(sha, init, developer);
      ExpectedSnoc(legacy, developer);
      var st := ImportAll(sha, init, developer);
      var d := Expected(init, developer);
      var imported := AddToken(d, ImportedToken(r, developer));
      TokenImported(sha, st, r, developer, d);
      PackageClaimed(sha, ImportToken(sha, st, r, developer), r, developer, imported);
    }
  }

  // ---------- the effective access list is the legacy list ----------

  /** No cross product: the migrated tokens authorize exactly the legacy pairs. */
  lemma ExpectedAcl(legacy: seq<Credential>, developer: string)
    ensures Acl(Expected(legacy, developer)) == Granted(legacy)
  {
    hide Granted, Acl;
    var d := Expected(legacy, developer);
    forall r: Credential
      ensures r in Acl(d) <==> r in Granted(legacy)
    {
      AclMember(d, r.0, r.1);
      if r in Granted(legacy) {
        var t := ImportedToken(r, developer);
        assert t in d.tokens && t.hash == r.0 && Grants(d, t, r.1);
      }
    }
  }

  lemma {:induction false} ImageSize(s: set<Credential>, developer: string)
    ensures |set r | r in s :: ImportedToken(r, developer)| == |s|
    decreases s
  {
    var image := set r | r in s :: ImportedToken(r, developer);
    if s == {} {
      assert image == {};
    } else {
      var x :| x in s;
      var rest := s - {x};
      ImageSize(rest, developer);
      var smaller := set r | r in rest :: ImportedToken(r, developer);
      assert image == smaller + {ImportedToken(x, developer)};
    }
  }

  lemma {:induction false} PackagesAtMost(s: set<Credential>)
    ensures |Packages(s)| <= |s|
    decreases s
  {
    if s == {} {
      assert Packages(s) == {};
    } else {
      var x :| x in s;
      var rest := s - {x};
      PackagesAtMost(rest);
      assert Packages(s) == Packages(rest) + {x.1};
    }
  }

  lemma ExpectedSizes(legacy: seq<Credential>, developer: string)
    ensures var d := Expected(legacy, developer);
            && |d.tokens| == |Granted(legacy)| && |d.owners| <= |Granted(legacy)|
            && |d.developers| == 1 && |d.teams| == 0 && |d.members| == 0
  {
    ImageSize(Granted(legacy), developer);
    PackagesAtMost(Granted(legacy));
    var d := Expected(legacy, developer);
    assert d.owners.Keys == Packages(Granted(legacy));
  }

  lemma ExpectedConsistent(legacy: seq<Credential>, developer: string)
    requires forall k :: 0 <= k < |legacy| ==> ValidName(legacy[k].1)
    ensures var d := Expected(legacy, developer);
            ReferencesResolve(d) && DigestsCoherent(d) && ScopesOwned(d) && NoOrphans(d)
  {
    hide ValidName;
    var d := Expected(legacy, developer);
    assert forall r :: r in Granted(legacy) ==> r.1 in Packages(Granted(legacy));
    forall p | p in d.owners
      ensures PackageAuthorized(d, p)
    {
      var r :| r in Granted(legacy) && r.1 == p;
      var t := ImportedToken(r, developer);
      assert t in d.tokens && ScopeMatches(t.scope, p) && Covers(d, d.owners[p], t.developer);
    }
  }

  lemma ClosableIff(legacy: seq<Credential>, developer: string)
    requires |legacy| > 0 && forall k :: 0 <= k < |legacy| ==> ValidName(legacy[k].1)
    ensures MigrationClosable(Expected(legacy, developer), developer) <==> |Granted(legacy)| <= MAX_ACL
  {
    hide ValidName, Acl, NoOrphans;
    var d := Expected(legacy, developer);
    ExpectedAcl(legacy, developer);
    ExpectedConsistent(legacy, developer);
    assert legacy[0] in Granted(legacy);
    assert ImportedToken(legacy[0], developer) in d.tokens && legacy[0].1 in d.owners;
  }

  /** Migration is exact. For every non-empty legacy list (repeated lines
      included) the migrated state validates exactly when the distinct
      authorizations fit the access-list limit and the digest never maps a
      transition to itself; its effective access list is the legacy list. */
  lemma MigrationIsExact(sha: Digest, legacy: seq<Credential>, developer: string)
    requires |legacy| > 0 && ValidName(developer)
    requires forall k :: 0 <= k < |legacy| ==> ValidName(legacy[k].1)
    ensures var st := Migrate(sha, legacy, developer);
            && Acl(st.data) == Granted(legacy)
            && (Valid(sha, st) <==> |Granted(legacy)| <= MAX_ACL && Moves(st.audits))
            && |st.audits| <= 2 + 2 * |Granted(legacy)|
  {
    hide ValidName, Granted, Acl, ImportAll, Expected, NoOrphans, Moves;
    MigrationReplays(sha, legacy, developer);
    ExpectedAcl(legacy, developer);
    ExpectedSizes(legacy, developer);
    ExpectedConsistent(legacy, developer);
    hide Append, Chained, ReferencesResolve, DigestsCoherent, ScopesOwned, Replay;
  }

  lemma MigrationReplays(sha: Digest, legacy: seq<Credential>, developer: string)
    requires |legacy| > 0 && ValidName(developer)
    requires forall k :: 0 <= k < |legacy| ==> ValidName(legacy[k].1)
    ensures var st, d := Migrate(sha, legacy, developer), Expected(legacy, developer);
            && st.data == d && Chained(sha, st.audits) && |st.audits| == 2 + |d.tokens| + |d.owners|
            && Replay(st.audits) == if |Granted(legacy)| <= MAX_ACL then Some((d, Normal)) else None
  {
    hide ValidName, Granted, ImportAll, Append, Chained, MigrationClosable, Expected, Replay;
    var st := ImportAll(sha, legacy, developer);
    var done := MigrationComplete(developer);
    ImportAllCorrect(sha, legacy, developer);
    ClosableIff(legacy, developer);
    AppendReplay(sha, st.audits, done);
    AppendChained(sha, st.audits, done);
    AppendLength(sha, st.audits, done);
  }
}
