/** The indexed expansion of governed ownership into (digest, package) records. */
module GovernanceAcl {
  import opened Sets
  import opened Text
  import opened Hex
  import opened Governance
  import opened GovernanceReplay
  import opened GovernanceMigration

  datatype Indexes = Indexes(
    allHashes: map<string, seq<Hash>>,
    packageTokens: seq<Token>,
    members: map<string, set<string>>,
    tokenMembers: map<string, seq<string>>)

  predicate HashesIndexed(allHashes: map<string, seq<Hash>>, tokens: set<Token>)
  {
    && (forall dev :: dev in allHashes ==> forall h :: h in allHashes[dev] ==> Token(h, dev, All) in tokens)
    && (forall t :: t in tokens && t.scope.All? ==> t.developer in allHashes && t.hash in allHashes[t.developer])
  }

  predicate PackagesIndexed(packageTokens: seq<Token>, tokens: set<Token>)
  {
    && (forall t :: t in packageTokens ==> t in tokens && t.scope.Package?)
    && (forall t :: t in tokens && t.scope.Package? ==> t in packageTokens)
  }

  predicate MembersIndexed(index: map<string, set<string>>, members: set<(string, string)>)
  {
    && (forall team :: team in index ==> forall dev :: dev in index[team] ==> (team, dev) in members)
    && (forall m :: m in members ==> m.0 in index && m.1 in index[m.0])
  }

  predicate TokenMembersIndexed(index: map<string, seq<string>>, members: set<(string, string)>,
                                allHashes: map<string, seq<Hash>>)
  {
    && (forall team :: team in index ==> forall dev :: dev in index[team] ==> (team, dev) in members)
    && (forall m :: m in members && m.1 in allHashes ==> m.0 in index && m.1 in index[m.0])
  }

  predicate Indexed(ix: Indexes, d: Data)
  {
    && HashesIndexed(ix.allHashes, d.tokens) && PackagesIndexed(ix.packageTokens, d.tokens)
    && MembersIndexed(ix.members, d.members) && TokenMembersIndexed(ix.tokenMembers, d.members, ix.allHashes)
  }

  /** `entry(key).or_default().push(value)`. */
  function PushAt<K, V>(index: map<K, seq<V>>, key: K, value: V): map<K, seq<V>>
  {
    index[key := (if key in index then index[key] else []) + [value]]
  }

  method IndexTokens(tokens: set<Token>) returns (allHashes: map<string, seq<Hash>>, packageTokens: seq<Token>)
    ensures HashesIndexed(allHashes, tokens) && PackagesIndexed(packageTokens, tokens)
  {
    allHashes, packageTokens := map[], [];
    var todo := tokens;
    while todo != {}
      invariant todo <= tokens
      invariant HashesIndexed(allHashes, tokens - todo) && PackagesIndexed(packageTokens, tokens - todo)
      decreases todo
    {
      var t :| t in todo;
      todo := todo - {t};
      match t.scope {
        case All => allHashes := PushAt(allHashes, t.developer, t.hash);
          assert t == Token(t.hash, t.developer, All);
        case Package(_) => packageTokens := packageTokens + [t];
      }
    }
    assert tokens - todo == tokens;
  }

  method IndexMembers(members: set<(string, string)>, allHashes: map<string, seq<Hash>>)
    returns (index: map<string, set<string>>, tokenMembers: map<string, seq<string>>)
    ensures MembersIndexed(index, members) && TokenMembersIndexed(tokenMembers, members, allHashes)
  {
    index, tokenMembers := map[], map[];
    var todo := members;
    while todo != {}
      invariant todo <= members
      invariant MembersIndexed(index, members - todo) && TokenMembersIndexed(tokenMembers, members - todo, allHashes)
      decreases todo
    {
      var m :| m in todo;
      todo := todo - {m};
      index := index[m.0 := (if m.0 in index then index[m.0] else {}) + {m.1}];
      if m.1 in allHashes {
        tokenMembers := PushAt(tokenMembers, m.0, m.1);
      }
    }
    assert members - todo == members;
  }

  /** `governance_credential_indexes`. */
  method BuildIndexes(d: Data) returns (ix: Indexes)
    ensures Indexed(ix, d)
  {
    var allHashes, packageTokens := IndexTokens(d.tokens);
    var members, tokenMembers := IndexMembers(d.members, allHashes);
    ix := Indexes(allHashes, packageTokens, members, tokenMembers);
  }

  // ---------- bounded, duplicate-free records ----------

  /** `records` lists exactly `seen`, once each, within the limit. */
  ghost predicate Exact(records: seq<Credential>, seen: set<Credential>)
  {
    && (forall c :: c in records <==> c in seen)
    && (forall i, j :: 0 <= i < j < |records| ==> records[i] != records[j])
    && |records| == |seen| <= MAX_ACL
  }

  /** `push_governance_record`. */
  method Push(records: seq<Credential>, seen: set<Credential>, c: Credential)
    returns (ok: bool, records': seq<Credential>, seen': set<Credential>)
    requires Exact(records, seen)
    ensures ok <==> |seen + {c}| <= MAX_ACL
    ensures ok ==> seen' == seen + {c} && Exact(records', seen')
  {
    ok, records', seen' := true, records, seen;
    if c in seen {
      assert seen + {c} == seen;
      return;
    }
    seen' := seen + {c};
    if |records| >= MAX_ACL {
      return false, records, seen';
    }
    records' := records + [c];
  }

  function Pairs(hashes: seq<Hash>, package: string): set<Credential>
  {
    set h | h in hashes :: (h, package)
  }

  method PushHashes(records: seq<Credential>, seen: set<Credential>, hashes: seq<Hash>, package: string)
    returns (ok: bool, records': seq<Credential>, seen': set<Credential>)
    requires Exact(records, seen)
    ensures ok <==> |seen + Pairs(hashes, package)| <= MAX_ACL
    ensures ok ==> seen' == seen + Pairs(hashes, package) && Exact(records', seen')
  {
    ok, records', seen' := true, records, seen;
    for k := 0 to |hashes|
      invariant Exact(records', seen') && seen' == seen + Pairs(hashes[..k], package) && ok
    {
      PairsStep(hashes, k, package);
      ghost var before := seen';
      ok, records', seen' := Push(records', seen', (hashes[k], package));
      if !ok {
        SubsetSize(before + {(hashes[k], package)}, seen + Pairs(hashes, package));
        return;
      }
    }
    assert hashes[..|hashes|] == hashes;
  }

  lemma PairsStep(hashes: seq<Hash>, k: nat, package: string)
    requires k < |hashes|
    ensures Pairs(hashes[..k + 1], package) == Pairs(hashes[..k], package) + {(hashes[k], package)}
    ensures Pairs(hashes[..k + 1], package) <= Pairs(hashes, package)
  {
    assert hashes[..k + 1] == hashes[..k] + [hashes[k]];
  }

  /** What all-scoped tokens authorize on one package. */
  function AllScoped(d: Data, p: string): set<Credential>
    requires p in d.owners
  {
    set t | t in d.tokens && t.scope.All? && Covers(d, d.owners[p], t.developer) :: (t.hash, p)
  }

  /** What they authorize on the packages in `ps`. */
  function AllScopedOn(d: Data, ps: set<string>): set<Credential>
    requires ps <= d.owners.Keys
  {
    set t, p | t in d.tokens && t.scope.All? && p in ps && Covers(d, d.owners[p], t.developer) :: (t.hash, p)
  }

  lemma AllScopedStep(d: Data, ps: set<string>, p: string)
    requires ps <= d.owners.Keys && p in d.owners
    ensures AllScopedOn(d, ps + {p}) == AllScopedOn(d, ps) + AllScoped(d, p)
  {
    hide Covers;
  }

  lemma AllScopedInAcl(d: Data, ps: set<string>)
    requires ps <= d.owners.Keys
    ensures AllScopedOn(d, ps) <= Acl(d)
  {
    hide Acl, Covers;
    forall c | c in AllScopedOn(d, ps) ensures c in Acl(d) {
      var t, p :| t in d.tokens && t.scope.All? && p in ps && Covers(d, d.owners[p], t.developer) && c == (t.hash, p);
      AclMember(d, t.hash, p);
      assert Grants(d, t, p);
    }
  }

  function MemberPairs(ix: Indexes, developers: seq<string>, package: string): set<Credential>
  {
    set dev, h | dev in developers && dev in ix.allHashes && h in ix.allHashes[dev] :: (h, package)
  }

  lemma OwnerDeveloperPairs(ix: Indexes, d: Data, p: string)
    requires Indexed(ix, d) && p in d.owners && d.owners[p].Developer?
    ensures var dev := d.owners[p].name;
            AllScoped(d, p) == if dev in ix.allHashes then Pairs(ix.allHashes[dev], p) else {}
  {
    var dev := d.owners[p].name;
    forall t | t in d.tokens && t.scope.All? && t.developer == dev
      ensures dev in ix.allHashes && t.hash in ix.allHashes[dev]
    {
    }
    if dev in ix.allHashes {
      forall h | h in ix.allHashes[dev] ensures (h, p) in AllScoped(d, p) {
        assert Token(h, dev, All) in d.tokens;
      }
    }
  }

  lemma OwnerTeamPairs(ix: Indexes, d: Data, p: string)
    requires Indexed(ix, d) && p in d.owners && d.owners[p].Team?
    ensures var team := d.owners[p].name;
            AllScoped(d, p) == if team in ix.tokenMembers then MemberPairs(ix, ix.tokenMembers[team], p) else {}
  {
    var team := d.owners[p].name;
    forall t | t in d.tokens && t.scope.All? && (team, t.developer) in d.members
      ensures team in ix.tokenMembers && t.developer in ix.tokenMembers[team]
      ensures t.developer in ix.allHashes && t.hash in ix.allHashes[t.developer]
    {
    }
    if team in ix.tokenMembers {
      forall dev, h | dev in ix.tokenMembers[team] && dev in ix.allHashes && h in ix.allHashes[dev]
        ensures (h, p) in AllScoped(d, p)
      {
        assert Token(h, dev, All) in d.tokens;
      }
    }
  }

  lemma MemberPairsStep(ix: Indexes, developers: seq<string>, k: nat, package: string)
    requires k < |developers|
    ensures MemberPairs(ix, developers[..k + 1], package) ==
            MemberPairs(ix, developers[..k], package) +
            if developers[k] in ix.allHashes then Pairs(ix.allHashes[developers[k]], package) else {}
    ensures MemberPairs(ix, developers[..k + 1], package) <= MemberPairs(ix, developers, package)
  {
    assert developers[..k + 1] == developers[..k] + [developers[k]];
  }

  method PushMembers(ix: Indexes, records: seq<Credential>, seen: set<Credential>, developers: seq<string>, package: string)
    returns (ok: bool, records': seq<Credential>, seen': set<Credential>)
    requires Exact(records, seen)
    ensures ok <==> |seen + MemberPairs(ix, developers, package)| <= MAX_ACL
    ensures ok ==> seen' == seen + MemberPairs(ix, developers, package) && Exact(records', seen')
  {
    hide Exact, Pairs, MemberPairs;
    ok, records', seen' := true, records, seen;
    NoMemberPairs(ix, developers, package);
    ExactFits(records, seen);
    for k := 0 to |developers|
      invariant Exact(records', seen') && seen' == seen + MemberPairs(ix, developers[..k], package) && ok && |seen'| <= MAX_ACL
    {
      MemberPairsStep(ix, developers, k, package);
      if developers[k] in ix.allHashes {
        ghost var more := seen' + Pairs(ix.allHashes[developers[k]], package);
        assert more == seen + MemberPairs(ix, developers[..k + 1], package);
        ok, records', seen' := PushHashes(records', seen', ix.allHashes[developers[k]], package);
        if !ok {
          SubsetSize(more, seen + MemberPairs(ix, developers, package));
          return;
        }
      } else {
        assert seen' == seen + MemberPairs(ix, developers[..k + 1], package);
      }
    }
    assert developers[..|developers|] == developers;
  }

  lemma NoMemberPairs(ix: Indexes, developers: seq<string>, package: string)
    ensures MemberPairs(ix, developers[..0], package) == {}
  {
  }

  lemma ExactFits(records: seq<Credential>, seen: set<Credential>)
    requires Exact(records, seen)
    ensures |seen| <= MAX_ACL
  {
  }

  /** One owned package: its owner's all-scoped tokens. */
  method PushOwned(ix: Indexes, d: Data, records: seq<Credential>, seen: set<Credential>, p: string)
    returns (ok: bool, records': seq<Credential>, seen': set<Credential>)
    requires Indexed(ix, d) && p in d.owners && Exact(records, seen)
    ensures ok <==> |seen + AllScoped(d, p)| <= MAX_ACL
    ensures ok ==> seen' == seen + AllScoped(d, p) && Exact(records', seen')
  {
    hide Exact, AllScoped, Pairs, MemberPairs, Indexed;
    ok, records', seen' := true, records, seen;
    ExactFits(records, seen);
    match d.owners[p] {
      case Developer(dev) =>
        OwnerDeveloperPairs(ix, d, p);
        if dev in ix.allHashes {
          ok, records', seen' := PushHashes(records, seen, ix.allHashes[dev], p);
        } else {
          assert seen + AllScoped(d, p) == seen;
        }
      case Team(team) =>
        OwnerTeamPairs(ix, d, p);
        if team in ix.tokenMembers {
          ok, records', seen' := PushMembers(ix, records, seen, ix.tokenMembers[team], p);
        } else {
          assert seen + AllScoped(d, p) == seen;
        }
    }
  }

  function PackageScoped(d: Data, tokens: seq<Token>): set<Credential>
  {
    set t | t in tokens && t.scope.Package? && Grants(d, t, t.scope.package) :: (t.hash, t.scope.package)
  }

  lemma AclParts(ix: Indexes, d: Data)
    requires Indexed(ix, d)
    ensures Acl(d) == AllScopedOn(d, d.owners.Keys) + PackageScoped(d, ix.packageTokens)
  {
    hide Acl, Covers;
    AllScopedInAcl(d, d.owners.Keys);
    forall c: Credential ensures c in Acl(d) <==> c in AllScopedOn(d, d.owners.Keys) + PackageScoped(d, ix.packageTokens) {
      AclMember(d, c.0, c.1);
      if t :| t in d.tokens && t.hash == c.0 && Grants(d, t, c.1) {
        assert c == (t.hash, c.1);
        if t.scope.Package? {
          assert t in ix.packageTokens && t.scope.package == c.1;
        }
      }
    }
  }

  lemma PackageScopedStep(d: Data, tokens: seq<Token>, k: nat)
    requires k < |tokens| && tokens[k].scope.Package?
    ensures PackageScoped(d, tokens[..k + 1]) ==
            PackageScoped(d, tokens[..k]) +
            if Grants(d, tokens[k], tokens[k].scope.package) then {(tokens[k].hash, tokens[k].scope.package)} else {}
    ensures PackageScoped(d, tokens[..k + 1]) <= PackageScoped(d, tokens)
  {
    hide Grants;
    assert tokens[..k + 1] == tokens[..k] + [tokens[k]];
  }

  /** The first loop: owners, in any order. */
  method ExpandOwners(ix: Indexes, d: Data) returns (ok: bool, records: seq<Credential>, seen: set<Credential>)
    requires Indexed(ix, d)
    ensures ok <==> |AllScopedOn(d, d.owners.Keys)| <= MAX_ACL
    ensures ok ==> seen == AllScopedOn(d, d.owners.Keys) && Exact(records, seen)
  {
    ok, records, seen := true, [], {};
    assert Exact(records, seen);
    assert AllScopedOn(d, {}) == {};
    hide Exact, AllScoped, Indexed, AllScopedOn;
    var todo := d.owners.Keys;
    ghost var done: set<string> := {};
    while todo != {}
      invariant ok && done <= d.owners.Keys && todo == d.owners.Keys - done
      invariant Exact(records, seen) && seen == AllScopedOn(d, done) && |seen| <= MAX_ACL
      decreases todo
    {
      var p :| p in todo;
      AllScopedStep(d, done, p);
      ok, records, seen := PushOwned(ix, d, records, seen, p);
      done, todo := done + {p}, todo - {p};
      if !ok {
        AllScopedSubset(d, done, d.owners.Keys);
        SubsetSize(AllScopedOn(d, done), AllScopedOn(d, d.owners.Keys));
        return;
      }
    }
    assert done == d.owners.Keys;
  }

  lemma AllScopedSubset(d: Data, ps: set<string>, qs: set<string>)
    requires ps <= qs <= d.owners.Keys
    ensures AllScopedOn(d, ps) <= AllScopedOn(d, qs)
  {
    hide Covers;
  }

  /** Whether the index-based check lets a package-scoped token publish its package. */
  predicate Allowed(ix: Indexes, d: Data, t: Token)
    requires t.scope.Package?
  {
    t.scope.package in d.owners &&
    match d.owners[t.scope.package]
    case Developer(dev) => dev == t.developer
    case Team(team) => team in ix.members && t.developer in ix.members[team]
  }

  lemma AllowedMeansGranted(ix: Indexes, d: Data, t: Token)
    requires Indexed(ix, d) && t.scope.Package?
    ensures Allowed(ix, d, t) <==> Grants(d, t, t.scope.package)
  {
  }

  lemma AllPackageTokens(ix: Indexes, d: Data)
    requires Indexed(ix, d)
    ensures forall k :: 0 <= k < |ix.packageTokens| ==> ix.packageTokens[k].scope.Package?
  {
    assert forall k :: 0 <= k < |ix.packageTokens| ==> ix.packageTokens[k] in ix.packageTokens;
  }

  /** What one more package-scoped token adds to the records. */
  lemma PackageUnionStep(ix: Indexes, d: Data, base: set<Credential>, k: nat)
    requires Indexed(ix, d) && k < |ix.packageTokens| && ix.packageTokens[k].scope.Package?
    ensures var t := ix.packageTokens[k];
            base + PackageScoped(d, ix.packageTokens[..k + 1]) ==
            base + PackageScoped(d, ix.packageTokens[..k]) + if Allowed(ix, d, t) then {(t.hash, t.scope.package)} else {}
    ensures |base + PackageScoped(d, ix.packageTokens[..k + 1])| <= |base + PackageScoped(d, ix.packageTokens)|
  {
    hide PackageScoped, Allowed, Grants, Indexed;
    PackageScopedStep(d, ix.packageTokens, k);
    AllowedMeansGranted(ix, d, ix.packageTokens[k]);
    SubsetSize(base + PackageScoped(d, ix.packageTokens[..k + 1]), base + PackageScoped(d, ix.packageTokens));
  }

  /** The second loop: package-scoped tokens. */
  method ExpandPackageTokens(ix: Indexes, d: Data, owned: seq<Credential>, ownedSeen: set<Credential>)
    returns (ok: bool, records: seq<Credential>, seen: set<Credential>)
    requires Indexed(ix, d) && Exact(owned, ownedSeen)
    ensures ok <==> |ownedSeen + PackageScoped(d, ix.packageTokens)| <= MAX_ACL
    ensures ok ==> seen == ownedSeen + PackageScoped(d, ix.packageTokens) && Exact(records, seen)
  {
    hide Exact, PackageScoped, Allowed, Grants, Indexed;
    ok, records, seen := true, owned, ownedSeen;
    PackageScopedNone(d);
    ExactFits(owned, ownedSeen);
    AllPackageTokens(ix, d);
    assert ix.packageTokens[..0] == [];
    for k := 0 to |ix.packageTokens|
      invariant Exact(records, seen) && seen == ownedSeen + PackageScoped(d, ix.packageTokens[..k]) && ok && |seen| <= MAX_ACL
    {
      PackageUnionStep(ix, d, ownedSeen, k);
      var token := ix.packageTokens[k];
      if Allowed(ix, d, token) {
        ok, records, seen := Push(records, seen, (token.hash, token.scope.package));
        if !ok {
          return;
        }
      }
    }
    assert ix.packageTokens[..|ix.packageTokens|] == ix.packageTokens;
  }

  /** `governance_credentials`. On success the records are exactly the authorized
      pairs, once each; it fails exactly when there are more of them than the limit. */
  method Credentials(d: Data) returns (r: Option<seq<Credential>>)
    ensures r.None? <==> |Acl(d)| > MAX_ACL
    ensures r.Some? ==> Exact(r.value, Acl(d))
  {
    var ix := BuildIndexes(d);
    AclParts(ix, d);
    hide Acl, Exact, AllScopedOn, PackageScoped, Indexed;
    var ok, records, seen := ExpandOwners(ix, d);
    if !ok {
      SubsetSize(AllScopedOn(d, d.owners.Keys), Acl(d));
      return None;
    }
    ok, records, seen := ExpandPackageTokens(ix, d, records, seen);
    r := if ok then Some(records) else None;
  }

  lemma PackageScopedNone(d: Data)
    ensures PackageScoped(d, []) == {}
  {
  }

  // ---------- authorization of every package ----------

  function Named(records: seq<Credential>): set<string>
  {
    set c | c in records :: c.1
  }

  /** A package appears in the access list exactly when its owner has an active token. */
  lemma AuthorizedIffListed(d: Data, p: string)
    requires p in d.owners
    ensures PackageAuthorized(d, p) <==> exists h :: (h, p) in Acl(d)
  {
    hide Acl;
    if PackageAuthorized(d, p) {
      var t :| t in d.tokens && ScopeMatches(t.scope, p) && Covers(d, d.owners[p], t.developer);
      assert Grants(d, t, p);
      AclMember(d, t.hash, p);
    } else {
      forall h | (h, p) in Acl(d) ensures false {
        AclMember(d, h, p);
      }
    }
  }

  lemma NamedIsOwned(d: Data, records: seq<Credential>)
    requires Exact(records, Acl(d))
    ensures Named(records) <= d.owners.Keys
    ensures Named(records) == d.owners.Keys <==> NoOrphans(d)
  {
    hide Acl, PackageAuthorized;
    forall p | p in Named(records) ensures p in d.owners {
      var c :| c in records && c.1 == p;
      AclMember(d, c.0, c.1);
    }
    forall p | p in d.owners ensures p in Named(records) <==> PackageAuthorized(d, p) {
      AuthorizedIffListed(d, p);
      if PackageAuthorized(d, p) {
        var h :| (h, p) in Acl(d);
        assert (h, p) in records;
      }
    }
  }

  lemma SameSize<T>(a: set<T>, b: set<T>)
    requires a <= b
    ensures |a| == |b| <==> a == b
  {
    assert b == a + (b - a);
  }

  /** `all_packages_remain_authorized` counts distinct package names; that equals
      fitting the limit and every owner holding an active token. */
  method AllPackagesRemainAuthorized(d: Data) returns (b: bool)
    ensures b <==> AllAuthorized(d)
  {
    hide Acl, Exact, NoOrphans;
    var credentials := Credentials(d);
    match credentials {
      case None => return false;
      case Some(records) =>
        var packages := set c | c in records :: c.1;
        NamedIsOwned(d, records);
        assert packages == Named(records);
        SameSize(packages, d.owners.Keys);
        return |packages| == |d.owners|;
    }
  }

  /** `owner_has_active_token`, with its member set collected first. */
  method OwnerHasActiveToken(d: Data, package: string, o: Owner) returns (b: bool)
    ensures b <==> HasActiveToken(d, package, o)
  {
    var members := match o
      case Developer(name) => {name}
      case Team(team) => set m | m in d.members && m.0 == team :: m.1;
    assert forall dev :: dev in members <==> Covers(d, o, dev) by {
      forall dev ensures dev in members <==> Covers(d, o, dev) {
        if o.Team? && (o.name, dev) in d.members {
          assert (o.name, dev).1 == dev;
        }
      }
    }
    b := exists t :: t in d.tokens && ScopeMatches(t.scope, package) && t.developer in members;
  }
}
