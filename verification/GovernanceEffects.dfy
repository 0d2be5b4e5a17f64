/** What each event and command does, stated field by field and on the access list,
    and exactly when it is accepted. */
module GovernanceEffects {
  import opened Text
  import opened Hex
  import opened Names
  import opened Governance
  import opened GovernanceReplay
  import opened GovernanceChain
  import opened GovernanceCommands

  // ---------- the data ----------

  /** After `e`, each set holds what it held and what `e` adds, without what `e` removes. */
  ghost predicate Became(d: Data, e: Event, next: Data)
  {
    && (forall x :: x in next.developers <==>
          x in d.developers || e == Init(x) || e == MigrationInit(x) || e == DeveloperCreate(x))
    && (forall x :: x in next.teams <==> x in d.teams || e == TeamCreate(x))
    && (forall m :: m in next.members <==> (m in d.members && e != MemberRemove(m.0, m.1)) || e == MemberAdd(m.0, m.1))
    && (forall p :: p in next.owners <==> p in d.owners || Owns(e, p))
    && (forall p :: p in next.owners ==> next.owners[p] == if Owns(e, p) then e.owner else d.owners[p])
    && (forall t :: t in next.tokens <==>
          || (t in d.tokens && e != Revoke(t.developer, t.hash) && e != RevokeHash(t.developer, t.hash))
          || e == TokenIssue(t) || e == TokenImport(t))
  }

  predicate Owns(e: Event, package: string)
  {
    (e.Claim? || e.Transfer?) && e.package == package
  }

  /** Replay changes exactly what the event says and nothing else. */
  lemma StepEffect(d: Data, phase: Phase, e: Event)
    requires Step(d, phase, e).Some?
    ensures Became(d, e, Step(d, phase, e).value.0)
    ensures Step(d, phase, e).value.1 ==
            if e.Init? || e.MigrationComplete? then Normal else if e.MigrationInit? then Migrating else phase
  {
    hide Step, Became;
    if e.Claim? || e.Transfer? {
      OwnerEffect(d, phase, e);
    } else if e.TokenIssue? || e.TokenImport? || e.Revoke? || e.RevokeHash? {
      TokenEffect(d, phase, e);
    } else {
      PeopleEffect(d, phase, e);
    }
  }

  ghost predicate HasEffect(d: Data, phase: Phase, e: Event)
  {
    Step(d, phase, e).Some? ==>
      && Became(d, e, Step(d, phase, e).value.0)
      && Step(d, phase, e).value.1 ==
         if e.Init? || e.MigrationComplete? then Normal else if e.MigrationInit? then Migrating else phase
  }

  lemma OwnerEffect(d: Data, phase: Phase, e: Event)
    requires e.Claim? || e.Transfer?
    ensures HasEffect(d, phase, e)
  {
    hide HasActiveToken, OwnerExists;
  }

  lemma TokenEffect(d: Data, phase: Phase, e: Event)
    requires e.TokenIssue? || e.TokenImport? || e.Revoke? || e.RevokeHash?
    ensures HasEffect(d, phase, e)
  {
    hide AllAuthorized, Insertable, HoldsToken;
  }

  lemma PeopleEffect(d: Data, phase: Phase, e: Event)
    requires !e.Claim? && !e.Transfer? && !e.TokenIssue? && !e.TokenImport? && !e.Revoke? && !e.RevokeHash?
    ensures HasEffect(d, phase, e)
  {
    hide AllAuthorized, MigrationClosable;
  }

  /** So a command that goes through changes exactly what it names. A revocation
      removes the developer's tokens with that digest and keeps all others. */
  lemma CommandEffect(d: Data, c: Command)
    requires Run(d, c).Changed?
    ensures Became(d, CommandEvent(c), Run(d, c).data)
  {
    hide Run, Step, Became;
    RunSteps(d, c);
    StepEffect(d, Normal, CommandEvent(c));
  }

  lemma BecameOnce(d: Data, e: Event, a: Data, b: Data)
    requires Became(d, e, a) && Became(d, e, b)
    ensures a == b
  {
    hide Owns;
    assert a.developers == b.developers && a.teams == b.teams && a.members == b.members;
    assert a.tokens == b.tokens;
    assert a.owners.Keys == b.owners.Keys;
    assert a.owners == b.owners;
  }

  // ---------- the guards ----------

  /** A token of the owner that covers the package. */
  ghost predicate Active(d: Data, package: string, o: Owner)
  {
    exists t :: t in d.tokens && (t.scope == All || t.scope == Package(package)) && Speaks(d, o, t.developer)
  }

  predicate Speaks(d: Data, o: Owner, developer: string)
  {
    o == Developer(developer) || (o.Team? && (o.name, developer) in d.members)
  }

  lemma ActiveIs(d: Data, package: string, o: Owner)
    ensures HasActiveToken(d, package, o) <==> Active(d, package, o)
  {
    if t :| t in d.tokens && ScopeMatches(t.scope, package) && Covers(d, o, t.developer) {
      assert Speaks(d, o, t.developer);
    }
    if t :| t in d.tokens && (t.scope == All || t.scope == Package(package)) && Speaks(d, o, t.developer) {
      assert ScopeMatches(t.scope, package) && Covers(d, o, t.developer);
    }
  }

  /** Every owned package keeps an active token of its owner and the list fits. */
  ghost predicate Healthy(d: Data)
  {
    |Acl(d)| <= MAX_ACL && forall p :: p in d.owners ==> Active(d, p, d.owners[p])
  }

  lemma HealthyIs(d: Data)
    ensures AllAuthorized(d) <==> Healthy(d)
  {
    hide Acl, Active, HasActiveToken;
    forall p | p in d.owners
      ensures PackageAuthorized(d, p) <==> Active(d, p, d.owners[p])
    {
      ActiveIs(d, p, d.owners[p]);
    }
  }

  /** A digest that is new, or that the same developer uses for other packages only. */
  ghost predicate FreshFor(d: Data, t: Token)
  {
    forall x :: x in d.tokens && x.hash == t.hash ==>
      x.developer == t.developer && x.scope.Package? && t.scope.Package? && x.scope != t.scope
  }

  predicate Known(d: Data, o: Owner)
  {
    match o case Developer(name) => name in d.developers case Team(name) => name in d.teams
  }

  /** When replay accepts an event, in terms of the phase and the data before it and,
      for what takes authority away, the data after it. */
  ghost predicate Acceptable(d: Data, phase: Phase, e: Event)
  {
    match e
    case Init(_) => phase == Empty && d == NO_DATA
    case MigrationInit(_) => phase == Empty && d == NO_DATA
    case DeveloperCreate(dev) => phase == Normal && dev !in d.developers
    case TeamCreate(team) => phase == Normal && team !in d.teams
    case MemberAdd(team, dev) =>
      phase == Normal && team in d.teams && dev in d.developers && (team, dev) !in d.members
    case MemberRemove(team, dev) =>
      phase == Normal && (team, dev) in d.members && forall next :: Became(d, e, next) ==> Healthy(next)
    case Claim(p, o) => phase != Empty && Known(d, o) && Active(d, p, o) && p !in d.owners
    case Transfer(p, o) => phase == Normal && Known(d, o) && Active(d, p, o) && p in d.owners && d.owners[p] != o
    case TokenIssue(t) => phase == Normal && t.scope == All && t.developer in d.developers && FreshFor(d, t)
    case TokenImport(t) => phase == Migrating && t.scope.Package? && t.developer in d.developers && FreshFor(d, t)
    case MigrationComplete(dev) =>
      && phase == Migrating && d.developers == {dev} && d.tokens != {} && d.owners != map[]
      && (forall t :: t in d.tokens ==> t.scope.Package?) && Healthy(d)
    case Revoke(dev, h) =>
      && phase == Normal && (exists t :: t in d.tokens && t.developer == dev && t.hash == h)
      && forall next :: Became(d, e, next) ==> Healthy(next)
    case RevokeHash(dev, h) =>
      && phase == Normal && (exists t :: t in d.tokens && t.developer == dev && t.hash == h)
      && forall next :: Became(d, e, next) ==> Healthy(next)
  }

  lemma RemovalBecomes(d: Data, team: string, dev: string)
    ensures Became(d, MemberRemove(team, dev), d.(members := d.members - {(team, dev)}))
  {
  }

  lemma RevocationBecomes(d: Data, dev: string, h: Hash)
    ensures Became(d, Revoke(dev, h), DropTokens(d, dev, h)) && Became(d, RevokeHash(dev, h), DropTokens(d, dev, h))
  {
  }

  /** A statement about the only possible successor. */
  lemma OnlySuccessor(d: Data, e: Event, next: Data)
    requires Became(d, e, next)
    ensures AllAuthorized(next) <==> forall other :: Became(d, e, other) ==> Healthy(other)
  {
    hide Became, AllAuthorized, Healthy;
    HealthyIs(next);
    forall other | Became(d, e, other)
      ensures other == next
    {
      BecameOnce(d, e, next, other);
    }
  }

  lemma InsertableIs(d: Data, t: Token)
    ensures Insertable(d, t) <==> t.developer in d.developers && FreshFor(d, t)
  {
    forall x | x in d.tokens && x.hash == t.hash
      ensures x != t && !Conflicts(x, t) <==>
              x.developer == t.developer && x.scope.Package? && t.scope.Package? && x.scope != t.scope
    {
    }
  }

  lemma HoldsIs(d: Data, dev: string, h: Hash)
    ensures HoldsToken(d, dev, h) <==> exists t :: t in d.tokens && t.developer == dev && t.hash == h
  {
  }

  lemma MembershipEventsAccepted(d: Data, phase: Phase, e: Event)
    requires e.Init? || e.MigrationInit? || e.DeveloperCreate? || e.TeamCreate? || e.MemberAdd? || e.MemberRemove?
    ensures Step(d, phase, e).Some? <==> Acceptable(d, phase, e)
  {
    hide Became, AllAuthorized, Healthy;
    if e.MemberRemove? {
      var next := d.(members := d.members - {(e.team, e.developer)});
      RemovalBecomes(d, e.team, e.developer);
      OnlySuccessor(d, e, next);
    }
  }

  lemma OwnerEventsAccepted(d: Data, phase: Phase, e: Event)
    requires e.Claim? || e.Transfer?
    ensures Step(d, phase, e).Some? <==> Acceptable(d, phase, e)
  {
    hide Became, Healthy, HasActiveToken, Active, AllAuthorized;
    ActiveIs(d, e.package, e.owner);
    assert OwnerExists(d, e.owner) <==> Known(d, e.owner);
  }

  lemma TokenEventsAccepted(d: Data, phase: Phase, e: Event)
    requires e.TokenIssue? || e.TokenImport? || e.MigrationComplete?
    ensures Step(d, phase, e).Some? <==> Acceptable(d, phase, e)
  {
    hide Became, Healthy, AllAuthorized, Insertable, FreshFor;
    HealthyIs(d);
    if !e.MigrationComplete? {
      InsertableIs(d, e.token);
    }
  }

  lemma RevocationAccepted(d: Data, phase: Phase, e: Event)
    requires e.Revoke? || e.RevokeHash?
    ensures Step(d, phase, e).Some? <==> Acceptable(d, phase, e)
  {
    hide Became, Healthy, AllAuthorized, HoldsToken, DropTokens;
    HoldsIs(d, e.developer, e.hash);
    RevocationBecomes(d, e.developer, e.hash);
    OnlySuccessor(d, e, DropTokens(d, e.developer, e.hash));
  }

  /** Replay accepts an event exactly when it is acceptable. */
  lemma AcceptedIff(d: Data, phase: Phase, e: Event)
    ensures Step(d, phase, e).Some? <==> Acceptable(d, phase, e)
  {
    hide Step, Acceptable;
    if e.Claim? || e.Transfer? {
      OwnerEventsAccepted(d, phase, e);
    } else if e.TokenIssue? || e.TokenImport? || e.MigrationComplete? {
      TokenEventsAccepted(d, phase, e);
    } else if e.Revoke? || e.RevokeHash? {
      RevocationAccepted(d, phase, e);
    } else {
      MembershipEventsAccepted(d, phase, e);
    }
  }

  /** From data without orphans, a command whose result fits the access-list limit goes
      through exactly when its event is acceptable. */
  lemma PermittedIff(d: Data, c: Command)
    requires NoOrphans(d)
    ensures Run(d, c).Changed? && |Acl(Run(d, c).data)| <= MAX_ACL <==>
            && Acceptable(d, Normal, CommandEvent(c))
            && forall next :: Became(d, CommandEvent(c), next) ==> |Acl(next)| <= MAX_ACL
  {
    hide Run, Step, Acceptable, Became, Acl, NoOrphans;
    AcceptedIff(d, Normal, CommandEvent(c));
    if Run(d, c).Changed? {
      RunSteps(d, c);
      CommandEffect(d, c);
      SameSuccessor(d, CommandEvent(c), Run(d, c).data);
    } else if Stepped(d, c).Some? {
      var next := Stepped(d, c).value.0;
      StepEffect(d, Normal, CommandEvent(c));
      StepRefinesEdit(d, c);
      LiveMatchesReplay(d, c, next);
    }
  }

  lemma SameSuccessor(d: Data, e: Event, next: Data)
    requires Became(d, e, next)
    ensures forall other :: Became(d, e, other) ==> other == next
  {
    hide Became;
    forall other | Became(d, e, other)
      ensures other == next
    {
      BecameOnce(d, e, next, other);
    }
  }

  /** Every refusal names a true reason. */
  lemma RefusalsAreTrue(d: Data, c: Command)
    requires Run(d, c).Refused?
    ensures match Run(d, c).why
            case DeveloperExists => c.CreateDeveloper? && c.developer in d.developers
            case TeamExists => c.CreateTeam? && c.team in d.teams
            case GovernanceNotFound => c.AddMember? && !(c.team in d.teams && c.developer in d.developers)
            case MemberExists => c.AddMember? && (c.team, c.developer) in d.members
            case MemberNotFound => c.RemoveMember? && (c.team, c.developer) !in d.members
            case OwnerNotFound => c.ChangeOwner? && !Known(d, c.owner)
            case OwnerHasNoActiveToken => (c.ChangeOwner? && !Active(d, c.package, c.owner)) || Unhealthy(d, c)
            case PackageNotOwned => c.ChangeOwner? && c.transfer && c.package !in d.owners
            case PackageOwned => c.ChangeOwner? && !c.transfer && c.package in d.owners
            case OwnerUnchanged => c.ChangeOwner? && c.package in d.owners && d.owners[c.package] == c.owner
            case DeveloperNotFound => c.IssueToken? && c.developer !in d.developers
            case DigestInUse => c.IssueToken? && exists t :: t in d.tokens && t.hash == c.hash
            case CredentialNotFound =>
              c.RevokeToken? && forall t :: t in d.tokens ==> !(t.developer == c.developer && t.hash == c.hash)
            case LastCredential => c.RevokeToken? && Unhealthy(d, c)
  {
    hide Became, AllAuthorized, Healthy, HasActiveToken, Active;
    if c.ChangeOwner? {
      ActiveIs(d, c.package, c.owner);
    }
    if Edit(d, c).Changed? {
      EditBecomes(d, c);
      HealthyIs(Edit(d, c).data);
    }
  }

  /** The command's result would leave an owned package without an active token or
      exceed the limit. */
  ghost predicate Unhealthy(d: Data, c: Command)
  {
    exists next :: Became(d, CommandEvent(c), next) && !Healthy(next)
  }

  lemma EditBecomes(d: Data, c: Command)
    requires Edit(d, c).Changed?
    ensures Became(d, CommandEvent(c), Edit(d, c).data)
  {
    hide HasActiveToken, OwnerExists, HoldsToken;
  }

  /** Each command is logged under its own action. */
  lemma CommandActions(c: Command)
    ensures ActionText(CommandEvent(c)) ==
            match c
            case CreateDeveloper(_) => "developer-create"
            case CreateTeam(_) => "team-create"
            case AddMember(_, _) => "team-member-add"
            case RemoveMember(_, _) => "team-member-remove"
            case ChangeOwner(_, _, transfer) => if transfer then "package-transfer" else "package-claim"
            case IssueToken(_, _) => "developer-token-issue"
            case RevokeToken(_, _, byHash) => if byHash then "developer-token-revoke-hash" else "developer-token-revoke"
  {
  }

  // ---------- the access list ----------

  /** The right to publish, spelled out: an owned package, a token with this digest that
      is unrestricted or made for it, and an owner that the token's developer speaks for. */
  ghost predicate Publishes(d: Data, h: Hash, p: string)
  {
    && p in d.owners
    && exists t :: t in d.tokens && t.hash == h && (t.scope == All || t.scope == Package(p)) && Speaks(d, d.owners[p], t.developer)
  }

  lemma AclIs(d: Data, h: Hash, p: string)
    ensures (h, p) in Acl(d) <==> Publishes(d, h, p)
  {
    hide Acl;
    AclMember(d, h, p);
    if t :| t in d.tokens && t.hash == h && Grants(d, t, p) {
      assert Speaks(d, d.owners[p], t.developer);
    }
    if p in d.owners {
      if t :| t in d.tokens && t.hash == h && (t.scope == All || t.scope == Package(p)) && Speaks(d, d.owners[p], t.developer) {
        assert Grants(d, t, p);
      }
    }
  }

  /** Revoking takes away exactly the pairs of that digest. */
  lemma RevokeAcl(d: Data, c: Command, h: Hash, p: string)
    requires c.RevokeToken? && Run(d, c).Changed? && DigestsCoherent(d)
    ensures (h, p) in Acl(Run(d, c).data) <==> (h, p) in Acl(d) && h != c.hash
  {
    hide Run, Acl;
    var next := Run(d, c).data;
    CommandEffect(d, c);
    RevokedHeld(d, c);
    AclIs(d, h, p);
    AclIs(next, h, p);
  }

  lemma RevokedHeld(d: Data, c: Command)
    requires c.RevokeToken? && Run(d, c).Changed?
    ensures exists t :: t in d.tokens && t.developer == c.developer && t.hash == c.hash
  {
    hide AllAuthorized, DropTokens;
  }

  /** Issuing adds exactly the new digest's pairs with what its developer speaks for. */
  lemma IssueAcl(d: Data, c: Command, h: Hash, p: string)
    requires c.IssueToken? && Run(d, c).Changed?
    ensures (h, p) in Acl(Run(d, c).data) <==>
            (h, p) in Acl(d) || (h == c.hash && p in d.owners && Speaks(d, d.owners[p], c.developer))
  {
    hide Run, Acl;
    CommandEffect(d, c);
    AclIs(d, h, p);
    AclIs(Run(d, c).data, h, p);
    assert Token(c.hash, c.developer, All) in Run(d, c).data.tokens;
  }

  /** Some token of this developer has this digest and covers the package. */
  ghost predicate Carries(d: Data, developer: string, h: Hash, p: string)
  {
    exists t :: t in d.tokens && t.hash == h && t.developer == developer && (t.scope == All || t.scope == Package(p))
  }

  /** A new member brings exactly their tokens to the team's packages. */
  lemma AddMemberAcl(d: Data, c: Command, h: Hash, p: string)
    requires c.AddMember? && Run(d, c).Changed?
    ensures (h, p) in Acl(Run(d, c).data) <==>
            (h, p) in Acl(d) || (p in d.owners && d.owners[p] == Team(c.team) && Carries(d, c.developer, h, p))
  {
    hide Run, Acl;
    CommandEffect(d, c);
    AclIs(d, h, p);
    AclIs(Run(d, c).data, h, p);
  }

  /** A removed member takes exactly their digests off the team's packages. */
  lemma RemoveMemberAcl(d: Data, c: Command, h: Hash, p: string)
    requires c.RemoveMember? && Run(d, c).Changed? && DigestsCoherent(d)
    ensures (h, p) in Acl(Run(d, c).data) <==>
            (h, p) in Acl(d) && !(d.owners[p] == Team(c.team) && Carries(d, c.developer, h, p))
  {
    hide Run, Acl;
    CommandEffect(d, c);
    AclIs(d, h, p);
    AclIs(Run(d, c).data, h, p);
  }

  /** A claim or transfer gives the package to exactly the new owner's tokens and
      leaves every other package alone. */
  lemma ChangeOwnerAcl(d: Data, c: Command, h: Hash, p: string)
    requires c.ChangeOwner? && Run(d, c).Changed?
    ensures (h, p) in Acl(Run(d, c).data) <==>
            if p == c.package
            then exists t :: t in d.tokens && t.hash == h && (t.scope == All || t.scope == Package(p)) && Speaks(d, c.owner, t.developer)
            else (h, p) in Acl(d)
  {
    hide Run, Acl;
    CommandEffect(d, c);
    AclIs(d, h, p);
    AclIs(Run(d, c).data, h, p);
  }

  /** New developers and teams have no rights yet. */
  lemma CreateAcl(d: Data, c: Command, h: Hash, p: string)
    requires (c.CreateDeveloper? || c.CreateTeam?) && Run(d, c).Changed?
    ensures (h, p) in Acl(Run(d, c).data) <==> (h, p) in Acl(d)
  {
    hide Run, Acl;
    CommandEffect(d, c);
    AclIs(d, h, p);
    AclIs(Run(d, c).data, h, p);
  }
}
