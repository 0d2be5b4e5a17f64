/** The transition function that audit replay uses, and what every accepted
    history guarantees. */
module GovernanceReplay {
  import opened Text
  import opened Hex
  import opened Names
  import opened Governance

  // ---------- authority ----------

  /** Whether tokens of `developer` count as tokens of the owner. */
  predicate Covers(d: Data, o: Owner, developer: string)
  {
    match o
    case Developer(name) => name == developer
    case Team(team) => (team, developer) in d.members
  }

  predicate ScopeMatches(s: Scope, package: string)
  {
    s.All? || s.package == package
  }

  predicate OwnerExists(d: Data, o: Owner)
  {
    match o
    case Developer(name) => name in d.developers
    case Team(team) => team in d.teams
  }

  /** `owner_has_active_token`. */
  predicate HasActiveToken(d: Data, package: string, o: Owner)
  {
    exists t :: t in d.tokens && ScopeMatches(t.scope, package) && Covers(d, o, t.developer)
  }

  /** Token `t` may publish `package`. */
  predicate Grants(d: Data, t: Token, package: string)
  {
    package in d.owners && ScopeMatches(t.scope, package) && Covers(d, d.owners[package], t.developer)
  }

  /** The effective access list: which digest may publish which package. */
  function Acl(d: Data): set<(Hash, string)>
  {
    set t, p | t in d.tokens && p in d.owners && Grants(d, t, p) :: (t.hash, p)
  }

  lemma AclMember(d: Data, h: Hash, p: string)
    ensures (h, p) in Acl(d) <==> exists t :: t in d.tokens && t.hash == h && Grants(d, t, p)
  {
    hide ScopeMatches, Covers;
    if t :| t in d.tokens && t.hash == h && Grants(d, t, p) {
      assert t in d.tokens && p in d.owners && Grants(d, t, p) && (t.hash, p) == (h, p);
    }
  }

  predicate PackageAuthorized(d: Data, p: string)
    requires p in d.owners
  {
    HasActiveToken(d, p, d.owners[p])
  }

  predicate NoOrphans(d: Data)
  {
    forall p :: p in d.owners ==> PackageAuthorized(d, p)
  }

  /** `all_packages_remain_authorized`. */
  predicate AllAuthorized(d: Data)
  {
    |Acl(d)| <= MAX_ACL && NoOrphans(d)
  }

  // ---------- one event ----------

  predicate Conflicts(existing: Token, t: Token)
  {
    existing.hash == t.hash &&
    (existing.developer != t.developer || existing.scope.All? || t.scope.All?)
  }

  predicate Insertable(d: Data, t: Token)
  {
    t.developer in d.developers && t !in d.tokens && forall x :: x in d.tokens ==> !Conflicts(x, t)
  }

  function AddToken(d: Data, t: Token): Data
  {
    d.(tokens := d.tokens + {t})
  }

  function DropTokens(d: Data, developer: string, h: Hash): Data
  {
    d.(tokens := set t | t in d.tokens && (t.hash != h || t.developer != developer))
  }

  predicate HoldsToken(d: Data, developer: string, h: Hash)
  {
    exists t :: t in d.tokens && t.hash == h && t.developer == developer
  }

  predicate MigrationClosable(d: Data, developer: string)
  {
    && d.developers == {developer}
    && d.tokens != {} && d.owners != map[]
    && (forall t :: t in d.tokens ==> t.scope.Package?)
    && AllAuthorized(d)
  }

  /** One replayed event, for events whose subject decoded. */
  function Step(d: Data, phase: Phase, e: Event): Option<(Data, Phase)>
  {
    match e
    case Init(dev) =>
      if phase == Empty && d == NO_DATA then Some((d.(developers := d.developers + {dev}), Normal)) else None
    case MigrationInit(dev) =>
      if phase == Empty && d == NO_DATA then Some((d.(developers := d.developers + {dev}), Migrating)) else None
    case DeveloperCreate(dev) =>
      if phase == Normal && dev !in d.developers
      then Some((d.(developers := d.developers + {dev}), phase)) else None
    case TeamCreate(team) =>
      if phase == Normal && team !in d.teams then Some((d.(teams := d.teams + {team}), phase)) else None
    case MemberAdd(team, dev) =>
      if phase == Normal && team in d.teams && dev in d.developers && (team, dev) !in d.members
      then Some((d.(members := d.members + {(team, dev)}), phase)) else None
    case MemberRemove(team, dev) =>
      var next := d.(members := d.members - {(team, dev)});
      if phase == Normal && (team, dev) in d.members && AllAuthorized(next) then Some((next, phase)) else None
    case Claim(p, o) =>
      if phase != Empty && OwnerExists(d, o) && HasActiveToken(d, p, o) && p !in d.owners
      then Some((d.(owners := d.owners[p := o]), phase)) else None
    case Transfer(p, o) =>
      if phase == Normal && OwnerExists(d, o) && HasActiveToken(d, p, o) && p in d.owners && d.owners[p] != o
      then Some((d.(owners := d.owners[p := o]), phase)) else None
    case TokenIssue(t) =>
      if phase == Normal && t.scope.All? && Insertable(d, t) then Some((AddToken(d, t), phase)) else None
    case TokenImport(t) =>
      if phase == Migrating && t.scope.Package? && Insertable(d, t) then Some((AddToken(d, t), phase)) else None
    case MigrationComplete(dev) =>
      if phase == Migrating && MigrationClosable(d, dev) then Some((d, Normal)) else None
    case Revoke(dev, h) => StepRevoke(d, phase, dev, h)
    case RevokeHash(dev, h) => StepRevoke(d, phase, dev, h)
  }

  function StepRevoke(d: Data, phase: Phase, developer: string, h: Hash): Option<(Data, Phase)>
  {
    var next := DropTokens(d, developer, h);
    if phase == Normal && HoldsToken(d, developer, h) && AllAuthorized(next) then Some((next, phase)) else None
  }

  /** `apply_governance_audit_event`. */
  function Apply(d: Data, phase: Phase, action: string, subject: string): Option<(Data, Phase)>
  {
    match DecodeEvent(action, subject)
    case None => None
    case Some(e) => Step(d, phase, e)
  }

  /** Replay of a whole log from the empty state. */
  function Replay(log: seq<Audit>): Option<(Data, Phase)>
  {
    if |log| == 0 then Some((NO_DATA, Empty))
    else
      var last := log[|log| - 1];
      match Replay(log[..|log| - 1])
      case None => None
      case Some((d, phase)) => Apply(d, phase, last.action, last.subject)
  }

  // ---------- what every accepted history keeps ----------

  predicate ReferencesResolve(d: Data)
  {
    && (forall m :: m in d.members ==> m.0 in d.teams && m.1 in d.developers)
    && (forall p :: p in d.owners ==> OwnerExists(d, d.owners[p]))
    && (forall t :: t in d.tokens ==> t.developer in d.developers)
  }

  /** One digest belongs to one developer, and an all-scoped digest has no other scope. */
  predicate DigestsCoherent(d: Data)
  {
    forall s, t :: s in d.tokens && t in d.tokens && s.hash == t.hash && s != t ==>
      s.developer == t.developer && s.scope.Package? && t.scope.Package?
  }

  predicate WellNamed(d: Data)
  {
    && (forall x :: x in d.developers ==> ValidName(x))
    && (forall x :: x in d.teams ==> ValidName(x))
    && (forall m :: m in d.members ==> ValidName(m.0) && ValidName(m.1))
    && (forall p :: p in d.owners ==> ValidName(p) && ValidName(d.owners[p].name))
    && (forall t :: t in d.tokens ==> ValidToken(t))
  }

  predicate PhaseFits(d: Data, phase: Phase)
  {
    match phase
    case Empty => d == NO_DATA
    case Migrating => |d.developers| == 1 && d.teams == {} && d.members == {} && forall t :: t in d.tokens ==> t.scope.Package?
    case Normal => d.developers != {}
  }

  /** The safety invariant of replay. */
  predicate Safe(d: Data, phase: Phase)
  {
    ReferencesResolve(d) && DigestsCoherent(d) && NoOrphans(d) && WellNamed(d) && PhaseFits(d, phase)
  }

  lemma ReferencesKept(d: Data, phase: Phase, e: Event)
    requires ReferencesResolve(d) && Step(d, phase, e).Some?
    ensures ReferencesResolve(Step(d, phase, e).value.0)
  {
    hide AllAuthorized, HasActiveToken;
  }

  lemma DigestsKept(d: Data, phase: Phase, e: Event)
    requires DigestsCoherent(d) && Step(d, phase, e).Some?
    ensures DigestsCoherent(Step(d, phase, e).value.0)
  {
    hide AllAuthorized, HasActiveToken, OwnerExists;
  }

  lemma NamesKept(d: Data, phase: Phase, e: Event)
    requires WellNamed(d) && ValidEvent(e) && Step(d, phase, e).Some?
    ensures WellNamed(Step(d, phase, e).value.0)
  {
    hide AllAuthorized, HasActiveToken, OwnerExists, ValidName;
  }

  lemma PhaseKept(d: Data, phase: Phase, e: Event)
    requires PhaseFits(d, phase) && Step(d, phase, e).Some?
    ensures PhaseFits(Step(d, phase, e).value.0, Step(d, phase, e).value.1)
  {
    hide AllAuthorized, HasActiveToken, OwnerExists;
  }

  /** More tokens, members, or another package never orphan an owned package. */
  lemma ActiveTokenMonotone(d: Data, next: Data, p: string, o: Owner)
    requires d.tokens <= next.tokens && d.members <= next.members
    requires HasActiveToken(d, p, o)
    ensures HasActiveToken(next, p, o)
  {
    var t :| t in d.tokens && ScopeMatches(t.scope, p) && Covers(d, o, t.developer);
    assert t in next.tokens && Covers(next, o, t.developer);
  }

  lemma OrphansKeptByGrowth(d: Data, next: Data)
    requires NoOrphans(d) && d.tokens <= next.tokens && d.members <= next.members
    requires forall p :: p in next.owners ==>
               (p in d.owners && d.owners[p] == next.owners[p]) || HasActiveToken(d, p, next.owners[p])
    ensures NoOrphans(next)
  {
    forall p | p in next.owners
      ensures PackageAuthorized(next, p)
    {
      if p in d.owners && d.owners[p] == next.owners[p] {
        assert PackageAuthorized(d, p);
      }
      ActiveTokenMonotone(d, next, p, next.owners[p]);
    }
  }

  lemma OrphansKept(d: Data, phase: Phase, e: Event)
    requires NoOrphans(d) && Step(d, phase, e).Some?
    ensures NoOrphans(Step(d, phase, e).value.0)
  {
    hide HasActiveToken, OwnerExists, NoOrphans;
    var next := Step(d, phase, e).value.0;
    if !e.MemberRemove? && !e.Revoke? && !e.RevokeHash? {
      OrphansKeptByGrowth(d, next);
    }
  }

  lemma SafeKept(d: Data, phase: Phase, e: Event)
    requires Safe(d, phase) && ValidEvent(e) && Step(d, phase, e).Some?
    ensures Safe(Step(d, phase, e).value.0, Step(d, phase, e).value.1)
  {
    hide Step, ReferencesResolve, DigestsCoherent, NoOrphans, WellNamed, PhaseFits, ValidEvent;
    ReferencesKept(d, phase, e);
    DigestsKept(d, phase, e);
    NamesKept(d, phase, e);
    PhaseKept(d, phase, e);
    OrphansKept(d, phase, e);
  }

  // ---------- whole logs ----------

  lemma {:induction false} ReplayPrefix(log: seq<Audit>, k: nat)
    requires k <= |log| && Replay(log).Some?
    ensures Replay(log[..k]).Some?
  {
    if k < |log| {
      ReplayPrefix(log[..|log| - 1], k);
      assert log[..|log| - 1][..k] == log[..k];
    } else {
      assert log[..k] == log;
    }
  }

  lemma ReplayAppend(log: seq<Audit>, a: Audit)
    requires Replay(log).Some?
    ensures Replay(log + [a]) == Apply(Replay(log).value.0, Replay(log).value.1, a.action, a.subject)
  {
    hide Apply;
    assert (log + [a])[..|log|] == log;
  }

  lemma {:induction false} ReplayIsSafe(log: seq<Audit>)
    requires Replay(log).Some?
    ensures Safe(Replay(log).value.0, Replay(log).value.1)
  {
    if |log| > 0 {
      hide Step, Safe, DecodeEvent;
      var last := log[|log| - 1];
      ReplayIsSafe(log[..|log| - 1]);
      var (d, phase) := Replay(log[..|log| - 1]).value;
      var e := DecodeEvent(last.action, last.subject).value;
      EventCodec(last.action, last.subject, e);
      SafeKept(d, phase, e);
    }
  }

  /** Safety over every accepted log: at each prefix all references resolve, no
      digest has two developers or an all scope beside another one, every owned
      package has an active token of its owner, and every name is well formed. */
  lemma SafeAtEveryPrefix(log: seq<Audit>, k: nat)
    requires Replay(log).Some? && k <= |log|
    ensures Replay(log[..k]).Some?
    ensures var (d, phase) := Replay(log[..k]).value;
            && ReferencesResolve(d) && DigestsCoherent(d) && NoOrphans(d) && WellNamed(d) && PhaseFits(d, phase)
  {
    ReplayPrefix(log, k);
    ReplayIsSafe(log[..k]);
  }

  ghost predicate ImportedAt(log: seq<Audit>, k: nat, t: Token)
    requires k < |log|
  {
    && DecodeEvent(log[k].action, log[k].subject) == Some(TokenImport(t))
    && Replay(log[..k]).Some? && Replay(log[..k]).value.1 == Migrating
  }

  lemma NewPackageToken(d: Data, phase: Phase, e: Event, t: Token)
    requires Step(d, phase, e).Some? && t.scope.Package?
    requires t in Step(d, phase, e).value.0.tokens && t !in d.tokens
    ensures e == TokenImport(t) && phase == Migrating
  {
    hide AllAuthorized, HasActiveToken, OwnerExists, Insertable, MigrationClosable;
  }

  /** Package-scoped tokens enter only during migration: each one held at the end
      of an accepted log was imported by an event replayed in the migrating phase. */
  lemma {:induction false} PackageTokenWasImported(log: seq<Audit>, t: Token) returns (k: nat)
    requires Replay(log).Some? && t in Replay(log).value.0.tokens && t.scope.Package?
    ensures k < |log| && ImportedAt(log, k, t)
  {
    hide Step, DecodeEvent;
    var init := log[..|log| - 1];
    var last := log[|log| - 1];
    var (before, phase) := Replay(init).value;
    if t in before.tokens {
      k := PackageTokenWasImported(init, t);
      assert init[..k] == log[..k];
    } else {
      NewPackageToken(before, phase, DecodeEvent(last.action, last.subject).value, t);
      k := |log| - 1;
    }
  }

  /** The phase never goes back, and leaves the bootstrap at the first event. */
  lemma {:induction false} PhaseOrder(log: seq<Audit>, k: nat)
    requires Replay(log).Some? && k <= |log|
    ensures Replay(log[..k]).Some?
    ensures var early, late := Replay(log[..k]).value.1, Replay(log).value.1;
            && (early == Normal ==> late == Normal)
            && (late == Empty <==> log == [])
            && (early == Migrating ==> late != Empty)
  {
    hide DecodeEvent, AllAuthorized, HasActiveToken, OwnerExists, Insertable, MigrationClosable;
    ReplayPrefix(log, k);
    if k < |log| {
      PhaseOrder(log[..|log| - 1], k);
      assert log[..|log| - 1][..k] == log[..k];
    } else {
      assert log[..k] == log;
      if |log| > 0 {
        ReplayPrefix(log, |log| - 1);
      }
    }
  }
}
