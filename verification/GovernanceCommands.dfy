/** The administrative commands as they edit the live data, and their agreement
    with the independent audit replay. */
module GovernanceCommands {
  import opened Text
  import opened Hex
  import opened Names
  import opened Governance
  import opened GovernanceReplay
  import opened GovernanceChain

  datatype Command =
    | CreateDeveloper(developer: string)
    | CreateTeam(team: string)
    | AddMember(team: string, developer: string)
    | RemoveMember(team: string, developer: string)
    | ChangeOwner(package: string, owner: Owner, transfer: bool)
    | IssueToken(developer: string, hash: Hash)
    | RevokeToken(developer: string, hash: Hash, byHash: bool)

  /** The name checks every command runs before it opens the file. */
  predicate WellFormed(c: Command)
  {
    match c
    case CreateDeveloper(d) => ValidName(d)
    case CreateTeam(t) => ValidName(t)
    case AddMember(t, d) => ValidName(t) && ValidName(d)
    case RemoveMember(t, d) => ValidName(t) && ValidName(d)
    case ChangeOwner(p, o, _) => ValidName(p) && ValidName(o.name)
    case IssueToken(d, _) => ValidName(d)
    case RevokeToken(d, _, _) => ValidName(d)
  }

  function CommandEvent(c: Command): Event
  {
    match c
    case CreateDeveloper(d) => DeveloperCreate(d)
    case CreateTeam(t) => TeamCreate(t)
    case AddMember(t, d) => MemberAdd(t, d)
    case RemoveMember(t, d) => MemberRemove(t, d)
    case ChangeOwner(p, o, transfer) => if transfer then Transfer(p, o) else Claim(p, o)
    case IssueToken(d, h) => TokenIssue(Token(h, d, All))
    case RevokeToken(d, h, byHash) => if byHash then RevokeHash(d, h) else Revoke(d, h)
  }

  /** Why a command refuses to change the data. */
  datatype Refusal =
    | DeveloperExists | TeamExists | GovernanceNotFound | MemberExists | MemberNotFound
    | OwnerNotFound | OwnerHasNoActiveToken | PackageNotOwned | PackageOwned | OwnerUnchanged
    | DeveloperNotFound | DigestInUse | CredentialNotFound | LastCredential

  datatype Outcome = Changed(data: Data) | Refused(why: Refusal)

  /** The command's own checks and its direct edit, in the order the source runs them. */
  function Edit(d: Data, c: Command): Outcome
  {
    match c
    case CreateDeveloper(dev) =>
      if dev in d.developers then Refused(DeveloperExists) else Changed(d.(developers := d.developers + {dev}))
    case CreateTeam(team) =>
      if team in d.teams then Refused(TeamExists) else Changed(d.(teams := d.teams + {team}))
    case AddMember(team, dev) =>
      if team !in d.teams || dev !in d.developers then Refused(GovernanceNotFound)
      else if (team, dev) in d.members then Refused(MemberExists)
      else Changed(d.(members := d.members + {(team, dev)}))
    case RemoveMember(team, dev) =>
      if (team, dev) !in d.members then Refused(MemberNotFound)
      else Changed(d.(members := d.members - {(team, dev)}))
    case ChangeOwner(p, o, transfer) =>
      if !OwnerExists(d, o) then Refused(OwnerNotFound)
      else if !HasActiveToken(d, p, o) then Refused(OwnerHasNoActiveToken)
      else if p !in d.owners then
        if transfer then Refused(PackageNotOwned) else Changed(d.(owners := d.owners[p := o]))
      else if !transfer then Refused(PackageOwned)
      else if d.owners[p] == o then Refused(OwnerUnchanged)
      else Changed(d.(owners := d.owners[p := o]))
    case IssueToken(dev, h) =>
      if dev !in d.developers then Refused(DeveloperNotFound)
      else if exists t :: t in d.tokens && t.hash == h then Refused(DigestInUse)
      else Changed(AddToken(d, Token(h, dev, All)))
    case RevokeToken(dev, h, _) =>
      if !HoldsToken(d, dev, h) then Refused(CredentialNotFound) else Changed(DropTokens(d, dev, h))
  }

  /** The edit, then the authorization check that every command but token issue makes. */
  function Run(d: Data, c: Command): Outcome
  {
    match Edit(d, c)
    case Refused(why) => Refused(why)
    case Changed(next) =>
      if c.IssueToken? || AllAuthorized(next) then Changed(next)
      else if c.RevokeToken? then Refused(LastCredential)
      else Refused(OwnerHasNoActiveToken)
  }

  /** The state a command hands to the serializer. */
  function Commit(sha: Digest, st: State, c: Command): State
    requires Run(st.data, c).Changed?
  {
    State(Run(st.data, c).data, Append(sha, st.audits, CommandEvent(c)))
  }

  function Stepped(d: Data, c: Command): Option<(Data, Phase)>
  {
    Step(d, Normal, CommandEvent(c))
  }

  lemma CommandEventValid(c: Command)
    ensures ValidEvent(CommandEvent(c)) <==> WellFormed(c)
  {
  }

  /** Whatever a command's edit produces, replay of its event produces too. */
  lemma EditRefinesStep(d: Data, c: Command)
    requires Edit(d, c).Changed? && ((c.RemoveMember? || c.RevokeToken?) ==> AllAuthorized(Edit(d, c).data))
    ensures Stepped(d, c) == Some((Edit(d, c).data, Normal))
  {
    hide AllAuthorized, HasActiveToken, OwnerExists;
  }

  /** And whatever replay accepts, the command's edit produces. */
  lemma StepRefinesEdit(d: Data, c: Command)
    requires Stepped(d, c).Some?
    ensures Edit(d, c) == Changed(Stepped(d, c).value.0) && Stepped(d, c).value.1 == Normal
  {
    hide AllAuthorized, HasActiveToken, OwnerExists;
  }

  lemma AuthorizedAfterStep(d: Data, c: Command)
    requires NoOrphans(d) && Stepped(d, c).Some?
    ensures AllAuthorized(Stepped(d, c).value.0) <==> |Acl(Stepped(d, c).value.0)| <= MAX_ACL
  {
    hide Step, NoOrphans, Acl;
    OrphansKept(d, Normal, CommandEvent(c));
  }

  /** Two implementations, one meaning: from data without orphans, a command
      commits a change that fits the access-list bound exactly when replay accepts
      its event with the same result. */
  lemma LiveMatchesReplay(d: Data, c: Command, next: Data)
    requires NoOrphans(d)
    ensures Run(d, c) == Changed(next) && |Acl(next)| <= MAX_ACL <==>
            Stepped(d, c) == Some((next, Normal)) && |Acl(next)| <= MAX_ACL
  {
    hide Step, Edit, NoOrphans, Acl, AllAuthorized;
    if Run(d, c) == Changed(next) {
      EditRefinesStep(d, c);
    } else if Stepped(d, c) == Some((next, Normal)) {
      StepRefinesEdit(d, c);
      AuthorizedAfterStep(d, c);
    }
  }

  // ---------- the committed state ----------

  lemma ScopesKept(d: Data, c: Command)
    requires ScopesOwned(d) && Stepped(d, c).Some?
    ensures ScopesOwned(Stepped(d, c).value.0)
  {
    hide AllAuthorized, HasActiveToken, OwnerExists, ValidName;
  }

  lemma RunSteps(d: Data, c: Command)
    requires Run(d, c).Changed?
    ensures Stepped(d, c) == Some((Run(d, c).data, Normal))
  {
    hide AllAuthorized, Step, Edit;
    EditRefinesStep(d, c);
  }

  predicate TransitionMoves(sha: Digest, st: State, c: Command)
  {
    NextTransition(sha, st.audits, ActionText(CommandEvent(c)), SubjectText(CommandEvent(c)))
      != LastTransition(sha, st.audits)
  }

  lemma MovesAppend(sha: Digest, log: seq<Audit>, e: Event)
    requires Moves(log)
    ensures Moves(Append(sha, log, e)) <==>
            NextTransition(sha, log, ActionText(e), SubjectText(e)) != LastTransition(sha, log)
  {
    hide NextTransition, LastTransition, ActionText, SubjectText;
    var longer := Append(sha, log, e);
    assert longer[|log|].transition == NextTransition(sha, log, ActionText(e), SubjectText(e));
    assert longer[|log|].beforeTransition == LastTransition(sha, log);
    assert forall k :: 0 <= k < |log| ==> longer[k] == log[k];
  }

  /** Live commands and audit replay agree. From any valid state, if a command's
      own guard passes, the extended log replays to exactly the edited data, and
      validation can refuse the new state only for a record limit, the access-list
      limit, or a digest that maps the transition text to the previous transition. */
  lemma CommandAgreesWithReplay(sha: Digest, st: State, c: Command)
    requires Valid(sha, st) && WellFormed(c) && Run(st.data, c).Changed?
    ensures var next := Commit(sha, st, c);
            && Replay(next.audits) == Some((next.data, Normal))
            && (Valid(sha, next) <==>
                RecordsFit(next) && |Acl(next.data)| <= MAX_ACL && TransitionMoves(sha, st, c))
  {
    hide Step, Run, Replay, Chained, Moves, AllAuthorized, ReferencesResolve, DigestsCoherent, ScopesOwned, RecordsFit;
    hide Acl, WellFormed, NoOrphans, Safe;
    var e := CommandEvent(c);
    var next := Commit(sha, st, c);
    CommandEventValid(c);
    RunSteps(st.data, c);
    AppendReplay(sha, st.audits, e);
    AppendChained(sha, st.audits, e);
    MovesAppend(sha, st.audits, e);
    ReferencesKept(st.data, Normal, e);
    DigestsKept(st.data, Normal, e);
    ScopesKept(st.data, c);
    ValidHasNoOrphans(sha, st);
    AuthorizedAfterStep(st.data, c);
  }

  lemma ValidHasNoOrphans(sha: Digest, st: State)
    requires Valid(sha, st)
    ensures NoOrphans(st.data)
  {
  }

  /** Conversely an event that replay would accept is never refused by the live
      command, as long as the resulting access list fits. */
  lemma ReplayableCommandsRun(sha: Digest, st: State, c: Command)
    requires Valid(sha, st) && Stepped(st.data, c).Some?
    requires |Acl(Stepped(st.data, c).value.0)| <= MAX_ACL
    ensures Run(st.data, c) == Changed(Stepped(st.data, c).value.0)
  {
    hide Step, Run, Acl;
    StepRefinesEdit(st.data, c);
    LiveMatchesReplay(st.data, c, Stepped(st.data, c).value.0);
  }

  // ---------- whole runs ----------

  /** `governance init`. */
  function Bootstrap(sha: Digest, developer: string): State
  {
    State(NO_DATA.(developers := {developer}), Append(sha, [], Init(developer)))
  }

  lemma BootstrapReplays(sha: Digest, developer: string)
    requires ValidName(developer)
    ensures Replay(Bootstrap(sha, developer).audits) == Some((Bootstrap(sha, developer).data, Normal))
  {
    hide NextAudit;
    AppendReplay(sha, [], Init(developer));
    assert {} + {developer} == {developer};
  }

  /** `governance init` always yields a valid state (digest fixed points aside). */
  lemma BootstrapValid(sha: Digest, developer: string)
    requires ValidName(developer)
    ensures Valid(sha, Bootstrap(sha, developer)) <==>
            NextTransition(sha, [], ActionText(Init(developer)), developer) != RootTransition(sha)
  {
    var st := Bootstrap(sha, developer);
    BootstrapReplays(sha, developer);
    AppendChained(sha, [], Init(developer));
    MovesAppend(sha, [], Init(developer));
    assert RecordsFit(st) && ReferencesResolve(st.data) && DigestsCoherent(st.data) && ScopesOwned(st.data);
    assert Acl(st.data) == {};
    hide NextTransition, NextAudit, Chained, Replay;
    assert AllAuthorized(st.data);
  }

  /** The states a history of accepted commands goes through. */
  ghost predicate History(sha: Digest, states: seq<State>, commands: seq<Command>)
  {
    && |states| == |commands| + 1
    && forall k :: 0 <= k < |commands| ==> Accepted(sha, states[k], commands[k], states[k + 1])
  }

  /** A command was accepted: its guard passed and the new state was within bounds. */
  ghost predicate Accepted(sha: Digest, before: State, c: Command, after: State)
  {
    && WellFormed(c) && Run(before.data, c).Changed? && after == Commit(sha, before, c)
    && RecordsFit(after) && |Acl(after.data)| <= MAX_ACL && TransitionMoves(sha, before, c)
  }

  /** Every state in every history of accepted commands validates, and the log of
      each one replays to exactly its data. */
  lemma {:induction false} HistoryStaysValid(sha: Digest, states: seq<State>, commands: seq<Command>, k: nat)
    requires History(sha, states, commands) && Valid(sha, states[0]) && k <= |commands|
    ensures Valid(sha, states[k])
  {
    hide Valid, Run, Commit, WellFormed, RecordsFit, Acl, TransitionMoves, Replay;
    if k > 0 {
      HistoryStaysValid(sha, states, commands, k - 1);
      assert Accepted(sha, states[k - 1], commands[k - 1], states[k]);
      CommandAgreesWithReplay(sha, states[k - 1], commands[k - 1]);
    }
  }
}
