/** The audit hash chain, state validation, and what the last event hash pins down. */
module GovernanceChain {
  import opened Text
  import opened Hex
  import opened Names
  import opened Governance
  import opened GovernanceReplay

  /** SHA-256 of a text, as an unspecified function: nothing below assumes that it
      has no collisions. */
  type Digest = string -> Hash

  const AUDIT_ROOT := "root"
  const TRANSITION_ROOT := "ku-registry-governance-transition-root-v1"

  function HashHex(sha: Digest, text: string): (hex: string)
    ensures CanonicalHex(hex)
  {
    EncodeHex(sha(text))
  }

  function Terminated(parts: seq<string>): string
  {
    Join(parts + [""], '\n')
  }

  function EventParts(sequence: nat, previous: string, before: string, after: string, action: string, subject: string):
    seq<string>
  {
    [Decimal(sequence), previous, before, after, action, subject]
  }

  /** The canonical text whose digest is the event hash. */
  function EventText(a: Audit): string
  {
    Terminated(EventParts(a.sequence, a.previousHash, a.beforeTransition, a.transition, a.action, a.subject))
  }

  function TransitionText(before: string, action: string, subject: string): string
  {
    Terminated([before, action, subject])
  }

  function RootTransition(sha: Digest): string
  {
    HashHex(sha, TRANSITION_ROOT)
  }

  function PreviousHash(log: seq<Audit>): string
  {
    if |log| == 0 then AUDIT_ROOT else log[|log| - 1].eventHash
  }

  function LastTransition(sha: Digest, log: seq<Audit>): string
  {
    if |log| == 0 then RootTransition(sha) else log[|log| - 1].transition
  }

  function NextTransition(sha: Digest, log: seq<Audit>, action: string, subject: string): string
  {
    HashHex(sha, TransitionText(LastTransition(sha, log), action, subject))
  }

  /** The record that `append_governance_audit` pushes. */
  function NextAudit(sha: Digest, log: seq<Audit>, action: string, subject: string): (a: Audit)
    ensures a.action == action && a.subject == subject
    ensures a.transition == NextTransition(sha, log, action, subject) && a.beforeTransition == LastTransition(sha, log)
  {
    var before := LastTransition(sha, log);
    var after := NextTransition(sha, log, action, subject);
    var unsigned := Audit(|log| + 1, PreviousHash(log), "", before, after, action, subject);
    unsigned.(eventHash := HashHex(sha, EventText(unsigned)))
  }

  function Append(sha: Digest, log: seq<Audit>, e: Event): seq<Audit>
  {
    log + [NextAudit(sha, log, ActionText(e), SubjectText(e))]
  }

  /** Record `k` is exactly what appending to the first `k` records produces. */
  predicate Linked(sha: Digest, log: seq<Audit>, k: nat)
    requires k < |log|
  {
    log[k] == NextAudit(sha, log[..k], log[k].action, log[k].subject)
  }

  predicate Chained(sha: Digest, log: seq<Audit>)
  {
    forall k :: 0 <= k < |log| ==> Linked(sha, log, k)
  }

  /** Every event moved the transition hash. */
  predicate Moves(log: seq<Audit>)
  {
    forall k :: 0 <= k < |log| ==> log[k].transition != log[k].beforeTransition
  }

  predicate RecordsFit(st: State)
  {
    && |st.data.developers| <= MAX_RECORDS && |st.data.teams| <= MAX_RECORDS && |st.data.members| <= MAX_RECORDS
    && |st.data.owners| <= MAX_RECORDS && |st.data.tokens| <= MAX_RECORDS && |st.audits| <= MAX_AUDITS
  }

  predicate ScopesOwned(d: Data)
  {
    forall t :: t in d.tokens && t.scope.Package? ==> ValidName(t.scope.package) && t.scope.package in d.owners
  }

  /** `validate_governance_state`. */
  predicate Valid(sha: Digest, st: State)
  {
    && RecordsFit(st)
    && ReferencesResolve(st.data) && DigestsCoherent(st.data) && ScopesOwned(st.data)
    && |st.audits| > 0
    && AllAuthorized(st.data)
    && Chained(sha, st.audits) && Moves(st.audits)
    && Replay(st.audits) == Some((st.data, Normal))
  }

  lemma AppendChained(sha: Digest, log: seq<Audit>, e: Event)
    requires Chained(sha, log)
    ensures Chained(sha, Append(sha, log, e))
  {
    hide NextAudit;
    var longer := Append(sha, log, e);
    forall k | 0 <= k < |longer|
      ensures Linked(sha, longer, k)
    {
      if k < |log| {
        assert Linked(sha, log, k);
        assert longer[..k] == log[..k];
      } else {
        assert longer[..k] == log;
      }
    }
  }

  lemma AppendReplay(sha: Digest, log: seq<Audit>, e: Event)
    requires Replay(log).Some? && ValidEvent(e)
    ensures Replay(Append(sha, log, e)) == Step(Replay(log).value.0, Replay(log).value.1, e)
  {
    hide NextAudit, Step, ValidEvent, DecodeEvent, ActionText, SubjectText, Replay;
    var a := NextAudit(sha, log, ActionText(e), SubjectText(e));
    EventCodec(a.action, a.subject, e);
    ReplayAppend(log, a);
  }

  lemma ChainPrefix(sha: Digest, log: seq<Audit>, k: nat)
    requires k <= |log| && Chained(sha, log)
    ensures Chained(sha, log[..k])
  {
    hide NextAudit;
    forall j | 0 <= j < k
      ensures Linked(sha, log[..k], j)
    {
      assert Linked(sha, log, j);
      assert log[..k][..j] == log[..j];
    }
  }

  // ---------- the last hash pins down everything ----------

  ghost predicate Collision(sha: Digest, x: string, y: string)
  {
    x != y && sha(x) == sha(y)
  }

  predicate OneLine(s: string)
  {
    '\n' !in s
  }

  lemma PlainOneLine(s: string)
    requires Plain(s)
    ensures OneLine(s)
  {
  }

  lemma SubjectOneLine(e: Event)
    requires ValidEvent(e)
    ensures OneLine(SubjectText(e))
  {
    hide ValidEvent, SubjectText, Plain;
    SubjectIsValid(e);
    PlainOneLine(SubjectText(e));
  }

  lemma ActionOneLine(k: Kind)
    ensures OneLine(KindText(k))
  {
    hide ValidName, Plain, KindText;
    ActionIsName(k);
    NamePlain(KindText(k));
    PlainOneLine(KindText(k));
  }

  lemma DigitsOneLine(n: nat)
    ensures OneLine(Decimal(n))
  {
    assert forall i :: 0 <= i < |Decimal(n)| ==> IsDigit(Decimal(n)[i]);
  }

  lemma HexOneLine(hex: string)
    requires CanonicalHex(hex)
    ensures OneLine(hex)
  {
  }

  predicate LinePartsOk(a: Audit)
  {
    && OneLine(a.previousHash) && OneLine(a.beforeTransition) && OneLine(a.transition)
    && OneLine(a.action) && OneLine(a.subject)
  }

  lemma LinkedHex(sha: Digest, log: seq<Audit>, k: nat)
    requires k < |log| && Linked(sha, log, k)
    ensures CanonicalHex(log[k].eventHash) && CanonicalHex(log[k].transition)
    ensures log[k].previousHash == PreviousHash(log[..k]) && log[k].beforeTransition == LastTransition(sha, log[..k])
  {
    hide CanonicalHex;
  }

  lemma HashesOneLine(sha: Digest, log: seq<Audit>)
    requires |log| > 0 && Chained(sha, log)
    ensures var a := log[|log| - 1]; OneLine(a.previousHash) && OneLine(a.beforeTransition) && OneLine(a.transition)
  {
    var n := |log| - 1;
    assert Linked(sha, log, n) && (n > 0 ==> Linked(sha, log, n - 1));
    hide OneLine, HashHex, Linked, CanonicalHex, Chained;
    LinkedHex(sha, log, n);
    HexOneLine(log[n].transition);
    if n > 0 {
      LinkedHex(sha, log, n - 1);
      HexOneLine(log[n - 1].eventHash);
      HexOneLine(log[n - 1].transition);
    } else {
      HexOneLine(RootTransition(sha));
      RootOneLine();
    }
  }

  /** No field of an accepted record can smuggle in a separator. */
  lemma RecordOneLine(sha: Digest, log: seq<Audit>)
    requires |log| > 0 && Chained(sha, log) && Replay(log).Some?
    ensures LinePartsOk(log[|log| - 1])
  {
    hide Replay, DecodeEvent, ValidEvent, SubjectText, KindText, OneLine, HashHex, Chained;
    HashesOneLine(sha, log);
    LastDecodes(log);
    var last := log[|log| - 1];
    var e := DecodeEvent(last.action, last.subject).value;
    EventCodec(last.action, last.subject, e);
    SubjectOneLine(e);
    ActionOneLine(KindOf(e));
  }

  lemma RootOneLine()
    ensures OneLine(AUDIT_ROOT)
  {
  }

  lemma LastDecodes(log: seq<Audit>)
    requires |log| > 0 && Replay(log).Some?
    ensures Replay(log[..|log| - 1]).Some? && DecodeEvent(log[|log| - 1].action, log[|log| - 1].subject).Some?
  {
    hide Step, DecodeEvent;
  }

  /** The canonical event text is injective on records whose fields hold no newline. */
  lemma EventTextInjective(a: Audit, b: Audit)
    requires LinePartsOk(a) && LinePartsOk(b) && EventText(a) == EventText(b)
    ensures a.(eventHash := b.eventHash) == b
  {
    hide OneLine, Join;
    var p := EventParts(a.sequence, a.previousHash, a.beforeTransition, a.transition, a.action, a.subject) + [""];
    var q := EventParts(b.sequence, b.previousHash, b.beforeTransition, b.transition, b.action, b.subject) + [""];
    TextParts(a, p);
    TextParts(b, q);
    assert p == q;
    assert p[0] == q[0] && p[1] == q[1] && p[2] == q[2] && p[3] == q[3] && p[4] == q[4] && p[5] == q[5];
    DecimalValueOfDecimal(a.sequence);
    DecimalValueOfDecimal(b.sequence);
  }

  lemma TextParts(a: Audit, parts: seq<string>)
    requires LinePartsOk(a)
    requires parts == EventParts(a.sequence, a.previousHash, a.beforeTransition, a.transition, a.action, a.subject) + [""]
    ensures Split(EventText(a), '\n') == parts
  {
    DigitsOneLine(a.sequence);
    SplitOfJoin(parts, '\n');
  }

  /** The text behind a transition hash gives back the previous hash, the action and
      the subject. */
  lemma TransitionTextInjective(before: string, action: string, subject: string,
                                before': string, action': string, subject': string)
    requires OneLine(before) && OneLine(action) && OneLine(subject)
    requires OneLine(before') && OneLine(action') && OneLine(subject')
    requires TransitionText(before, action, subject) == TransitionText(before', action', subject')
    ensures before == before' && action == action' && subject == subject'
  {
    hide Join, Split;
    var p, q := [before, action, subject] + [""], [before', action', subject'] + [""];
    SplitOfJoin(p, '\n');
    SplitOfJoin(q, '\n');
    assert p == q && p[0] == q[0] && p[1] == q[1] && p[2] == q[2];
  }

  /** The same actions on the same subjects, in the same order. */
  predicate SameActions(a: seq<Audit>, b: seq<Audit>)
  {
    |a| == |b| && forall k :: 0 <= k < |a| ==> a[k].action == b[k].action && a[k].subject == b[k].subject
  }

  lemma LastStep(sha: Digest, log: seq<Audit>)
    requires |log| > 0 && Chained(sha, log)
    ensures var a := log[|log| - 1];
            a.transition == EncodeHex(sha(TransitionText(LastTransition(sha, log[..|log| - 1]), a.action, a.subject)))
            && a.beforeTransition == LastTransition(sha, log[..|log| - 1])
  {
    hide TransitionText, EventText;
    assert Linked(sha, log, |log| - 1);
  }

  /** The text that the last transition hash of a log was taken of. */
  function LastText(sha: Digest, log: seq<Audit>): string
  {
    if |log| == 0 then TRANSITION_ROOT
    else TransitionText(LastTransition(sha, log[..|log| - 1]), log[|log| - 1].action, log[|log| - 1].subject)
  }

  lemma LastTextHashes(sha: Digest, log: seq<Audit>)
    requires Chained(sha, log)
    ensures LastTransition(sha, log) == EncodeHex(sha(LastText(sha, log)))
  {
    hide TransitionText, Chained;
    if |log| > 0 {
      LastStep(sha, log);
    }
  }

  /** A transition text ends its last line; the root text does not. */
  lemma RootTextDiffers(before: string, action: string, subject: string)
    ensures TransitionText(before, action, subject) != TRANSITION_ROOT
  {
    hide Join;
    var parts := [before, action, subject, ""];
    assert [before, action, subject] + [""] == parts;
    JoinEnds([before, action, subject], '\n');
    assert TRANSITION_ROOT[|TRANSITION_ROOT| - 1] == '1';
  }

  lemma {:induction false} JoinEnds(parts: seq<string>, sep: char)
    requires |parts| > 0
    ensures var s := Join(parts + [""], sep); |s| > 0 && s[|s| - 1] == sep
  {
    var all := parts + [""];
    if |parts| == 1 {
      assert all == [parts[0], ""];
      assert all[1..] == [""];
    } else {
      JoinEnds(parts[1..], sep);
      assert all[1..] == parts[1..] + [""];
    }
  }

  /** Two chained logs with the same transition hash performed the same actions on the
      same subjects, or two different transition texts of theirs collide. */
  lemma {:induction false} LastTransitionDeterminesActions(sha: Digest, a: seq<Audit>, b: seq<Audit>)
    returns (i: nat, j: nat)
    requires Chained(sha, a) && Chained(sha, b) && Replay(a).Some? && Replay(b).Some?
    requires LastTransition(sha, a) == LastTransition(sha, b)
    ensures i <= |a| && j <= |b|
    ensures SameActions(a, b) || Collision(sha, LastText(sha, a[..i]), LastText(sha, b[..j]))
    decreases |a|
  {
    hide Replay, EventText, Chained, EncodeHex, Collision, LastText, LastTransition, TransitionText, OneLine;
    i, j := |a|, |b|;
    assert a[..i] == a && b[..j] == b;
    LastTextHashes(sha, a);
    LastTextHashes(sha, b);
    EncodeInjective(sha(LastText(sha, a)), sha(LastText(sha, b)));
    Colliding(sha, LastText(sha, a), LastText(sha, b));
    if LastText(sha, a) == LastText(sha, b) {
      BothEmptyOrNot(sha, a, b);
      if |a| > 0 {
        SameLastStep(sha, a, b);
        var m, n := |a| - 1, |b| - 1;
        ChainPrefix(sha, a, m);
        ChainPrefix(sha, b, n);
        ReplayPrefix(a, m);
        ReplayPrefix(b, n);
        i, j := LastTransitionDeterminesActions(sha, a[..m], b[..n]);
        assert a[..m][..i] == a[..i] && b[..n][..j] == b[..j];
        assert a == a[..m] + [a[m]] && b == b[..n] + [b[n]];
      }
    }
  }

  lemma BothEmptyOrNot(sha: Digest, a: seq<Audit>, b: seq<Audit>)
    requires LastText(sha, a) == LastText(sha, b)
    ensures |a| == 0 <==> |b| == 0
  {
    hide TransitionText, LastTransition;
    if |a| > 0 {
      RootTextDiffers(LastTransition(sha, a[..|a| - 1]), a[|a| - 1].action, a[|a| - 1].subject);
    }
    if |b| > 0 {
      RootTextDiffers(LastTransition(sha, b[..|b| - 1]), b[|b| - 1].action, b[|b| - 1].subject);
    }
  }

  lemma SameLastStep(sha: Digest, a: seq<Audit>, b: seq<Audit>)
    requires |a| > 0 && |b| > 0 && LastText(sha, a) == LastText(sha, b)
    requires Chained(sha, a) && Chained(sha, b) && Replay(a).Some? && Replay(b).Some?
    ensures LastTransition(sha, a[..|a| - 1]) == LastTransition(sha, b[..|b| - 1])
    ensures a[|a| - 1].action == b[|b| - 1].action && a[|a| - 1].subject == b[|b| - 1].subject
  {
    hide Replay, EventText, Chained, OneLine, TransitionText, LastTransition;
    var x, y := a[|a| - 1], b[|b| - 1];
    RecordOneLine(sha, a);
    RecordOneLine(sha, b);
    LastStep(sha, a);
    LastStep(sha, b);
    TransitionTextInjective(x.beforeTransition, x.action, x.subject, y.beforeTransition, y.action, y.subject);
  }

  /** If two accepted logs end in the same event hash, they are the same log, or
      two different event texts among them collide under the digest. */
  lemma {:induction false} LastHashDeterminesLog(sha: Digest, a: seq<Audit>, b: seq<Audit>) returns (i: nat, j: nat)
    requires |a| > 0 && |b| > 0
    requires Chained(sha, a) && Chained(sha, b) && Replay(a).Some? && Replay(b).Some?
    requires a[|a| - 1].eventHash == b[|b| - 1].eventHash
    ensures i < |a| && j < |b|
    ensures a == b || Collision(sha, EventText(a[i]), EventText(b[j]))
    decreases |a|
  {
    hide Replay, EventText, LinePartsOk, Chained, EncodeHex, Collision;
    i, j := |a| - 1, |b| - 1;
    Colliding(sha, EventText(a[i]), EventText(b[j]));
    SignedRecord(sha, a);
    SignedRecord(sha, b);
    EncodeInjective(sha(EventText(a[i])), sha(EventText(b[j])));
    if EventText(a[i]) == EventText(b[j]) {
      RecordOneLine(sha, a);
      RecordOneLine(sha, b);
      EventTextInjective(a[i], b[j]);
      assert |a| == |b|;
      if |a| > 1 {
        ChainPrefix(sha, a, i);
        ChainPrefix(sha, b, j);
        ReplayPrefix(a, i);
        ReplayPrefix(b, j);
        var last := |a| - 1;
        i, j := LastHashDeterminesLog(sha, a[..last], b[..last]);
        assert a == a[..last] + [a[last]] && b == b[..last] + [b[last]];
      }
    }
  }

  lemma Colliding(sha: Digest, x: string, y: string)
    ensures x != y && sha(x) == sha(y) ==> Collision(sha, x, y)
  {
  }

  lemma SignedRecord(sha: Digest, log: seq<Audit>)
    requires |log| > 0 && Chained(sha, log)
    ensures var a := log[|log| - 1];
            && a.eventHash == EncodeHex(sha(EventText(a))) && a.sequence == |log|
            && a.previousHash == PreviousHash(log[..|log| - 1])
  {
    assert Linked(sha, log, |log| - 1);
  }

  /** The last event hash pins down the whole governance state: two valid states
      that end in the same hash are equal, log and data, unless the digest has a
      collision between two concrete event texts of the two logs. */
  lemma LastHashDeterminesState(sha: Digest, a: State, b: State) returns (i: nat, j: nat)
    requires Valid(sha, a) && Valid(sha, b)
    requires a.audits[|a.audits| - 1].eventHash == b.audits[|b.audits| - 1].eventHash
    ensures i < |a.audits| && j < |b.audits|
    ensures a == b || Collision(sha, EventText(a.audits[i]), EventText(b.audits[j]))
  {
    i, j := LastHashDeterminesLog(sha, a.audits, b.audits);
  }
}
