/** The restart loop of the resident supervisor: launches, replacements, their rate
    limit and the pause before each, over every sequence of process events. */
module Restart {
  import opened Sets
  import opened Text

  const MAX_MS: nat := 24 * 60 * 60 * 1000
  const MAX_RESTARTS: nat := 1000

  /** Restart limit and window, first and largest pause, in milliseconds. */
  datatype Policy = Policy(limit: nat, window: nat, base: nat, maxBackoff: nat)

  predicate ValidPolicy(p: Policy)
  {
    1 <= p.limit <= MAX_RESTARTS && 1 <= p.window <= MAX_MS && 1 <= p.base <= p.maxBackoff <= MAX_MS
  }

  /** The accepted ranges: up to 1000 restarts, and durations up to a day. */
  lemma PolicyRule(p: Policy)
    ensures ValidPolicy(p) <==>
            && 0 < p.limit <= 1000 && 0 < p.window <= 86_400_000
            && 0 < p.base <= 86_400_000 && 0 < p.maxBackoff <= 86_400_000 && p.base <= p.maxBackoff
  {
  }

  // ---------- one instance ----------

  /** What a termination request or a cleanup returned. A failure carries the flag
      `cleanup_confirmed` of its error. */
  datatype Retirement = Done | Failed(claimsCleanup: bool)

  /** How an instance ended; `cleaned` says whether its cleanup succeeded, `memoryLimit`
      whether the provider blames its configured limit. An exit code is missing after a
      signal. An unhealthy instance either lost its liveness or, still `live`, was not
      ready in time; while drained it may exit by itself, with a code. */
  datatype Ending =
    | StopRequested(cleaned: bool)
    | Exited(code: Option<nat>, readySince: Option<nat>, at: nat, cleaned: bool, memoryLimit: bool)
    | Unhealthy(live: bool, drained: Option<nat>, cleaned: bool, memoryLimit: bool)
    | Broken(cleaned: bool) // control or metrics error

  datatype Launch =
    | NotStarted // no process was created
    | Abandoned(reaped: bool) // killed and waited for at once, without looking at the results
    | DomainFailed(retired: bool) // the memory domain's error says whether its group is gone
    | ReleaseFailed(terminate: Retirement, cleanup: Retirement)
    | Launched(end: Ending)

  // ---------- reasons ----------

  datatype Reason =
    | StartupExit | NormalExit | ProcessExit | RuntimeReport | LivenessFailed | StartupTimeout | OsMemoryLimit
    | LaunchFailed

  /** `record_exit`: the codes 75 to 80 are the runtime's own reports. */
  function AfterExit(reason: Reason, code: Option<nat>): Reason
  {
    if code.Some? && 75 <= code.value <= 80 then RuntimeReport else reason
  }

  /** `record_metrics`: a memory-limit termination overrides every other reason. */
  function AfterMetrics(reason: Reason, memoryLimit: bool): Reason
  {
    if memoryLimit then OsMemoryLimit else reason
  }

  function ExitReason(code: Option<nat>, ready: bool): Reason
  {
    if !ready && code != Some(0) then StartupExit else if code == Some(0) then NormalExit else ProcessExit
  }

  /** `last_reason` after a launch that is followed by a replacement. */
  function LastReason(l: Launch): Reason
  {
    match l
    case Launched(Exited(code, ready, _, _, memoryLimit)) =>
      AfterMetrics(AfterExit(ExitReason(code, ready.Some?), code), memoryLimit)
    case Launched(Unhealthy(live, drained, _, memoryLimit)) =>
      AfterMetrics(AfterExit(if live then StartupTimeout else LivenessFailed, drained), memoryLimit)
    case _ => LaunchFailed
  }

  // ---------- the decision ----------

  /** End the service as asked, end it with an error, or replace the instance. */
  datatype Effect = Stop | Halt | Replace(stable: bool, failing: bool)

  /** The flag `cleanup_confirmed` on the error of a failed launch. */
  function LaunchFlag(l: Launch): bool
    requires !l.Launched?
  {
    match l
    case NotStarted => true
    case Abandoned(_) => true
    case DomainFailed(retired) => retired
    case ReleaseFailed(Failed(flag), _) => flag
    case ReleaseFailed(Done, Failed(flag)) => flag
    case ReleaseFailed(Done, Done) => true
  }

  /** The loop's decision after one launch. A failed launch and any reason but a normal
      exit double the next pause. */
  function After(p: Policy, l: Launch): Effect
  {
    match l
    case Launched(StopRequested(cleaned)) => if cleaned then Stop else Halt
    case Launched(Broken(_)) => Halt
    case Launched(Unhealthy(_, _, cleaned, _)) =>
      if cleaned then Replace(false, LastReason(l) != NormalExit) else Halt
    case Launched(Exited(_, ready, at, cleaned, _)) =>
      if cleaned then Replace(ready.Some? && at >= ready.value + p.window, LastReason(l) != NormalExit) else Halt
    case _ => if LaunchFlag(l) then Replace(false, true) else Halt
  }

  /** The instance was cleaned up after it exited by itself or was found unhealthy. */
  predicate EndedAlone(l: Launch)
  {
    l.Launched? && (l.end.Exited? || l.end.Unhealthy?) && l.end.cleaned
  }

  /** The launch failed, and its error claims that nothing is left. */
  predicate FailedClean(l: Launch)
  {
    || l.NotStarted? || l.Abandoned? || l == DomainFailed(true)
    || (l.ReleaseFailed? && l.terminate == Failed(true))
    || (l.ReleaseFailed? && l.terminate == Done && (l.cleanup == Done || l.cleanup == Failed(true)))
  }

  /** Exactly which launches are replaced, and that a clean stop ends the service. */
  lemma ReplacedIff(p: Policy, l: Launch)
    ensures After(p, l).Replace? <==> EndedAlone(l) || FailedClean(l)
    ensures After(p, l).Stop? <==> l == Launched(StopRequested(true))
  {
  }

  /** Is the process of this launch known to be gone? Nothing was started, or it was
      reaped, or its group was retired by a cleanup that succeeded. */
  predicate Confirmed(l: Launch)
  {
    match l
    case NotStarted => true
    case Abandoned(reaped) => reaped
    case DomainFailed(retired) => retired
    case ReleaseFailed(terminate, cleanup) => terminate.Done? && cleanup.Done?
    case Launched(end) => end.cleaned
  }

  /** Failed launches whose error carries `cleanup_confirmed` for no reason: a child that
      was killed and waited for without success, or a release that failed and whose
      termination or cleanup then failed with a plain error. */
  predicate Mislabelled(l: Launch)
  {
    || l == Abandoned(false)
    || (l.ReleaseFailed? && (l.terminate == Failed(true) || (l.terminate == Done && l.cleanup == Failed(true))))
  }

  /** A replacement starts only after a confirmed retirement, exactly but for these. */
  lemma ReplacementIsSafeIff(p: Policy, l: Launch)
    ensures (After(p, l).Replace? ==> Confirmed(l)) <==> !Mislabelled(l)
  {
  }

  /** Both families are not empty: killing the process group can fail with such an
      error, and so can killing a child whose job could not be assigned. */
  lemma MislabelledLaunches(p: Policy)
    ensures After(p, ReleaseFailed(Done, Failed(true))) == After(p, Abandoned(false)) == Replace(false, true)
    ensures !Confirmed(ReleaseFailed(Done, Failed(true))) && !Confirmed(Abandoned(false))
  {
  }

  /** Only an instance that was ready for a whole window and exited counts as stable.
      Only an exit with code zero that is not put down to the memory limit spares the
      next pause its doubling. */
  lemma StableMeansReady(p: Policy, l: Launch)
    ensures After(p, l).Replace? && !After(p, l).failing <==>
            l.Launched? && l.end.Exited? && l.end.cleaned && l.end.code == Some(0) && !l.end.memoryLimit
    ensures After(p, l).Replace? && After(p, l).stable <==>
            && l.Launched? && l.end.Exited? && l.end.cleaned
            && l.end.readySince.Some? && l.end.at >= l.end.readySince.value + p.window
  {
  }

  // ---------- history of a run ----------

  datatype Start = Start(generation: nat, time: nat, unretired: nat)

  datatype Replacement = Replacement(time: nat, wait: nat, stable: bool, failing: bool)

  function Power2(k: nat): nat
  {
    if k == 0 then 1 else 2 * Power2(k - 1)
  }

  /** The first pause doubled `k` times, at most the largest pause. */
  function Capped(p: Policy, k: nat): nat
  {
    var raw := p.base * Power2(k);
    if raw < p.maxBackoff then raw else p.maxBackoff
  }

  lemma CappedRange(p: Policy, k: nat)
    requires p.base <= p.maxBackoff
    ensures p.base <= Capped(p, k) <= p.maxBackoff
  {
    PowerPositive(k);
    Scale(1, Power2(k), p.base);
  }

  lemma {:induction false} PowerPositive(k: nat)
    ensures Power2(k) >= 1
  {
    if k > 0 {
      PowerPositive(k - 1);
    }
  }

  lemma Scale(a: nat, b: nat, c: nat)
    requires a <= b
    ensures c * a <= c * b
  {
  }

  lemma CappedDoubles(p: Policy, k: nat)
    ensures Capped(p, k + 1) == if 2 * Capped(p, k) < p.maxBackoff then 2 * Capped(p, k) else p.maxBackoff
  {
    DoubledProduct(p.base, Power2(k));
    assert Power2(k + 1) == 2 * Power2(k);
    hide Power2;
  }

  lemma DoubledProduct(a: nat, b: nat)
    ensures a * (2 * b) == 2 * (a * b)
  {
  }

  /** Failing replacements since the last stable instance. */
  function Streak(log: seq<Replacement>): nat
  {
    if |log| == 0 then 0
    else
      var last := log[|log| - 1];
      (if last.stable then 0 else Streak(log[..|log| - 1])) + if last.failing then 1 else 0
  }

  lemma StreakSnoc(log: seq<Replacement>, r: Replacement)
    ensures Streak(log + [r]) == (if r.stable then 0 else Streak(log)) + if r.failing then 1 else 0
  {
    assert (log + [r])[..|log|] == log;
  }

  /** Each pause doubles with every failure since the last stable instance. */
  ghost predicate Paused(p: Policy, log: seq<Replacement>)
  {
    forall k :: 0 <= k < |log| ==> log[k].wait == Capped(p, if log[k].stable then 0 else Streak(log[..k]))
  }

  ghost predicate Ordered(log: seq<Replacement>)
  {
    forall i, j :: 0 <= i <= j < |log| ==> log[i].time <= log[j].time
  }

  /** Any `limit + 1` replacements in a row take at least a window. */
  ghost predicate Spaced(p: Policy, log: seq<Replacement>)
  {
    forall i, j :: 0 <= i && j == i + p.limit < |log| ==> log[j].time >= log[i].time + p.window
  }

  /** The replacements that fall into the window starting at `t`. */
  ghost function InWindow(p: Policy, log: seq<Replacement>, t: nat): set<int>
  {
    set i | 0 <= i < |log| && t <= log[i].time < t + p.window
  }

  ghost function Interval(lo: nat, n: nat): (r: set<int>)
    ensures forall i: int :: i in r <==> lo <= i < lo + n
    ensures |r| == n
  {
    if n == 0 then {} else Interval(lo, n - 1) + {lo + n - 1}
  }

  lemma {:induction false} FirstIn(s: set<int>, from: nat, bound: nat, some: int) returns (lo: nat)
    requires some in s && forall i: int :: i in s ==> from <= i < bound
    ensures lo in s && forall i :: i in s ==> lo <= i
    decreases bound - from
  {
    assert from <= some < bound;
    if from in s {
      lo := from;
    } else {
      lo := FirstIn(s, from + 1, bound, some);
    }
  }

  lemma Apart(p: Policy, log: seq<Replacement>, i: nat, k: nat)
    requires Ordered(log) && Spaced(p, log) && i + p.limit <= k < |log|
    ensures log[k].time >= log[i].time + p.window
  {
    var j := i + p.limit;
    assert log[j].time >= log[i].time + p.window;
  }

  /** The rate limit: no window, wherever it starts, holds more replacements than the limit. */
  lemma WindowHoldsAtMostLimit(p: Policy, log: seq<Replacement>, t: nat)
    requires Ordered(log) && Spaced(p, log)
    ensures |InWindow(p, log, t)| <= p.limit
  {
    hide Ordered, Spaced;
    var s := InWindow(p, log, t);
    if some :| some in s {
      var lo := FirstIn(s, 0, |log|, some);
      forall i | i in s
        ensures i < lo + p.limit
      {
        if i >= lo + p.limit {
          Apart(p, log, lo, i);
        }
      }
      SubsetSize(s, Interval(lo, p.limit));
    } else {
      assert s == {};
    }
  }

  function Latest(log: seq<Replacement>): nat
  {
    if |log| == 0 then 0 else log[|log| - 1].time
  }

  /** A queue of restart times is the end of the log, and what was dropped from it
      is at least a window older than `now`. */
  ghost predicate Recent(p: Policy, log: seq<Replacement>, times: seq<nat>, now: nat)
  {
    && |times| <= |log|
    && (forall k :: 0 <= k < |times| ==> times[k] == log[|log| - |times| + k].time)
    && (forall k :: 0 <= k < |log| - |times| ==> now >= log[k].time + p.window)
  }

  lemma RecentGrows(p: Policy, log: seq<Replacement>, times: seq<nat>, r: Replacement)
    requires Recent(p, log, times, r.time)
    ensures Recent(p, log + [r], times + [r.time], Latest(log + [r]))
  {
  }

  /** Starts are numbered from one, and each replacement starts only after its pause. */
  ghost predicate Numbered(starts: seq<Start>, log: seq<Replacement>)
  {
    && (forall k :: 0 <= k < |starts| ==> starts[k].generation == k + 1)
    && (forall k :: 0 <= k < |log| && k + 1 < |starts| ==> starts[k + 1].time >= log[k].time + log[k].wait)
  }

  // ---------- the loop ----------

  /** What the environment answers in one pass. Clock readings never go back, so a
      reading is the later of the answer and the previous reading. */
  datatype Answer = Answer(stop: bool, startedAt: nat, launch: Launch, now: nat, stopInPause: bool)

  datatype Status = Running | Stopped | Halted | Exhausted | IntensityExceeded

  function Later(a: nat, b: nat): nat
  {
    if a < b then b else a
  }

  class Service {
    const policy: Policy
    var generation: nat
    var restarts: nat
    var restartTimes: seq<nat>
    var backoff: nat
    var clock: nat
    ghost var starts: seq<Start>
    ghost var log: seq<Replacement>
    ghost var unretired: nat

    /** The history so far: in order, within the rate limit, with the right pauses. */
    ghost predicate History()
      reads this
    {
      && ValidPolicy(policy) && Recent(policy, log, restartTimes, Latest(log)) && |restartTimes| <= policy.limit
      && Ordered(log) && Spaced(policy, log) && Paused(policy, log)
      && (forall k :: 0 <= k < |log| ==> log[k].time <= clock)
      && restarts == |log|
    }

    ghost predicate Valid()
      reads this
    {
      && History() && backoff == Capped(policy, Streak(log))
      && generation == |starts| < U64_LIMIT && |log| <= |starts|
      && Numbered(starts, log)
    }

    /** At the head of the loop every start so far was followed by a restart, and
        the pause of the last one is over. */
    ghost predicate AtHead()
      reads this
    {
      Valid() && |log| == |starts| && (|log| > 0 ==> log[|log| - 1].time + log[|log| - 1].wait <= clock)
    }

    constructor (policy: Policy)
      requires ValidPolicy(policy)
      ensures AtHead() && this.policy == policy && log == [] && starts == [] && unretired == 0
    {
      this.policy := policy;
      generation, restarts, restartTimes, backoff, clock := 0, 0, [], policy.base, 0;
      starts, log, unretired := [], [], 0;
      new;
      FirstPause(policy);
    }

    /** Forget restarts a window ago or more, then admit one more restart exactly
        when fewer than the limit remain. */
    method AdmitRestart(now: nat) returns (admitted: bool)
      requires ValidPolicy(policy) && Recent(policy, log, restartTimes, Latest(log)) && Latest(log) <= now
      requires |restartTimes| <= policy.limit && Ordered(log)
      modifies this`restartTimes
      ensures admitted <==> |log| < policy.limit || now >= log[|log| - policy.limit].time + policy.window
      ensures Recent(policy, log, restartTimes, now) && (admitted ==> |restartTimes| < policy.limit)
    {
      while |restartTimes| > 0 && now - restartTimes[0] >= policy.window
        invariant |restartTimes| <= policy.limit && Recent(policy, log, restartTimes, now)
        decreases |restartTimes|
      {
        restartTimes := restartTimes[1..];
      }
      admitted := |restartTimes| < policy.limit;
    }

    /** Count a launch; every earlier process that was not retired is still counted. */
    method Begin(startedAt: nat)
      requires AtHead() && |starts| + 1 < U64_LIMIT
      modifies this`generation, this`clock, this`starts
      ensures Valid() && clock == Later(old(clock), startedAt)
      ensures starts == old(starts) + [Start(|old(starts)| + 1, clock, unretired)]
    {
      hide Capped, Streak, Spaced, Ordered, Paused, Recent;
      generation := generation + 1;
      clock := Later(clock, startedAt);
      NumberedStart(starts, log, Start(generation, clock, unretired));
      hide Numbered;
      starts := starts + [Start(generation, clock, unretired)];
    }

    /** Admit or refuse one more restart at the time `clock`, and record it. */
    method Restart(stable: bool, failing: bool) returns (admitted: bool)
      requires History()
      modifies this`restartTimes, this`restarts, this`log
      ensures admitted <==> |old(log)| < policy.limit
                            || clock >= old(log)[|old(log)| - policy.limit].time + policy.window
      ensures var k := if stable then 0 else Streak(old(log));
              admitted ==>
                && History() && log == old(log) + [Replacement(clock, Capped(policy, k), stable, failing)]
      ensures !admitted ==> log == old(log) && restarts == old(restarts)
    {
      hide Capped, Streak;
      admitted := AdmitRestart(clock);
      if admitted {
        ghost var k := if stable then 0 else Streak(log);
        ghost var r := Replacement(clock, Capped(policy, k), stable, failing);
        LogGrows(policy, log, r);
        RecentGrows(policy, log, restartTimes, r);
        hide Spaced, Ordered, Paused, Recent;
        log := log + [r];
        restartTimes := restartTimes + [clock];
        restarts := restarts + 1;
      }
    }

    /** The second half of a pass: the rate limit, the pause and its growth. */
    method Follow(stable: bool, failing: bool, now: nat, stopInPause: bool) returns (s: Status)
      requires Valid() && |log| + 1 == |starts|
      modifies this`restartTimes, this`restarts, this`log, this`clock, this`backoff
      ensures s == Running ==> AtHead()
      ensures InOrder(policy, starts, log)
      ensures s == (if |old(log)| < policy.limit
                       || Later(old(clock), now) >= old(log)[|old(log)| - policy.limit].time + policy.window
                    then if stopInPause then Stopped else Running
                    else IntensityExceeded)
      ensures log == old(log) ||
              exists r: Replacement :: log == old(log) + [r] && r.stable == stable && r.failing == failing
      ensures s == IntensityExceeded ==>
                log == old(log) && |log| >= policy.limit && clock < log[|log| - policy.limit].time + policy.window
    {
      hide Capped, Streak, Spaced, Ordered, Paused, Numbered, Recent;
      if stable {
        backoff := policy.base;
      }
      FirstPause(policy);
      clock := Later(clock, now);
      ghost var k := if stable then 0 else Streak(log);
      ghost var earlier := log;
      var admitted := Restart(stable, failing);
      if !admitted {
        return IntensityExceeded;
      }
      NumberedLog(starts, earlier, log[|log| - 1]);
      if stopInPause {
        return Stopped;
      }
      StreakSnoc(earlier, log[|log| - 1]);
      clock := clock + backoff;
      if failing {
        CappedDoubles(policy, k);
        backoff := if 2 * backoff < policy.maxBackoff then 2 * backoff else policy.maxBackoff;
      }
      s := Running;
    }

    /** The time of the restart decision of a pass. */
    ghost function Decision(a: Answer): nat
      reads this
    {
      Later(Later(clock, a.startedAt), a.now)
    }

    /** Is there room for one more restart at that time? */
    ghost predicate Room(a: Answer)
      reads this
    {
      |log| < policy.limit || (policy.limit >= 1 && Decision(a) >= log[|log| - policy.limit].time + policy.window)
    }

    /** How a pass ends, for each of its answers. */
    ghost function Verdict(a: Answer): Status
      reads this
    {
      if a.stop then Stopped
      else if generation + 1 >= U64_LIMIT then Exhausted
      else if a.launch == Launched(StopRequested(true)) then Stopped
      else if !EndedAlone(a.launch) && !FailedClean(a.launch) then Halted
      else if !Room(a) then IntensityExceeded
      else if a.stopInPause then Stopped
      else Running
    }

    /** One pass of the loop. */
    method Pass(a: Answer) returns (s: Status)
      requires AtHead()
      modifies this
      ensures s == old(Verdict(a))
      ensures |starts| == |old(starts)| + if a.stop || s == Exhausted then 0 else 1
      ensures s == Exhausted ==> |starts| + 1 == U64_LIMIT
      ensures s == Running ==> AtHead() && |starts| == |old(starts)| + 1
      ensures s == Running ==> unretired == old(unretired) + if Mislabelled(a.launch) then 1 else 0
      ensures InOrder(policy, starts, log)
      ensures starts == old(starts) ||
              exists st: Start :: starts == old(starts) + [st] && st.unretired == old(unretired)
      ensures log == old(log) ||
              exists r: Replacement :: log == old(log) + [r] && Records(After(policy, a.launch), r)
      ensures s == IntensityExceeded ==>
                |log| >= policy.limit && clock < log[|log| - policy.limit].time + policy.window
    {
      hide Capped, Streak, Spaced, Ordered, Paused, Numbered, Recent;
      if a.stop {
        return Stopped;
      }
      if generation + 1 >= U64_LIMIT {
        return Exhausted;
      }
      Begin(a.startedAt);
      var effect := After(policy, a.launch);
      ReplacementIsSafeIff(policy, a.launch);
      ReplacedIff(policy, a.launch);
      hide After, Mislabelled, Confirmed, EndedAlone, FailedClean;
      if effect.Stop? {
        return Stopped;
      }
      if effect.Halt? {
        return Halted;
      }
      unretired := unretired + if Confirmed(a.launch) then 0 else 1;
      s := Follow(effect.stable, effect.failing, a.now, a.stopInPause);
    }
  }

  /** A log entry for the instance that ended with this effect. */
  predicate Records(e: Effect, r: Replacement)
  {
    e.Replace? && r.stable == e.stable && r.failing == e.failing
  }

  /** Entry `k` of the log is about the `k`-th launch. */
  ghost predicate LaunchesRecorded(p: Policy, tape: nat -> Answer, log: seq<Replacement>)
  {
    forall k: nat :: k < |log| ==> Records(After(p, tape(k).launch), log[k])
  }

  lemma LaunchesGrow(p: Policy, tape: nat -> Answer, log: seq<Replacement>)
    requires LaunchesRecorded(p, tape, log)
    ensures forall r: Replacement :: Records(After(p, tape(|log|).launch), r) ==> LaunchesRecorded(p, tape, log + [r])
  {
    hide Records, After;
    forall r: Replacement | Records(After(p, tape(|log|).launch), r)
      ensures LaunchesRecorded(p, tape, log + [r])
    {
      forall k: nat | k < |log| + 1
        ensures Records(After(p, tape(k).launch), (log + [r])[k])
      {
        if k < |log| {
          assert (log + [r])[k] == log[k];
        }
      }
    }
  }

  /** The promises about a history that hold after every pass, also the last. */
  ghost predicate InOrder(p: Policy, starts: seq<Start>, log: seq<Replacement>)
  {
    Ordered(log) && Spaced(p, log) && Paused(p, log) && Numbered(starts, log)
  }

  lemma NumberedStart(starts: seq<Start>, log: seq<Replacement>, st: Start)
    requires Numbered(starts, log) && |log| == |starts| && st.generation == |starts| + 1
    requires |log| > 0 ==> st.time >= log[|log| - 1].time + log[|log| - 1].wait
    ensures Numbered(starts + [st], log)
  {
  }

  lemma NumberedLog(starts: seq<Start>, log: seq<Replacement>, r: Replacement)
    requires Numbered(starts, log) && |log| + 1 == |starts|
    ensures Numbered(starts, log + [r])
  {
  }

  /** A restart that respects the limit, after the right pause, keeps the history in order. */
  lemma LogGrows(p: Policy, log: seq<Replacement>, r: Replacement)
    requires p.limit >= 1 && Ordered(log) && Spaced(p, log) && Paused(p, log)
    requires forall k :: 0 <= k < |log| ==> log[k].time <= r.time
    requires |log| < p.limit || r.time >= log[|log| - p.limit].time + p.window
    requires r.wait == Capped(p, if r.stable then 0 else Streak(log))
    ensures Ordered(log + [r]) && Spaced(p, log + [r]) && Paused(p, log + [r])
  {
    hide Capped, Streak;
    var all := log + [r];
    forall k | 0 <= k < |all|
      ensures all[k].wait == Capped(p, if all[k].stable then 0 else Streak(all[..k]))
    {
      if k < |log| {
        assert all[..k] == log[..k] && all[k] == log[k];
      } else {
        assert all[..k] == log;
      }
    }
  }

  /** Launches among the first `n` answers that leave an unconfirmed process behind. */
  ghost function Leaks(tape: nat -> Answer, n: nat): nat
  {
    if n == 0 then 0 else Leaks(tape, n - 1) + if Mislabelled(tape(n - 1).launch) then 1 else 0
  }

  lemma {:induction false} NoLeaks(tape: nat -> Answer, n: nat)
    ensures Leaks(tape, n) == 0 <==> forall k: nat :: k < n ==> !Mislabelled(tape(k).launch)
  {
    if n > 0 {
      NoLeaks(tape, n - 1);
    }
  }

  /** A stop was asked for: at the head of the pass, of the instance, or in the pause. */
  predicate StopAsked(a: Answer)
  {
    a.stop || a.launch == Launched(StopRequested(true)) || a.stopInPause
  }

  /** No pass with a stop, and none whose launch is not replaced, is followed by a start. */
  ghost predicate NeverAfterStop(tape: nat -> Answer, starts: seq<Start>)
  {
    && (forall k: nat :: k < |starts| ==> !tape(k).stop)
    && (forall k: nat :: k + 1 < |starts| ==>
          !StopAsked(tape(k)) && (EndedAlone(tape(k).launch) || FailedClean(tape(k).launch)))
  }

  /** Every one of the first `n` passes went on. */
  ghost predicate Undisturbed(tape: nat -> Answer, n: nat)
  {
    forall k: nat :: k < n ==>
      !StopAsked(tape(k)) && (EndedAlone(tape(k).launch) || FailedClean(tape(k).launch))
  }

  /** What ended a service after `n` starts: a stop before the next start, or the last
      start's own pass. */
  predicate EndedBy(s: Status, tape: nat -> Answer, n: nat)
  {
    match s
    case Running => false
    case Exhausted => n + 1 == U64_LIMIT
    case Stopped => tape(n).stop || (n > 0 && StopAsked(tape(n - 1)))
    case Halted =>
      && n > 0 && tape(n - 1).launch != Launched(StopRequested(true))
      && !EndedAlone(tape(n - 1).launch) && !FailedClean(tape(n - 1).launch)
    case IntensityExceeded => n > 0 && (EndedAlone(tape(n - 1).launch) || FailedClean(tape(n - 1).launch))
  }

  /** The loop itself, for any number of passes. */
  method Passes(policy: Policy, tape: nat -> Answer, passes: nat) returns (s: Status, service: Service)
    requires ValidPolicy(policy)
    ensures service.policy == policy && InOrder(policy, service.starts, service.log)
    ensures LeaksRecorded(tape, service.starts) && LaunchesRecorded(policy, tape, service.log)
    ensures NeverAfterStop(tape, service.starts)
    ensures s != Running ==> EndedBy(s, tape, |service.starts|)
    ensures s == Running ==> Undisturbed(tape, passes)
    ensures s == Running ==> |service.starts| == passes
    ensures s == IntensityExceeded ==>
              && |service.log| >= policy.limit
              && service.clock < service.log[|service.log| - policy.limit].time + policy.window
  {
    hide Service.Valid, InOrder, Mislabelled, After, LeaksRecorded, LaunchesRecorded, EndedAlone, FailedClean;
    service := new Service(policy);
    s := Running;
    var pass: nat := 0;
    Nothing(policy, tape);
    while pass < passes && s == Running
      invariant pass <= passes && fresh(service) && service.policy == policy
      invariant InOrder(policy, service.starts, service.log)
      invariant LeaksRecorded(tape, service.starts) && LaunchesRecorded(policy, tape, service.log)
      invariant NeverAfterStop(tape, service.starts) && (s != Running ==> EndedBy(s, tape, |service.starts|))
      invariant s == Running ==> Undisturbed(tape, pass)
      invariant s == Running ==> && service.AtHead() && service.unretired == Leaks(tape, pass)
                                 && |service.starts| == pass
      invariant s == IntensityExceeded ==>
                  && |service.log| >= policy.limit
                  && service.clock < service.log[|service.log| - policy.limit].time + policy.window
      decreases passes - pass
    {
      ghost var before := service.starts;
      LeaksGrow(tape, before);
      LaunchesGrow(policy, tape, service.log);
      s := service.Pass(tape(pass));
      pass := pass + 1;
    }
  }

  /** The service over any number of passes: generations count up from one, no window
      holds more replacements than the limit, every pause is the doubled and capped
      one, and a start finds every earlier process confirmed gone exactly when no
      earlier launch was mislabelled. */
  method Serve(policy: Policy, tape: nat -> Answer, passes: nat) returns (s: Status, service: Service)
    requires ValidPolicy(policy)
    ensures service.policy == policy
    ensures forall t: nat :: |InWindow(policy, service.log, t)| <= policy.limit
    ensures forall k :: 0 <= k < |service.log| ==> policy.base <= service.log[k].wait <= policy.maxBackoff
    ensures Paused(policy, service.log) && Numbered(service.starts, service.log)
    ensures LaunchesRecorded(policy, tape, service.log)
    ensures NeverAfterStop(tape, service.starts)
    ensures s != Running ==> EndedBy(s, tape, |service.starts|)
    ensures s == Running ==> Undisturbed(tape, passes)
    ensures forall k: nat :: k < |service.starts| ==>
              (service.starts[k].unretired == 0 <==> forall j: nat :: j < k ==> !Mislabelled(tape(j).launch))
    ensures s == Running ==> |service.starts| == passes
    ensures s == IntensityExceeded ==>
              && |service.log| >= policy.limit
              && service.clock < service.log[|service.log| - policy.limit].time + policy.window
  {
    hide InWindow, Mislabelled, InOrder, Paused, Numbered, LaunchesRecorded;
    s, service := Passes(policy, tape, passes);
    Summary(policy, service.starts, service.log);
    forall k: nat | k < |service.starts|
      ensures service.starts[k].unretired == 0 <==> forall j: nat :: j < k ==> !Mislabelled(tape(j).launch)
    {
      NoLeaks(tape, k);
    }
  }

  /** One more start, taken with the processes left by the earlier ones. */
  lemma LeaksGrow(tape: nat -> Answer, starts: seq<Start>)
    requires LeaksRecorded(tape, starts)
    ensures forall st: Start :: st.unretired == Leaks(tape, |starts|) ==> LeaksRecorded(tape, starts + [st])
    ensures Leaks(tape, |starts| + 1) == Leaks(tape, |starts|) + if Mislabelled(tape(|starts|).launch) then 1 else 0
  {
    hide Mislabelled;
    forall st: Start | st.unretired == Leaks(tape, |starts|)
      ensures LeaksRecorded(tape, starts + [st])
    {
      forall k: nat | k < |starts| + 1
        ensures (starts + [st])[k].unretired == Leaks(tape, k)
      {
        if k < |starts| {
          assert (starts + [st])[k] == starts[k];
        }
      }
    }
  }

  lemma Nothing(p: Policy, tape: nat -> Answer)
    ensures InOrder(p, [], []) && LeaksRecorded(tape, []) && LaunchesRecorded(p, tape, [])
    ensures NeverAfterStop(tape, []) && Undisturbed(tape, 0)
  {
    hide Capped, Streak, Leaks, After, Mislabelled, Records;
  }

  /** Each start remembers how many processes were unconfirmed when it happened. */
  ghost predicate LeaksRecorded(tape: nat -> Answer, starts: seq<Start>)
  {
    forall k: nat :: k < |starts| ==> starts[k].unretired == Leaks(tape, k)
  }

  lemma Summary(p: Policy, starts: seq<Start>, log: seq<Replacement>)
    requires ValidPolicy(p) && InOrder(p, starts, log)
    ensures Paused(p, log) && Numbered(starts, log)
    ensures forall t: nat :: |InWindow(p, log, t)| <= p.limit
    ensures forall k :: 0 <= k < |log| ==> p.base <= log[k].wait <= p.maxBackoff
  {
    hide Capped, Streak, Spaced, Ordered, InWindow;
    forall t: nat
      ensures |InWindow(p, log, t)| <= p.limit
    {
      WindowHoldsAtMostLimit(p, log, t);
    }
    forall k | 0 <= k < |log|
      ensures p.base <= log[k].wait <= p.maxBackoff
    {
      CappedRange(p, if log[k].stable then 0 else Streak(log[..k]));
    }
  }

  lemma FirstPause(p: Policy)
    requires ValidPolicy(p)
    ensures Capped(p, 0) == p.base && Streak([]) == 0
  {
  }
}
