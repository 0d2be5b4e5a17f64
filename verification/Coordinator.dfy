/** The main loop of `ku supervise` as a state machine driven by a tape of process
    events: which jobs expired, which starts failed, which workers ended and how,
    which cleanups were confirmed and which receipts could be written. */
module Coordinator {
  import opened Text
  import opened Supervise

  datatype Outcome =
    | Completed | WorkerExit | MemoryLimit | Timeout | OutputLimit | ReaderError | SpawnError | QueueTimeout
    | CleanupUnconfirmed

  /** `at` is the position on the tape of the reading that led to the receipt. */
  datatype Receipt = Receipt(job: Job, outcome: Outcome, at: nat)

  datatype Exit = NotYet | Success | Failure

  /** One answer of the environment: the clock reading and what a system call would
      report at that moment. Each question reads the next answer and uses the
      components it needs. */
  datatype Answer = Answer(
    time: nat,
    ok: bool,
    cleaned: bool,
    exceeded: bool,
    readerError: bool,
    exit: Exit,
    memoryLimit: bool)

  type Tape = nat -> Answer

  datatype Status = Running | Finished | OutputFailed | CleanupFailed

  /** The first verdict on a polled worker, or nothing while it runs. An exit that
      is seen only after the deadline is a timeout. */
  function Observe(a: Answer, deadline: nat): Option<Outcome>
  {
    if a.exceeded then Some(OutputLimit)
    else if a.readerError then Some(ReaderError)
    else if a.time >= deadline then Some(Timeout)
    else match a.exit
         case NotYet => None
         case Success => Some(Completed)
         case Failure => Some(WorkerExit)
  }

  /** The verdict on the receipt, from the first verdict and the cleanup. */
  function FinalOutcome(first: Outcome, a: Answer): Outcome
  {
    var afterCleanup :=
      if !a.cleaned then CleanupUnconfirmed
      else if first == WorkerExit && a.memoryLimit then MemoryLimit
      else first;
    var afterOutput := if afterCleanup == Completed && a.exceeded then OutputLimit else afterCleanup;
    if afterOutput == Completed && a.readerError then ReaderError else afterOutput
  }

  /** What each outcome says about a worker that was polled and then cleaned up. In
      particular a job is reported completed exactly when its successful exit was seen
      before the deadline, its cleanup was confirmed, and neither then nor after its
      readers retired was there too much output or a reader error. */
  lemma OutcomeMeaning(polled: Answer, deadline: nat, retired: Answer)
    requires Observe(polled, deadline).Some?
    ensures var o := FinalOutcome(Observe(polled, deadline).value, retired);
            var quiet := !polled.exceeded && !polled.readerError && polled.time < deadline;
            var exited := quiet && retired.cleaned && polled.exit == Success;
            && (o == CleanupUnconfirmed <==> !retired.cleaned)
            && (o == Completed <==> exited && !retired.exceeded && !retired.readerError)
            && (o == OutputLimit <==> (retired.cleaned && polled.exceeded) || (exited && retired.exceeded))
            && (o == ReaderError <==> (retired.cleaned && !polled.exceeded && polled.readerError)
                                      || (exited && !retired.exceeded && retired.readerError))
            && (o == Timeout <==> retired.cleaned && !polled.exceeded && !polled.readerError && polled.time >= deadline)
            && (o == MemoryLimit <==> quiet && retired.cleaned && polled.exit == Failure && retired.memoryLimit)
            && (o == WorkerExit <==> quiet && retired.cleaned && polled.exit == Failure && !retired.memoryLimit)
  {
  }

  function Failures(receipts: seq<Receipt>): nat
  {
    if |receipts| == 0 then 0
    else Failures(receipts[..|receipts| - 1]) + if receipts[|receipts| - 1].outcome == Completed then 0 else 1
  }

  lemma FailuresSnoc(receipts: seq<Receipt>, r: Receipt)
    ensures Failures(receipts + [r]) == Failures(receipts) + if r.outcome == Completed then 0 else 1
  {
    assert (receipts + [r])[..|receipts|] == receipts;
  }

  function Reported(receipts: seq<Receipt>): multiset<Job>
  {
    if |receipts| == 0 then multiset{}
    else Reported(receipts[..|receipts| - 1]) + multiset{receipts[|receipts| - 1].job}
  }

  lemma ReportedSnoc(receipts: seq<Receipt>, r: Receipt)
    ensures Reported(receipts + [r]) == Reported(receipts) + multiset{r.job}
  {
    assert (receipts + [r])[..|receipts|] == receipts;
  }

  function SwapRemove(xs: seq<Job>, i: nat): seq<Job>
    requires i < |xs|
  {
    if i == |xs| - 1 then xs[..i] else xs[..|xs| - 1][i := xs[|xs| - 1]]
  }

  lemma SwapRemoveOnce(xs: seq<Job>, i: nat)
    requires i < |xs|
    ensures multiset(SwapRemove(xs, i)) + multiset{xs[i]} == multiset(xs) && |SwapRemove(xs, i)| == |xs| - 1
  {
    var last := |xs| - 1;
    assert xs == xs[..last] + [xs[last]];
    if i < last {
      assert xs[..last] == xs[..i] + [xs[i]] + xs[i + 1..last];
      assert SwapRemove(xs, i) == xs[..i] + [xs[last]] + xs[i + 1..last];
    }
  }

  lemma PopFront(queue: seq<Job>)
    requires |queue| > 0
    ensures multiset(queue[1..]) + multiset{queue[0]} == multiset(queue)
    ensures Bytes(queue) == Bytes(queue[1..]) + queue[0].pathBytes
  {
    assert queue == [queue[0]] + queue[1..];
    BytesCons(queue[0], queue[1..]);
  }

  lemma {:induction false} BytesCons(job: Job, rest: seq<Job>)
    ensures Bytes([job] + rest) == job.pathBytes + Bytes(rest)
  {
    var all := [job] + rest;
    if |rest| == 0 {
      assert all[..0] == [];
    } else {
      BytesCons(job, rest[..|rest| - 1]);
      assert all[..|all| - 1] == [job] + rest[..|rest| - 1];
    }
  }

  // ---------- the ledger ----------

  /** Reservations and queue counters, changed only by its three methods. */
  class Ledger {
    var queuedJobs: nat
    var queuedBytes: nat
    var activeWorkers: nat
    var reservedBytes: nat
    var peakActive: nat
    var peakReserved: nat

    /** `n` workers hold memory: reserved bytes are exactly their share, within
        the worker budget, and so were all earlier peaks. */
    ghost predicate Exact(p: Policy, r: Reserve, n: nat, queue: seq<Job>)
      reads this
    {
      && activeWorkers == n <= r.maxRunning && reservedBytes == p.workerMemory * n
      && n <= peakActive <= r.maxRunning && reservedBytes <= peakReserved <= r.workerTotal
      && queuedJobs == |queue| && queuedBytes == Bytes(queue)
    }

    constructor (jobs: seq<Job>)
      ensures queuedJobs == |jobs| && queuedBytes == Bytes(jobs)
      ensures activeWorkers == reservedBytes == peakActive == peakReserved == 0
    {
      queuedJobs, queuedBytes := |jobs|, Bytes(jobs);
      activeWorkers, reservedBytes, peakActive, peakReserved := 0, 0, 0, 0;
    }

    /** `reserve_worker`: refuses exactly when every slot is taken. */
    method ReserveWorker(p: Policy, r: Reserve, ghost n: nat, ghost queue: seq<Job>) returns (ok: bool)
      requires Admits(p, r) && Exact(p, r, n, queue)
      modifies this
      ensures ok <==> n < r.maxRunning
      ensures Exact(p, r, if ok then n + 1 else n, queue)
    {
      var next := reservedBytes + p.workerMemory;
      if n < r.maxRunning {
        OneMore(p.workerMemory, n, r.maxRunning, r.workerTotal);
      }
      if activeWorkers >= r.maxRunning || next > r.workerTotal || next >= U64_LIMIT {
        return false;
      }
      activeWorkers := activeWorkers + 1;
      reservedBytes := next;
      peakActive := if peakActive < activeWorkers then activeWorkers else peakActive;
      peakReserved := if peakReserved < next then next else peakReserved;
      ok := true;
    }

    /** `release_worker`: only after cleanup was confirmed. */
    method ReleaseWorker(p: Policy, r: Reserve, ghost n: nat, ghost queue: seq<Job>)
      requires n >= 1 && Exact(p, r, n, queue)
      modifies this
      ensures Exact(p, r, n - 1, queue)
    {
      OneLess(p.workerMemory, n);
      activeWorkers := activeWorkers - 1;
      reservedBytes := reservedBytes - p.workerMemory;
    }

    /** `dequeue`. */
    method Dequeue(p: Policy, r: Reserve, ghost n: nat, queue: seq<Job>)
      requires |queue| > 0 && Exact(p, r, n, queue)
      modifies this
      ensures Exact(p, r, n, queue[1..])
    {
      PopFront(queue);
      queuedJobs := queuedJobs - 1;
      queuedBytes := queuedBytes - queue[0].pathBytes;
    }
  }

  /** What the budget partition guarantees to the loop. */
  predicate Admits(p: Policy, r: Reserve)
  {
    p.workerMemory > 0 && r.maxRunning >= 1 && r.maxRunning * p.workerMemory <= r.workerTotal < U64_LIMIT
  }

  lemma OneMore(unit: nat, n: nat, max: nat, total: nat)
    requires max * unit <= total && n < max
    ensures unit * n + unit == unit * (n + 1) <= total
  {
    ProductBound(n + 1, unit, max, unit);
  }

  lemma OneLess(unit: nat, n: nat)
    requires n >= 1
    ensures unit * n - unit == unit * (n - 1)
  {
  }

  // ---------- the loop ----------

  /** The other variables of the loop; `clock` is the position on the tape. */
  datatype Desk = Desk(queue: seq<Job>, active: seq<Job>, receipts: seq<Receipt>, failed: nat, clock: nat)

  /** The fixed parts of one batch: the policy, its reserve, the common deadline of
      the jobs and what the environment will answer. */
  datatype Batch = Batch(policy: Policy, reserve: Reserve, deadline: nat, tape: Tape, jobs: seq<Job>)

  /** A receipt states what the environment reported at its position and the next. */
  predicate Truthful(b: Batch, r: Receipt)
  {
    var a, next := b.tape(r.at), b.tape(r.at + 1);
    match r.outcome
    case QueueTimeout => a.time >= b.deadline
    case SpawnError => a.time < b.deadline && !next.ok && next.cleaned
    case CleanupUnconfirmed => !next.cleaned
    case o => Observe(a, b.deadline).Some? && FinalOutcome(Observe(a, b.deadline).value, next) == o
  }

  predicate AllTruthful(b: Batch, receipts: seq<Receipt>)
  {
    forall k :: 0 <= k < |receipts| ==> Truthful(b, receipts[k])
  }

  /** Every submitted job is queued, active, reported, or in `extra`, exactly once. */
  ghost predicate Conserved(b: Batch, d: Desk, extra: multiset<Job>)
  {
    multiset(b.jobs) == multiset(d.queue) + multiset(d.active) + Reported(d.receipts) + extra
  }

  /** Exact reservations: the active workers and `held` unconfirmed ones. */
  ghost predicate Books(b: Batch, d: Desk, ledger: Ledger, held: nat)
    reads ledger
  {
    ledger.Exact(b.policy, b.reserve, |d.active| + held, d.queue) && AllTruthful(b, d.receipts)
  }

  /** Between steps of a running batch: exact reservations, one place per job, and
      a failure count that matches the receipts. */
  ghost predicate Open(b: Batch, d: Desk, ledger: Ledger)
    reads ledger
  {
    && Admits(b.policy, b.reserve) && Books(b, d, ledger, 0)
    && Conserved(b, d, multiset{}) && d.failed == Failures(d.receipts)
  }

  /** After an early stop: `unconfirmed` workers stay reserved, `lost` jobs have no receipt. */
  ghost predicate Stopped(b: Batch, d: Desk, ledger: Ledger, unconfirmed: nat, lost: multiset<Job>)
    reads ledger
  {
    d.active == [] && Books(b, d, ledger, unconfirmed) && Conserved(b, d, lost)
  }

  /** What each early stop leaves behind. After an output failure `failed` may
      already count the receipt that could not be written. */
  ghost predicate Early(b: Batch, d: Desk, ledger: Ledger, s: Status, unconfirmed: nat, lost: multiset<Job>)
    reads ledger
  {
    && Stopped(b, d, ledger, unconfirmed, lost)
    && (s == OutputFailed || s == CleanupFailed)
    && (s == CleanupFailed ==> unconfirmed >= 1 && d.failed == Failures(d.receipts) > 0)
    && (s == OutputFailed ==> lost != multiset{} && Failures(d.receipts) <= d.failed <= Failures(d.receipts) + 1)
  }

  function Rank(d: Desk): nat
  {
    |d.queue| + |d.active|
  }

  /** How many of the next `n` cleanups fail. */
  function Unclean(tape: Tape, from: nat, n: nat): nat
    decreases n
  {
    if n == 0 then 0 else (if tape(from).cleaned then 0 else 1) + Unclean(tape, from + 1, n - 1)
  }

  /** `stop_active`: every active worker is released if its cleanup succeeds, and stays
      reserved otherwise. */
  method StopActive(b: Batch, d: Desk, ledger: Ledger, ghost held: nat, ghost lost: multiset<Job>)
    returns (d': Desk, ghost unconfirmed: nat, ghost lost': multiset<Job>)
    requires Books(b, d, ledger, held) && Conserved(b, d, lost)
    modifies ledger
    ensures Stopped(b, d', ledger, unconfirmed, lost')
    ensures d'.queue == d.queue && d'.receipts == d.receipts && d'.failed == d.failed
    ensures unconfirmed == held + Unclean(b.tape, d.clock, |d.active|) && lost' == lost + multiset(d.active)
  {
    hide Bytes, Reported, AllTruthful;
    d', unconfirmed, lost' := d, held, lost;
    while |d'.active| > 0
      invariant d'.queue == d.queue && d'.receipts == d.receipts && d'.failed == d.failed
      invariant lost' + multiset(d'.active) == lost + multiset(d.active)
      invariant unconfirmed + Unclean(b.tape, d'.clock, |d'.active|) == held + Unclean(b.tape, d.clock, |d.active|)
      invariant Books(b, d', ledger, unconfirmed) && Conserved(b, d', lost')
      decreases |d'.active|
    {
      var worker := d'.active[0];
      assert d'.active == [worker] + d'.active[1..];
      ghost var n := |d'.active| + unconfirmed;
      lost' := lost' + multiset{worker};
      var cleaned := b.tape(d'.clock).cleaned;
      d' := d'.(active := d'.active[1..], clock := d'.clock + 1);
      if cleaned {
        ledger.ReleaseWorker(b.policy, b.reserve, n, d.queue);
      } else {
        unconfirmed := unconfirmed + 1;
      }
    }
  }

  /** Write the receipt of a job that has left the queue and the active list. If the
      output fails, or the receipt reports an unconfirmed cleanup, the batch stops. */
  method Close(b: Batch, d: Desk, ledger: Ledger, receipt: Receipt)
    returns (s: Status, d': Desk, ghost unconfirmed: nat, ghost lost: multiset<Job>)
    requires Admits(b.policy, b.reserve) && Truthful(b, receipt)
    requires Books(b, d, ledger, if receipt.outcome == CleanupUnconfirmed then 1 else 0)
    requires Conserved(b, d, multiset{receipt.job})
    requires d.failed == Failures(d.receipts) + if receipt.outcome == Completed then 0 else 1
    modifies ledger
    ensures s == Running ==> && d' == d.(receipts := d.receipts + [receipt], clock := d.clock + 1)
                             && Open(b, d', ledger) && receipt.outcome != CleanupUnconfirmed
    ensures s != Running ==> Early(b, d', ledger, s, unconfirmed, lost)
  {
    hide Bytes, Reported, Failures;
    ghost var held := if receipt.outcome == CleanupUnconfirmed then 1 else 0;
    s, unconfirmed, lost := Running, 0, multiset{};
    var written := b.tape(d.clock).ok;
    if !written {
      d', unconfirmed, lost := StopActive(b, d.(clock := d.clock + 1), ledger, held, multiset{receipt.job});
      assert receipt.job in lost;
      return OutputFailed, d', unconfirmed, lost;
    }
    ReportedSnoc(d.receipts, receipt);
    FailuresSnoc(d.receipts, receipt);
    d' := d.(receipts := d.receipts + [receipt], clock := d.clock + 1);
    if receipt.outcome == CleanupUnconfirmed {
      d', unconfirmed, lost := StopActive(b, d', ledger, held, multiset{});
      return CleanupFailed, d', unconfirmed, lost;
    }
  }

  /** Jobs leave the queue from its front. */
  ghost predicate Served(d: Desk, d': Desk)
  {
    |d'.queue| <= |d.queue| && d'.queue == d.queue[|d.queue| - |d'.queue|..]
  }

  lemma ServedOne(d: Desk, d': Desk)
    requires Served(d, d') && |d'.queue| > 0
    ensures Served(d, d'.(queue := d'.queue[1..]))
  {
  }

  /** A worker was started, or its start failed and was reported. */
  ghost predicate Attempted(d: Desk, d': Desk)
  {
    || |d'.active| > |d.active|
    || (|d'.receipts| > 0 && d'.receipts[|d'.receipts| - 1].outcome == SpawnError)
  }

  /** The admission loop: at most one worker is started per pass, and a slot stays free
      only for want of jobs or because one start was attempted. */
  method Admit(b: Batch, d: Desk, ledger: Ledger)
    returns (s: Status, d': Desk, ghost unconfirmed: nat, ghost lost: multiset<Job>)
    requires Open(b, d, ledger)
    modifies ledger
    ensures s == Running ==> && Open(b, d', ledger) && d.clock <= d'.clock && Rank(d') <= Rank(d)
                             && (|d'.active| == 0 < Rank(d) ==> Rank(d') < Rank(d))
                             && Served(d, d') && |d'.active| <= |d.active| + 1
                             && (|d'.active| < b.reserve.maxRunning && d'.queue != [] ==> Attempted(d, d'))
    ensures s != Running ==> Early(b, d', ledger, s, unconfirmed, lost)
  {
    hide Bytes, Reported, Failures, AllTruthful, Open, Early, Attempted;
    s, d', unconfirmed, lost := Running, d, 0, multiset{};
    var admitted := false;
    OneSlot(b, d, ledger);
    assert d.queue[0..] == d.queue;
    while |d'.active| < b.reserve.maxRunning && !admitted && |d'.queue| > 0
      invariant Open(b, d', ledger) && d.clock <= d'.clock && s == Running
      invariant Rank(d') <= Rank(d) && Served(d, d') && ((d' == d && !admitted) || Rank(d') < Rank(d) || |d'.active| > 0)
      invariant if admitted then Attempted(d, d') && |d.active| <= |d'.active| <= |d.active| + 1
                else d'.active == d.active
      decreases |d'.queue|
    {
      ghost var before := d';
      s, admitted, d', unconfirmed, lost := AdmitOne(b, d', ledger);
      if s != Running {
        return;
      }
      ServedOne(d, before);
      AttemptedSince(d, before, d');
    }
  }

  lemma OneSlot(b: Batch, d: Desk, ledger: Ledger)
    requires Open(b, d, ledger)
    ensures b.reserve.maxRunning >= 1
  {
    hide Bytes, Reported, Failures, AllTruthful;
  }

  lemma AttemptedSince(d: Desk, before: Desk, d': Desk)
    requires before.active == d.active
    ensures Attempted(before, d') ==> Attempted(d, d')
  {
  }

  /** Take the first job off the queue: report it if it has expired, start it otherwise. */
  method AdmitOne(b: Batch, d: Desk, ledger: Ledger)
    returns (s: Status, admitted: bool, d': Desk, ghost unconfirmed: nat, ghost lost: multiset<Job>)
    requires Open(b, d, ledger) && |d.active| < b.reserve.maxRunning && |d.queue| > 0
    modifies ledger
    ensures admitted <==> b.tape(d.clock).time < b.deadline
    ensures s == Running ==> && Open(b, d', ledger) && d.clock < d'.clock && d'.queue == d.queue[1..]
                             && Rank(d') <= Rank(d) && (Rank(d') < Rank(d) || |d'.active| > 0)
                             && if admitted then Attempted(d, d') && |d.active| <= |d'.active| <= |d.active| + 1
                                else && d'.active == d.active
                                     && d'.receipts == d.receipts + [Receipt(d.queue[0], QueueTimeout, d.clock)]
    ensures s != Running ==> Early(b, d', ledger, s, unconfirmed, lost)
  {
    hide Bytes, Reported, Failures, AllTruthful;
    var job := d.queue[0];
    PopFront(d.queue);
    ledger.Dequeue(b.policy, b.reserve, |d.active|, d.queue);
    var at := d.clock;
    d' := d.(queue := d.queue[1..], clock := d.clock + 1);
    admitted := b.tape(at).time < b.deadline;
    if !admitted {
      s, d', unconfirmed, lost := Close(b, d'.(failed := d'.failed + 1), ledger, Receipt(job, QueueTimeout, at));
    } else {
      var reserved := ledger.ReserveWorker(b.policy, b.reserve, |d'.active|, d'.queue);
      assert reserved;
      s, d', unconfirmed, lost := Start(b, d', ledger, job, at);
    }
  }

  /** Start a worker whose memory is already reserved. */
  method Start(b: Batch, d: Desk, ledger: Ledger, job: Job, at: nat)
    returns (s: Status, d': Desk, ghost unconfirmed: nat, ghost lost: multiset<Job>)
    requires Admits(b.policy, b.reserve) && Books(b, d, ledger, 1) && Conserved(b, d, multiset{job})
    requires d.failed == Failures(d.receipts) && d.clock == at + 1 && b.tape(at).time < b.deadline
    modifies ledger
    ensures s == Running ==>
              && Open(b, d', ledger) && d.clock <= d'.clock && d'.queue == d.queue
              && (if b.tape(d.clock).ok then d'.active == d.active + [job] && d'.receipts == d.receipts
                  else d'.active == d.active && d'.receipts == d.receipts + [Receipt(job, SpawnError, at)])
    ensures s != Running ==> Early(b, d', ledger, s, unconfirmed, lost)
  {
    hide Bytes, Reported, Failures, AllTruthful, Observe, FinalOutcome;
    var a := b.tape(d.clock);
    d', s, unconfirmed, lost := d.(clock := d.clock + 1), Running, 0, multiset{};
    if a.ok {
      d' := d'.(active := d.active + [job]);
    } else {
      d' := d'.(failed := d'.failed + 1);
      if a.cleaned {
        ledger.ReleaseWorker(b.policy, b.reserve, |d.active| + 1, d.queue);
      }
      var outcome := if a.cleaned then SpawnError else CleanupUnconfirmed;
      s, d', unconfirmed, lost := Close(b, d', ledger, Receipt(job, outcome, at));
    }
  }

  /** The receipt of a retired worker states what was observed. */
  lemma RetiredTruthfully(b: Batch, worker: Job, first: Outcome, at: nat)
    requires Observe(b.tape(at), b.deadline) == Some(first)
    ensures var outcome := FinalOutcome(first, b.tape(at + 1));
            Truthful(b, Receipt(worker, outcome, at)) && (outcome == CleanupUnconfirmed <==> !b.tape(at + 1).cleaned)
  {
  }

  /** One worker whose first verdict is known leaves the active list. */
  method Retire(b: Batch, d: Desk, ledger: Ledger, index: nat, first: Outcome, at: nat)
    returns (s: Status, d': Desk, ghost unconfirmed: nat, ghost lost: multiset<Job>)
    requires Open(b, d, ledger) && index < |d.active|
    requires d.clock == at + 1 && Observe(b.tape(at), b.deadline) == Some(first)
    modifies ledger
    ensures s == Running ==> && Open(b, d', ledger) && d.clock < d'.clock && d'.queue == d.queue
                             && d'.active == SwapRemove(d.active, index)
                             && d'.receipts == d.receipts + [Receipt(d.active[index], FinalOutcome(first, b.tape(d.clock)), at)]
    ensures s != Running ==> Early(b, d', ledger, s, unconfirmed, lost)
  {
    hide Bytes, Reported, Failures, AllTruthful, Truthful, Observe, FinalOutcome;
    RetiredTruthfully(b, d.active[index], first, at);
    var worker := d.active[index];
    SwapRemoveOnce(d.active, index);
    var retired := b.tape(d.clock);
    d' := d.(active := SwapRemove(d.active, index), clock := d.clock + 1);
    if retired.cleaned {
      ledger.ReleaseWorker(b.policy, b.reserve, |d.active|, d.queue);
    }
    var outcome := FinalOutcome(first, retired);
    if outcome != Completed {
      d' := d'.(failed := d'.failed + 1);
    }
    s, d', unconfirmed, lost := Close(b, d', ledger, Receipt(worker, outcome, at));
  }

  /** The polling loop: every worker is observed once per pass. */
  method PollActive(b: Batch, d: Desk, ledger: Ledger, ghost horizon: nat)
    returns (s: Status, d': Desk, ghost unconfirmed: nat, ghost lost: multiset<Job>)
    requires Open(b, d, ledger)
    requires forall k: nat :: k >= horizon ==> b.tape(k).time >= b.deadline
    modifies ledger
    ensures s == Running ==> && Open(b, d', ledger) && d.clock <= d'.clock && Rank(d') <= Rank(d)
                             && d'.clock >= d.clock + |d.active|
                             && (d.clock >= horizon ==> d'.active == [])
                             && d'.queue == d.queue
    ensures s != Running ==> Early(b, d', ledger, s, unconfirmed, lost)
  {
    hide Bytes, Reported, Failures, AllTruthful;
    s, d', unconfirmed, lost := Running, d, 0, multiset{};
    var index := 0;
    while index < |d'.active|
      invariant 0 <= index <= |d'.active| && s == Running
      invariant Open(b, d', ledger) && d.clock <= d'.clock && |d'.active| <= |d.active| && d'.queue == d.queue
      invariant d'.clock - d.clock >= index + (|d.active| - |d'.active|)
      invariant d.clock >= horizon ==> index == 0
      decreases |d'.active| - index
    {
      var a := b.tape(d'.clock);
      d' := d'.(clock := d'.clock + 1);
      var state := Observe(a, b.deadline);
      if state.None? {
        index := index + 1;
      } else {
        s, d', unconfirmed, lost := Retire(b, d', ledger, index, state.value, d'.clock - 1);
        if s != Running {
          return;
        }
      }
    }
  }

  lemma Opening(b: Batch, d: Desk, ledger: Ledger)
    requires Admits(b.policy, b.reserve) && d == Desk(b.jobs, [], [], 0, 0)
    requires ledger.queuedJobs == |b.jobs| && ledger.queuedBytes == Bytes(b.jobs)
    requires ledger.activeWorkers == ledger.reservedBytes == ledger.peakActive == ledger.peakReserved == 0
    ensures Open(b, d, ledger)
  {
  }

  lemma Finishing(b: Batch, d: Desk, ledger: Ledger)
    requires Open(b, d, ledger) && |d.queue| == |d.active| == 0
    ensures Reported(d.receipts) == multiset(b.jobs) && AllTruthful(b, d.receipts)
    ensures d.failed == Failures(d.receipts) && ledger.Exact(b.policy, b.reserve, 0, [])
  {
    hide Bytes, Reported, Failures, AllTruthful;
    assert d.queue == [] && d.active == [];
  }

  /** One pass of the loop moves the clock on or, once the deadline has passed for
      good, takes a job off the desk. */
  method Pass(b: Batch, d: Desk, ledger: Ledger, ghost horizon: nat)
    returns (s: Status, d': Desk, ghost unconfirmed: nat, ghost lost: multiset<Job>)
    requires Open(b, d, ledger) && Rank(d) > 0
    requires forall k: nat :: k >= horizon ==> b.tape(k).time >= b.deadline
    modifies ledger
    ensures s == Running ==> && Open(b, d', ledger) && d.clock <= d'.clock
                             && ((d.clock < horizon && d.clock < d'.clock) || Rank(d') < Rank(d))
    ensures s != Running ==> Early(b, d', ledger, s, unconfirmed, lost)
  {
    hide Open, Early;
    s, d', unconfirmed, lost := Admit(b, d, ledger);
    if s == Running {
      s, d', unconfirmed, lost := PollActive(b, d', ledger, horizon);
    }
  }

  /** The loop of `run_supervise_command`. The clock passes the deadline at some
      point, named by `horizon`; whatever else happens, the loop then ends. */
  method RunBatch(b: Batch, ghost horizon: nat)
    returns (s: Status, d: Desk, ledger: Ledger, ghost unconfirmed: nat, ghost lost: multiset<Job>)
    requires Admits(b.policy, b.reserve)
    requires forall k: nat :: k >= horizon ==> b.tape(k).time >= b.deadline
    ensures s != Running && AllTruthful(b, d.receipts)
    ensures s == Finished ==> && Reported(d.receipts) == multiset(b.jobs)
                              && ledger.activeWorkers == ledger.reservedBytes == ledger.queuedJobs == 0
                              && d.failed == Failures(d.receipts)
    ensures s != Finished ==> Early(b, d, ledger, s, unconfirmed, lost)
    ensures ledger.reservedBytes == b.policy.workerMemory * unconfirmed
    ensures ledger.peakReserved <= b.reserve.workerTotal && ledger.peakActive <= b.reserve.maxRunning
  {
    hide Bytes, Reported, Failures, AllTruthful;
    ledger := new Ledger(b.jobs);
    s, d, unconfirmed, lost := Running, Desk(b.jobs, [], [], 0, 0), 0, multiset{};
    Opening(b, d, ledger);
    while |d.queue| > 0 || |d.active| > 0
      invariant Open(b, d, ledger) && fresh(ledger) && s == Running
      decreases if d.clock < horizon then horizon - d.clock else 0, Rank(d)
    {
      s, d, unconfirmed, lost := Pass(b, d, ledger, horizon);
      if s != Running {
        return;
      }
    }
    Finishing(b, d, ledger);
    s, unconfirmed := Finished, 0;
  }

  // ---------- the whole command ----------

  /** Every reserve computed from a validated policy keeps the admission branch safe. */
  lemma PolicyAdmits(p: Policy, h: Layout)
    requires ValidPolicy(p) && HostLayout(h)
    ensures ForPolicy(p, h).Some? ==> Admits(p, ForPolicy(p, h).value)
  {
    BudgetPartition(p, h);
    hide ForPolicy, Requested;
  }

  lemma {:induction false} ReportedHas(receipts: seq<Receipt>, k: nat)
    requires k < |receipts|
    ensures Reported(receipts)[receipts[k].job] >= 1
  {
    if k < |receipts| - 1 {
      ReportedHas(receipts[..|receipts| - 1], k);
    }
  }

  lemma {:induction false} ReportedTwice(receipts: seq<Receipt>, k: nat, l: nat)
    requires k < l < |receipts| && receipts[k].job == receipts[l].job
    ensures Reported(receipts)[receipts[k].job] >= 2
  {
    var rest := receipts[..|receipts| - 1];
    if l < |receipts| - 1 {
      ReportedTwice(rest, k, l);
    } else {
      ReportedHas(rest, k);
    }
  }

  lemma {:induction false} ReportedSize(receipts: seq<Receipt>)
    ensures |Reported(receipts)| == |receipts|
  {
    if |receipts| > 0 {
      ReportedSize(receipts[..|receipts| - 1]);
    }
  }

  lemma {:induction false} FindReceipt(receipts: seq<Receipt>, job: Job) returns (k: nat)
    requires Reported(receipts)[job] >= 1
    ensures k < |receipts| && receipts[k].job == job
  {
    var last := |receipts| - 1;
    if receipts[last].job == job {
      k := last;
    } else {
      k := FindReceipt(receipts[..last], job);
    }
  }

  lemma QueuedOnce(entries: seq<Submitted>, job: Job)
    ensures multiset(Queued(entries))[job] <= 1
  {
    hide Charge;
    var queue := Queued(entries);
    if job in queue {
      var i :| 0 <= i < |queue| && queue[i] == job;
      assert queue == queue[..i] + [job] + queue[i + 1..];
      assert job !in queue[..i] && job !in queue[i + 1..];
    }
  }

  /** A finished batch has one receipt for each submitted entry, and no other. */
  lemma OneReceiptEach(receipts: seq<Receipt>, entries: seq<Submitted>)
    requires Reported(receipts) == multiset(Queued(entries))
    ensures |receipts| == |entries|
    ensures forall j :: j in Queued(entries) ==> exists k: nat :: k < |receipts| && receipts[k].job == j
    ensures forall k: nat, l: nat :: k < l < |receipts| ==> receipts[k].job.id != receipts[l].job.id
  {
    hide Reported, Charge;
    var queue := Queued(entries);
    ReportedSize(receipts);
    forall j | j in queue
      ensures exists k: nat :: k < |receipts| && receipts[k].job == j
    {
      assert j in multiset(queue);
      var k := FindReceipt(receipts, j);
    }
    forall k: nat, l: nat | k < l < |receipts|
      ensures receipts[k].job.id != receipts[l].job.id
    {
      ReportedHas(receipts, k);
      ReportedHas(receipts, l);
      assert receipts[k].job in multiset(queue) && receipts[l].job in multiset(queue);
      if receipts[k].job == receipts[l].job {
        ReportedTwice(receipts, k, l);
        QueuedOnce(entries, receipts[k].job);
      }
    }
  }
}
