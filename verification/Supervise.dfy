/** The bounded batch coordinator: budget partition, queue preparation, output
    capture, and the scheduling loop under every sequence of process events. */
module Supervise {
  import opened Text

  const MIB: nat := 1024 * 1024
  const MAX_WORKER_MEMORY: nat := 1024 * 1024 * MIB
  const MAX_TOTAL_MEMORY: nat := 16 * MAX_WORKER_MEMORY
  const MAX_WORKERS: nat := 64
  const MAX_QUEUED_JOBS: nat := 4096
  const MAX_QUEUED_BYTES: nat := 16 * MIB
  const MAX_OUTPUT_BYTES: nat := 16 * MIB
  const MAX_PATH_BYTES: nat := 32 * 1024
  const READER_CHUNK_BYTES: nat := 8192
  const READER_STACK_BYTES: nat := 256 * 1024
  const PER_PIPE_RESERVE_BYTES: nat := MIB
  const FIXED_CONTROL_BYTES: nat := 128 * 1024
  const DOMAIN_ALIGNMENT_BYTES: nat := 64 * 1024

  datatype Policy = Policy(
    workerMemory: nat,
    totalMemory: nat,
    maxWorkers: nat,
    maxJobs: nat,
    maxQueuedBytes: nat,
    maxOutput: nat)

  /** `validate_policy`, for the limits the model uses. */
  predicate ValidPolicy(p: Policy)
  {
    && 1 <= p.workerMemory <= MAX_WORKER_MEMORY && 1 <= p.totalMemory <= MAX_TOTAL_MEMORY
    && 1 <= p.maxWorkers <= MAX_WORKERS && 1 <= p.maxJobs <= MAX_QUEUED_JOBS
    && 1 <= p.maxQueuedBytes <= MAX_QUEUED_BYTES && 1 <= p.maxOutput <= MAX_OUTPUT_BYTES
  }

  /** The documented maxima: 64 workers, 4096 jobs, 16 MiB of queue and of output, 1 TiB a
      worker, 16 TiB in all; everything positive. */
  lemma PolicyRule(p: Policy)
    ensures ValidPolicy(p) <==>
            && 0 < p.maxWorkers <= 64 && 0 < p.maxJobs <= 4096
            && 0 < p.maxQueuedBytes <= 0x100_0000 && 0 < p.maxOutput <= 0x100_0000
            && 0 < p.workerMemory <= 0x100_0000_0000 && 0 < p.totalMemory <= 0x1000_0000_0000
  {
  }

  // ---------- partition of the memory budget ----------

  /** Sizes of the compiled descriptors, constants of the host. */
  datatype Layout = Layout(jobBytes: nat, workerBytes: nat)

  predicate HostLayout(h: Layout)
  {
    h.jobBytes <= MIB && h.workerBytes <= MIB
  }

  datatype Reserve = Reserve(total: nat, workerTotal: nat, padding: nat, maxRunning: nat)

  /** The control bytes requested before alignment. */
  function Requested(p: Policy, h: Layout): nat
  {
    (4 * p.maxQueuedBytes + 4 * MAX_PATH_BYTES)
    + (p.maxJobs * h.jobBytes + p.maxWorkers * (h.workerBytes + 8 * MAX_PATH_BYTES + 4096))
    + p.maxWorkers * 2 * p.maxOutput + p.maxWorkers * 2 * READER_CHUNK_BYTES + p.maxWorkers * 2 * READER_STACK_BYTES
    + p.maxWorkers * 2 * PER_PIPE_RESERVE_BYTES + FIXED_CONTROL_BYTES
  }

  function Aligned(bytes: nat): nat
  {
    bytes / DOMAIN_ALIGNMENT_BYTES * DOMAIN_ALIGNMENT_BYTES
  }

  /** `ControlReserve::for_policy`. */
  function ForPolicy(p: Policy, h: Layout): Option<Reserve>
    requires p.workerMemory > 0
  {
    var requested := Requested(p, h);
    if requested >= U64_LIMIT || p.totalMemory < requested then None
    else
      var unaligned := p.totalMemory - requested;
      var workerTotal := Aligned(unaligned);
      var count := workerTotal / p.workerMemory;
      if count == 0 then None
      else Some(Reserve(requested + (unaligned - workerTotal), workerTotal, unaligned - workerTotal,
                        if p.maxWorkers < count then p.maxWorkers else count))
  }

  lemma ProductBound(a: nat, b: nat, x: nat, y: nat)
    requires a <= x && b <= y
    ensures a * b <= x * y
  {
    assert a * b <= x * b;
  }

  /** No term of the request can overflow 64 bits, so no checked step can fail. */
  lemma RequestedFits(p: Policy, h: Layout)
    requires ValidPolicy(p) && HostLayout(h)
    ensures Requested(p, h) < U64_LIMIT
  {
    ProductBound(p.maxJobs, h.jobBytes, MAX_QUEUED_JOBS, MIB);
    ProductBound(p.maxWorkers, h.workerBytes + 8 * MAX_PATH_BYTES + 4096, MAX_WORKERS, MIB + 8 * MAX_PATH_BYTES + 4096);
    ProductBound(p.maxWorkers * 2, p.maxOutput, 2 * MAX_WORKERS, MAX_OUTPUT_BYTES);
  }

  lemma DivisionFits(total: nat, unit: nat, n: nat)
    requires unit > 0 && n <= total / unit
    ensures n * unit <= total
  {
    ProductBound(n, unit, total / unit, unit);
  }

  /** The control reserve and the worker budget partition the total exactly, the
      worker budget is aligned, and as many workers may run at once as the policy allows
      and the budget covers. A validated policy is refused only when the total cannot
      cover the request and one worker. */
  lemma BudgetPartition(p: Policy, h: Layout)
    requires ValidPolicy(p) && HostLayout(h)
    ensures match ForPolicy(p, h)
            case Some(r) =>
              && r.total + r.workerTotal == p.totalMemory && r.total == Requested(p, h) + r.padding
              && r.padding < DOMAIN_ALIGNMENT_BYTES && r.workerTotal % DOMAIN_ALIGNMENT_BYTES == 0
              && 1 <= r.maxRunning <= p.maxWorkers && r.maxRunning * p.workerMemory <= r.workerTotal
              && (r.maxRunning == p.maxWorkers || (r.maxRunning + 1) * p.workerMemory > r.workerTotal)
            case None =>
              p.totalMemory < Requested(p, h) || Aligned(p.totalMemory - Requested(p, h)) < p.workerMemory
  {
    hide Requested, Aligned;
    RequestedFits(p, h);
    if p.totalMemory >= Requested(p, h) {
      var unaligned := p.totalMemory - Requested(p, h);
      AlignedFits(unaligned);
      WholeWorkers(Aligned(unaligned), p.workerMemory);
      match ForPolicy(p, h)
      case Some(r) =>
        DivisionFits(r.workerTotal, p.workerMemory, r.maxRunning);
        NextMultiple(r.workerTotal, p.workerMemory);
      case None =>
    }
  }

  lemma NextMultiple(total: nat, unit: nat)
    requires unit > 0
    ensures (total / unit + 1) * unit > total
  {
  }

  /** What the control reserve is made of: a fixed part, and what each worker, each job
      and each byte of queued paths adds to it. */
  lemma RequestedParts(p: Policy, h: Layout)
    ensures Requested(p.(maxWorkers := 0, maxJobs := 0, maxQueuedBytes := 0), h) ==
            4 * MAX_PATH_BYTES + FIXED_CONTROL_BYTES
    ensures Requested(p.(maxWorkers := p.maxWorkers + 1), h) == Requested(p, h)
            + h.workerBytes + 8 * MAX_PATH_BYTES + 4096
            + 2 * (p.maxOutput + READER_CHUNK_BYTES + READER_STACK_BYTES + PER_PIPE_RESERVE_BYTES)
    ensures Requested(p.(maxJobs := p.maxJobs + 1), h) == Requested(p, h) + h.jobBytes
    ensures Requested(p.(maxQueuedBytes := p.maxQueuedBytes + 1), h) == Requested(p, h) + 4
  {
    OneMoreUnit(p.maxWorkers, h.workerBytes + 8 * MAX_PATH_BYTES + 4096);
    OneMoreUnit(p.maxWorkers * 2, p.maxOutput);
    OneMoreUnit(p.maxWorkers * 2 + 1, p.maxOutput);
    OneMoreUnit(p.maxJobs, h.jobBytes);
  }

  lemma OneMoreUnit(n: nat, unit: nat)
    ensures (n + 1) * unit == n * unit + unit
  {
  }

  lemma AlignedFits(bytes: nat)
    ensures Aligned(bytes) <= bytes < Aligned(bytes) + DOMAIN_ALIGNMENT_BYTES
    ensures Aligned(bytes) % DOMAIN_ALIGNMENT_BYTES == 0
  {
  }

  lemma WholeWorkers(total: nat, unit: nat)
    requires unit > 0
    ensures total / unit == 0 <==> total < unit
  {
  }

  // ---------- queue preparation ----------

  /** One submitted entry as the file system reports it: length of the given path,
      length of the canonical path if it resolves, and whether its kind is allowed. */
  datatype Submitted = Submitted(rawBytes: nat, canonicalBytes: Option<nat>, allowed: bool)

  datatype Job = Job(id: nat, pathBytes: nat)

  function Charge(e: Submitted): nat
  {
    if e.canonicalBytes.Some? && e.canonicalBytes.value > e.rawBytes then e.canonicalBytes.value else e.rawBytes
  }

  function Bytes(jobs: seq<Job>): nat
  {
    if |jobs| == 0 then 0 else Bytes(jobs[..|jobs| - 1]) + jobs[|jobs| - 1].pathBytes
  }

  predicate Acceptable(e: Submitted)
  {
    && 0 < e.rawBytes <= MAX_PATH_BYTES && e.allowed
    && e.canonicalBytes.Some? && e.canonicalBytes.value <= MAX_PATH_BYTES
  }

  /** The queue that a list of entries stands for. */
  function Queued(entries: seq<Submitted>): seq<Job>
  {
    seq(|entries|, k requires 0 <= k < |entries| => Job(k + 1, Charge(entries[k])))
  }

  lemma QueuedSnoc(entries: seq<Submitted>, k: nat)
    requires k < |entries|
    ensures Queued(entries[..k + 1]) == Queued(entries[..k]) + [Job(k + 1, Charge(entries[k]))]
    ensures Bytes(Queued(entries[..k + 1])) == Bytes(Queued(entries[..k])) + Charge(entries[k])
  {
    var longer := Queued(entries[..k + 1]);
    assert longer[..k] == Queued(entries[..k]);
  }

  lemma {:induction false} BytesPrefix(entries: seq<Submitted>, k: nat)
    requires k <= |entries|
    ensures Bytes(Queued(entries[..k])) <= Bytes(Queued(entries))
    decreases |entries| - k
  {
    hide Bytes, Queued;
    if k == |entries| {
      assert entries[..k] == entries;
    } else {
      QueuedSnoc(entries, k);
      BytesPrefix(entries, k + 1);
    }
  }

  /** `prepare_queue`: accepted exactly when every entry is acceptable and both
      queue limits hold; ids number the entries from one. */
  method PrepareQueue(entries: seq<Submitted>, p: Policy) returns (r: Option<seq<Job>>)
    requires ValidPolicy(p)
    ensures r.Some? <==> && |entries| <= p.maxJobs && Bytes(Queued(entries)) <= p.maxQueuedBytes
                         && forall k :: 0 <= k < |entries| ==> Acceptable(entries[k])
    ensures r.Some? ==> r.value == Queued(entries)
  {
    hide Bytes, Queued;
    if |entries| > p.maxJobs {
      return None;
    }
    var queue: seq<Job> := [];
    var bytes: nat := 0;
    NothingQueued(entries);
    for index := 0 to |entries|
      invariant queue == Queued(entries[..index]) && bytes == Bytes(queue) <= p.maxQueuedBytes
      invariant forall k :: 0 <= k < index ==> Acceptable(entries[k])
    {
      var e := entries[index];
      QueuedSnoc(entries, index);
      BytesPrefix(entries, index + 1);
      if e.rawBytes == 0 || e.rawBytes > MAX_PATH_BYTES {
        return None;
      }
      bytes := bytes + e.rawBytes;
      if bytes > p.maxQueuedBytes || e.canonicalBytes.None? || e.canonicalBytes.value > MAX_PATH_BYTES {
        return None;
      }
      if e.canonicalBytes.value > e.rawBytes {
        bytes := bytes + (e.canonicalBytes.value - e.rawBytes);
        if bytes > p.maxQueuedBytes {
          return None;
        }
      }
      if !e.allowed {
        return None;
      }
      queue := queue + [Job(index + 1, Charge(e))];
    }
    assert entries[..|entries|] == entries;
    r := Some(queue);
  }

  lemma NothingQueued(entries: seq<Submitted>)
    ensures Queued(entries[..0]) == [] && Bytes([]) == 0
  {
  }

  // ---------- output capture ----------

  /** Two output streams sharing one byte allowance. The ghost fields are what the
      program really wrote. */
  class CaptureState {
    var stdout: seq<nat>
    var stderr: seq<nat>
    var totalSeen: nat
    const limit: nat
    var exceeded: bool
    ghost var wroteOut: seq<nat>
    ghost var wroteErr: seq<nat>

    /** What is kept is a prefix of each stream, complete unless the limit was
        exceeded, and the flag says exactly that it was. */
    ghost predicate Valid()
      reads this
    {
      && stdout <= wroteOut && stderr <= wroteErr
      && |stdout| + |stderr| <= limit
      && (exceeded <==> |wroteOut| + |wroteErr| > limit)
      && (exceeded ==> |stdout| + |stderr| == limit)
      && (!exceeded ==> stdout == wroteOut && stderr == wroteErr)
      && totalSeen == if |wroteOut| + |wroteErr| < U64_LIMIT then |wroteOut| + |wroteErr| else U64_LIMIT - 1
    }

    constructor (limit: nat)
      ensures Valid() && this.limit == limit && wroteOut == [] && wroteErr == []
    {
      this.limit := limit;
      stdout, stderr, totalSeen, exceeded, wroteOut, wroteErr := [], [], 0, false, [], [];
    }

    /** `append`. */
    method Append(toStdout: bool, bytes: seq<nat>)
      requires Valid()
      modifies this
      ensures Valid()
      ensures wroteOut == old(wroteOut) + if toStdout then bytes else []
      ensures wroteErr == old(wroteErr) + if toStdout then [] else bytes
    {
      totalSeen := if totalSeen + |bytes| < U64_LIMIT then totalSeen + |bytes| else U64_LIMIT - 1;
      var retained := |stdout| + |stderr|;
      var room := if retained < limit then limit - retained else 0;
      var keep := if |bytes| < room then |bytes| else room;
      if toStdout {
        stdout := stdout + bytes[..keep];
        wroteOut := wroteOut + bytes;
      } else {
        stderr := stderr + bytes[..keep];
        wroteErr := wroteErr + bytes;
      }
      exceeded := exceeded || keep < |bytes|;
    }
  }
}
