/**
 The broadcast worker: one poll claims a batch of pending jobs and drives each
 through its channel sender and the retry rule. The senders are an oracle that
 says, per job, how each provider call would turn out.
 */
module Worker {
  import opened Base
  import opened Model
  import JobQueue
  import Repository

  /** A job is given up after this many attempts. */
  const MaxAttempts: int := 3

  /** Jobs claimed per poll. */
  const BatchSize: int := 10

  const UnknownChannel: string := "unknown channel"

  /** How the calls made by an email dispatch turn out: the SES client set-up,
      the event lookup, the staff directory and each per-recipient send. */
  datatype EmailEnv = EmailEnv(
    sesInit: Option<string>,
    lookupFault: Fault,
    staff: Result<seq<string>>,
    deliveries: seq<Option<string>>)

  /** Everything outside the model that processing one job depends on: the FCM
      send, the email calls, and whether the two writes that follow succeed. */
  datatype JobEnv = JobEnv(
    fcm: Option<string>,
    email: EmailEnv,
    updateFault: Fault,
    auditFault: Fault)

  /** `sendEmailAllStaff`: fails only when the SES client, the event or the
      staff list cannot be loaded, each with its own prefix. No recipients is
      success, and per-recipient send errors are only logged, so the outcome
      never depends on `deliveries`. */
  function SendEmailAllStaff(events: seq<Event>, eventId: Uuid, env: EmailEnv): (err: Option<string>)
    ensures err.None? <==>
              env.sesInit.None? && env.lookupFault.None? && Repository.FindEvent(events, eventId).Some? && env.staff.Ok?
    ensures env.sesInit.Some? ==> err == Some("SES load config error: " + env.sesInit.value)
    ensures env.sesInit.None? && env.lookupFault.Some? ==> err == Some("cannot load event for SES: " + env.lookupFault.value)
    ensures env.sesInit.None? && env.lookupFault.None? && Repository.FindEvent(events, eventId).None? ==>
              err == Some("cannot load event for SES: " + Repository.RecordNotFound)
    ensures env.sesInit.None? && env.lookupFault.None? && Repository.FindEvent(events, eventId).Some? && env.staff.Err? ==>
              err == Some("cannot load staff emails: " + env.staff.error)
  {
    if env.sesInit.Some? then Some("SES load config error: " + env.sesInit.value)
    else if env.lookupFault.Some? then Some("cannot load event for SES: " + env.lookupFault.value)
    else if Repository.FindEvent(events, eventId).None? then Some("cannot load event for SES: " + Repository.RecordNotFound)
    else match env.staff
      case Err(e) => Some("cannot load staff emails: " + e)
      case Ok(recipients) => None
  }

  /** The result of handing a job to its channel. */
  datatype Outcome =
    | Delivered                  // the sender returned no error
    | SendFailed(msg: string)    // the sender returned an error
    | Misconfigured(msg: string) // no sender exists for the channel

  predicate KnownChannel(channel: string) {
    channel == "fcm" || channel == "email" || channel == "teams"
  }

  /** The channel switch of `processJob` as written: the `teams` sender is a
      stub that always succeeds, and an unknown channel sets a message that is
      then dropped, so it counts as delivered. */
  function DispatchAsWritten(events: seq<Event>, job: Job, env: JobEnv): (o: Outcome)
    ensures !o.Misconfigured?
    ensures job.channel == "fcm" ==> o == if env.fcm.None? then Delivered else SendFailed(env.fcm.value)
    ensures job.channel == "email" ==>
              o == match SendEmailAllStaff(events, job.eventId, env.email)
                   case None => Delivered
                   case Some(e) => SendFailed(e)
    ensures job.channel == "teams" ==> o == Delivered
    ensures !KnownChannel(job.channel) ==> o == Delivered
  {
    if job.channel == "fcm" then
      match env.fcm
      case None => Delivered
      case Some(e) => SendFailed(e)
    else if job.channel == "email" then
      match SendEmailAllStaff(events, job.eventId, env.email)
      case None => Delivered
      case Some(e) => SendFailed(e)
    else if job.channel == "teams" then Delivered
    else Delivered
  }

  /** The channel switch as its default branch evidently intends it: that
      branch records "unknown channel" as the job's last error
      (broadcast_worker.go:111-112), so an unknown channel is a configuration
      error, terminal at once. Known channels are unchanged. */
  function DispatchCorrected(events: seq<Event>, job: Job, env: JobEnv): (o: Outcome)
    ensures KnownChannel(job.channel) ==> o == DispatchAsWritten(events, job, env)
    ensures !KnownChannel(job.channel) ==> o == Misconfigured(UnknownChannel)
  {
    if KnownChannel(job.channel) then DispatchAsWritten(events, job, env) else Misconfigured(UnknownChannel)
  }

  /** Which of the two channel switches the worker runs. */
  datatype Rule = AsWritten | Corrected

  function Dispatch(events: seq<Event>, job: Job, env: JobEnv, rule: Rule): Outcome {
    match rule
    case AsWritten => DispatchAsWritten(events, job, env)
    case Corrected => DispatchCorrected(events, job, env)
  }

  /** What processing decides for a job: its next row values and the audit
      entry to write, if any. */
  datatype Decision = Decision(status: JobStatus, attempts: int, lastError: Option<string>, audit: Option<AuditEntry>)

  /** The retry rule. Attempts always grow by one; success is `Sent` with no
      error; a send error re-queues the job until the third attempt, when it
      becomes `Failed`; a configuration error fails at once. Every terminal
      outcome, and only those, carries one audit entry. */
  function Decide(job: Job, o: Outcome): (d: Decision)
    ensures d.attempts == job.attempts + 1
    ensures d.status == Sent <==> o.Delivered?
    ensures d.status == Pending <==> o.SendFailed? && job.attempts + 1 < MaxAttempts
    ensures d.status == Failed <==> (o.SendFailed? && job.attempts + 1 >= MaxAttempts) || o.Misconfigured?
    ensures d.lastError == if o.Delivered? then None else Some(o.msg)
    ensures d.audit.Some? <==> d.status != Pending
    ensures d.status == Sent ==> d.audit == Some(AuditEntry(job.eventId, job.channel, "sent", NoteDetail("delivered")))
    ensures d.status == Failed ==> d.audit == Some(AuditEntry(job.eventId, job.channel, "failed", ErrorDetail(o.msg)))
  {
    var attempts := job.attempts + 1;
    match o
    case Delivered =>
      Decision(Sent, attempts, None, Some(AuditEntry(job.eventId, job.channel, "sent", NoteDetail("delivered"))))
    case SendFailed(msg) =>
      if attempts >= MaxAttempts then
        Decision(Failed, attempts, Some(msg), Some(AuditEntry(job.eventId, job.channel, "failed", ErrorDetail(msg))))
      else
        Decision(Pending, attempts, Some(msg), None)
    case Misconfigured(msg) =>
      Decision(Failed, attempts, Some(msg), Some(AuditEntry(job.eventId, job.channel, "failed", ErrorDetail(msg))))
  }

  /** The decision for a job given the events table, its environment and the rule. */
  function DecisionFor(events: seq<Event>, job: Job, env: JobEnv, rule: Rule): Decision {
    Decide(job, Dispatch(events, job, env, rule))
  }

  /** The row a job ends with: the decision written over the claimed row, unless
      the status write failed, in which case the row stays as claimed. */
  function FinalRow(job: Job, d: Decision, env: JobEnv): Job {
    if env.updateFault.Some? then job else job.(status := d.status, attempts := d.attempts, lastError := d.lastError)
  }

  /** The audit rows one job adds: its decision's entry, unless that write failed. */
  function AuditOf(d: Decision, env: JobEnv): seq<AuditEntry> {
    if d.audit.Some? && env.auditFault.None? then [d.audit.value] else []
  }

  /** `processJob`: dispatch, decide, write the job's row, then write the audit
      entry of a terminal outcome. Both writes' errors are discarded. */
  function ProcessJob(s: State, job: Job, env: JobEnv, rule: Rule): (s': State)
    ensures s'.events == s.events && s'.tags == s.tags && s'.version == s.version && s'.clock == s.clock
    ensures |s'.jobs| == |s.jobs|
    ensures s'.audit == s.audit + AuditOf(DecisionFor(s.events, job, env, rule), env)
  {
    var d := DecisionFor(s.events, job, env, rule);
    var s1 := if env.updateFault.Some? then s
              else JobQueue.UpdateJobStatus(s, job.id, d.status, d.attempts, d.lastError);
    match d.audit
    case None => s1
    case Some(entry) => Repository.CreatePublishAudit(s1, entry, env.auditFault).state
  }

  /** Processes a batch in order, one job at a time. */
  function ProcessBatch(s: State, batch: seq<Job>, oracle: nat -> JobEnv, rule: Rule): State
    decreases |batch|
  {
    if |batch| == 0 then s
    else ProcessBatch(ProcessJob(s, batch[0], oracle(batch[0].id), rule), batch[1..], oracle, rule)
  }

  /** The audit rows a batch adds, job by job in batch order. */
  function AuditTrail(events: seq<Event>, batch: seq<Job>, oracle: nat -> JobEnv, rule: Rule): seq<AuditEntry>
    decreases |batch|
  {
    if |batch| == 0 then []
    else AuditOf(DecisionFor(events, batch[0], oracle(batch[0].id), rule), oracle(batch[0].id))
         + AuditTrail(events, batch[1..], oracle, rule)
  }

  /** Job ids are the row positions plus one. */
  predicate IdsSerial(jobs: seq<Job>) {
    forall i | 0 <= i < |jobs| :: jobs[i].id == i + 1
  }

  /** `r` has the table of `s` with the same length, ids and creation times,
      and nothing outside jobs and the audit log differs. */
  predicate KeepsKeys(s: State, r: State) {
    && r == s.(jobs := r.jobs, audit := r.audit)
    && |r.jobs| == |s.jobs|
    && forall i | 0 <= i < |s.jobs| :: r.jobs[i].id == s.jobs[i].id && r.jobs[i].createdAt == s.jobs[i].createdAt
  }

  /** Processing keeps the table's length, every row's id and creation time,
      and everything outside jobs and the audit log. */
  lemma {:induction false} BatchKeepsKeys(s: State, batch: seq<Job>, oracle: nat -> JobEnv, rule: Rule)
    ensures KeepsKeys(s, ProcessBatch(s, batch, oracle, rule))
    decreases |batch|
  {
    if |batch| > 0 {
      ProcessJobRows(s, batch[0], oracle(batch[0].id), rule);
      BatchKeepsKeys(ProcessJob(s, batch[0], oracle(batch[0].id), rule), batch[1..], oracle, rule);
    }
  }

  /** The audit log grows by the batch's trail, job by job in batch order. */
  lemma {:induction false} BatchAudit(s: State, batch: seq<Job>, oracle: nat -> JobEnv, rule: Rule)
    ensures ProcessBatch(s, batch, oracle, rule).audit == s.audit + AuditTrail(s.events, batch, oracle, rule)
    decreases |batch|
  {
    if |batch| > 0 {
      var s1 := ProcessJob(s, batch[0], oracle(batch[0].id), rule);
      BatchAudit(s1, batch[1..], oracle, rule);
    }
  }

  /** `processJob`'s effect on the job table: the rows carrying the job's id
      get the decision written over them, unless the status write fails; all
      other rows are left alone. */
  lemma ProcessJobRows(s: State, job: Job, env: JobEnv, rule: Rule)
    ensures var s' := ProcessJob(s, job, env, rule);
            var d := DecisionFor(s.events, job, env, rule);
            forall i | 0 <= i < |s.jobs| ::
              s'.jobs[i] == if s.jobs[i].id == job.id && env.updateFault.None?
                            then s.jobs[i].(status := d.status, attempts := d.attempts, lastError := d.lastError)
                            else s.jobs[i]
  {
    var d := DecisionFor(s.events, job, env, rule);
    JobQueue.UpdateJobStatusRows(s, job.id, d.status, d.attempts, d.lastError);
  }

  /** Processing one claimed row of a serially numbered table gives that row
      its final value and leaves the others alone. */
  lemma JobStep(s: State, job: Job, env: JobEnv, rule: Rule)
    requires IdsSerial(s.jobs)
    requires 0 < job.id <= |s.jobs| && s.jobs[job.id - 1] == job
    ensures var s1 := ProcessJob(s, job, env, rule);
            && s1.events == s.events
            && |s1.jobs| == |s.jobs|
            && IdsSerial(s1.jobs)
            && s1.jobs[job.id - 1] == FinalRow(job, DecisionFor(s.events, job, env, rule), env)
            && forall i | 0 <= i < |s.jobs| && i + 1 != job.id :: s1.jobs[i] == s.jobs[i]
  {
    ProcessJobRows(s, job, env, rule);
  }

  /** A row whose id no job of the batch carries is left alone. */
  lemma {:induction false} BatchUntouched(s: State, batch: seq<Job>, oracle: nat -> JobEnv, rule: Rule, i: nat)
    requires IdsSerial(s.jobs) && i < |s.jobs|
    requires forall k | 0 <= k < |batch| :: batch[k].id != i + 1
    ensures |ProcessBatch(s, batch, oracle, rule).jobs| == |s.jobs|
    ensures ProcessBatch(s, batch, oracle, rule).jobs[i] == s.jobs[i]
    decreases |batch|
  {
    if |batch| > 0 {
      var s1 := ProcessJob(s, batch[0], oracle(batch[0].id), rule);
      ProcessJobRows(s, batch[0], oracle(batch[0].id), rule);
      assert IdsSerial(s1.jobs);
      assert s1.jobs[i] == s.jobs[i];
      forall k | 0 <= k < |batch[1..]| ensures batch[1..][k].id != i + 1 { assert batch[1..][k] == batch[k + 1]; }
      BatchUntouched(s1, batch[1..], oracle, rule, i);
    }
  }

  /** The facts processing relies on about a batch over a table: serial ids,
      each job read back as its row, no job twice. */
  predicate BatchOf(jobs: seq<Job>, batch: seq<Job>) {
    && IdsSerial(jobs)
    && (forall k | 0 <= k < |batch| :: 0 < batch[k].id <= |jobs| && jobs[batch[k].id - 1] == batch[k])
    && (forall k, l | 0 <= k < l < |batch| :: batch[k].id != batch[l].id)
  }

  /** After the first job of a batch is processed, the rest is a batch over the new table. */
  lemma BatchTail(s: State, batch: seq<Job>, oracle: nat -> JobEnv, rule: Rule)
    requires BatchOf(s.jobs, batch) && |batch| > 0
    ensures var s1 := ProcessJob(s, batch[0], oracle(batch[0].id), rule);
            && BatchOf(s1.jobs, batch[1..])
            && s1.events == s.events
            && |s1.jobs| == |s.jobs|
            && s1.jobs[batch[0].id - 1] == FinalRow(batch[0], DecisionFor(s.events, batch[0], oracle(batch[0].id), rule), oracle(batch[0].id))
            && forall l | 0 <= l < |batch| - 1 :: batch[1..][l].id != batch[0].id
  {
    var j := batch[0];
    var rest := batch[1..];
    var s1 := ProcessJob(s, j, oracle(j.id), rule);
    JobStep(s, j, oracle(j.id), rule);
    forall l | 0 <= l < |rest|
      ensures 0 < rest[l].id <= |s1.jobs| && s1.jobs[rest[l].id - 1] == rest[l]
      ensures rest[l].id != j.id
    {
      assert rest[l] == batch[l + 1];
    }
  }

  /** The first job of a batch ends with its final row. */
  lemma BatchClaimedHead(s: State, batch: seq<Job>, oracle: nat -> JobEnv, rule: Rule)
    requires BatchOf(s.jobs, batch) && |batch| > 0
    ensures |ProcessBatch(s, batch, oracle, rule).jobs| == |s.jobs|
    ensures ProcessBatch(s, batch, oracle, rule).jobs[batch[0].id - 1]
            == FinalRow(batch[0], DecisionFor(s.events, batch[0], oracle(batch[0].id), rule), oracle(batch[0].id))
  {
    var s1 := ProcessJob(s, batch[0], oracle(batch[0].id), rule);
    BatchTail(s, batch, oracle, rule);
    BatchUntouched(s1, batch[1..], oracle, rule, batch[0].id - 1);
  }

  /** The job `j`, the `k`-th of a batch of distinct claimed rows, ends with
      its final row, decided against the events table `events` the batch runs on. */
  lemma {:induction false} BatchClaimed(s: State, events: seq<Event>, batch: seq<Job>, oracle: nat -> JobEnv, rule: Rule, k: nat, j: Job)
    requires BatchOf(s.jobs, batch) && k < |batch| && s.events == events && batch[k] == j
    ensures |ProcessBatch(s, batch, oracle, rule).jobs| == |s.jobs|
    ensures ProcessBatch(s, batch, oracle, rule).jobs[j.id - 1] == FinalRow(j, DecisionFor(events, j, oracle(j.id), rule), oracle(j.id))
    decreases |batch|
  {
    if k == 0 {
      BatchClaimedHead(s, batch, oracle, rule);
    } else {
      var s1 := ProcessJob(s, batch[0], oracle(batch[0].id), rule);
      BatchTail(s, batch, oracle, rule);
      assert batch[1..][k - 1] == j;
      BatchClaimed(s1, events, batch[1..], oracle, rule, k - 1, j);
    }
  }

  /** Processing a batch of distinct claimed rows gives each its final row. */
  lemma BatchRows(s: State, batch: seq<Job>, oracle: nat -> JobEnv, rule: Rule)
    requires BatchOf(s.jobs, batch)
    ensures |ProcessBatch(s, batch, oracle, rule).jobs| == |s.jobs|
    ensures forall k | 0 <= k < |batch| ::
              ProcessBatch(s, batch, oracle, rule).jobs[batch[k].id - 1]
              == FinalRow(batch[k], DecisionFor(s.events, batch[k], oracle(batch[k].id), rule), oracle(batch[k].id))
  {
    BatchKeepsKeys(s, batch, oracle, rule);
    forall k | 0 <= k < |batch|
      ensures ProcessBatch(s, batch, oracle, rule).jobs[batch[k].id - 1]
              == FinalRow(batch[k], DecisionFor(s.events, batch[k], oracle(batch[k].id), rule), oracle(batch[k].id))
    {
      BatchClaimed(s, s.events, batch, oracle, rule, k, batch[k]);
    }
  }

  /** Processing a batch leaves every row no job of the batch names alone. */
  lemma BatchOtherRows(s: State, batch: seq<Job>, oracle: nat -> JobEnv, rule: Rule)
    requires IdsSerial(s.jobs)
    ensures |ProcessBatch(s, batch, oracle, rule).jobs| == |s.jobs|
    ensures forall i | 0 <= i < |s.jobs| && (forall k | 0 <= k < |batch| :: batch[k].id != i + 1) ::
              ProcessBatch(s, batch, oracle, rule).jobs[i] == s.jobs[i]
  {
    BatchKeepsKeys(s, batch, oracle, rule);
    forall i | 0 <= i < |s.jobs| && (forall k | 0 <= k < |batch| :: batch[k].id != i + 1)
      ensures ProcessBatch(s, batch, oracle, rule).jobs[i] == s.jobs[i]
    {
      BatchUntouched(s, batch, oracle, rule, i);
    }
  }

  /** `runOnce`: one poll. A failed claim or an empty batch processes nothing;
      otherwise every claimed job is processed once, in the order returned. */
  function RunOnce(s: State, oracle: nat -> JobEnv, rule: Rule, claimFault: Fault): (r: State)
    ensures claimFault.Some? ==> r == s
    ensures r == s.(jobs := r.jobs, audit := r.audit)
  {
    var st := JobQueue.Claim(s, BatchSize, claimFault);
    if st.result.Err? then s
    else if |st.result.value| == 0 then st.state
    else
      assert st.state == s.(jobs := st.state.jobs);
      var r := ProcessBatch(st.state, st.result.value, oracle, rule);
      ProcessBatchFrame(st.state, st.result.value, oracle, rule);
      r
  }

  /** Processing touches only jobs and the audit log. */
  lemma {:induction false} ProcessBatchFrame(s: State, batch: seq<Job>, oracle: nat -> JobEnv, rule: Rule)
    ensures var r := ProcessBatch(s, batch, oracle, rule);
            r == s.(jobs := r.jobs, audit := r.audit)
    decreases |batch|
  {
    if |batch| > 0 {
      ProcessBatchFrame(ProcessJob(s, batch[0], oracle(batch[0].id), rule), batch[1..], oracle, rule);
    }
  }

  /** A successful poll is the claim followed by processing of its batch. */
  lemma RunOnceIsBatch(s: State, oracle: nat -> JobEnv, rule: Rule)
    ensures var st := JobQueue.Claim(s, BatchSize, None);
            RunOnce(s, oracle, rule, None) == ProcessBatch(st.state, st.result.value, oracle, rule)
  {
  }

  /** What the worker may rely on about a claimed batch `b` and claimed table
      `c`: serial ids, distinct jobs, each read back as its row of the updated
      table, each pending before the claim; rows that were not pending are
      untouched by the claim, and nothing but the job table differs. */
  predicate ClaimedFrom(s: State, c: State, b: seq<Job>) {
    && Valid(c) && IdsSerial(c.jobs) && c == s.(jobs := c.jobs) && |c.jobs| == |s.jobs|
    && (forall k | 0 <= k < |b| ::
          0 < b[k].id <= |c.jobs| && c.jobs[b[k].id - 1] == b[k] && s.jobs[b[k].id - 1].status == Pending)
    && (forall k, l | 0 <= k < l < |b| :: b[k].id != b[l].id)
    && (forall i | 0 <= i < |s.jobs| && s.jobs[i].status != Pending :: c.jobs[i] == s.jobs[i])
  }

  /** A claim on a consistent database succeeds and establishes `ClaimedFrom`. */
  lemma ClaimedBatch(s: State)
    requires Valid(s)
    ensures JobQueue.Claim(s, BatchSize, None).result.Ok?
    ensures ClaimedFrom(s, JobQueue.Claim(s, BatchSize, None).state, JobQueue.Claim(s, BatchSize, None).result.value)
  {
    JobQueue.ClaimedRows(s, BatchSize);
    JobQueue.ClaimOldestFirst(s, BatchSize);
    JobQueue.ClaimEffect(s, BatchSize);
  }

  /** Processing a claimed batch keeps the database consistent. */
  lemma ProcessClaimedValid(s: State, c: State, b: seq<Job>, oracle: nat -> JobEnv, rule: Rule)
    requires ClaimedFrom(s, c, b)
    ensures Valid(ProcessBatch(c, b, oracle, rule))
    ensures |ProcessBatch(c, b, oracle, rule).jobs| == |s.jobs|
    ensures ProcessBatch(c, b, oracle, rule).audit == s.audit + AuditTrail(s.events, b, oracle, rule)
  {
    BatchKeepsKeys(c, b, oracle, rule);
    BatchAudit(c, b, oracle, rule);
  }

  /** Processing a claimed batch gives each claimed job its final row and leaves
      the rows that were not pending before the claim alone. */
  lemma ProcessClaimedRows(s: State, c: State, b: seq<Job>, oracle: nat -> JobEnv, rule: Rule)
    requires ClaimedFrom(s, c, b)
    ensures |ProcessBatch(c, b, oracle, rule).jobs| == |s.jobs|
    ensures forall k | 0 <= k < |b| ::
              && 0 < b[k].id <= |s.jobs|
              && ProcessBatch(c, b, oracle, rule).jobs[b[k].id - 1]
                 == FinalRow(b[k], DecisionFor(s.events, b[k], oracle(b[k].id), rule), oracle(b[k].id))
    ensures forall i | 0 <= i < |s.jobs| && s.jobs[i].status != Pending :: ProcessBatch(c, b, oracle, rule).jobs[i] == s.jobs[i]
  {
    forall i, k | 0 <= i < |s.jobs| && s.jobs[i].status != Pending && 0 <= k < |b|
      ensures b[k].id != i + 1
    {
      assert s.jobs[b[k].id - 1].status == Pending;
    }
    assert BatchOf(c.jobs, b);
    BatchRows(c, b, oracle, rule);
    BatchOtherRows(c, b, oracle, rule);
  }

  /** One poll keeps the database consistent and appends exactly the claimed
      jobs' audit entries, in order. */
  lemma RunOnceAudit(s: State, oracle: nat -> JobEnv, rule: Rule)
    requires Valid(s)
    ensures Valid(RunOnce(s, oracle, rule, None))
    ensures |RunOnce(s, oracle, rule, None).jobs| == |s.jobs|
    ensures RunOnce(s, oracle, rule, None).audit
            == s.audit + AuditTrail(s.events, JobQueue.Claim(s, BatchSize, None).result.value, oracle, rule)
  {
    var st := JobQueue.Claim(s, BatchSize, None);
    ClaimedBatch(s);
    RunOnceIsBatch(s, oracle, rule);
    ProcessClaimedValid(s, st.state, st.result.value, oracle, rule);
  }

  /** One poll gives each claimed job its final row and leaves the rows that
      were not pending alone. */
  lemma RunOnceRows(s: State, oracle: nat -> JobEnv, rule: Rule)
    requires Valid(s)
    ensures var b := JobQueue.Claim(s, BatchSize, None).result.value;
            var r := RunOnce(s, oracle, rule, None);
            && |r.jobs| == |s.jobs|
            && (forall k | 0 <= k < |b| ::
                  0 < b[k].id <= |s.jobs|
                  && r.jobs[b[k].id - 1] == FinalRow(b[k], DecisionFor(s.events, b[k], oracle(b[k].id), rule), oracle(b[k].id)))
            && (forall i | 0 <= i < |s.jobs| && s.jobs[i].status != Pending :: r.jobs[i] == s.jobs[i])
  {
    var st := JobQueue.Claim(s, BatchSize, None);
    assert st.result.Ok? && ClaimedFrom(s, st.state, st.result.value) by {
      ClaimedBatch(s);
    }
    assert RunOnce(s, oracle, rule, None) == ProcessBatch(st.state, st.result.value, oracle, rule) by {
      RunOnceIsBatch(s, oracle, rule);
    }
    ProcessClaimedRows(s, st.state, st.result.value, oracle, rule);
  }

  /** One poll on a consistent database: each claimed job ends with its final
      row, jobs not pending before the poll (in particular every `Sent` or
      `Failed` one) are untouched, and the audit log grows by exactly the
      claimed jobs' entries, in order. */
  lemma RunOnceEffect(s: State, oracle: nat -> JobEnv, rule: Rule)
    requires Valid(s)
    ensures var b := JobQueue.Claim(s, BatchSize, None).result.value;
            var r := RunOnce(s, oracle, rule, None);
            && Valid(r)
            && |r.jobs| == |s.jobs|
            && r.audit == s.audit + AuditTrail(s.events, b, oracle, rule)
            && (forall k | 0 <= k < |b| ::
                  0 < b[k].id <= |s.jobs|
                  && r.jobs[b[k].id - 1] == FinalRow(b[k], DecisionFor(s.events, b[k], oracle(b[k].id), rule), oracle(b[k].id)))
            && (forall i | 0 <= i < |s.jobs| && s.jobs[i].status != Pending :: r.jobs[i] == s.jobs[i])
  {
    RunOnceAudit(s, oracle, rule);
    RunOnceRows(s, oracle, rule);
  }

  /** A poll with nothing pending changes nothing. */
  lemma IdlePoll(s: State, oracle: nat -> JobEnv, rule: Rule)
    requires Valid(s)
    requires forall i | 0 <= i < |s.jobs| :: s.jobs[i].status != Pending
    ensures RunOnce(s, oracle, rule, None) == s
  {
    JobQueue.ClaimOldestFirst(s, BatchSize);
    JobQueue.ClaimEffect(s, BatchSize);
    NoPendingCount(s.jobs, 0);
    var st := JobQueue.Claim(s, BatchSize, None);
    assert st.state.jobs == s.jobs;
  }

  lemma {:induction false} NoPendingCount(jobs: seq<Job>, from: nat)
    requires from <= |jobs|
    requires forall i | from <= i < |jobs| :: jobs[i].status != Pending
    ensures JobQueue.PendingFrom(jobs, from) == 0
    decreases |jobs| - from
  {
    if from < |jobs| {
      NoPendingCount(jobs, from + 1);
    }
  }

  /** With a single job, pending, a poll processes exactly that job. */
  lemma SinglePendingJob(s: State, oracle: nat -> JobEnv, rule: Rule)
    requires Valid(s) && |s.jobs| == 1 && s.jobs[0].status == Pending
    ensures var j := s.jobs[0].(status := Processing);
            var d := DecisionFor(s.events, j, oracle(1), rule);
            var r := RunOnce(s, oracle, rule, None);
            && Valid(r)
            && r == s.(jobs := [FinalRow(j, d, oracle(1))], audit := s.audit + AuditOf(d, oracle(1)))
  {
    var st := JobQueue.Claim(s, BatchSize, None);
    var b := st.result.value;
    JobQueue.ClaimOldestFirst(s, BatchSize);
    assert JobQueue.PendingFrom(s.jobs, 1) == 0;
    assert |b| == 1;
    RunOnceEffect(s, oracle, rule);
    JobQueue.ClaimedAt(s, BatchSize, 0);
    assert b[0] == s.jobs[0].(status := Processing);
    assert AuditTrail(s.events, b, oracle, rule) == AuditOf(DecisionFor(s.events, b[0], oracle(1), rule), oracle(1));
    var r := RunOnce(s, oracle, rule, None);
    assert r.jobs == [r.jobs[0]];
  }

  /** One poll of a single pending FCM job whose send fails: re-queued before
      the third attempt, failed and audited on it. */
  lemma FcmFailurePoll(s: State, oracle: nat -> JobEnv, rule: Rule)
    requires Valid(s) && |s.jobs| == 1
    requires s.jobs[0].status == Pending && s.jobs[0].channel == "fcm"
    requires oracle(1).fcm.Some? && oracle(1).updateFault.None? && oracle(1).auditFault.None?
    ensures var e := oracle(1).fcm.value;
            var n := s.jobs[0].attempts + 1;
            var r := RunOnce(s, oracle, rule, None);
            && Valid(r)
            && r.events == s.events
            && r.jobs == [s.jobs[0].(status := if n < MaxAttempts then Pending else Failed, attempts := n, lastError := Some(e))]
            && r.audit == s.audit + if n < MaxAttempts then [] else [AuditEntry(s.jobs[0].eventId, "fcm", "failed", ErrorDetail(e))]
  {
    SinglePendingJob(s, oracle, rule);
  }

  /** `trace` is a run of successive polls, each with the same senders. */
  predicate PollTrace(trace: seq<State>, oracle: nat -> JobEnv, rule: Rule)
    decreases |trace|
  {
    |trace| <= 1 || (trace[1] == RunOnce(trace[0], oracle, rule, None) && PollTrace(trace[1..], oracle, rule))
  }

  /** Once nothing is pending, polling changes nothing. */
  lemma {:induction false} IdleTrace(trace: seq<State>, oracle: nat -> JobEnv, rule: Rule)
    requires |trace| >= 1 && PollTrace(trace, oracle, rule)
    requires Valid(trace[0])
    requires forall i | 0 <= i < |trace[0].jobs| :: trace[0].jobs[i].status != Pending
    ensures trace[|trace| - 1] == trace[0]
    decreases |trace|
  {
    if |trace| > 1 {
      IdlePoll(trace[0], oracle, rule);
      IdleTrace(trace[1..], oracle, rule);
    }
  }

  /** The row of job `j` after `n` failed sends with error `e`. */
  function AfterFailures(j: Job, e: string, n: nat): Job {
    j.(status := if j.attempts + n < MaxAttempts then Pending else Failed,
       attempts := Min(j.attempts + n, MaxAttempts), lastError := Some(e))
  }

  /** The audit rows `n` failed sends of job `j` leave: one `failed` entry
      once attempts run out. */
  function FailureAudit(j: Job, e: string, n: nat): seq<AuditEntry> {
    if j.attempts + n < MaxAttempts then [] else [AuditEntry(j.eventId, "fcm", "failed", ErrorDetail(e))]
  }

  lemma AfterFailuresShift(j: Job, e: string, n: nat)
    requires j.attempts + 1 < MaxAttempts && n >= 1
    ensures AfterFailures(AfterFailures(j, e, 1), e, n - 1) == AfterFailures(j, e, n)
    ensures FailureAudit(AfterFailures(j, e, 1), e, n - 1) == FailureAudit(j, e, n)
  {
  }

  /** The first poll of a failing trace, stated over the trace. */
  lemma FirstFailingPoll(trace: seq<State>, oracle: nat -> JobEnv, rule: Rule, j: Job, e: string)
    requires |trace| >= 2 && PollTrace(trace, oracle, rule)
    requires Valid(trace[0]) && trace[0].jobs == [j]
    requires j.status == Pending && j.channel == "fcm" && 0 <= j.attempts < MaxAttempts
    requires oracle(1).fcm == Some(e) && oracle(1).updateFault.None? && oracle(1).auditFault.None?
    ensures Valid(trace[1]) && PollTrace(trace[1..], oracle, rule)
    ensures trace[1].jobs == [AfterFailures(j, e, 1)]
    ensures trace[1].audit == trace[0].audit + FailureAudit(j, e, 1)
  {
    FcmFailurePoll(trace[0], oracle, rule);
  }

  /** A job whose FCM send keeps failing with error `e` gains one attempt per
      poll, stays pending below `MaxAttempts` and is failed on reaching it,
      with the error kept, exactly one `failed` audit entry, and no change
      afterwards. */
  lemma {:induction false} FailingPolls(trace: seq<State>, oracle: nat -> JobEnv, rule: Rule, j: Job, e: string)
    requires |trace| >= 2 && PollTrace(trace, oracle, rule)
    requires Valid(trace[0]) && trace[0].jobs == [j]
    requires j.status == Pending && j.channel == "fcm" && 0 <= j.attempts < MaxAttempts
    requires oracle(1).fcm == Some(e) && oracle(1).updateFault.None? && oracle(1).auditFault.None?
    ensures trace[|trace| - 1].jobs == [AfterFailures(j, e, |trace| - 1)]
    ensures trace[|trace| - 1].audit == trace[0].audit + FailureAudit(j, e, |trace| - 1)
    decreases |trace|
  {
    var n := |trace| - 1;
    if j.attempts + 1 >= MaxAttempts {
      LastFailingPoll(trace, oracle, rule, j, e);
    } else {
      FirstFailingPoll(trace, oracle, rule, j, e);
      if n > 1 {
        var rest := trace[1..];
        assert rest[0] == trace[1] && rest[|rest| - 1] == trace[n];
        FailingPolls(rest, oracle, rule, AfterFailures(j, e, 1), e);
        AfterFailuresShift(j, e, n);
      }
    }
  }

  /** The case of `FailingPolls` where the first poll uses up the attempts. */
  lemma LastFailingPoll(trace: seq<State>, oracle: nat -> JobEnv, rule: Rule, j: Job, e: string)
    requires |trace| >= 2 && PollTrace(trace, oracle, rule)
    requires Valid(trace[0]) && trace[0].jobs == [j]
    requires j.status == Pending && j.channel == "fcm" && 0 <= j.attempts < MaxAttempts <= j.attempts + 1
    requires oracle(1).fcm == Some(e) && oracle(1).updateFault.None? && oracle(1).auditFault.None?
    ensures trace[|trace| - 1].jobs == [AfterFailures(j, e, |trace| - 1)]
    ensures trace[|trace| - 1].audit == trace[0].audit + FailureAudit(j, e, |trace| - 1)
  {
    FirstFailingPoll(trace, oracle, rule, j, e);
    var rest := trace[1..];
    assert rest[0] == trace[1] && rest[|rest| - 1] == trace[|trace| - 1];
    IdleTrace(rest, oracle, rule);
  }

  /** Two failed sends followed by a success: the job ends `Sent` after three
      attempts with no error, audited once as delivered. */
  lemma RetryThenSent(trace: seq<State>, failing: nat -> JobEnv, working: nat -> JobEnv, rule: Rule)
    requires |trace| == 3 && PollTrace(trace, failing, rule)
    requires Valid(trace[0]) && |trace[0].jobs| == 1
    requires trace[0].jobs[0].status == Pending && trace[0].jobs[0].attempts == 0 && trace[0].jobs[0].channel == "fcm"
    requires failing(1).fcm.Some? && failing(1).updateFault.None? && failing(1).auditFault.None?
    requires working(1).fcm.None? && working(1).updateFault.None? && working(1).auditFault.None?
    ensures var r := RunOnce(trace[2], working, rule, None);
            && r.jobs == [trace[0].jobs[0].(status := Sent, attempts := 3, lastError := None)]
            && r.audit == trace[0].audit + [AuditEntry(trace[0].jobs[0].eventId, "fcm", "sent", NoteDetail("delivered"))]
  {
    FailingPolls(trace, failing, rule, trace[0].jobs[0], failing(1).fcm.value);
    SinglePendingJob(trace[2], working, rule);
  }

  /** If the status write after a send fails, the job is left `Processing`,
      which no later poll claims: it is stuck, whatever the send's outcome. */
  lemma LostStatusWriteStrandsJob(s: State, oracle: nat -> JobEnv, rule: Rule)
    requires Valid(s) && |s.jobs| == 1 && s.jobs[0].status == Pending
    requires oracle(1).updateFault.Some?
    ensures var s1 := RunOnce(s, oracle, rule, None);
            && s1.jobs == [s.jobs[0].(status := Processing)]
            && forall later: nat -> JobEnv, rule2: Rule :: RunOnce(s1, later, rule2, None).jobs == s1.jobs
  {
    var s1 := RunOnce(s, oracle, rule, None);
    SinglePendingJob(s, oracle, rule);
    forall later: nat -> JobEnv, rule2: Rule
      ensures RunOnce(s1, later, rule2, None).jobs == s1.jobs
    {
      IdlePoll(s1, later, rule2);
    }
  }

  /** On any table, the `k`-th job a poll claims whose FCM send fails with `e`
      gains one attempt, keeps `e` as its last error, goes back to pending
      before the third attempt and is failed on it. */
  lemma FcmFailureClaimed(s: State, oracle: nat -> JobEnv, rule: Rule, k: nat, e: string)
    requires Valid(s)
    requires k < |JobQueue.Claim(s, BatchSize, None).result.value|
    requires var j := JobQueue.Claim(s, BatchSize, None).result.value[k];
             j.channel == "fcm" && oracle(j.id).fcm == Some(e) && oracle(j.id).updateFault.None?
    ensures var j := JobQueue.Claim(s, BatchSize, None).result.value[k];
            var r := RunOnce(s, oracle, rule, None);
            var n := j.attempts + 1;
            && 0 < j.id <= |r.jobs|
            && r.jobs[j.id - 1] == j.(status := if n < MaxAttempts then Pending else Failed, attempts := n, lastError := Some(e))
  {
    RunOnceRows(s, oracle, rule);
  }

  /** On any table, a claimed job whose status write fails is left
      `Processing`, and no later poll, whatever its senders, changes its row. */
  lemma LostStatusWriteStrands(s: State, oracle: nat -> JobEnv, rule: Rule, k: nat)
    requires Valid(s)
    requires k < |JobQueue.Claim(s, BatchSize, None).result.value|
    requires oracle(JobQueue.Claim(s, BatchSize, None).result.value[k].id).updateFault.Some?
    ensures var j := JobQueue.Claim(s, BatchSize, None).result.value[k];
            var s1 := RunOnce(s, oracle, rule, None);
            && 0 < j.id <= |s1.jobs|
            && j.status == Processing
            && s1.jobs[j.id - 1] == j
            && forall later: nat -> JobEnv, rule2: Rule ::
                 |RunOnce(s1, later, rule2, None).jobs| == |s1.jobs| && RunOnce(s1, later, rule2, None).jobs[j.id - 1] == j
  {
    var b := JobQueue.Claim(s, BatchSize, None).result.value;
    var s1 := RunOnce(s, oracle, rule, None);
    JobQueue.ClaimedAt(s, BatchSize, k);
    RunOnceEffect(s, oracle, rule);
    forall later: nat -> JobEnv, rule2: Rule
      ensures |RunOnce(s1, later, rule2, None).jobs| == |s1.jobs| && RunOnce(s1, later, rule2, None).jobs[b[k].id - 1] == b[k]
    {
      RunOnceRows(s1, later, rule2);
    }
  }

  /** As written, a job on a channel with no sender is marked `Sent`, with no
      error, and audited as delivered. */
  lemma UnknownChannelIsSent(s: State, oracle: nat -> JobEnv)
    requires Valid(s) && |s.jobs| == 1 && s.jobs[0].status == Pending
    requires !KnownChannel(s.jobs[0].channel)
    requires oracle(1).updateFault.None? && oracle(1).auditFault.None?
    ensures var r := RunOnce(s, oracle, AsWritten, None);
            && r.jobs == [s.jobs[0].(status := Sent, attempts := s.jobs[0].attempts + 1, lastError := None)]
            && r.audit == s.audit + [AuditEntry(s.jobs[0].eventId, s.jobs[0].channel, "sent", NoteDetail("delivered"))]
  {
    SinglePendingJob(s, oracle, AsWritten);
  }

  /** With the corrected switch, the same job fails at once with the
      configuration error recorded on the row and in the audit log. */
  lemma UnknownChannelFailsWhenCorrected(s: State, oracle: nat -> JobEnv)
    requires Valid(s) && |s.jobs| == 1 && s.jobs[0].status == Pending
    requires !KnownChannel(s.jobs[0].channel)
    requires oracle(1).updateFault.None? && oracle(1).auditFault.None?
    ensures var r := RunOnce(s, oracle, Corrected, None);
            && r.jobs == [s.jobs[0].(status := Failed, attempts := s.jobs[0].attempts + 1, lastError := Some(UnknownChannel))]
            && r.audit == s.audit + [AuditEntry(s.jobs[0].eventId, s.jobs[0].channel, "failed", ErrorDetail(UnknownChannel))]
  {
    SinglePendingJob(s, oracle, Corrected);
  }
}
