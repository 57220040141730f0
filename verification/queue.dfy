/**
 The broadcast job store: enqueueing a job, atomically claiming the oldest
 pending jobs (the `FOR UPDATE SKIP LOCKED` statement taken as one step) and
 overwriting a job's status after processing.
 */
module JobQueue {
  import opened Base
  import opened Model

  /** `EnqueueBroadcast`: inserts one pending job with zero attempts, stamped
      with the current time and the next serial id. */
  function Enqueue(s: State, eventId: Uuid, channel: string, payload: Payload, fault: Fault): (st: Step<()>)
    ensures fault.Some? ==> st == Step(s, Err(fault.value))
    ensures fault.None? ==> st.result.Ok?
    ensures fault.None? ==>
              && |st.state.jobs| == |s.jobs| + 1
              && st.state.jobs[..|s.jobs|] == s.jobs
              && st.state == s.(jobs := st.state.jobs, clock := st.state.clock)
              && s.clock < st.state.clock
    ensures fault.None? ==>
              var j := st.state.jobs[|s.jobs|];
              && j.eventId == eventId && j.channel == channel && j.payload == payload
              && j.status == Pending && j.attempts == 0 && j.lastError == None
    ensures Valid(s) ==> Valid(st.state)
  {
    if fault.Some? then Step(s, Err(fault.value))
    else
      var job := Job(|s.jobs| + 1, eventId, channel, payload, Pending, 0, None, s.clock);
      Step(s.(jobs := s.jobs + [job], clock := s.clock + 1), Ok(()))
  }

  /** The number of pending jobs at positions `from` and later. */
  function PendingFrom(jobs: seq<Job>, from: nat): nat
    requires from <= |jobs|
    decreases |jobs| - from
  {
    if from == |jobs| then 0
    else (if jobs[from].status == Pending then 1 else 0) + PendingFrom(jobs, from + 1)
  }

  /** The positions of the first `limit` pending jobs at or after `from`, in
      table order. */
  function Selected(jobs: seq<Job>, from: nat, limit: nat): (ix: seq<nat>)
    requires from <= |jobs|
    ensures |ix| == Min(limit, PendingFrom(jobs, from))
    ensures forall k | 0 <= k < |ix| :: from <= ix[k] < |jobs|
    decreases |jobs| - from
  {
    if from == |jobs| || limit == 0 then []
    else if jobs[from].status == Pending then [from] + Selected(jobs, from + 1, limit - 1)
    else Selected(jobs, from + 1, limit)
  }

  /** Positions of pending rows, strictly increasing. */
  predicate PendingInOrder(jobs: seq<Job>, ix: seq<nat>) {
    && (forall k | 0 <= k < |ix| :: ix[k] < |jobs| && jobs[ix[k]].status == Pending)
    && (forall k, l | 0 <= k < l < |ix| :: ix[k] < ix[l])
  }

  /** No pending row at or after `from` is left out of `ix` unless `ix` is full
      and every selected position comes before it. */
  predicate SkipsNone(jobs: seq<Job>, from: nat, limit: nat, ix: seq<nat>) {
    forall i | from <= i < |jobs| && jobs[i].status == Pending && i !in ix ::
      |ix| == limit && forall k | 0 <= k < |ix| :: ix[k] < i
  }

  /** The selection takes pending positions only, in increasing order. */
  lemma {:induction false} SelectedOrdered(jobs: seq<Job>, from: nat, limit: nat)
    requires from <= |jobs|
    ensures PendingInOrder(jobs, Selected(jobs, from, limit))
    decreases |jobs| - from
  {
    if from < |jobs| && limit > 0 {
      if jobs[from].status == Pending {
        SelectedOrdered(jobs, from + 1, limit - 1);
        var rest := Selected(jobs, from + 1, limit - 1);
        var ix := [from] + rest;
        assert Selected(jobs, from, limit) == ix;
        assert forall k | 1 <= k < |ix| :: ix[k] == rest[k - 1] && from < ix[k];
      } else {
        SelectedOrdered(jobs, from + 1, limit);
        assert Selected(jobs, from, limit) == Selected(jobs, from + 1, limit);
      }
    }
  }

  /** The selection skips no pending position: one left out means the limit
      was reached before it. */
  lemma {:induction false} SelectedComplete(jobs: seq<Job>, from: nat, limit: nat)
    requires from <= |jobs|
    ensures SkipsNone(jobs, from, limit, Selected(jobs, from, limit))
    decreases |jobs| - from
  {
    if from < |jobs| && limit > 0 {
      if jobs[from].status == Pending {
        SelectedComplete(jobs, from + 1, limit - 1);
        var rest := Selected(jobs, from + 1, limit - 1);
        var ix := [from] + rest;
        assert Selected(jobs, from, limit) == ix;
        forall i | from <= i < |jobs| && jobs[i].status == Pending && i !in ix
          ensures |ix| == limit && forall k | 0 <= k < |ix| :: ix[k] < i
        {
          assert i != from && i !in rest;
          assert forall k | 1 <= k < |ix| :: ix[k] == rest[k - 1];
        }
      } else {
        SelectedComplete(jobs, from + 1, limit);
        assert Selected(jobs, from, limit) == Selected(jobs, from + 1, limit);
      }
    }
  }

  /** Both facts about a selection from the start of the table. */
  lemma SelectedFacts(jobs: seq<Job>, limit: nat)
    ensures PendingInOrder(jobs, Selected(jobs, 0, limit))
    ensures SkipsNone(jobs, 0, limit, Selected(jobs, 0, limit))
  {
    SelectedOrdered(jobs, 0, limit);
    SelectedComplete(jobs, 0, limit);
  }

  /** The job table with the selected rows set to `Processing`. */
  function MarkProcessing(jobs: seq<Job>, ix: seq<nat>): (r: seq<Job>)
    ensures |r| == |jobs|
  {
    if |jobs| == 0 then []
    else
      var last := |jobs| - 1;
      MarkProcessing(jobs[..last], ix) + [if last in ix then jobs[last].(status := Processing) else jobs[last]]
  }

  /** Marking changes exactly the selected rows, and only their status. */
  lemma {:induction false} MarkProcessingAt(jobs: seq<Job>, ix: seq<nat>, i: nat)
    requires i < |jobs|
    ensures MarkProcessing(jobs, ix)[i] == if i in ix then jobs[i].(status := Processing) else jobs[i]
    decreases |jobs|
  {
    if i < |jobs| - 1 {
      MarkProcessingAt(jobs[..|jobs| - 1], ix, i);
    }
  }

  /** The claimed rows, read back from the updated table in selection order. */
  function Batch(jobs: seq<Job>, ix: seq<nat>): (b: seq<Job>)
    requires forall k | 0 <= k < |ix| :: ix[k] < |jobs|
    ensures |b| == |ix|
  {
    if |ix| == 0 then [] else [jobs[ix[0]]] + Batch(jobs, ix[1..])
  }

  /** The `k`-th claimed job is the row at the `k`-th selected position. */
  lemma {:induction false} BatchAt(jobs: seq<Job>, ix: seq<nat>)
    requires forall k | 0 <= k < |ix| :: ix[k] < |jobs|
    ensures forall k | 0 <= k < |ix| :: Batch(jobs, ix)[k] == jobs[ix[k]]
    decreases |ix|
  {
    if |ix| > 0 {
      BatchAt(jobs, ix[1..]);
      var b := Batch(jobs, ix);
      assert forall k | 1 <= k < |ix| :: b[k] == Batch(jobs, ix[1..])[k - 1] && ix[k] == ix[1..][k - 1];
    }
  }

  const NegativeLimit: string := "LIMIT must not be negative"

  /** `FetchPendingBroadcasts`: claims up to `limit` of the oldest pending jobs,
      marks them `Processing` and returns them. A failed statement (or a
      negative limit, which the database rejects) rolls back and changes
      nothing; a claim changes nothing but the job table. */
  function Claim(s: State, limit: int, fault: Fault): (st: Step<seq<Job>>)
    ensures st.result.Err? <==> fault.Some? || limit < 0
    ensures st.result.Err? ==> st.state == s
    ensures st.result.Ok? ==>
              && |st.result.value| <= limit
              && st.state == s.(jobs := st.state.jobs)
              && |st.state.jobs| == |s.jobs|
  {
    if fault.Some? then Step(s, Err(fault.value))
    else if limit < 0 then Step(s, Err(NegativeLimit))
    else
      var ix := Selected(s.jobs, 0, limit);
      SelectedFacts(s.jobs, limit);
      var jobs' := MarkProcessing(s.jobs, ix);
      Step(s.(jobs := jobs'), Ok(Batch(jobs', ix)))
  }

  /** A successful claim marks some pending rows `Processing`, leaves the
      others as they were, and returns exactly the marked rows. */
  lemma ClaimEffect(s: State, limit: int)
    requires limit >= 0
    ensures var st := Claim(s, limit, None);
            var b := st.result.value;
            var jobs' := st.state.jobs;
            && st.result.Ok?
            && (forall i | 0 <= i < |s.jobs| ::
                  jobs'[i] == s.jobs[i]
                  || (s.jobs[i].status == Pending && jobs'[i] == s.jobs[i].(status := Processing) && jobs'[i] in b))
            && (forall k | 0 <= k < |b| :: b[k].status == Processing && b[k] in jobs')
  {
    var ix := Selected(s.jobs, 0, limit);
    SelectedFacts(s.jobs, limit);
    var jobs' := MarkProcessing(s.jobs, ix);
    var b := Batch(jobs', ix);
    BatchAt(jobs', ix);
    assert Claim(s, limit, None) == Step(s.(jobs := jobs'), Ok(b));
    forall i | 0 <= i < |s.jobs|
      ensures jobs'[i] == s.jobs[i]
              || (s.jobs[i].status == Pending && jobs'[i] == s.jobs[i].(status := Processing) && jobs'[i] in b)
    {
      MarkProcessingAt(s.jobs, ix, i);
      if i in ix {
        var k :| 0 <= k < |ix| && ix[k] == i;
        assert s.jobs[i].status == Pending;
        assert b[k] == jobs'[i];
      }
    }
    forall k | 0 <= k < |b|
      ensures b[k].status == Processing && b[k] in jobs'
    {
      MarkProcessingAt(s.jobs, ix, ix[k]);
      assert ix[k] in ix;
    }
  }

  /** The `k`-th claimed job is the `k`-th selected row, marked. */
  lemma ClaimedAt(s: State, limit: int, k: nat)
    requires limit >= 0
    requires k < |Claim(s, limit, None).result.value|
    ensures var ix := Selected(s.jobs, 0, limit);
            var b := Claim(s, limit, None).result.value;
            && |b| == |ix|
            && ix[k] < |s.jobs|
            && s.jobs[ix[k]].status == Pending
            && b[k] == s.jobs[ix[k]].(status := Processing)
            && Claim(s, limit, None).state.jobs[ix[k]] == b[k]
  {
    var ix := Selected(s.jobs, 0, limit);
    SelectedFacts(s.jobs, limit);
    var jobs' := MarkProcessing(s.jobs, ix);
    var b := Batch(jobs', ix);
    BatchAt(jobs', ix);
    assert Claim(s, limit, None) == Step(s.(jobs := jobs'), Ok(b));
    MarkProcessingAt(s.jobs, ix, ix[k]);
    assert ix[k] in ix;
  }

  /** A row the claim leaves pending was not selected. */
  lemma UnclaimedAt(s: State, limit: int, i: nat)
    requires limit >= 0
    requires i < |s.jobs| && Claim(s, limit, None).state.jobs[i].status == Pending
    ensures i !in Selected(s.jobs, 0, limit)
    ensures s.jobs[i].status == Pending
  {
    var ix := Selected(s.jobs, 0, limit);
    SelectedFacts(s.jobs, limit);
    var jobs' := MarkProcessing(s.jobs, ix);
    var b := Batch(jobs', ix);
    assert Claim(s, limit, None) == Step(s.(jobs := jobs'), Ok(b));
    MarkProcessingAt(s.jobs, ix, i);
  }

  /** On a consistent table every claimed job is read back as the updated row
      of a job that was pending, and the table stays consistent. */
  lemma ClaimedRows(s: State, limit: int)
    requires Valid(s)
    requires limit >= 0
    ensures var st := Claim(s, limit, None);
            var b := st.result.value;
            && st.result.Ok?
            && Valid(st.state)
            && (forall k | 0 <= k < |b| ::
                  0 < b[k].id <= |s.jobs| && s.jobs[b[k].id - 1].status == Pending
                  && st.state.jobs[b[k].id - 1] == b[k])
  {
    var st := Claim(s, limit, None);
    var ix := Selected(s.jobs, 0, limit);
    forall i | 0 <= i < |s.jobs|
      ensures st.state.jobs[i].id == s.jobs[i].id && st.state.jobs[i].createdAt == s.jobs[i].createdAt
    {
      ClaimEffect(s, limit);
    }
    forall k | 0 <= k < |st.result.value|
      ensures ix[k] < |s.jobs| && st.result.value[k].id == ix[k] + 1
      ensures s.jobs[ix[k]].status == Pending && st.state.jobs[ix[k]] == st.result.value[k]
    {
      ClaimedAt(s, limit, k);
    }
  }

  /** A successful claim takes as many pending jobs as it may, the oldest ones:
      every job still pending afterwards is younger than every claimed one. */
  lemma ClaimOldestFirst(s: State, limit: int)
    requires Valid(s)
    requires limit >= 0
    ensures var st := Claim(s, limit, None);
            var b := st.result.value;
            && st.result.Ok?
            && |b| == Min(limit, PendingFrom(s.jobs, 0))
            && (forall k, l | 0 <= k < l < |b| :: b[k].createdAt < b[l].createdAt)
            && (forall i, k | 0 <= i < |s.jobs| && 0 <= k < |b| && st.state.jobs[i].status == Pending ::
                  b[k].createdAt < s.jobs[i].createdAt)
  {
    var st := Claim(s, limit, None);
    var b := st.result.value;
    var ix := Selected(s.jobs, 0, limit);
    SelectedFacts(s.jobs, limit);
    forall k | 0 <= k < |b|
      ensures ix[k] < |s.jobs| && b[k].createdAt == s.jobs[ix[k]].createdAt
    {
      ClaimedAt(s, limit, k);
    }
    forall i, k | 0 <= i < |s.jobs| && 0 <= k < |b| && st.state.jobs[i].status == Pending
      ensures b[k].createdAt < s.jobs[i].createdAt
    {
      UnclaimedAt(s, limit, i);
      assert ix[k] < i;
    }
  }

  /** A claim followed by another claim never hands out the same job twice:
      claimed jobs are no longer pending. */
  lemma ClaimsDisjoint(s: State, limit1: int, limit2: int)
    requires Valid(s)
    requires limit1 >= 0 && limit2 >= 0
    ensures var first := Claim(s, limit1, None);
            var second := Claim(first.state, limit2, None);
            forall k, l | 0 <= k < |first.result.value| && 0 <= l < |second.result.value| ::
              first.result.value[k].id != second.result.value[l].id
  {
    var first := Claim(s, limit1, None);
    ClaimedRows(s, limit1);
    var s1, b1 := first.state, first.result.value;
    var second := Claim(s1, limit2, None);
    ClaimedRows(s1, limit2);
    var b2 := second.result.value;
    forall k | 0 <= k < |b1|
      ensures b1[k].status == Processing
    {
      ClaimedAt(s, limit1, k);
    }
    forall k, l | 0 <= k < |b1| && 0 <= l < |b2|
      ensures b1[k].id != b2[l].id
    {
      assert s1.jobs[b1[k].id - 1].status == Processing;
      assert s1.jobs[b2[l].id - 1].status == Pending;
    }
  }

  /** The job rows with status, attempts and last error overwritten on the rows
      carrying `id`. */
  function UpdateRows(jobs: seq<Job>, id: nat, status: JobStatus, attempts: int, lastError: Option<string>): (r: seq<Job>)
    ensures |r| == |jobs|
  {
    if |jobs| == 0 then []
    else
      var row := if jobs[0].id == id then jobs[0].(status := status, attempts := attempts, lastError := lastError) else jobs[0];
      [row] + UpdateRows(jobs[1..], id, status, attempts, lastError)
  }

  /** `UpdateBroadcastJobStatus`: one statement over the job table; nothing
      outside it changes. */
  function UpdateJobStatus(s: State, id: nat, status: JobStatus, attempts: int, lastError: Option<string>): (s': State)
    ensures s' == s.(jobs := s'.jobs)
    ensures |s'.jobs| == |s.jobs|
  {
    s.(jobs := UpdateRows(s.jobs, id, status, attempts, lastError))
  }

  /** The update overwrites status, attempts and last error of exactly the rows
      with the given id and leaves every other row, and every other column, as
      it was. */
  lemma {:induction false} UpdateRowsAt(jobs: seq<Job>, id: nat, status: JobStatus, attempts: int, lastError: Option<string>)
    ensures forall i | 0 <= i < |jobs| ::
              UpdateRows(jobs, id, status, attempts, lastError)[i] == if jobs[i].id == id then jobs[i].(status := status, attempts := attempts, lastError := lastError) else jobs[i]
    decreases |jobs|
  {
    if |jobs| > 0 {
      UpdateRowsAt(jobs[1..], id, status, attempts, lastError);
      var r := UpdateRows(jobs, id, status, attempts, lastError);
      forall i | 1 <= i < |jobs|
        ensures r[i] == UpdateRows(jobs[1..], id, status, attempts, lastError)[i - 1]
      {
      }
    }
  }

  /** `UpdateJobStatus` row by row. */
  lemma UpdateJobStatusRows(s: State, id: nat, status: JobStatus, attempts: int, lastError: Option<string>)
    ensures var s' := UpdateJobStatus(s, id, status, attempts, lastError);
            forall i | 0 <= i < |s.jobs| ::
              if s.jobs[i].id == id
              then s'.jobs[i] == s.jobs[i].(status := status, attempts := attempts, lastError := lastError)
              else s'.jobs[i] == s.jobs[i]
  {
    UpdateRowsAt(s.jobs, id, status, attempts, lastError);
  }

  /** Repeating a status update with the same arguments changes nothing more. */
  lemma UpdateIdempotent(s: State, id: nat, status: JobStatus, attempts: int, lastError: Option<string>)
    ensures var once := UpdateJobStatus(s, id, status, attempts, lastError);
            UpdateJobStatus(once, id, status, attempts, lastError) == once
  {
    var once := UpdateJobStatus(s, id, status, attempts, lastError);
    var twice := UpdateJobStatus(once, id, status, attempts, lastError);
    UpdateJobStatusRows(s, id, status, attempts, lastError);
    UpdateJobStatusRows(once, id, status, attempts, lastError);
    assert twice.jobs == once.jobs;
  }

  /** A status update keeps ids and creation times, hence the invariant. */
  lemma UpdatePreservesValid(s: State, id: nat, status: JobStatus, attempts: int, lastError: Option<string>)
    requires Valid(s)
    ensures Valid(UpdateJobStatus(s, id, status, attempts, lastError))
  {
    UpdateJobStatusRows(s, id, status, attempts, lastError);
  }
}
