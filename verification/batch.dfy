/**
  The batch queue: jobs are appended as pending, a run converts the jobs that
  were pending when it started, one after another, recording each outcome on
  the job with the same id, and completed jobs are collected into a ZIP.

  The converter is a parameter (it resolves with a blob or rejects with a
  thrown value). A run is modelled as one step: the source awaits each
  conversion, so other calls may interleave; the lemma LateJobsUntouched
  states what a run does to jobs appended after it took its snapshot.
  Job ids come from `crypto.randomUUID()` and are a parameter of AddToBatch.
 */
module Batch {
  import opened Outcomes
  import opened Text
  import opened Media

  datatype Status = Pending | Processing | Completed | Errored

  datatype BatchJob = BatchJob(
    id: string,
    file: File,
    targetFormat: string,
    status: Status,
    result: Option<Blob>,
    error: Option<string>,
    progress: int)

  datatype BatchState = BatchState(jobs: seq<BatchJob>, isProcessing: bool)

  /** What `processBatch` is given: resolves with a blob or rejects. */
  type Converter = (File, string) -> Result<Blob>

  ghost predicate UniqueIds(jobs: seq<BatchJob>) {
    forall a, b :: 0 <= a < b < |jobs| ==> jobs[a].id != jobs[b].id
  }

  /** `addToBatch`: one pending job per file, in order, after the jobs already queued. */
  function AddToBatch(s: BatchState, files: seq<File>, target: string, ids: seq<string>): (r: BatchState)
    requires |ids| == |files|
    ensures |r.jobs| == |s.jobs| + |files| && r.jobs[..|s.jobs|] == s.jobs
    ensures forall k :: 0 <= k < |files| ==>
      var j := r.jobs[|s.jobs| + k];
      j.file == files[k] && j.targetFormat == target && j.id == ids[k] &&
      j.status == Pending && j.progress == 0 && j.result.None? && j.error.None?
    ensures r.isProcessing == s.isProcessing
  {
    var added := seq(|files|, k requires 0 <= k < |files| => BatchJob(ids[k], files[k], target, Pending, None, None, 0));
    BatchState(s.jobs + added, s.isProcessing)
  }

  /** `updateJobStatus`: every job carrying the id gets the four fields, all of them, absent
      ones cleared; its id, file and target stay; other jobs are untouched. */
  function UpdateJobStatus(jobs: seq<BatchJob>, id: string, status: Status, progress: int,
                           result: Option<Blob>, error: Option<string>): (r: seq<BatchJob>)
    ensures |r| == |jobs|
    ensures forall i :: 0 <= i < |r| ==>
      r[i].id == jobs[i].id && r[i].file == jobs[i].file && r[i].targetFormat == jobs[i].targetFormat
    ensures forall i :: 0 <= i < |r| && jobs[i].id != id ==> r[i] == jobs[i]
    ensures forall i :: 0 <= i < |r| && jobs[i].id == id ==>
      r[i].status == status && r[i].progress == progress && r[i].result == result && r[i].error == error
  {
    seq(|jobs|, i requires 0 <= i < |jobs| =>
      if jobs[i].id == id then jobs[i].(status := status, progress := progress, result := result, error := error)
      else jobs[i])
  }

  /** `error instanceof Error ? error.message : 'Conversion failed'`. */
  function FailureMessage(t: Thrown): (r: string)
    ensures t.ErrorObject? ==> r == t.message
    ensures t.NonError? ==> r == "Conversion failed"
  {
    match t
    case ErrorObject(m) => m
    case NonError => "Conversion failed"
  }

  /** The reference outcome of one job: completed at 100% with the blob, or failed at 0% with
      the message, in both cases with the other outcome field cleared. */
  function Settle(job: BatchJob, conv: Converter): (r: BatchJob)
    ensures r.id == job.id && r.file == job.file && r.targetFormat == job.targetFormat
    ensures r.status == Completed <==> conv(job.file, job.targetFormat).Ok?
    ensures r.status == Completed ==> r.progress == 100 && r.result == Some(conv(job.file, job.targetFormat).value) && r.error.None?
    ensures r.status != Completed ==>
      r.status == Errored && r.progress == 0 && r.result.None? &&
      r.error == Some(FailureMessage(conv(job.file, job.targetFormat).thrown))
  {
    match conv(job.file, job.targetFormat)
    case Ok(b) => job.(status := Completed, progress := 100, result := Some(b), error := None)
    case Err(t) => job.(status := Errored, progress := 0, result := None, error := Some(FailureMessage(t)))
  }

  /** One iteration of the run loop: mark the job processing at 50%, convert the snapshot's
      file, record the outcome. */
  function Step(jobs: seq<BatchJob>, job: BatchJob, conv: Converter): (r: seq<BatchJob>)
    ensures |r| == |jobs|
    ensures forall i :: 0 <= i < |r| ==>
      r[i].id == jobs[i].id && r[i].file == jobs[i].file && r[i].targetFormat == jobs[i].targetFormat
    ensures forall i :: 0 <= i < |r| && jobs[i].id != job.id ==> r[i] == jobs[i]
    ensures forall i :: 0 <= i < |r| && jobs[i].id == job.id ==>
      r[i].status in {Completed, Errored} && (r[i].status == Completed <==> conv(job.file, job.targetFormat).Ok?)
  {
    var marked := UpdateJobStatus(jobs, job.id, Processing, 50, None, None);
    match conv(job.file, job.targetFormat)
    case Ok(b) => UpdateJobStatus(marked, job.id, Completed, 100, Some(b), None)
    case Err(t) => UpdateJobStatus(marked, job.id, Errored, 0, None, Some(FailureMessage(t)))
  }

  /** The loop over the snapshot: no job moves or changes its id, file or target. */
  function RunJobs(jobs: seq<BatchJob>, snapshot: seq<BatchJob>, conv: Converter): (r: seq<BatchJob>)
    ensures |r| == |jobs|
    ensures forall i :: 0 <= i < |r| ==>
      r[i].id == jobs[i].id && r[i].file == jobs[i].file && r[i].targetFormat == jobs[i].targetFormat
    decreases |snapshot|
  {
    if |snapshot| == 0 then jobs else RunJobs(Step(jobs, snapshot[0], conv), snapshot[1..], conv)
  }

  /** `jobs().filter(job => job.status === 'pending')`. */
  function PendingJobs(jobs: seq<BatchJob>): (r: seq<BatchJob>)
    ensures forall k :: 0 <= k < |r| ==> r[k].status == Pending && r[k] in jobs
    ensures forall i :: 0 <= i < |jobs| && jobs[i].status == Pending ==> jobs[i] in r
    ensures |r| <= |jobs|
  {
    if |jobs| == 0 then []
    else if jobs[0].status == Pending then [jobs[0]] + PendingJobs(jobs[1..])
    else PendingJobs(jobs[1..])
  }

  /** No job of the snapshot carries the id. */
  predicate NotInSnapshot(id: string, snapshot: seq<BatchJob>) {
    forall k :: 0 <= k < |snapshot| ==> snapshot[k].id != id
  }

  /** A job whose id is not in the snapshot comes out of the loop as it went in. */
  lemma {:induction false} RunJobsKeepsOthers(jobs: seq<BatchJob>, snapshot: seq<BatchJob>, conv: Converter, i: nat)
    requires i < |jobs| && NotInSnapshot(jobs[i].id, snapshot)
    ensures RunJobs(jobs, snapshot, conv)[i] == jobs[i]
    decreases |snapshot|
  {
    if |snapshot| > 0 {
      var next := Step(jobs, snapshot[0], conv);
      assert next[i] == jobs[i];
      assert NotInSnapshot(next[i].id, snapshot[1..]) by {
        forall k | 0 <= k < |snapshot[1..]| ensures snapshot[1..][k].id != next[i].id {
          assert snapshot[1..][k] == snapshot[k + 1];
        }
      }
      RunJobsKeepsOthers(next, snapshot[1..], conv, i);
    }
  }

  lemma RunJobsKeepsAll(jobs: seq<BatchJob>, snapshot: seq<BatchJob>, conv: Converter)
    ensures forall i :: 0 <= i < |jobs| && NotInSnapshot(jobs[i].id, snapshot) ==> RunJobs(jobs, snapshot, conv)[i] == jobs[i]
  {
    forall i | 0 <= i < |jobs| && NotInSnapshot(jobs[i].id, snapshot)
      ensures RunJobs(jobs, snapshot, conv)[i] == jobs[i]
    {
      RunJobsKeepsOthers(jobs, snapshot, conv, i);
    }
  }

  /** `processBatch` as one step: the pending snapshot is run and the flag ends cleared. */
  function ProcessBatch(s: BatchState, conv: Converter): (r: BatchState)
    ensures !r.isProcessing && |r.jobs| == |s.jobs|
    ensures forall i :: 0 <= i < |r.jobs| ==>
      r.jobs[i].id == s.jobs[i].id && r.jobs[i].file == s.jobs[i].file && r.jobs[i].targetFormat == s.jobs[i].targetFormat
    ensures forall i :: 0 <= i < |r.jobs| && NotInSnapshot(s.jobs[i].id, PendingJobs(s.jobs)) ==> r.jobs[i] == s.jobs[i]
  {
    RunJobsKeepsAll(s.jobs, PendingJobs(s.jobs), conv);
    BatchState(RunJobs(s.jobs, PendingJobs(s.jobs), conv), false)
  }

  /** One iteration's two `updateJobStatus` calls: the job is marked processing at 50%, then
      its outcome is recorded; neither update touches the flag. */
  method RunOne(st: BatchState, job: BatchJob, conv: Converter) returns (marked: BatchState, settled: BatchState)
    ensures marked.isProcessing == st.isProcessing && settled.isProcessing == st.isProcessing
    ensures |marked.jobs| == |st.jobs| && settled.jobs == Step(st.jobs, job, conv)
  {
    marked := st.(jobs := UpdateJobStatus(st.jobs, job.id, Processing, 50, None, None));
    match conv(job.file, job.targetFormat) {
      case Ok(b) =>
        settled := marked.(jobs := UpdateJobStatus(marked.jobs, job.id, Completed, 100, Some(b), None));
      case Err(t) =>
        settled := marked.(jobs := UpdateJobStatus(marked.jobs, job.id, Errored, 0, None, Some(FailureMessage(t))));
    }
  }

  /** A state shown during a run: the flag is up and no job was added or dropped. */
  predicate Running(st: BatchState, n: nat) {
    st.isProcessing && |st.jobs| == n
  }

  lemma RunningAppend(obs: seq<BatchState>, a: BatchState, b: BatchState, n: nat)
    requires forall m :: 0 <= m < |obs| ==> Running(obs[m], n)
    requires Running(a, n) && Running(b, n)
    ensures forall m :: 0 <= m < |obs + [a, b]| ==> Running((obs + [a, b])[m], n)
  {
  }

  /** The loop from position k: one step with the job at k, then the rest. */
  lemma RunJobsUnfold(jobs: seq<BatchJob>, snapshot: seq<BatchJob>, k: nat, conv: Converter)
    requires k < |snapshot|
    ensures RunJobs(jobs, snapshot[k..], conv) == RunJobs(Step(jobs, snapshot[k], conv), snapshot[k + 1..], conv)
  {
    assert snapshot[k..][1..] == snapshot[k + 1..];
  }

  /** The run loop, statement for statement, on the service state: the flag is raised, each
      job of the pending snapshot is marked processing and then settled through
      `updateJobStatus`, and the flag is lowered. `observed` lists the state after every
      update; the flag is up in all of them because no job update touches it. */
  method ProcessBatchLoop(s: BatchState, conv: Converter) returns (r: BatchState, observed: seq<BatchState>)
    ensures r == ProcessBatch(s, conv)
    ensures forall k :: 0 <= k < |observed| ==> observed[k].isProcessing && |observed[k].jobs| == |s.jobs|
    ensures |observed| == 2 * |PendingJobs(s.jobs)|
  {
    var st := s.(isProcessing := true);
    var pending := PendingJobs(st.jobs);
    observed := [];
    var k := 0;
    assert pending[0..] == pending;
    while k < |pending|
      invariant 0 <= k <= |pending|
      invariant st.isProcessing && |st.jobs| == |s.jobs|
      invariant RunJobs(st.jobs, pending[k..], conv) == RunJobs(s.jobs, pending, conv)
      invariant |observed| == 2 * k
      invariant forall m :: 0 <= m < |observed| ==> Running(observed[m], |s.jobs|)
    {
      var job := pending[k];
      var before := st.jobs;
      var marked;
      marked, st := RunOne(st, job, conv);
      RunningAppend(observed, marked, st, |s.jobs|);
      observed := observed + [marked, st];
      RunJobsUnfold(before, pending, k, conv);
      k := k + 1;
    }
    assert pending[k..] == [];
    st := st.(isProcessing := false);
    r := st;
  }

  ghost function SnapshotIds(snapshot: seq<BatchJob>): set<string> {
    set k | 0 <= k < |snapshot| :: snapshot[k].id
  }

  /** The snapshot has distinct ids and agrees with the list on the file and target of every id. */
  ghost predicate Consistent(jobs: seq<BatchJob>, snapshot: seq<BatchJob>) {
    UniqueIds(snapshot) &&
    forall k, i :: 0 <= k < |snapshot| && 0 <= i < |jobs| && jobs[i].id == snapshot[k].id ==>
      jobs[i].file == snapshot[k].file && jobs[i].targetFormat == snapshot[k].targetFormat
  }

  /** One step settles the jobs carrying the snapshot job's id and nothing else. */
  lemma StepSettles(jobs: seq<BatchJob>, job: BatchJob, conv: Converter, i: nat)
    requires i < |jobs|
    requires jobs[i].id == job.id ==> jobs[i].file == job.file && jobs[i].targetFormat == job.targetFormat
    ensures |Step(jobs, job, conv)| == |jobs|
    ensures Step(jobs, job, conv)[i] == if jobs[i].id == job.id then Settle(jobs[i], conv) else jobs[i]
  {
  }

  /** A run settles exactly the jobs whose id is in the snapshot. */
  lemma {:induction false} RunJobsSettles(jobs: seq<BatchJob>, snapshot: seq<BatchJob>, conv: Converter)
    requires Consistent(jobs, snapshot)
    ensures |RunJobs(jobs, snapshot, conv)| == |jobs|
    ensures forall i :: 0 <= i < |jobs| ==>
      RunJobs(jobs, snapshot, conv)[i] == if jobs[i].id in SnapshotIds(snapshot) then Settle(jobs[i], conv) else jobs[i]
    decreases |snapshot|
  {
    if |snapshot| > 0 {
      var head, rest := snapshot[0], snapshot[1..];
      var next := Step(jobs, head, conv);
      forall i | 0 <= i < |jobs|
        ensures |next| == |jobs| && next[i] == if jobs[i].id == head.id then Settle(jobs[i], conv) else jobs[i]
      {
        StepSettles(jobs, head, conv, i);
      }
      assert Consistent(next, rest) by {
        forall k, i | 0 <= k < |rest| && 0 <= i < |next| && next[i].id == rest[k].id
          ensures next[i].file == rest[k].file && next[i].targetFormat == rest[k].targetFormat
        {
          assert rest[k] == snapshot[k + 1];
        }
        forall a, b | 0 <= a < b < |rest| ensures rest[a].id != rest[b].id {
          assert rest[a] == snapshot[a + 1] && rest[b] == snapshot[b + 1];
        }
      }
      RunJobsSettles(next, rest, conv);
      forall i | 0 <= i < |jobs|
        ensures RunJobs(jobs, snapshot, conv)[i] == if jobs[i].id in SnapshotIds(snapshot) then Settle(jobs[i], conv) else jobs[i]
      {
        var id := jobs[i].id;
        if id != head.id && id in SnapshotIds(rest) {
          var k :| 0 <= k < |rest| && rest[k].id == id;
          assert id in SnapshotIds(snapshot) by { assert snapshot[k + 1].id == id; }
        }
      }
    }
  }

  /** The pending snapshot of a list with distinct ids has distinct ids. */
  lemma {:induction false} PendingJobsUnique(jobs: seq<BatchJob>)
    requires UniqueIds(jobs)
    ensures UniqueIds(PendingJobs(jobs))
    decreases |jobs|
  {
    if |jobs| > 0 {
      UniqueTail(jobs);
      PendingJobsUnique(jobs[1..]);
      if jobs[0].status == Pending {
        HeadIdNotPendingLater(jobs);
        UniqueCons(jobs[0], PendingJobs(jobs[1..]));
      }
    }
  }

  lemma UniqueTail(jobs: seq<BatchJob>)
    requires UniqueIds(jobs) && |jobs| > 0
    ensures UniqueIds(jobs[1..])
  {
    var rest := jobs[1..];
    forall a, b | 0 <= a < b < |rest| ensures rest[a].id != rest[b].id {
      assert rest[a] == jobs[a + 1] && rest[b] == jobs[b + 1];
    }
  }

  lemma UniqueCons(job: BatchJob, rest: seq<BatchJob>)
    requires UniqueIds(rest)
    requires forall k :: 0 <= k < |rest| ==> rest[k].id != job.id
    ensures UniqueIds([job] + rest)
  {
    var all := [job] + rest;
    forall a, b | 0 <= a < b < |all| ensures all[a].id != all[b].id {
      assert all[b] == rest[b - 1];
      if a > 0 {
        assert all[a] == rest[a - 1];
      }
    }
  }

  /** With distinct ids, the head's id is not among the pending jobs after it. */
  lemma HeadIdNotPendingLater(jobs: seq<BatchJob>)
    requires UniqueIds(jobs) && |jobs| > 0
    ensures forall k :: 0 <= k < |PendingJobs(jobs[1..])| ==> PendingJobs(jobs[1..])[k].id != jobs[0].id
  {
    var rest := jobs[1..];
    var pr := PendingJobs(rest);
    forall k | 0 <= k < |pr|
      ensures pr[k].id != jobs[0].id
    {
      var m :| 0 <= m < |rest| && rest[m] == pr[k];
      assert jobs[m + 1] == rest[m];
    }
  }

  /** Taking the pending snapshot of a list with distinct ids is consistent with the list
      (and with anything appended to it), and its ids are those of the pending jobs. */
  lemma PendingSnapshot(jobs: seq<BatchJob>, extra: seq<BatchJob>)
    requires UniqueIds(jobs + extra)
    ensures Consistent(jobs + extra, PendingJobs(jobs))
    ensures forall i :: 0 <= i < |jobs| ==> (jobs[i].id in SnapshotIds(PendingJobs(jobs)) <==> jobs[i].status == Pending)
    ensures forall i :: 0 <= i < |extra| ==> extra[i].id !in SnapshotIds(PendingJobs(jobs))
  {
    UniquePrefix(jobs, extra);
    PendingJobsUnique(jobs);
    SnapshotAgrees(jobs, extra);
    PendingIds(jobs);
    AppendedIdsNotInSnapshot(jobs, extra);
  }

  lemma UniquePrefix(jobs: seq<BatchJob>, extra: seq<BatchJob>)
    requires UniqueIds(jobs + extra)
    ensures UniqueIds(jobs)
  {
    var all := jobs + extra;
    forall a, b | 0 <= a < b < |jobs| ensures jobs[a].id != jobs[b].id {
      assert all[a] == jobs[a] && all[b] == jobs[b];
    }
  }

  lemma SnapshotAgrees(jobs: seq<BatchJob>, extra: seq<BatchJob>)
    requires UniqueIds(jobs + extra)
    ensures forall k, i :: 0 <= k < |PendingJobs(jobs)| && 0 <= i < |jobs + extra| && (jobs + extra)[i].id == PendingJobs(jobs)[k].id ==>
      (jobs + extra)[i].file == PendingJobs(jobs)[k].file && (jobs + extra)[i].targetFormat == PendingJobs(jobs)[k].targetFormat
  {
    var all := jobs + extra;
    var p := PendingJobs(jobs);
    forall k, i | 0 <= k < |p| && 0 <= i < |all| && all[i].id == p[k].id
      ensures all[i].file == p[k].file && all[i].targetFormat == p[k].targetFormat
    {
      var m :| 0 <= m < |jobs| && jobs[m] == p[k];
      assert all[m] == jobs[m];
    }
  }

  lemma PendingIds(jobs: seq<BatchJob>)
    requires UniqueIds(jobs)
    ensures forall i :: 0 <= i < |jobs| ==> (jobs[i].id in SnapshotIds(PendingJobs(jobs)) <==> jobs[i].status == Pending)
  {
    var p := PendingJobs(jobs);
    forall i | 0 <= i < |jobs|
      ensures jobs[i].id in SnapshotIds(p) <==> jobs[i].status == Pending
    {
      if jobs[i].status == Pending {
        var k :| 0 <= k < |p| && p[k] == jobs[i];
      }
      if jobs[i].id in SnapshotIds(p) {
        var k :| 0 <= k < |p| && p[k].id == jobs[i].id;
        var m :| 0 <= m < |jobs| && jobs[m] == p[k];
      }
    }
  }

  lemma AppendedIdsNotInSnapshot(jobs: seq<BatchJob>, extra: seq<BatchJob>)
    requires UniqueIds(jobs + extra)
    ensures forall i :: 0 <= i < |extra| ==> extra[i].id !in SnapshotIds(PendingJobs(jobs))
  {
    var all := jobs + extra;
    var p := PendingJobs(jobs);
    forall i, k | 0 <= i < |extra| && 0 <= k < |p| ensures extra[i].id != p[k].id {
      var m :| 0 <= m < |jobs| && jobs[m] == p[k];
      assert all[m] == jobs[m] && all[|jobs| + i] == extra[i];
    }
  }

  /** A run settles every job that was pending and leaves every other job as it was. */
  lemma ProcessBatchSettlesPending(s: BatchState, conv: Converter)
    requires UniqueIds(s.jobs)
    ensures !ProcessBatch(s, conv).isProcessing
    ensures |ProcessBatch(s, conv).jobs| == |s.jobs|
    ensures forall i :: 0 <= i < |s.jobs| ==>
      ProcessBatch(s, conv).jobs[i] == if s.jobs[i].status == Pending then Settle(s.jobs[i], conv) else s.jobs[i]
  {
    assert s.jobs + [] == s.jobs;
    PendingSnapshot(s.jobs, []);
    RunJobsSettles(s.jobs, PendingJobs(s.jobs), conv);
  }

  /** No job is left pending, and every job that was pending has an outcome. */
  lemma NothingPendingAfterRun(s: BatchState, conv: Converter)
    requires UniqueIds(s.jobs)
    ensures forall i :: 0 <= i < |s.jobs| ==> ProcessBatch(s, conv).jobs[i].status != Pending
    ensures forall i :: 0 <= i < |s.jobs| && s.jobs[i].status == Pending ==>
      ProcessBatch(s, conv).jobs[i].status in {Completed, Errored}
  {
    ProcessBatchSettlesPending(s, conv);
  }

  lemma SplitAt<T>(s: seq<T>, n: nat)
    requires n <= |s|
    ensures s == s[..n] + s[n..]
  {
  }

  /** Jobs appended after a run took its snapshot are not processed by that run. */
  lemma LateJobsUntouched(jobs: seq<BatchJob>, extra: seq<BatchJob>, conv: Converter)
    requires UniqueIds(jobs + extra)
    ensures RunJobs(jobs + extra, PendingJobs(jobs), conv) ==
      ProcessBatch(BatchState(jobs, true), conv).jobs + extra
  {
    var lhs := RunJobs(jobs + extra, PendingJobs(jobs), conv);
    AppendedJobsKept(jobs, extra, conv);
    EarlierJobsAsAlone(jobs, extra, conv);
    SplitAt(lhs, |jobs|);
  }

  lemma AppendedJobsKept(jobs: seq<BatchJob>, extra: seq<BatchJob>, conv: Converter)
    requires UniqueIds(jobs + extra)
    ensures |RunJobs(jobs + extra, PendingJobs(jobs), conv)| == |jobs| + |extra|
    ensures RunJobs(jobs + extra, PendingJobs(jobs), conv)[|jobs|..] == extra
  {
    var lhs := RunJobs(jobs + extra, PendingJobs(jobs), conv);
    forall i | 0 <= i < |extra|
      ensures lhs[|jobs|..][i] == extra[i]
    {
      AppendedJobKept(jobs, extra, conv, i);
    }
  }

  lemma AppendedJobKept(jobs: seq<BatchJob>, extra: seq<BatchJob>, conv: Converter, i: nat)
    requires UniqueIds(jobs + extra) && i < |extra|
    ensures |RunJobs(jobs + extra, PendingJobs(jobs), conv)| == |jobs| + |extra|
    ensures RunJobs(jobs + extra, PendingJobs(jobs), conv)[|jobs| + i] == extra[i]
  {
    var all, snapshot := jobs + extra, PendingJobs(jobs);
    UniquePrefix(jobs, extra);
    PendingJobsUnique(jobs);
    SnapshotAgrees(jobs, extra);
    AppendedIdsNotInSnapshot(jobs, extra);
    RunJobsSettles(all, snapshot, conv);
    assert all[|jobs| + i] == extra[i];
  }

  lemma EarlierJobsAsAlone(jobs: seq<BatchJob>, extra: seq<BatchJob>, conv: Converter)
    requires UniqueIds(jobs + extra)
    ensures |RunJobs(jobs + extra, PendingJobs(jobs), conv)| == |jobs| + |extra|
    ensures RunJobs(jobs + extra, PendingJobs(jobs), conv)[..|jobs|] == ProcessBatch(BatchState(jobs, true), conv).jobs
  {
    var lhs := RunJobs(jobs + extra, PendingJobs(jobs), conv);
    var front := ProcessBatch(BatchState(jobs, true), conv).jobs;
    forall i | 0 <= i < |jobs|
      ensures lhs[..|jobs|][i] == front[i]
    {
      EarlierJobAsAlone(jobs, extra, conv, i);
    }
  }

  lemma EarlierJobAsAlone(jobs: seq<BatchJob>, extra: seq<BatchJob>, conv: Converter, i: nat)
    requires UniqueIds(jobs + extra) && i < |jobs|
    ensures |RunJobs(jobs + extra, PendingJobs(jobs), conv)| == |jobs| + |extra|
    ensures |ProcessBatch(BatchState(jobs, true), conv).jobs| == |jobs|
    ensures RunJobs(jobs + extra, PendingJobs(jobs), conv)[i] == ProcessBatch(BatchState(jobs, true), conv).jobs[i]
  {
    var all := jobs + extra;
    PendingSnapshot(jobs, extra);
    RunJobsSettles(all, PendingJobs(jobs), conv);
    UniquePrefix(jobs, extra);
    ProcessBatchSettlesPending(BatchState(jobs, true), conv);
    assert all[i] == jobs[i];
  }

  /** A job's outcome depends on its own conversion only: changing what the converter answers
      for one job changes no other job. */
  lemma ConversionsIndependent(s: BatchState, conv1: Converter, conv2: Converter, k: nat)
    requires UniqueIds(s.jobs) && k < |s.jobs|
    requires forall i :: 0 <= i < |s.jobs| && i != k ==>
      conv1(s.jobs[i].file, s.jobs[i].targetFormat) == conv2(s.jobs[i].file, s.jobs[i].targetFormat)
    ensures forall i :: 0 <= i < |s.jobs| && i != k ==> ProcessBatch(s, conv1).jobs[i] == ProcessBatch(s, conv2).jobs[i]
  {
    ProcessBatchSettlesPending(s, conv1);
    ProcessBatchSettlesPending(s, conv2);
  }

  /** Ready for the archive: `status === 'completed' && job.result`. */
  predicate Ready(job: BatchJob) {
    job.status == Completed && job.result.Some?
  }

  /** A pending job is ready after the run exactly when its conversion resolved. */
  lemma ReadyAfterRunIffConverted(s: BatchState, conv: Converter, k: nat)
    requires UniqueIds(s.jobs) && k < |s.jobs| && s.jobs[k].status == Pending
    ensures Ready(ProcessBatch(s, conv).jobs[k]) <==> conv(s.jobs[k].file, s.jobs[k].targetFormat).Ok?
  {
    ProcessBatchSettlesPending(s, conv);
  }

  /** `baseName.targetFormat`, the base name being the file name up to its last '.', or the
      whole name when that is empty. */
  function EntryName(job: BatchJob): (r: string)
    ensures BeforeLast(job.file.name, '.') == "" ==> r == job.file.name + "." + job.targetFormat
    ensures '.' !in job.file.name ==> r == job.file.name + "." + job.targetFormat
  {
    var stem := BeforeLast(job.file.name, '.');
    (if stem == "" then job.file.name else stem) + "." + job.targetFormat
  }

  /** A name `stem.ext` with a non-empty stem has its extension replaced by the target. */
  lemma EntryNameReplacesExtension(job: BatchJob, stem: string, ext: string)
    requires stem != "" && '.' !in ext && job.file.name == stem + "." + ext
    ensures EntryName(job) == stem + "." + job.targetFormat
  {
    LastSegmentAfter(stem, ext, '.');
    assert job.file.name == stem + ['.'] + ext;
  }

  /** A name whose only '.' comes first, such as ".env", has an empty stem, so the whole name
      is kept and the target appended: ".env" becomes ".env.pdf". */
  lemma EntryNameOfDotfile(job: BatchJob, ext: string)
    requires '.' !in ext && job.file.name == "." + ext
    ensures EntryName(job) == "." + ext + "." + job.targetFormat
  {
    LastSegmentAfter("", ext, '.');
    assert job.file.name == "" + ['.'] + ext;
  }

  /** `completedJobs`: the completed jobs that hold a result, in queue order. */
  function ReadyJobs(jobs: seq<BatchJob>): (r: seq<BatchJob>)
    ensures forall k :: 0 <= k < |r| ==> Ready(r[k])
    ensures |r| <= |jobs|
  {
    if |jobs| == 0 then []
    else (if Ready(jobs[0]) then [jobs[0]] else []) + ReadyJobs(jobs[1..])
  }

  /** The selection holds exactly the ready jobs of the queue. */
  lemma {:induction false} ReadyJobsMembers(jobs: seq<BatchJob>)
    ensures forall x :: x in ReadyJobs(jobs) <==> x in jobs && Ready(x)
  {
    if |jobs| > 0 {
      ReadyJobsMembers(jobs[1..]);
      assert forall x :: x in jobs <==> x == jobs[0] || x in jobs[1..];
    }
  }

  /** Selecting the ready jobs distributes over concatenation, so they keep their order. */
  lemma {:induction false} ReadyJobsAppend(a: seq<BatchJob>, b: seq<BatchJob>)
    ensures ReadyJobs(a + b) == ReadyJobs(a) + ReadyJobs(b)
  {
    if |a| == 0 {
      assert a + b == b;
    } else {
      assert (a + b)[0] == a[0] && (a + b)[1..] == a[1..] + b;
      ReadyJobsAppend(a[1..], b);
    }
  }

  /** The `zip.file` calls of the loop: one named entry per ready job, in queue order. */
  function ZipEntries(jobs: seq<BatchJob>): (r: seq<(string, Blob)>)
    ensures |r| == |ReadyJobs(jobs)|
    ensures forall k :: 0 <= k < |r| ==>
      r[k] == (EntryName(ReadyJobs(jobs)[k]), ReadyJobs(jobs)[k].result.value)
  {
    var ready := ReadyJobs(jobs);
    seq(|ready|, k requires 0 <= k < |ready| => (EntryName(ready[k]), ready[k].result.value))
  }

  /** There is no entry exactly when no job is ready. */
  lemma {:induction false} ZipEntriesEmpty(jobs: seq<BatchJob>)
    ensures |ZipEntries(jobs)| == 0 <==> forall i :: 0 <= i < |jobs| ==> !Ready(jobs[i])
  {
    ReadyJobsMembers(jobs);
    if |ReadyJobs(jobs)| > 0 {
      assert ReadyJobs(jobs)[0] in ReadyJobs(jobs);
    }
    if exists i :: 0 <= i < |jobs| && Ready(jobs[i]) {
      var i :| 0 <= i < |jobs| && Ready(jobs[i]);
      assert jobs[i] in ReadyJobs(jobs);
    }
  }

  /** Every entry is the named result of a ready job. */
  lemma {:induction false} ZipEntriesFromReadyJobs(jobs: seq<BatchJob>, k: nat)
    requires k < |ZipEntries(jobs)|
    ensures exists i :: 0 <= i < |jobs| && Ready(jobs[i]) && ZipEntries(jobs)[k] == (EntryName(jobs[i]), jobs[i].result.value)
  {
    var x := ReadyJobs(jobs)[k];
    ReadyJobsMembers(jobs);
    assert x in ReadyJobs(jobs);
    var i :| 0 <= i < |jobs| && jobs[i] == x;
  }

  /** Every ready job contributes its named result. */
  lemma {:induction false} ZipEntriesOfReadyJob(jobs: seq<BatchJob>, i: nat)
    requires i < |jobs| && Ready(jobs[i])
    ensures (EntryName(jobs[i]), jobs[i].result.value) in ZipEntries(jobs)
  {
    ReadyJobsMembers(jobs);
    assert jobs[i] in ReadyJobs(jobs);
    var k :| 0 <= k < |ReadyJobs(jobs)| && ReadyJobs(jobs)[k] == jobs[i];
    assert ZipEntries(jobs)[k] == (EntryName(jobs[i]), jobs[i].result.value);
  }

  /** `zip.file(name, data)` in order: a later file under a name already present replaces
      the earlier one. */
  function BuildArchive(zip: map<string, Blob>, entries: seq<(string, Blob)>): (r: map<string, Blob>)
    ensures zip.Keys <= r.Keys
    decreases |entries|
  {
    if |entries| == 0 then zip
    else BuildArchive(zip[entries[0].0 := entries[0].1], entries[1..])
  }

  /** The archive's names are the names it started with and those written. */
  lemma {:induction false} BuildArchiveNames(zip: map<string, Blob>, entries: seq<(string, Blob)>)
    ensures forall name :: name in BuildArchive(zip, entries) <==>
      name in zip || exists k :: 0 <= k < |entries| && entries[k].0 == name
    decreases |entries|
  {
    if |entries| > 0 {
      var rest := entries[1..];
      BuildArchiveNames(zip[entries[0].0 := entries[0].1], rest);
      assert forall k :: 0 <= k < |rest| ==> rest[k] == entries[k + 1];
      forall k | 0 <= k < |entries|
        ensures k == 0 || entries[k] == rest[k - 1]
      {
      }
    }
  }

  /** A name that is never written keeps its data. */
  lemma {:induction false} BuildArchiveKeeps(zip: map<string, Blob>, entries: seq<(string, Blob)>, name: string)
    requires name in zip && forall k :: 0 <= k < |entries| ==> entries[k].0 != name
    ensures name in BuildArchive(zip, entries) && BuildArchive(zip, entries)[name] == zip[name]
    decreases |entries|
  {
    if |entries| > 0 {
      var rest := entries[1..];
      assert forall k :: 0 <= k < |rest| ==> rest[k] == entries[k + 1];
      BuildArchiveKeeps(zip[entries[0].0 := entries[0].1], rest, name);
    }
  }

  /** The last data written under a name is what the archive holds for it. */
  lemma {:induction false} BuildArchiveLastWrite(zip: map<string, Blob>, entries: seq<(string, Blob)>, k: nat)
    requires k < |entries| && forall j :: k < j < |entries| ==> entries[j].0 != entries[k].0
    ensures entries[k].0 in BuildArchive(zip, entries) && BuildArchive(zip, entries)[entries[k].0] == entries[k].1
    decreases |entries|
  {
    var rest := entries[1..];
    var zip' := zip[entries[0].0 := entries[0].1];
    assert forall j :: 0 <= j < |rest| ==> rest[j] == entries[j + 1];
    if k == 0 {
      BuildArchiveKeeps(zip', rest, entries[0].0);
    } else {
      BuildArchiveLastWrite(zip', rest, k - 1);
    }
  }

  /** No ready job after job i carries the same entry name. */
  predicate LastOfName(jobs: seq<BatchJob>, i: int)
    requires 0 <= i < |jobs|
  {
    forall j :: i < j < |jobs| && Ready(jobs[j]) ==> EntryName(jobs[j]) != EntryName(jobs[i])
  }

  /** The ready jobs are those before job i, job i itself, then those after it. */
  lemma {:induction false} ReadyJobsSplit(jobs: seq<BatchJob>, i: nat)
    requires i < |jobs| && Ready(jobs[i])
    ensures ReadyJobs(jobs) == ReadyJobs(jobs[..i]) + [jobs[i]] + ReadyJobs(jobs[i + 1..])
  {
    var pre, x, post := jobs[..i], jobs[i], jobs[i + 1..];
    assert jobs == pre + ([x] + post);
    calc {
      ReadyJobs(jobs);
      ReadyJobs(pre + ([x] + post));
      { ReadyJobsAppend(pre, [x] + post); }
      ReadyJobs(pre) + ReadyJobs([x] + post);
      { ReadyJobsCons(x, post); }
      ReadyJobs(pre) + ([x] + ReadyJobs(post));
      ReadyJobs(pre) + [x] + ReadyJobs(post);
    }
  }

  lemma {:induction false} ReadyJobsCons(x: BatchJob, rest: seq<BatchJob>)
    requires Ready(x)
    ensures ReadyJobs([x] + rest) == [x] + ReadyJobs(rest)
  {
    assert ([x] + rest)[0] == x && ([x] + rest)[1..] == rest;
  }

  /** The archive's names are exactly the entry names of the ready jobs. */
  lemma {:induction false} ArchiveNames(jobs: seq<BatchJob>, zip: map<string, Blob>)
    requires zip == BuildArchive(map[], ZipEntries(jobs))
    ensures forall name :: name in zip <==> exists i :: 0 <= i < |jobs| && Ready(jobs[i]) && EntryName(jobs[i]) == name
  {
    var entries := ZipEntries(jobs);
    BuildArchiveNames(map[], entries);
    forall name | name in zip
      ensures exists i :: 0 <= i < |jobs| && Ready(jobs[i]) && EntryName(jobs[i]) == name
    {
      var k :| 0 <= k < |entries| && entries[k].0 == name;
      ZipEntriesFromReadyJobs(jobs, k);
    }
    forall name | exists i :: 0 <= i < |jobs| && Ready(jobs[i]) && EntryName(jobs[i]) == name
      ensures name in zip
    {
      var i :| 0 <= i < |jobs| && Ready(jobs[i]) && EntryName(jobs[i]) == name;
      ZipEntriesOfReadyJob(jobs, i);
      var k :| 0 <= k < |entries| && entries[k] == (EntryName(jobs[i]), jobs[i].result.value);
    }
  }

  /** A ready job that no later ready job shares its name with has its result in the archive. */
  lemma {:induction false} ArchiveContentsAt(jobs: seq<BatchJob>, zip: map<string, Blob>, i: nat)
    requires zip == BuildArchive(map[], ZipEntries(jobs))
    requires i < |jobs| && Ready(jobs[i])
    requires LastOfName(jobs, i)
    ensures EntryName(jobs[i]) in zip && zip[EntryName(jobs[i])] == jobs[i].result.value
  {
    var k := EntryPosition(jobs, i);
    BuildArchiveLastWrite(map[], ZipEntries(jobs), k);
  }

  /** The position of a ready job's entry; no later entry carries its name when no later ready
      job does. */
  lemma {:induction false} EntryPosition(jobs: seq<BatchJob>, i: nat) returns (k: nat)
    requires i < |jobs| && Ready(jobs[i]) && LastOfName(jobs, i)
    ensures k < |ZipEntries(jobs)| && ZipEntries(jobs)[k] == (EntryName(jobs[i]), jobs[i].result.value)
    ensures forall j :: k < j < |ZipEntries(jobs)| ==> ZipEntries(jobs)[j].0 != ZipEntries(jobs)[k].0
  {
    ReadyJobsSplit(jobs, i);
    k := |ReadyJobs(jobs[..i])|;
    assert ReadyJobs(jobs)[k] == jobs[i];
    forall j | k < j < |ZipEntries(jobs)|
      ensures ZipEntries(jobs)[j].0 != EntryName(jobs[i])
    {
      LaterEntryName(jobs, i, j);
    }
  }

  /** An entry after the one of job i comes from a ready job after it. */
  lemma {:induction false} LaterEntryName(jobs: seq<BatchJob>, i: nat, j: nat)
    requires i < |jobs| && Ready(jobs[i]) && LastOfName(jobs, i)
    requires |ReadyJobs(jobs[..i])| < j < |ZipEntries(jobs)|
    ensures ZipEntries(jobs)[j].0 != EntryName(jobs[i])
  {
    ReadyJobsSplit(jobs, i);
    var t := j - |ReadyJobs(jobs[..i])| - 1;
    var tail := ReadyJobs(jobs[i + 1..]);
    assert ReadyJobs(jobs)[j] == tail[t];
    ReadyAfter(jobs, i, t);
  }

  /** A job selected from the queue after the last ready job of its name carries another name. */
  lemma {:induction false} ReadyAfter(jobs: seq<BatchJob>, i: nat, t: nat)
    requires i < |jobs| && LastOfName(jobs, i) && t < |ReadyJobs(jobs[i + 1..])|
    ensures EntryName(ReadyJobs(jobs[i + 1..])[t]) != EntryName(jobs[i])
  {
    var after := jobs[i + 1..];
    var x := ReadyJobs(after)[t];
    ReadyJobsMembers(after);
    assert x in ReadyJobs(after);
    var m :| 0 <= m < |after| && after[m] == x;
    assert jobs[i + 1 + m] == x && Ready(x);
  }

  lemma {:induction false} ArchiveContents(jobs: seq<BatchJob>, zip: map<string, Blob>)
    requires zip == BuildArchive(map[], ZipEntries(jobs))
    ensures forall i :: 0 <= i < |jobs| && Ready(jobs[i]) && LastOfName(jobs, i) ==>
      EntryName(jobs[i]) in zip && zip[EntryName(jobs[i])] == jobs[i].result.value
  {
    forall i | 0 <= i < |jobs| && Ready(jobs[i]) && LastOfName(jobs, i)
      ensures EntryName(jobs[i]) in zip && zip[EntryName(jobs[i])] == jobs[i].result.value
    {
      ArchiveContentsAt(jobs, zip, i);
    }
  }

  /** What the archive holds: exactly the entry names of the ready jobs, each with the result
      of the last ready job carrying that name. */
  ghost predicate HoldsReadyResults(jobs: seq<BatchJob>, zip: map<string, Blob>) {
    (forall name :: name in zip <==> exists i :: 0 <= i < |jobs| && Ready(jobs[i]) && EntryName(jobs[i]) == name) &&
    (forall i :: 0 <= i < |jobs| && Ready(jobs[i]) && LastOfName(jobs, i) ==>
      EntryName(jobs[i]) in zip && zip[EntryName(jobs[i])] == jobs[i].result.value)
  }

  lemma {:induction false} ArchiveHoldsReadyResults(jobs: seq<BatchJob>)
    ensures HoldsReadyResults(jobs, BuildArchive(map[], ZipEntries(jobs)))
  {
    var zip := BuildArchive(map[], ZipEntries(jobs));
    ArchiveNames(jobs, zip);
    ArchiveContents(jobs, zip);
  }

  /** An archive written at least once is not empty. */
  lemma {:induction false} ArchiveNotEmpty(entries: seq<(string, Blob)>)
    requires |entries| > 0
    ensures |BuildArchive(map[], entries)| > 0
  {
    BuildArchiveNames(map[], entries);
    assert entries[0].0 in BuildArchive(map[], entries);
  }

  const NothingToDownload: string := "No completed jobs to download"

  /** `downloadAsZip` up to the archive's contents: rejects when no job is ready, and
      otherwise holds every ready job's entry name, with the result of the last ready job
      under that name. */
  function DownloadAsZip(jobs: seq<BatchJob>): (r: Result<map<string, Blob>>)
    ensures r.Err? <==> forall i :: 0 <= i < |jobs| ==> !Ready(jobs[i])
    ensures r.Err? ==> r.thrown == ErrorObject(NothingToDownload)
    ensures r.Ok? ==> |r.value| > 0 && HoldsReadyResults(jobs, r.value)
  {
    var entries := ZipEntries(jobs);
    ZipEntriesEmpty(jobs);
    if |entries| == 0 then Err(ErrorObject(NothingToDownload))
    else
      ArchiveHoldsReadyResults(jobs);
      ArchiveNotEmpty(entries);
      Ok(BuildArchive(map[], entries))
  }

  /** Writing the same name twice keeps the second data only. */
  lemma ArchiveOfRepeatedName(name: string, x: Blob, y: Blob)
    ensures BuildArchive(map[], [(name, x), (name, y)]) == map[name := y]
  {
    var entries := [(name, x), (name, y)];
    assert entries[1..] == [(name, y)] && entries[1..][1..] == [];
    assert BuildArchive(map[], entries) == BuildArchive(map[name := x], [(name, y)]);
  }

  lemma {:induction false} ZipEntriesOfPair(a: BatchJob, b: BatchJob)
    requires Ready(a) && Ready(b)
    ensures ZipEntries([a, b]) == [(EntryName(a), a.result.value), (EntryName(b), b.result.value)]
  {
    ReadyJobsCons(b, []);
    ReadyJobsCons(a, [b]);
    assert ReadyJobs([a, b]) == [a, b];
  }

  /** Two ready jobs with the same entry name give a one-entry archive holding the later
      job's result: JSZip replaces the first file with the second. */
  lemma {:induction false} SameNameJobsCollide(a: BatchJob, b: BatchJob)
    requires Ready(a) && Ready(b) && EntryName(a) == EntryName(b)
    ensures DownloadAsZip([a, b]) == Ok(map[EntryName(a) := b.result.value])
  {
    ZipEntriesOfPair(a, b);
    ArchiveOfRepeatedName(EntryName(a), a.result.value, b.result.value);
  }

  /** Two ready jobs whose names differ only in their extension and that share a target
      collide: "a.txt" and "a.md", both converted to pdf, leave the single entry "a.pdf",
      with the later job's result. */
  lemma {:induction false} SameStemJobsCollide(a: BatchJob, b: BatchJob, stem: string, extA: string, extB: string)
    requires Ready(a) && Ready(b) && a.targetFormat == b.targetFormat
    requires stem != "" && '.' !in extA && '.' !in extB
    requires a.file.name == stem + "." + extA && b.file.name == stem + "." + extB
    ensures DownloadAsZip([a, b]) == Ok(map[stem + "." + a.targetFormat := b.result.value])
  {
    EntryNameReplacesExtension(a, stem, extA);
    EntryNameReplacesExtension(b, stem, extB);
    SameNameJobsCollide(a, b);
  }

  /** `removeJob`: every job with the id goes, every other job stays, in order. */
  function RemoveJob(jobs: seq<BatchJob>, id: string): (r: seq<BatchJob>)
    ensures forall x :: x in r <==> x in jobs && x.id != id
    ensures |r| <= |jobs|
  {
    if |jobs| == 0 then []
    else if jobs[0].id != id then [jobs[0]] + RemoveJob(jobs[1..], id)
    else RemoveJob(jobs[1..], id)
  }

  /** Removal distributes over concatenation, so the remaining jobs keep their order. */
  lemma {:induction false} RemoveJobAppend(a: seq<BatchJob>, b: seq<BatchJob>, id: string)
    ensures RemoveJob(a + b, id) == RemoveJob(a, id) + RemoveJob(b, id)
  {
    if |a| == 0 {
      assert a + b == b;
    } else {
      assert (a + b)[0] == a[0] && (a + b)[1..] == a[1..] + b;
      RemoveJobAppend(a[1..], b, id);
    }
  }

  /** With distinct ids, removing a present id removes exactly one job. */
  lemma {:induction false} RemoveJobRemovesOne(jobs: seq<BatchJob>, i: nat)
    requires UniqueIds(jobs) && i < |jobs|
    ensures |RemoveJob(jobs, jobs[i].id)| == |jobs| - 1
    decreases |jobs|
  {
    var rest := jobs[1..];
    if i == 0 {
      RemoveJobAbsent(rest, jobs[0].id);
    } else {
      UniqueTail(jobs);
      assert rest[i - 1] == jobs[i];
      RemoveJobRemovesOne(rest, i - 1);
    }
  }

  /** Removing an id no job carries changes nothing. */
  lemma {:induction false} RemoveJobAbsent(jobs: seq<BatchJob>, id: string)
    requires forall k :: 0 <= k < |jobs| ==> jobs[k].id != id
    ensures RemoveJob(jobs, id) == jobs
    decreases |jobs|
  {
    if |jobs| > 0 {
      var rest := jobs[1..];
      forall k | 0 <= k < |rest|
        ensures rest[k].id != id
      {
        assert rest[k] == jobs[k + 1];
      }
      RemoveJobAbsent(rest, id);
      assert jobs == [jobs[0]] + rest;
    }
  }

  /** `clearJobs`: the queue empties; a run in progress keeps its flag. */
  function ClearJobs(s: BatchState): (r: BatchState)
    ensures r.jobs == [] && r.isProcessing == s.isProcessing
  {
    s.(jobs := [])
  }

  /** `filter(j => j.status === status).length`. */
  function Count(jobs: seq<BatchJob>, status: Status): (n: nat)
    ensures n <= |jobs|
    ensures n == 0 <==> forall i :: 0 <= i < |jobs| ==> jobs[i].status != status
  {
    if |jobs| == 0 then 0 else (if jobs[0].status == status then 1 else 0) + Count(jobs[1..], status)
  }

  datatype Stats = Stats(total: nat, pending: nat, processing: nat, completed: nat, error: nat)

  /** Counting adds up over concatenation and a single job counts once under its own status,
      which fixes Count as the number of jobs with the status. */
  lemma {:induction false} CountAppend(a: seq<BatchJob>, b: seq<BatchJob>, status: Status)
    ensures Count(a + b, status) == Count(a, status) + Count(b, status)
    ensures |a| == 1 ==> Count(a, status) == if a[0].status == status then 1 else 0
    decreases |a|
  {
    if |a| == 0 {
      assert a + b == b;
    } else {
      assert (a + b)[1..] == a[1..] + b;
      CountAppend(a[1..], b, status);
    }
  }

  /** `getStats`: the total and the size of each status filter. */
  function GetStats(jobs: seq<BatchJob>): (r: Stats)
    ensures r.total == |jobs|
    ensures r.pending == Count(jobs, Pending) && r.processing == Count(jobs, Processing)
    ensures r.completed == Count(jobs, Completed) && r.error == Count(jobs, Errored)
    ensures r.total == r.pending + r.processing + r.completed + r.error
  {
    StatusesPartition(jobs);
    Stats(|jobs|, Count(jobs, Pending), Count(jobs, Processing), Count(jobs, Completed), Count(jobs, Errored))
  }

  /** Every job is counted under exactly one status. */
  lemma {:induction false} StatusesPartition(jobs: seq<BatchJob>)
    ensures |jobs| == Count(jobs, Pending) + Count(jobs, Processing) + Count(jobs, Completed) + Count(jobs, Errored)
    decreases |jobs|
  {
    if |jobs| > 0 {
      StatusesPartition(jobs[1..]);
    }
  }

  /** A status no job has counts zero. */
  lemma {:induction false} CountAbsent(jobs: seq<BatchJob>, status: Status)
    requires forall i :: 0 <= i < |jobs| ==> jobs[i].status != status
    ensures Count(jobs, status) == 0
    decreases |jobs|
  {
    if |jobs| > 0 {
      CountAbsent(jobs[1..], status);
    }
  }

  /** After a run the statistics show nothing pending. */
  lemma NoPendingInStatsAfterRun(s: BatchState, conv: Converter)
    requires UniqueIds(s.jobs)
    ensures GetStats(ProcessBatch(s, conv).jobs).pending == 0
    ensures GetStats(ProcessBatch(s, conv).jobs).total == |s.jobs|
  {
    NothingPendingAfterRun(s, conv);
    ProcessBatchSettlesPending(s, conv);
    CountAbsent(ProcessBatch(s, conv).jobs, Pending);
  }

  /** Freshly added jobs are all settled by the next run. */
  lemma AddedJobsSettledByNextRun(s: BatchState, files: seq<File>, target: string, ids: seq<string>, conv: Converter)
    requires |ids| == |files|
    requires UniqueIds(AddToBatch(s, files, target, ids).jobs)
    ensures forall i :: |s.jobs| <= i < |s.jobs| + |files| ==>
      ProcessBatch(AddToBatch(s, files, target, ids), conv).jobs[i] == Settle(AddToBatch(s, files, target, ids).jobs[i], conv)
  {
    ProcessBatchSettlesPending(AddToBatch(s, files, target, ids), conv);
  }
}
