/** The job ledger of apps/render-service/src/jobs.ts: job records stored as
    JSON documents in an object store under a key derived from the run and job
    ids. The object store is an abstract key-to-blob map; the clock is a
    parameter. */
module Jobs {
  import opened Results
  import opened Text

  datatype JobStatus = Queued | Running | Done | Error

  /** The request a job was created from. The ledger only ever looks at its
      `runId`; the other string properties are carried along untouched in
      `fields`, keyed by property name. */
  datatype Request = Request(runId: Option<String>, fields: map<String, String>)

  datatype JobRecord = JobRecord(
    id: String,
    runId: String,
    status: JobStatus,
    createdAt: String,
    updatedAt: String,
    request: Request,
    result: Option<String>,
    error: Option<String>)

  /** `Partial<JobRecord>`: every field may be left out. */
  datatype JobPatch = JobPatch(
    id: Option<String>,
    runId: Option<String>,
    status: Option<JobStatus>,
    createdAt: Option<String>,
    updatedAt: Option<String>,
    request: Option<Request>,
    result: Option<String>,
    error: Option<String>)

  const EmptyPatch := JobPatch(None, None, None, None, None, None, None, None)

  /** An object in the store: a job document, or bytes that do not parse as one. */
  datatype Blob = Document(job: JobRecord) | Unparsable(bytes: String)

  type Store = map<String, Blob>

  datatype JobError =
    | CreateRunIdRequired   // "createJob: request.runId is required"
    | UpdateRunIdRequired   // "updateJob: runId is required"
    | NotFound(runId: String, id: String)

  /** What a ledger call returns, together with the store it leaves behind. */
  datatype Outcome = Outcome(result: Result<JobRecord, JobError>, store: Store)

  // ---------------------------------------------------------------------
  // jobKey
  // ---------------------------------------------------------------------

  /** The object key of a job: `runs/<runId>/jobs/<jobId>.json`. */
  function JobKey(runId: String, jobId: String): String {
    "runs/" + runId + "/jobs/" + jobId + ".json"
  }

  /** The key is the run folder, the job folder and the job file, in that order. */
  lemma JobKeyShape(runId: String, jobId: String)
    ensures var k := JobKey(runId, jobId);
      && |k| == |runId| + |jobId| + 16
      && k[..5] == "runs/"
      && k[5..5 + |runId|] == runId
      && k[5 + |runId|..11 + |runId|] == "/jobs/"
      && k[11 + |runId|..11 + |runId| + |jobId|] == jobId
      && k[11 + |runId| + |jobId|..] == ".json"
  {
  }

  /** In the key of a run id without '/', the first '/' after "runs/" is the
      one that ends the run id. */
  lemma KeyFirstSlash(runId: String, jobId: String)
    requires '/' !in runId
    ensures IndexFrom(JobKey(runId, jobId), "/", 5) == Some(5 + |runId|)
  {
    var k := JobKey(runId, jobId);
    JobKeyShape(runId, jobId);
    assert OccursAt(k, "/", 5 + |runId|);
    forall j | 5 <= j < 5 + |runId|
      ensures !OccursAt(k, "/", j)
    {
      assert k[j] == runId[j - 5];
    }
    IndexFromFirst(k, "/", 5, 5 + |runId|);
  }

  /** Run ids without '/' never share a key: the key determines both ids. */
  lemma JobKeyInjective(r1: String, j1: String, r2: String, j2: String)
    requires '/' !in r1 && '/' !in r2
    requires JobKey(r1, j1) == JobKey(r2, j2)
    ensures r1 == r2 && j1 == j2
  {
    KeyFirstSlash(r1, j1);
    KeyFirstSlash(r2, j2);
    JobKeyShape(r1, j1);
    JobKeyShape(r2, j2);
  }

  /** A run id holding "/jobs/" makes two different jobs share a key. */
  lemma JobKeyCollision()
    ensures JobKey("a/jobs/b", "c") == JobKey("a", "b/jobs/c")
  {
  }

  // ---------------------------------------------------------------------
  // getJob
  // ---------------------------------------------------------------------

  /** `getJob`: the stored record, or nothing when the object is absent or does
      not parse. It never fails. */
  function GetJob(id: String, runId: String, store: Store): (r: Option<JobRecord>)
    ensures r.Some? <==> JobKey(runId, id) in store && store[JobKey(runId, id)].Document?
    ensures r.Some? ==> store[JobKey(runId, id)] == Document(r.value)
  {
    var key := JobKey(runId, id);
    if key in store && store[key].Document? then Some(store[key].job) else None
  }

  // ---------------------------------------------------------------------
  // createJob
  // ---------------------------------------------------------------------

  /** `String(request?.runId || "").trim()`. */
  function CreateRunId(request: Request): String {
    Trim(request.runId.GetOr(""))
  }

  /** `createJob`: a queued record for `id`, written under the trimmed run id.
      A run id that trims to nothing fails before anything is written. */
  function CreateJob(id: String, request: Request, now: String, store: Store): (o: Outcome)
    ensures o.result.Err? <==> CreateRunId(request) == []
    ensures o.result.Err? ==> o.result.error == CreateRunIdRequired && o.store == store
    ensures o.result.Ok? ==>
      var job := o.result.value;
      && job.id == id
      && job.runId == CreateRunId(request) && job.runId != []
      && job.status == Queued
      && job.createdAt == now && job.updatedAt == now
      && job.request == request
      && job.result.None? && job.error.None?
      && o.store == store[JobKey(job.runId, id) := Document(job)]
  {
    var runId := CreateRunId(request);
    if runId == [] then Outcome(Err(CreateRunIdRequired), store)
    else
      var job := JobRecord(id, runId, Queued, now, now, request, None, None);
      Outcome(Ok(job), store[JobKey(runId, id) := Document(job)])
  }

  /** A run id of only whitespace is refused, although it is a non-empty string. */
  lemma CreateJobBlankRunId(id: String, fields: map<String, String>, now: String, store: Store)
    ensures CreateJob(id, Request(Some(" \t"), fields), now, store)
         == Outcome(Err(CreateRunIdRequired), store)
  {
    TrimSpec(" \t");
  }

  /** A created job reads back, under the trimmed run id, as the record
      `createJob` returned. */
  lemma CreateThenGet(id: String, request: Request, now: String, store: Store)
    requires CreateRunId(request) != []
    ensures var o := CreateJob(id, request, now, store);
      GetJob(id, CreateRunId(request), o.store) == Some(o.result.value)
  {
  }

  // ---------------------------------------------------------------------
  // updateJob
  // ---------------------------------------------------------------------

  /** `x || y` on optional strings, with a falsy result read as absent. */
  function OrElse(x: Option<String>, y: Option<String>): Option<String> {
    if Truthy(x) then x else if Truthy(y) then y else None
  }

  /** `patch.request?.runId`. */
  function PatchRequestRunId(patch: JobPatch): Option<String> {
    if patch.request.Some? then patch.request.value.runId else None
  }

  /** `runId || patch.runId || patch.request?.runId`, with a falsy result
      read as absent. No trimming happens here. */
  function InferRunId(runId: Option<String>, patch: JobPatch): Option<String> {
    OrElse(runId, OrElse(patch.runId, PatchRequestRunId(patch)))
  }

  /** The inferred run id is the first truthy candidate in the order argument,
      patch, patch's request; there is none exactly when no candidate is truthy. */
  lemma InferRunIdSpec(runId: Option<String>, patch: JobPatch)
    ensures var r := InferRunId(runId, patch);
      && (Truthy(runId) ==> r == runId)
      && (!Truthy(runId) && Truthy(patch.runId) ==> r == patch.runId)
      && (!Truthy(runId) && !Truthy(patch.runId) && Truthy(PatchRequestRunId(patch)) ==>
            r == PatchRequestRunId(patch))
      && (r.None? <==> !Truthy(runId) && !Truthy(patch.runId) && !Truthy(PatchRequestRunId(patch)))
      && (r.Some? ==> Truthy(r))
  {
  }

  /** The record `updateJob` writes: patch fields win, `id`, `status`,
      `createdAt` and `request` fall back to the current ones, the run id is
      the inferred one and `updatedAt` is the time of the update. */
  function Merge(current: JobRecord, patch: JobPatch, runId: String, now: String): (next: JobRecord)
  {
    JobRecord(
      patch.id.GetOr(current.id),
      runId,
      patch.status.GetOr(current.status),
      patch.createdAt.GetOr(current.createdAt),
      now,
      patch.request.GetOr(current.request),
      if patch.result.Some? then patch.result else current.result,
      if patch.error.Some? then patch.error else current.error)
  }

  /** `updateJob`: read the record under the inferred run id, merge the patch
      in and write it back under the same key. */
  function UpdateJob(id: String, patch: JobPatch, runId: Option<String>, now: String, store: Store): (o: Outcome)
    ensures InferRunId(runId, patch).None? ==> o == Outcome(Err(UpdateRunIdRequired), store)
    ensures InferRunId(runId, patch).Some? ==>
      var r := InferRunId(runId, patch).value;
      match GetJob(id, r, store)
      case None => o == Outcome(Err(NotFound(r, id)), store)
      case Some(current) =>
        && o.result == Ok(Merge(current, patch, r, now))
        && o.store == store[JobKey(r, id) := Document(o.result.value)]
  {
    match InferRunId(runId, patch)
    case None => Outcome(Err(UpdateRunIdRequired), store)
    case Some(r) =>
      match GetJob(id, r, store)
      case None => Outcome(Err(NotFound(r, id)), store)
      case Some(current) =>
        var next := Merge(current, patch, r, now);
        Outcome(Ok(next), store[JobKey(r, id) := Document(next)])
  }

  /** An update touches at most one key, the job's key under the inferred run
      id: every other object is left exactly as it was. */
  lemma UpdateJobFrame(id: String, patch: JobPatch, runId: Option<String>, now: String, store: Store, k: String)
    requires InferRunId(runId, patch).None? || k != JobKey(InferRunId(runId, patch).value, id)
    ensures var o := UpdateJob(id, patch, runId, now, store);
      && (k in o.store <==> k in store)
      && (k in store ==> o.store[k] == store[k])
  {
  }

  /** A successful update leaves a job that reads back as the record it returned. */
  lemma UpdateThenGet(id: String, patch: JobPatch, runId: Option<String>, now: String, store: Store)
    requires UpdateJob(id, patch, runId, now, store).result.Ok?
    ensures var o := UpdateJob(id, patch, runId, now, store);
      GetJob(id, InferRunId(runId, patch).value, o.store) == Some(o.result.value)
  {
  }

  /** Applying the same patch twice gives the same record as applying it once,
      apart from the time of the update. */
  lemma MergeIdempotent(current: JobRecord, patch: JobPatch, runId: String, t1: String, t2: String)
    ensures Merge(Merge(current, patch, runId, t1), patch, runId, t2)
         == Merge(current, patch, runId, t2)
  {
  }

  /** An empty patch only refreshes `updatedAt` (and pins the run id). */
  lemma MergeEmpty(current: JobRecord, now: String)
    ensures Merge(current, EmptyPatch, current.runId, now) == current.(updatedAt := now)
  {
  }

  /** The patches the render route sends, `{status}` with a result or an
      error but never a run id, always fail when no run id is passed: the
      job is never moved out of `queued` that way. */
  lemma StatusOnlyPatchFails(id: String, status: JobStatus, result: Option<String>, error: Option<String>,
                             now: String, store: Store)
    ensures var patch := EmptyPatch.(status := Some(status), result := result, error := error);
      UpdateJob(id, patch, None, now, store) == Outcome(Err(UpdateRunIdRequired), store)
  {
  }

  /** Nothing guards the status: a finished job can be sent back to `queued`. */
  lemma TerminalStatusOverwritten(job: JobRecord, now: String, store: Store)
    requires job.runId != [] && job.status == Done
    requires store[JobKey(job.runId, job.id) := Document(job)] == store
    ensures var o := UpdateJob(job.id, EmptyPatch.(status := Some(Queued)), Some(job.runId), now, store);
      o.result.Ok? && o.result.value.status == Queued
  {
    assert JobKey(job.runId, job.id) in store;
  }

  /** The intended life of a job: created `queued`, then `running`, then
      `done` with a result, each update passing the run id. The final record
      keeps the creation time and request and carries the result. */
  lemma Lifecycle(id: String, request: Request, out: String, t0: String, t1: String, t2: String, store: Store)
    requires CreateRunId(request) != []
    ensures
      var r := CreateRunId(request);
      var c := CreateJob(id, request, t0, store);
      var u1 := UpdateJob(id, EmptyPatch.(status := Some(Running)), Some(r), t1, c.store);
      var u2 := UpdateJob(id, EmptyPatch.(status := Some(Done), result := Some(out)), Some(r), t2, u1.store);
      && u1.result.Ok? && u1.result.value.status == Running
      && u2.result.Ok?
      && GetJob(id, r, u2.store) == Some(JobRecord(id, r, Done, t0, t2, request, Some(out), None))
  {
    var r := CreateRunId(request);
    CreateThenGet(id, request, t0, store);
    var c := CreateJob(id, request, t0, store);
    var u1 := UpdateJob(id, EmptyPatch.(status := Some(Running)), Some(r), t1, c.store);
    UpdateThenGet(id, EmptyPatch.(status := Some(Running)), Some(r), t1, c.store);
    UpdateThenGet(id, EmptyPatch.(status := Some(Done), result := Some(out)), Some(r), t2, u1.store);
  }
}
