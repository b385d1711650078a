/** The request handling of apps/render-service/src/index.ts: the two object
    store proxy routes and the asynchronous render route. HTTP, the object
    store and the renderer are abstracted: the store's contents are a set of
    keys, the job id and the clock are parameters, and the render's outcome is
    a parameter. */
module Service {
  import opened Results
  import opened Text
  import Schema
  import Jobs

  /** A request the proxy routes refuse with status 400. */
  datatype RequestError =
    | NoFile       // "No file provided"
    | MissingKey   // "Missing 'key' parameter"

  /** The first truthy candidate, or the fallback when there is none: the
      meaning of a chain `c0 || c1 || ... || fallback`. */
  function FirstTruthy(candidates: seq<Option<String>>, fallback: String): (r: String)
    ensures r == fallback || exists i :: 0 <= i < |candidates| && candidates[i] == Some(r)
  {
    if candidates == [] then fallback
    else if Truthy(candidates[0]) then candidates[0].value
    else FirstTruthy(candidates[1..], fallback)
  }

  /** `FirstTruthy` skips exactly the falsy candidates before the first truthy one. */
  lemma {:induction false} FirstTruthySpec(candidates: seq<Option<String>>, fallback: String, i: nat)
    requires i <= |candidates|
    requires forall j :: 0 <= j < i ==> !Truthy(candidates[j])
    ensures i < |candidates| && Truthy(candidates[i]) ==>
      FirstTruthy(candidates, fallback) == candidates[i].value
    ensures i == |candidates| ==> FirstTruthy(candidates, fallback) == fallback
    decreases i
  {
    if i > 0 {
      FirstTruthySpec(candidates[1..], fallback, i - 1);
    }
  }

  // ---------------------------------------------------------------------
  // POST /api/r2/upload
  // ---------------------------------------------------------------------

  /** The part of the multipart form multer hands over as `req.file`. */
  datatype UploadFile = UploadFile(mimetype: Option<String>, size: nat)

  /** The text fields of the upload form. */
  datatype UploadForm = UploadForm(bucket: Option<String>, key: Option<String>, contentType: Option<String>)

  /** What an accepted upload does: where it writes, with which content type,
      and whether the reply carries a signed URL. */
  datatype UploadPlan = UploadPlan(key: String, bucket: String, contentType: String, size: nat, sign: bool)

  const ManifestName: String := "manifest.json"
  const DefaultContentType: String := "application/octet-stream"

  /** Only a key that names a file called `manifest.json` gets a signed URL. */
  predicate ShouldSign(key: String) {
    EndsWith(key, "/" + ManifestName) || key == ManifestName
  }

  /** The upload route up to the store write: the file is checked before the
      key, the bucket falls back to the configured one and the content type
      to the file's own, then to the generic binary type. */
  function PlanUpload(file: Option<UploadFile>, form: UploadForm, defaultBucket: String): (r: Result<UploadPlan, RequestError>)
    ensures file.None? <==> r == Err(NoFile)
    ensures r == Err(MissingKey) <==> file.Some? && !Truthy(form.key)
    ensures r.Ok? ==>
      && form.key == Some(r.value.key) && r.value.key != []
      && r.value.size == file.value.size
      && (r.value.bucket == defaultBucket || form.bucket == Some(r.value.bucket))
      && r.value.contentType != []
  {
    if file.None? then Err(NoFile)
    else if !Truthy(form.key) then Err(MissingKey)
    else
      var key := form.key.value;
      Ok(UploadPlan(key, Or(form.bucket, defaultBucket),
                    Or(form.contentType, Or(file.value.mimetype, DefaultContentType)),
                    file.value.size, ShouldSign(key)))
  }

  /** The fallbacks of an accepted upload are the first truthy candidates, and
      the signing decision depends on the key's last path segment only. */
  lemma UploadFallbacks(file: UploadFile, form: UploadForm, defaultBucket: String)
    requires Truthy(form.key)
    ensures var r := PlanUpload(Some(file), form, defaultBucket);
      && r.Ok?
      && r.value.bucket == FirstTruthy([form.bucket], defaultBucket)
      && r.value.contentType == FirstTruthy([form.contentType, file.mimetype], DefaultContentType)
      && (r.value.sign <==> LastSegment(form.key.value) == ManifestName)
  {
    var b := [form.bucket];
    var c := [form.contentType, file.mimetype];
    if Truthy(form.bucket) { FirstTruthySpec(b, defaultBucket, 0); } else { FirstTruthySpec(b, defaultBucket, 1); }
    if Truthy(form.contentType) {
      FirstTruthySpec(c, DefaultContentType, 0);
    } else if Truthy(file.mimetype) {
      FirstTruthySpec(c, DefaultContentType, 1);
    } else {
      FirstTruthySpec(c, DefaultContentType, 2);
    }
    ShouldSignIsManifestName(form.key.value);
  }

  /** Two ways of cutting `s` into a slash-free tail after a '/' (or after
      nothing) cut it at the same place. */
  lemma TailCutUnique(s: String, p1: nat, p2: nat)
    requires p1 <= |s| && p2 <= |s|
    requires forall i :: p1 <= i < |s| ==> s[i] != '/'
    requires forall i :: p2 <= i < |s| ==> s[i] != '/'
    requires p1 == 0 || s[p1 - 1] == '/'
    requires p2 == 0 || s[p2 - 1] == '/'
    ensures p1 == p2
  {
    if p1 > 0 { assert s[p1 - 1] == '/'; }
    if p2 > 0 { assert s[p2 - 1] == '/'; }
  }

  /** For a file name without '/', the test "is the name, or ends with '/'
      and the name" agrees with asking whether the last path segment is the
      name. */
  lemma {:induction false} NamedFile(key: String, name: String)
    requires forall i :: 0 <= i < |name| ==> name[i] != '/'
    ensures EndsWith(key, "/" + name) || key == name <==> LastSegment(key) == name
  {
    var seg := LastSegment(key);
    LastSegmentSpec(key);
    var p := |key| - |seg|;
    assert key[p..] == seg;
    forall i | p <= i < |key|
      ensures key[i] != '/'
    {
      assert key[i] == seg[i - p];
    }
    if EndsWith(key, "/" + name) {
      var q := |key| - |name|;
      assert key[q - 1..] == "/" + name;
      assert key[q - 1] == '/';
      assert key[q..] == name;
      forall i | q <= i < |key|
        ensures key[i] != '/'
      {
        assert key[i] == name[i - q];
      }
      TailCutUnique(key, p, q);
    } else if key == name {
      TailCutUnique(key, p, 0);
    }
    if seg == name && p > 0 {
      assert key[p - 1..] == [key[p - 1]] + seg;
    }
  }

  /** The suffix test of the upload route agrees with asking whether the key's
      last path segment is `manifest.json`. */
  lemma ShouldSignIsManifestName(key: String)
    ensures ShouldSign(key) <==> LastSegment(key) == ManifestName
  {
    forall i | 0 <= i < |ManifestName|
      ensures ManifestName[i] != '/'
    {
    }
    NamedFile(key, ManifestName);
  }

  // ---------------------------------------------------------------------
  // POST /api/r2/download
  // ---------------------------------------------------------------------

  datatype DownloadForm = DownloadForm(bucket: Option<String>, key: Option<String>)

  /** What an accepted download does: the object it reads and the file name it
      offers in `Content-Disposition`. */
  datatype DownloadPlan = DownloadPlan(key: String, bucket: String, filename: String)

  function PlanDownload(form: DownloadForm, defaultBucket: String): (r: Result<DownloadPlan, RequestError>)
    ensures r.Err? <==> !Truthy(form.key)
    ensures r.Err? ==> r.error == MissingKey
    ensures r.Ok? ==> form.key == Some(r.value.key) && r.value.key != []
  {
    if !Truthy(form.key) then Err(MissingKey)
    else Ok(DownloadPlan(form.key.value, Or(form.bucket, defaultBucket), LastSegment(form.key.value)))
  }

  /** The offered file name is the key's tail after its last '/': it holds no
      '/', the key ends with it, and a key without '/' is offered whole. */
  lemma DownloadFilename(form: DownloadForm, defaultBucket: String)
    requires Truthy(form.key)
    ensures var d := PlanDownload(form, defaultBucket).value;
      && '/' !in d.filename
      && EndsWith(d.key, d.filename)
      && (d.key[..|d.key| - |d.filename|] == [] || d.key[|d.key| - |d.filename| - 1] == '/')
      && ('/' !in d.key ==> d.filename == d.key)
  {
    var key := form.key.value;
    var seg := LastSegment(key);
    LastSegmentSpec(key);
    var p := |key| - |seg|;
    assert key[p..] == seg;
    if '/' !in key {
      forall i | 0 <= i < |key|
        ensures key[i] != '/'
      {
      }
      TailCutUnique(key, p, 0);
      forall i | p <= i < |key|
        ensures key[i] != '/'
      {
        assert key[i] == seg[i - p];
      }
    }
  }

  // ---------------------------------------------------------------------
  // POST /render/long: the existence check
  // ---------------------------------------------------------------------

  /** An entry of `requiredKeys`: a property name and its value. */
  datatype Required = Required(name: String, key: Option<String>)

  /** The keys the route insists on, in the order it checks them. The schema
      makes `captionsKey` optional; the route does not. */
  function RequiredKeys(data: Schema.RenderRequest): seq<Required> {
    [ Required("audioKey", Some(data.audioKey)),
      Required("propsKey", Some(data.propsKey)),
      Required("captionsKey", data.captionsKey) ]
  }

  function OptionList(o: Option<String>): seq<String> {
    if o.Some? then [o.value] else []
  }

  /** The message for one required key, if it is missing: an empty or absent
      key is reported without looking it up, a key not in the store with its
      value. */
  function Complaint(k: Required, stored: set<String>): Option<String> {
    if !Truthy(k.key) then Some(k.name + " (empty)")
    else if k.key.value in stored then None
    else Some(k.name + ": " + k.key.value)
  }

  /** The store lookup one required key causes, if any. */
  function Lookup(k: Required): Option<String> {
    if Truthy(k.key) then k.key else None
  }

  /** All complaints, in the order of the keys. */
  function Missing(keys: seq<Required>, stored: set<String>): seq<String>
    decreases |keys|
  {
    if keys == [] then []
    else Missing(keys[..|keys| - 1], stored) + OptionList(Complaint(keys[|keys| - 1], stored))
  }

  /** All store lookups, in the order they are made. */
  function Lookups(keys: seq<Required>): seq<String>
    decreases |keys|
  {
    if keys == [] then []
    else Lookups(keys[..|keys| - 1]) + OptionList(Lookup(keys[|keys| - 1]))
  }

  /** The loop over `requiredKeys`, one key after the other. */
  method CheckInputs(keys: seq<Required>, stored: set<String>) returns (missing: seq<String>, lookups: seq<String>)
    ensures missing == Missing(keys, stored)
    ensures lookups == Lookups(keys)
  {
    missing := [];
    lookups := [];
    for i := 0 to |keys|
      invariant missing == Missing(keys[..i], stored)
      invariant lookups == Lookups(keys[..i])
    {
      var k := keys[i];
      assert keys[..i + 1][..i] == keys[..i];
      if !Truthy(k.key) {
        missing := missing + [k.name + " (empty)"];
      } else {
        lookups := lookups + [k.key.value];
        if k.key.value !in stored {
          missing := missing + [k.name + ": " + k.key.value];
        }
      }
    }
    assert keys[..|keys|] == keys;
  }

  /** Nothing is missing exactly when every key is non-empty and stored. */
  lemma {:induction false} MissingEmpty(keys: seq<Required>, stored: set<String>)
    ensures Missing(keys, stored) == [] <==>
      forall i :: 0 <= i < |keys| ==> Truthy(keys[i].key) && keys[i].key.value in stored
    decreases |keys|
  {
    if keys != [] {
      var init := keys[..|keys| - 1];
      MissingEmpty(init, stored);
      assert forall i :: 0 <= i < |init| ==> init[i] == keys[i];
    }
  }

  /** Every lookup is of a non-empty key: an empty key never reaches the store. */
  lemma {:induction false} LookupsNonEmpty(keys: seq<Required>)
    ensures |Lookups(keys)| <= |keys|
    ensures forall i :: 0 <= i < |Lookups(keys)| ==> Lookups(keys)[i] != []
    decreases |keys|
  {
    if keys != [] {
      LookupsNonEmpty(keys[..|keys| - 1]);
    }
  }

  /** For the render route: the inputs pass exactly when audio, props and
      captions keys are all non-empty and stored. */
  lemma RouteInputsPresent(data: Schema.RenderRequest, stored: set<String>)
    ensures Missing(RequiredKeys(data), stored) == [] <==>
      && data.audioKey != [] && data.audioKey in stored
      && data.propsKey != [] && data.propsKey in stored
      && Truthy(data.captionsKey) && data.captionsKey.value in stored
  {
    var keys := RequiredKeys(data);
    MissingEmpty(keys, stored);
    assert keys[0].key == Some(data.audioKey);
    assert keys[1].key == Some(data.propsKey);
    assert keys[2].key == data.captionsKey;
  }

  /** A request without `captionsKey` passes the schema but is always refused
      here, with "captionsKey (empty)" as the last complaint. */
  lemma AbsentCaptionsRefused(data: Schema.RenderRequest, stored: set<String>)
    requires data.captionsKey.None? || data.captionsKey == Some([])
    ensures var m := Missing(RequiredKeys(data), stored);
      m != [] && m[|m| - 1] == "captionsKey (empty)"
  {
    var keys := RequiredKeys(data);
    assert keys[..|keys| - 1][..1] == keys[..1];
  }

  // ---------------------------------------------------------------------
  // POST /render/long: the route
  // ---------------------------------------------------------------------

  datatype RenderBody =
    | InvalidBody                          // the schema's error report
    | MissingObjects(missing: seq<String>)  // "Missing required R2 objects"
    | Queued(jobId: String, runId: String)  // status "queued"

  datatype Reply = Reply(status: int, body: RenderBody)

  /** The reply, the store lookups made on the way, and the job ledger once
      every write the route started has settled. */
  datatype RenderOutcome = RenderOutcome(reply: Reply, lookups: seq<String>, jobs: Jobs.Store)

  /** The request as `createJob` receives it: the run id, and the other
      properties by name. */
  function ToJobRequest(data: Schema.RenderRequest): Jobs.Request {
    var fields := map["composition" := data.composition, "audioKey" := data.audioKey,
                      "propsKey" := data.propsKey, "outputKey" := data.outputKey,
                      "logKey" := data.logKey];
    Jobs.Request(Some(data.runId),
                 if data.captionsKey.Some? then fields["captionsKey" := data.captionsKey.value] else fields)
  }

  /** The ledger after an accepted request: `createJob`, then the background
      task's `running` update and its `done` or `error` update, none of which
      passes a run id. */
  function LedgerAfter(jobId: String, data: Schema.RenderRequest, now: String,
                       rendered: Result<String, String>, jobs: Jobs.Store): Jobs.Store
  {
    var created := Jobs.CreateJob(jobId, ToJobRequest(data), now, jobs).store;
    var running := Jobs.UpdateJob(jobId, Jobs.EmptyPatch.(status := Some(Jobs.Running)), None, now, created).store;
    match rendered
    case Ok(out) =>
      Jobs.UpdateJob(jobId, Jobs.EmptyPatch.(status := Some(Jobs.Done), result := Some(out)), None, now, running).store
    case Err(message) =>
      Jobs.UpdateJob(jobId, Jobs.EmptyPatch.(status := Some(Jobs.Error), error := Some(message)), None, now, running).store
  }

  /** `POST /render/long`: schema check, then the existence check, then a
      queued job and an immediate 202. `jobId` stands for the fresh UUID,
      `rendered` for the outcome of the render. */
  function RenderLong(body: Schema.RawBody, stored: set<String>, jobId: String, now: String,
                      rendered: Result<String, String>, jobs: Jobs.Store): (o: RenderOutcome)
    ensures Schema.SafeParse(body).None? ==>
      o == RenderOutcome(Reply(400, InvalidBody), [], jobs)
    ensures Schema.SafeParse(body).Some? ==>
      var data := Schema.SafeParse(body).value;
      var missing := Missing(RequiredKeys(data), stored);
      && o.lookups == Lookups(RequiredKeys(data))
      && (missing != [] ==> o.reply == Reply(400, MissingObjects(missing)) && o.jobs == jobs)
      && (missing == [] ==> o.reply == Reply(202, Queued(jobId, data.runId)))
  {
    match Schema.SafeParse(body)
    case None => RenderOutcome(Reply(400, InvalidBody), [], jobs)
    case Some(data) =>
      var missing := Missing(RequiredKeys(data), stored);
      var lookups := Lookups(RequiredKeys(data));
      if missing != [] then RenderOutcome(Reply(400, MissingObjects(missing)), lookups, jobs)
      else RenderOutcome(Reply(202, Queued(jobId, data.runId)), lookups, LedgerAfter(jobId, data, now, rendered, jobs))
  }

  /** The background updates never land: whatever the render does, the ledger
      ends as `createJob` left it, so an accepted job stays `queued`. */
  lemma AcceptedJobStaysQueued(body: Schema.RawBody, stored: set<String>, jobId: String, now: String,
                               rendered: Result<String, String>, jobs: Jobs.Store)
    requires RenderLong(body, stored, jobId, now, rendered, jobs).reply.status == 202
    ensures var data := Schema.SafeParse(body).value;
      var o := RenderLong(body, stored, jobId, now, rendered, jobs);
      var c := Jobs.CreateJob(jobId, ToJobRequest(data), now, jobs);
      && o.jobs == c.store
      && (c.result.Ok? ==> Jobs.GetJob(jobId, Trim(data.runId), o.jobs).value.status == Jobs.Queued)
  {
    var data := Schema.SafeParse(body).value;
    var c := Jobs.CreateJob(jobId, ToJobRequest(data), now, jobs);
    Jobs.StatusOnlyPatchFails(jobId, Jobs.Running, None, None, now, c.store);
    match rendered
    case Ok(out) => Jobs.StatusOnlyPatchFails(jobId, Jobs.Done, Some(out), None, now, c.store);
    case Err(message) => Jobs.StatusOnlyPatchFails(jobId, Jobs.Error, None, Some(message), now, c.store);
    if c.result.Ok? {
      Jobs.CreateThenGet(jobId, ToJobRequest(data), now, jobs);
    }
  }

  /** A run id of whitespace passes the schema and gets a 202 with a job id,
      yet `createJob` refuses it and no job is ever recorded. */
  lemma BlankRunIdAcceptedButNotRecorded(body: Schema.RawBody, stored: set<String>, jobId: String, now: String,
                                         rendered: Result<String, String>, jobs: Jobs.Store)
    requires Schema.Conforms(body)
    requires Missing(RequiredKeys(Schema.SafeParse(body).value), stored) == []
    ensures var blank := body.(runId := Schema.Str(" \t"));
      var o := RenderLong(blank, stored, jobId, now, rendered, jobs);
      o.reply == Reply(202, Queued(jobId, " \t")) && o.jobs == jobs
  {
    var blank := body.(runId := Schema.Str(" \t"));
    var data := Schema.SafeParse(blank).value;
    assert RequiredKeys(data) == RequiredKeys(Schema.SafeParse(body).value);
    Jobs.CreateJobBlankRunId(jobId, ToJobRequest(data).fields, now, jobs);
    AcceptedJobStaysQueued(blank, stored, jobId, now, rendered, jobs);
  }
}
