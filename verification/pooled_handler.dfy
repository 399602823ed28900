/** The `/resize` handler that runs validation and processing as a job on the worker pool
    (`handlers/image`). The job is evaluated directly here; that the pool runs a submitted job
    exactly once before `Wait` returns is `WorkerPool.SubmitAllAndWait`. */
module PooledHandler {
  import opened Results
  import Cache
  import Pipeline
  import WorkerPool
  import opened Gateway
  import DirectHandler
  import Fmt

  datatype Config = Config(imageManager: Option<Pipeline.Manager>, workerPool: Option<WorkerPool.Pool<nat>>)

  datatype Handler = Handler(imageManager: Pipeline.Manager, workerPool: WorkerPool.Pool<nat>)

  /** `NewHandler`: a nil configuration, then a nil image manager, then a nil pool, is refused. */
  function NewHandler(cfg: Option<Config>): (r: Result<Handler>)
    ensures cfg.None? ==> r == Err("ImageHandler Config is nil!")
    ensures cfg.Some? && cfg.value.imageManager.None? ==> r == Err("cfg.ImageManager is nil!")
    ensures cfg.Some? && cfg.value.imageManager.Some? && cfg.value.workerPool.None? ==>
      r == Err("cfg.WorkerPool is nil!")
    ensures r.Ok? <==> cfg.Some? && cfg.value.imageManager.Some? && cfg.value.workerPool.Some?
  {
    match cfg
    case None => Err("ImageHandler Config is nil!")
    case Some(c) =>
      if c.imageManager.None? then Err("cfg.ImageManager is nil!")
      else if c.workerPool.None? then Err("cfg.WorkerPool is nil!")
      else Ok(Handler(c.imageManager.value, c.workerPool.value))
  }

  function Allowed(h: Handler, fx: Pipeline.Effects): string -> bool {
    u => Pipeline.IsURLAllowed(h.imageManager, fx, u)
  }

  /** What the job leaves behind in the variables it shares with the handler: the path and error
      it assigned, the headers it set, and whether it already answered 304. */
  datatype JobResult = JobResult(path: string, err: Option<string>, headers: map<string, string>, notModified: bool, fs: Cache.FileSystem)

  /** The submitted closure. A processing error is re-created with `fmt.Errorf(err.Error())`, which
      reads its text as a format string. A failing `os.Stat` assigns a new, shadowing `err`, so the
      shared error stays unset. */
  function RunJob(h: Handler, fx: Pipeline.Effects, disk: Pipeline.Disk, q: Query, ifNoneMatch: string, formatsEnv: string): (j: JobResult)
    ensures Validate(q, Allowed(h, fx), formatsEnv).Err? ==>
      j == JobResult("", Some(Validate(q, Allowed(h, fx), formatsEnv).msg), map[], false, disk.fs)
    ensures Validate(q, Allowed(h, fx), formatsEnv).Ok? ==>
      var req := Validate(q, Allowed(h, fx), formatsEnv).value;
      var run := Pipeline.ProcessImage(h.imageManager, fx, disk, req.url, req.width, req.height, req.format, req.quality);
      && j.path == run.path
      && (run.err.None? ==> j.err.None?)
      && (run.err.Some? ==> j.err == Some(Fmt.Errorf(run.err.value)))
      && (run.err.Some? && '%' !in run.err.value ==> j.err == run.err)
      && (run.err.None? ==> "Content-Type" in j.headers && j.headers["Content-Type"] == "image/" + req.format)
      && j.fs == (if run.err.None? then StatView(run.fs, run.path, disk.removedBeforeStat) else run.fs)
      && (j.notModified <==> run.err.None? && run.path in j.fs && ifNoneMatch == ETag(run.fs[run.path].mtime))
      && ("ETag" in j.headers <==> run.err.None? && run.path in j.fs && ifNoneMatch != ETag(run.fs[run.path].mtime))
  {
    match Validate(q, Allowed(h, fx), formatsEnv)
    case Err(e) => JobResult("", Some(e), map[], false, disk.fs)
    case Ok(req) =>
      var run := Pipeline.ProcessImage(h.imageManager, fx, disk, req.url, req.width, req.height, req.format, req.quality);
      if run.err.Some? then
        Fmt.PercentFreeUnchanged(run.err.value);
        JobResult(run.path, Some(Fmt.Errorf(run.err.value)), map[], false, run.fs)
      else
        var fs := StatView(run.fs, run.path, disk.removedBeforeStat);
        var headers := map["Content-Type" := ContentType(req.format)];
        if run.path !in fs then JobResult(run.path, None, headers, false, fs)
        else
          var tag := ETag(fs[run.path].mtime);
          if ifNoneMatch == tag then JobResult(run.path, None, headers, true, fs)
          else JobResult(run.path, None, headers["ETag" := tag], false, fs)
  }

  /** A response, the cache directory after it, and whether a job was submitted. */
  datatype Exchange = Exchange(response: Response, fs: Cache.FileSystem, submitted: bool)

  /** `HandleResize`: a missing url is answered at once; otherwise the job is submitted, awaited,
      and its shared variables turned into the response. */
  function HandleResize(h: Handler, fx: Pipeline.Effects, disk: Pipeline.Disk, q: Query, ifNoneMatch: string, formatsEnv: string): (r: Exchange)
    ensures QueryParam(q, "url") == "" ==> r == Exchange(ErrorResponse(MissingUrl), disk.fs, false)
    ensures QueryParam(q, "url") != "" ==> r.submitted
    ensures var j := RunJob(h, fx, disk, q, ifNoneMatch, formatsEnv);
      QueryParam(q, "url") != "" ==>
        && r.fs == j.fs
        && (j.err.Some? ==> r.response == Json(BadRequest, j.headers, JsonError(j.err.value)))
        && (j.err.None? && j.notModified ==> r.response == Json(NotModified, j.headers, JsonEmpty))
        && (j.err.None? && !j.notModified ==> r.response.body == FileBody(j.path) && r.response.headers == j.headers)
        && (j.err.None? && !j.notModified ==> (r.response.status == Ok200 <==> j.path in j.fs))
        && (j.err.None? && !j.notModified && j.path !in j.fs ==> r.response.status == NotFound)
  {
    if QueryParam(q, "url") == "" then Exchange(ErrorResponse(MissingUrl), disk.fs, false)
    else
      var j := RunJob(h, fx, disk, q, ifNoneMatch, formatsEnv);
      var response :=
        if j.err.Some? then Json(BadRequest, j.headers, JsonError(j.err.value))
        else if j.notModified then Json(NotModified, j.headers, JsonEmpty)
        else ServeFile(j.headers, j.path, j.fs);
      Exchange(response, j.fs, true)
  }

  /** The error text the pooled handler shows for a direct handler's response: the same response,
      with a JSON error re-read as a format string. */
  function PooledErrorText(r: Response): (p: Response)
    ensures p.status == r.status && p.headers == r.headers
    ensures r.body.JsonError? ==> p.body == JsonError(Fmt.Errorf(r.body.error))
    ensures !r.body.JsonError? ==> p.body == r.body
  {
    if r.body.JsonError? then r.(body := JsonError(Fmt.Errorf(r.body.error))) else r
  }

  /** Whether the request passes validation and then fails in `ProcessImage`: the one case where
      the two handlers' error texts can differ. */
  predicate ProcessingFails(h: Handler, fx: Pipeline.Effects, disk: Pipeline.Disk, q: Query, formatsEnv: string) {
    var v := Validate(q, Allowed(h, fx), formatsEnv);
    v.Ok? && Pipeline.ProcessImage(h.imageManager, fx, disk, v.value.url, v.value.width, v.value.height,
                                   v.value.format, v.value.quality).err.Some?
  }

  /** Unless another request removes the processed file before `os.Stat`, the pooled handler
      answers as the direct one: same messages in the same precedence, same defaults, same
      content type, tag and 304. The one difference is that a processing error is re-read by
      `fmt.Errorf`, which leaves a text without `%` unchanged. */
  lemma AgreesWithDirectHandler(h: Handler, fx: Pipeline.Effects, disk: Pipeline.Disk, q: Query, ifNoneMatch: string, formatsEnv: string)
    requires !disk.removedBeforeStat
    ensures var d := DirectHandler.HandleResize(DirectHandler.Handler(h.imageManager), fx, disk, q, ifNoneMatch, formatsEnv);
      var p := HandleResize(h, fx, disk, q, ifNoneMatch, formatsEnv);
      && p.fs == d.fs
      && (ProcessingFails(h, fx, disk, q, formatsEnv) ==> p.response == PooledErrorText(d.response))
      && (!ProcessingFails(h, fx, disk, q, formatsEnv) ==> p.response == d.response)
      && (d.response.body.JsonError? && '%' !in d.response.body.error ==> p.response == d.response)
  {
    assert Allowed(h, fx) == DirectHandler.Allowed(DirectHandler.Handler(h.imageManager), fx);
    var d := DirectHandler.HandleResize(DirectHandler.Handler(h.imageManager), fx, disk, q, ifNoneMatch, formatsEnv);
    if d.response.body.JsonError? {
      Fmt.PercentFreeUnchanged(d.response.body.error);
    }
  }

  /** When the processed file is removed before `os.Stat`, the shadowed error lets the pooled
      handler go on to `c.File`, which answers 404 without a tag, where the direct handler answers
      400 with the `os.Stat` error. */
  lemma RemovedFileReachesServeFile(h: Handler, fx: Pipeline.Effects, disk: Pipeline.Disk, q: Query, ifNoneMatch: string, formatsEnv: string, req: Request)
    requires disk.removedBeforeStat
    requires Validate(q, Allowed(h, fx), formatsEnv) == Ok(req)
    requires Pipeline.ProcessImage(h.imageManager, fx, disk, req.url, req.width, req.height, req.format, req.quality).err.None?
    ensures var run := Pipeline.ProcessImage(h.imageManager, fx, disk, req.url, req.width, req.height, req.format, req.quality);
      var d := DirectHandler.HandleResize(DirectHandler.Handler(h.imageManager), fx, disk, q, ifNoneMatch, formatsEnv);
      var p := HandleResize(h, fx, disk, q, ifNoneMatch, formatsEnv);
      && d.response.status == BadRequest && d.response.body == JsonError(StatNotFound(run.path))
      && p.response.status == NotFound && p.response.body == FileBody(run.path) && "ETag" !in p.response.headers
  {
    assert Allowed(h, fx) == DirectHandler.Allowed(DirectHandler.Handler(h.imageManager), fx);
  }
}
