/** The `/resize` handler that validates and processes on the request's own goroutine
    (`app/handlers/image`). */
module DirectHandler {
  import opened Results
  import Cache
  import Pipeline
  import opened Gateway

  datatype Config = Config(imageManager: Option<Pipeline.Manager>)

  datatype Handler = Handler(imageManager: Pipeline.Manager)

  /** `NewHandler`: a nil configuration, then a nil image manager, is refused. */
  function NewHandler(cfg: Option<Config>): (r: Result<Handler>)
    ensures cfg.None? ==> r == Err("ImageHandler Config is nil!")
    ensures cfg.Some? && cfg.value.imageManager.None? ==> r == Err("cfg.ImageManager is nil!")
    ensures r.Ok? <==> cfg.Some? && cfg.value.imageManager.Some?
    ensures r.Ok? ==> r.value.imageManager == cfg.value.imageManager.value
  {
    match cfg
    case None => Err("ImageHandler Config is nil!")
    case Some(c) =>
      if c.imageManager.None? then Err("cfg.ImageManager is nil!") else Ok(Handler(c.imageManager.value))
  }

  /** The allow-list the handler consults: the image manager's. */
  function Allowed(h: Handler, fx: Pipeline.Effects): string -> bool {
    u => Pipeline.IsURLAllowed(h.imageManager, fx, u)
  }

  /** A response and the cache directory after it. */
  datatype Exchange = Exchange(response: Response, fs: Cache.FileSystem)

  /** The answer to a request whose processing produced `run`: an error body, or the file with
      its content type and weak tag, or 304 when `If-None-Match` equals the tag. `removed` says
      whether the file was gone by the time of `os.Stat`. */
  function Respond(run: Pipeline.Run, format: string, ifNoneMatch: string, removed: bool): (r: Exchange)
    ensures run.err.Some? ==> r == Exchange(ErrorResponse(run.err.value), run.fs)
    ensures run.err.None? ==> r.fs == StatView(run.fs, run.path, removed)
    ensures run.err.None? ==>
      "Content-Type" in r.response.headers && r.response.headers["Content-Type"] == "image/" + format
    ensures run.err.None? && (removed || run.path !in run.fs) ==>
      (r.response.status == BadRequest && r.response.body == JsonError(StatNotFound(run.path))
       && "ETag" !in r.response.headers)
    ensures run.err.None? && !removed && run.path in run.fs ==>
      var tag := ETag(run.fs[run.path].mtime);
      && (r.response.status == NotModified <==> ifNoneMatch == tag)
      && (ifNoneMatch == tag ==> "ETag" !in r.response.headers && r.response.body == JsonEmpty)
      && (ifNoneMatch != tag ==> r.response.status == Ok200 && "ETag" in r.response.headers
                                 && r.response.headers["ETag"] == tag
                                 && r.response.body == FileBody(run.path))
    ensures r.response.status in {Ok200, NotModified, BadRequest}
  {
    if run.err.Some? then Exchange(ErrorResponse(run.err.value), run.fs)
    else
      var fs := StatView(run.fs, run.path, removed);
      var headers := map["Content-Type" := ContentType(format)];
      if run.path !in fs then Exchange(Json(BadRequest, headers, JsonError(StatNotFound(run.path))), fs)
      else
        var tag := ETag(fs[run.path].mtime);
        if ifNoneMatch == tag then Exchange(Json(NotModified, headers, JsonEmpty), fs)
        else Exchange(ServeFile(headers["ETag" := tag], run.path, fs), fs)
  }

  /** `HandleResize`: validation errors are answered before any processing and leave the cache
      untouched; otherwise the image manager runs on exactly the validated values and its result is
      answered by `Respond`. */
  function HandleResize(h: Handler, fx: Pipeline.Effects, disk: Pipeline.Disk, q: Query, ifNoneMatch: string, formatsEnv: string): (r: Exchange)
    ensures Validate(q, Allowed(h, fx), formatsEnv).Err? ==>
      r == Exchange(ErrorResponse(Validate(q, Allowed(h, fx), formatsEnv).msg), disk.fs)
    ensures Validate(q, Allowed(h, fx), formatsEnv).Ok? ==>
      var req := Validate(q, Allowed(h, fx), formatsEnv).value;
      r == Respond(Pipeline.ProcessImage(h.imageManager, fx, disk, req.url, req.width, req.height, req.format, req.quality),
                   req.format, ifNoneMatch, disk.removedBeforeStat)
  {
    match Validate(q, Allowed(h, fx), formatsEnv)
    case Err(e) => Exchange(ErrorResponse(e), disk.fs)
    case Ok(req) =>
      var run := Pipeline.ProcessImage(h.imageManager, fx, disk, req.url, req.width, req.height, req.format, req.quality);
      Respond(run, req.format, ifNoneMatch, disk.removedBeforeStat)
  }

  /** Conditional GET: a request whose processing succeeds is answered 200 with a tag; repeating
      it with `If-None-Match` set to that tag, while the cached file is still fresh, yields 304. */
  lemma ConditionalGetAfterSuccess(h: Handler, fx: Pipeline.Effects, disk1: Pipeline.Disk, disk2: Pipeline.Disk, q: Query, formatsEnv: string, req: Request)
    requires Validate(q, Allowed(h, fx), formatsEnv) == Ok(req)
    requires !disk1.removedBeforeStat && !disk2.removedBeforeStat
    requires var run := Pipeline.ProcessImage(h.imageManager, fx, disk1, req.url, req.width, req.height, req.format, req.quality);
      run.err.None? && disk2.fs == run.fs
      && disk2.now - run.fs[run.path].mtime <= h.imageManager.cache.maxAge
    ensures var r1 := HandleResize(h, fx, disk1, q, "", formatsEnv);
      r1.response.status == Ok200 && "ETag" in r1.response.headers
      && HandleResize(h, fx, disk2, q, r1.response.headers["ETag"], formatsEnv).response.status == NotModified
  {
    var m := h.imageManager;
    var key := Pipeline.CacheKey(fx, req.url, req.width, req.height, req.format);
    var run1 := Pipeline.ProcessImage(m, fx, disk1, req.url, req.width, req.height, req.format, req.quality);
    assert run1.path == Cache.GetPath(m.cache, key, req.format);
    var tag := ETag(run1.fs[run1.path].mtime);
    assert tag[0] == 'W';
    var r1 := HandleResize(h, fx, disk1, q, "", formatsEnv);
    assert r1 == Respond(run1, req.format, "", false);
    var run2 := Pipeline.ProcessImage(m, fx, disk2, req.url, req.width, req.height, req.format, req.quality);
    assert run2.path == run1.path && run2.fs == run1.fs;
  }
}
