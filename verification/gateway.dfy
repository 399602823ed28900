/** What both `/resize` handlers share: the query, the validation chain with its fixed error
    precedence and defaults, the content type and the weak ETag. */
module Gateway {
  import opened Results
  import Text
  import Decimal
  import Cache
  import Pipeline

  /** The URL query, first value per key. */
  type Query = map<string, string>

  /** `c.Query(key)`: the value, or `""` when absent. */
  function QueryParam(q: Query, key: string): string {
    if key in q then q[key] else ""
  }

  /** `c.DefaultQuery(key, d)`: the value when the key is present, even if empty, else `d`. */
  function DefaultQuery(q: Query, key: string, d: string): string {
    if key in q then q[key] else d
  }

  const BadRequest: int := 400
  const NotModified: int := 304
  const Ok200: int := 200
  const NotFound: int := 404

  const MissingUrl: string := "Missing URL parameter"
  const InvalidDomain: string := "Invalid URL domain"
  const DimensionMissing: string := "At least one of width or height must be specified"
  const DimensionRange: string := "Dimensions must be in the range 1-2000"
  const FormatInvalid: string := "Format must be one of jpeg, png, webp"
  const QualityRange: string := "Quality must be between 1 and 100"

  const MaxDimension: int := 2000

  /** A resize request as the handlers hand it to `ProcessImage`. */
  datatype Request = Request(url: string, width: int, height: int, format: string, quality: int)

  /** The parameters as parsed: width and height are `Atoi` of the parameter, 0 when it is
      absent; text `Atoi` rejects gives 0, except that an overflowing leading digit run clamps to
      the 64-bit bound of its sign. The format defaults to `jpeg` and the quality to 85, only when
      absent. */
  function ParseRequest(q: Query): (r: Request)
    ensures r.url == QueryParam(q, "url")
    ensures r.width == Decimal.Atoi(QueryParam(q, "width"))
    ensures r.height == Decimal.Atoi(QueryParam(q, "height"))
    ensures "format" !in q ==> r.format == "jpeg"
    ensures "format" in q ==> r.format == q["format"]
    ensures "quality" !in q ==> r.quality == Pipeline.DefaultQualityPercent
    ensures "quality" in q ==> r.quality == Decimal.Atoi(q["quality"])
  {
    var quality := Decimal.Atoi(DefaultQuery(q, "quality", Decimal.IntToString(Pipeline.DefaultQualityPercent)));
    Decimal.AtoiIntToString(Pipeline.DefaultQualityPercent);
    Request(QueryParam(q, "url"),
            Decimal.Atoi(QueryParam(q, "width")),
            Decimal.Atoi(QueryParam(q, "height")),
            DefaultQuery(q, "format", "jpeg"),
            quality)
  }

  /** `validFormats()`: the `VALID_FORMATS` environment variable split at commas. */
  function ValidFormats(env: string): seq<string> {
    Text.Split(env, ',')
  }

  lemma ValidFormatsExample()
    ensures ValidFormats("jpeg,png,webp") == ["jpeg", "png", "webp"]
  {
    Text.SplitJoin(["jpeg", "png", "webp"], ',');
    assert Text.Join(["jpeg", "png", "webp"], ',') == "jpeg,png,webp";
  }

  /** With `VALID_FORMATS` unset the list is `[""]`: only an explicitly empty `format=` passes. */
  lemma UnsetValidFormats()
    ensures ValidFormats("") == [""]
  {
  }

  /** The numeric and format checks, in the handlers' order; `None` when all pass. */
  function CheckParameters(r: Request, formats: seq<string>): Option<string> {
    if r.width <= 0 && r.height <= 0 then Some(DimensionMissing)
    else if (r.width > 0 && r.width > MaxDimension) || (r.height > 0 && r.height > MaxDimension) then Some(DimensionRange)
    else if r.format !in formats then Some(FormatInvalid)
    else if r.quality < 1 || r.quality > 100 then Some(QualityRange)
    else None
  }

  /** The validation chain: url present, then the allow-list, then the dimensions, their range, the
      format and the quality. Each message is returned exactly when its check is the first to fail. */
  function Validate(q: Query, isAllowed: string -> bool, formatsEnv: string): (r: Result<Request>)
    ensures var p := ParseRequest(q);
      var fs := ValidFormats(formatsEnv);
      && (r == Err(MissingUrl) <==> p.url == "")
      && (r == Err(InvalidDomain) <==> p.url != "" && !isAllowed(p.url))
      && (r == Err(DimensionMissing) <==> p.url != "" && isAllowed(p.url) && p.width <= 0 && p.height <= 0)
      && (r == Err(DimensionRange) <==> p.url != "" && isAllowed(p.url) && (p.width > 0 || p.height > 0)
                                         && (p.width > MaxDimension || p.height > MaxDimension))
      && (r == Err(FormatInvalid) <==> p.url != "" && isAllowed(p.url) && (p.width > 0 || p.height > 0)
                                        && p.width <= MaxDimension && p.height <= MaxDimension && p.format !in fs)
      && (r == Err(QualityRange) <==> p.url != "" && isAllowed(p.url) && (p.width > 0 || p.height > 0)
                                       && p.width <= MaxDimension && p.height <= MaxDimension && p.format in fs
                                       && !(1 <= p.quality <= 100))
      && (r.Ok? <==> p.url != "" && isAllowed(p.url) && (p.width > 0 || p.height > 0)
                     && p.width <= MaxDimension && p.height <= MaxDimension && p.format in fs
                     && 1 <= p.quality <= 100)
      && (r.Ok? ==> r.value == p)
  {
    var p := ParseRequest(q);
    if p.url == "" then Err(MissingUrl)
    else if !isAllowed(p.url) then Err(InvalidDomain)
    else match CheckParameters(p, ValidFormats(formatsEnv))
      case Some(e) => Err(e)
      case None => Ok(p)
  }

  /** A negative dimension next to a positive one is accepted. */
  lemma NegativeBesidePositiveAccepted(q: Query, isAllowed: string -> bool)
    requires ParseRequest(q) == Request("u", -5, 10, "jpeg", 85)
    requires isAllowed("u")
    ensures Validate(q, isAllowed, "jpeg,png,webp") == Ok(Request("u", -5, 10, "jpeg", 85))
  {
    var fs := ValidFormats("jpeg,png,webp");
    ValidFormatsExample();
    assert "jpeg" in fs;
    assert CheckParameters(ParseRequest(q), fs).None?;
    assert Validate(q, isAllowed, "jpeg,png,webp") == Ok(ParseRequest(q));
  }

  /** A query naming only url, width and height parses with the defaults. */
  lemma DefaultsExample(q: Query)
    requires q.Keys == {"url", "width", "height"}
    requires q["width"] == "100" && q["height"] == "100"
    ensures ParseRequest(q) == Request(q["url"], 100, 100, "jpeg", 85)
  {
    Decimal.AtoiIntToString(100);
    assert QueryParam(q, "width") == Decimal.IntToString(100);
    assert QueryParam(q, "height") == Decimal.IntToString(100);
  }

  /** The `Content-Type` of a served image. */
  function ContentType(format: string): (ct: string)
    ensures ct == "image/" + format
    ensures Text.HasPrefix(ct, "image/")
  {
    if format == "jpeg" then "image/jpeg" else "image/" + format
  }

  /** The weak entity tag `W/"<unix mtime>"`. */
  function ETag(mtime: int): (tag: string)
    ensures Text.HasPrefix(tag, "W/\"") && tag[|tag| - 1] == '"' && |tag| >= 4
    ensures Decimal.MinInt64 <= mtime <= Decimal.MaxInt64 ==> Decimal.Atoi(tag[3..|tag| - 1]) == mtime
  {
    var digits := Decimal.IntToString(mtime);
    var tag := "W/\"" + digits + "\"";
    assert tag[3..|tag| - 1] == digits;
    if Decimal.MinInt64 <= mtime <= Decimal.MaxInt64 then
      Decimal.AtoiIntToString(mtime);
      tag
    else tag
  }

  /** Different modification times give different tags. */
  lemma ETagInjective(a: int, b: int)
    requires ETag(a) == ETag(b)
    ensures a == b
  {
    var sa, sb := Decimal.IntToString(a), Decimal.IntToString(b);
    assert sa == ETag(a)[3..|ETag(a)| - 1];
    assert sb == ETag(b)[3..|ETag(b)| - 1];
    Decimal.IntToStringInjective(a, b);
  }

  /** The cache directory as the handler's `os.Stat` sees it: `path` is gone when another request
      removed it after processing; nothing else differs. */
  function StatView(fs: Cache.FileSystem, path: string, removed: bool): (v: Cache.FileSystem)
    ensures path in v <==> path in fs && !removed
    ensures path in v ==> v[path] == fs[path]
    ensures v.Keys <= fs.Keys
    ensures forall p :: p in fs && p != path ==> p in v && v[p] == fs[p]
  {
    if removed then fs - {path} else fs
  }

  /** The text of `os.Stat`'s error for a missing file. */
  function StatNotFound(path: string): string {
    "stat " + path + ": no such file or directory"
  }

  /** A response body: a JSON error object, the empty JSON object, or `c.File(path)`, which
      `http.ServeFile` answers with the file's contents. */
  datatype Body = JsonError(error: string) | JsonEmpty | FileBody(path: string)

  /** An HTTP response: status, headers the handler set, body. */
  datatype Response = Response(status: int, headers: map<string, string>, body: Body)

  const JsonContentType: string := "application/json; charset=utf-8"

  /** `c.JSON(status, body)`: gin writes the JSON content type only when the handler has not set
      one already. */
  function Json(status: int, headers: map<string, string>, body: Body): (r: Response)
    ensures r.status == status && r.body == body
    ensures "Content-Type" in r.headers && r.headers.Keys == headers.Keys + {"Content-Type"}
    ensures "Content-Type" in headers ==> r.headers == headers
    ensures "Content-Type" !in headers ==> r.headers["Content-Type"] == JsonContentType
    ensures forall k :: k in headers && k != "Content-Type" ==> r.headers[k] == headers[k]
  {
    if "Content-Type" in headers then Response(status, headers, body)
    else Response(status, headers["Content-Type" := JsonContentType], body)
  }

  /** A validation or processing error, answered before any header was set. */
  function ErrorResponse(msg: string): (r: Response)
    ensures r.status == BadRequest && r.body == JsonError(msg)
    ensures r.headers == map["Content-Type" := JsonContentType]
  {
    Json(BadRequest, map[], JsonError(msg))
  }

  /** What `c.File(path)` answers: the file with 200 while it exists, otherwise 404. */
  function ServeFile(headers: map<string, string>, path: string, fs: Cache.FileSystem): (r: Response)
    ensures r.body == FileBody(path) && r.headers == headers
    ensures r.status == Ok200 <==> path in fs
    ensures r.status == NotFound <==> path !in fs
  {
    Response(if path in fs then Ok200 else NotFound, headers, FileBody(path))
  }
}
