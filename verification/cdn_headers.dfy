/** The header middleware: after the route's handler has run, add the browser/CDN caching and
    security headers, plus CORS for image responses. */
module CdnHeaders {
  import Text
  import Gateway
  import Pipeline
  import DirectHandler

  const CacheControl: string := "Cache-Control"
  const CdnCacheControl: string := "CDN-Cache-Control"
  const Vary: string := "Vary"
  const ContentTypeOptions: string := "X-Content-Type-Options"
  const AllowOrigin: string := "Access-Control-Allow-Origin"

  /** The four headers every response gets. */
  const BaseHeaders: map<string, string> := map[
    CacheControl := "public, max-age=31536000, immutable",
    CdnCacheControl := "max-age=31536000",
    Vary := "Accept-Encoding",
    ContentTypeOptions := "nosniff"]

  /** `getCdnHeaders`, given the `Content-Type` the handler set (`""` when none). */
  function GetCdnHeaders(contentType: string): (h: map<string, string>)
    ensures h.Keys == BaseHeaders.Keys + (if Text.HasPrefix(contentType, "image/") then {AllowOrigin} else {})
    ensures forall k :: k in BaseHeaders ==> h[k] == BaseHeaders[k]
    ensures AllowOrigin in h <==> Text.HasPrefix(contentType, "image/")
    ensures AllowOrigin in h ==> h[AllowOrigin] == "*"
    ensures |h| == (if Text.HasPrefix(contentType, "image/") then 5 else 4)
  {
    BaseHeadersSize();
    if Text.HasPrefix(contentType, "image/") then BaseHeaders[AllowOrigin := "*"] else BaseHeaders
  }

  lemma BaseHeadersSize()
    ensures |BaseHeaders| == 4 && AllowOrigin !in BaseHeaders
  {
    assert BaseHeaders.Keys == {CacheControl, CdnCacheControl, Vary, ContentTypeOptions};
  }

  /** `Headers()`: the downstream handler runs first; the CDN headers, computed from the content type
      it set, are then written over its headers. */
  function ApplyHeaders(downstream: map<string, string>): (r: map<string, string>)
    ensures var cdn := GetCdnHeaders(if "Content-Type" in downstream then downstream["Content-Type"] else "");
      && r.Keys == downstream.Keys + cdn.Keys
      && (forall k :: k in cdn ==> r[k] == cdn[k])
      && (forall k :: k in downstream && k !in cdn ==> r[k] == downstream[k])
  {
    downstream + GetCdnHeaders(if "Content-Type" in downstream then downstream["Content-Type"] else "")
  }

  /** Every response of the direct handler on which processing succeeded, including 304 and the
      failed `os.Stat`, carries CORS once the middleware has run. */
  lemma ProcessedResponsesAllowAnyOrigin(run: Pipeline.Run, format: string, ifNoneMatch: string, removed: bool)
    requires run.err.None?
    ensures var r := ApplyHeaders(DirectHandler.Respond(run, format, ifNoneMatch, removed).response.headers);
      AllowOrigin in r && r[AllowOrigin] == "*"
  {
    var h := DirectHandler.Respond(run, format, ifNoneMatch, removed).response.headers;
    assert Text.HasPrefix(h["Content-Type"], "image/");
  }

  /** A validation error carries gin's JSON content type, so the middleware adds the four base
      headers and no CORS header. */
  lemma ErrorResponsesGetNoCors(msg: string)
    ensures var r := ApplyHeaders(Gateway.ErrorResponse(msg).headers);
      && r == BaseHeaders["Content-Type" := Gateway.JsonContentType]
      && AllowOrigin !in r
  {
    var ct := Gateway.JsonContentType;
    assert ct[..6][0] == 'a' && "image/"[0] == 'i';
    assert !Text.HasPrefix(ct, "image/");
    var h := Gateway.ErrorResponse(msg).headers;
    assert h == map["Content-Type" := ct];
    var cdn := GetCdnHeaders(ct);
    assert cdn == BaseHeaders;
    assert "Content-Type" !in BaseHeaders;
    assert ApplyHeaders(h) == h + BaseHeaders;
  }
}
