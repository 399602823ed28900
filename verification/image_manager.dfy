/** The image pipeline (`ImageManager`): allow-list, cache key, read-through cache, fetch, decode,
    resize, encode and write-through. HTTP, the codecs, the resampler, md5 and `url.Parse` are the
    uninterpreted functions of `Effects`. */
module Pipeline {
  import opened Results
  import Text
  import Decimal
  import Cache

  const DefaultQualityPercent: int := 85

  /** A picture as the resampler and encoders see it; only its size is observed. */
  datatype Picture = Picture(width: int, height: int, pixels: nat)

  /** A decoded image. The decoders never produce an empty image, so its aspect ratio is finite. */
  type Image = p: Picture | p.width > 0 && p.height > 0 witness Picture(1, 1, 0)

  /** The foreign operations the pipeline calls. Each fallible one returns its error text. */
  datatype Effects = Effects(
    parseHost: string -> Result<string>,           // `url.Parse(u)` then `.Host`
    fetch: string -> Result<Cache.Bytes>,           // `http.Get(u)` and its body
    decode: Cache.Bytes -> Result<Image>,           // `image.Decode`
    resize: (nat, nat, Image) -> Picture,           // `resize.Resize(w, h, img, resize.Lanczos3)`
    encodeJpeg: (Picture, int) -> Result<Cache.Bytes>,
    encodePng: Picture -> Result<Cache.Bytes>,
    encodeWebp: (Picture, int) -> Result<Cache.Bytes>,
    md5Hex: string -> string)                        // `fmt.Sprintf("%x", md5.Sum(...))`

  datatype Config = Config(allowedDomains: Option<seq<string>>, cacheManager: Option<Cache.Manager>)

  datatype Manager = Manager(allowedDomains: seq<string>, cache: Cache.Manager)

  /** `NewManager`: checks the configuration, then the domain list, then the cache manager. */
  function NewManager(cfg: Option<Config>): (r: Result<Manager>)
    ensures cfg.None? ==> r == Err("ImageManager Config is nil!")
    ensures cfg.Some? && cfg.value.allowedDomains.None? ==> r == Err("cfg.AllowedDomains is nil!")
    ensures cfg.Some? && cfg.value.allowedDomains.Some? && cfg.value.cacheManager.None? ==>
      r == Err("cfg.CacheManager is nil!")
    ensures r.Ok? <==> cfg.Some? && cfg.value.allowedDomains.Some? && cfg.value.cacheManager.Some?
    ensures r.Ok? ==> r.value == Manager(cfg.value.allowedDomains.value, cfg.value.cacheManager.value)
  {
    match cfg
    case None => Err("ImageManager Config is nil!")
    case Some(c) =>
      if c.allowedDomains.None? then Err("cfg.AllowedDomains is nil!")
      else if c.cacheManager.None? then Err("cfg.CacheManager is nil!")
      else Ok(Manager(c.allowedDomains.value, c.cacheManager.value))
  }

  /** Some entry of `domains`, scanned from index `i`, is a substring of `host`. */
  function AnyContainedFrom(host: string, domains: seq<string>, i: nat): (r: bool)
    requires i <= |domains|
    ensures r <==> exists k :: i <= k < |domains| && Text.IsSubstring(domains[k], host)
    decreases |domains| - i
  {
    if i == |domains| then false
    else if Text.Contains(host, domains[i]) then true
    else AnyContainedFrom(host, domains, i + 1)
  }

  /** `IsURLAllowed`: the lower-cased host contains some allowed entry as a substring. A URL that
      does not parse is refused. */
  function IsURLAllowed(m: Manager, fx: Effects, url: string): (r: bool)
    ensures fx.parseHost(url).Err? ==> !r
    ensures fx.parseHost(url).Ok? ==>
      (r <==> exists d :: d in m.allowedDomains && Text.IsSubstring(d, Text.ToLower(fx.parseHost(url).value)))
  {
    match fx.parseHost(url)
    case Err(_) => false
    case Ok(host) => AnyContainedFrom(Text.ToLower(host), m.allowedDomains, 0)
  }

  /** An empty host (what `url.Parse` gives for a bare word such as `not-a-url`) passes only if
      the list holds the empty string. */
  lemma EmptyHostRejected(m: Manager, fx: Effects, url: string)
    requires fx.parseHost(url) == Ok("")
    ensures IsURLAllowed(m, fx, url) <==> "" in m.allowedDomains
  {
    if "" in m.allowedDomains {
      assert Text.OccursAt("", "", 0);
    }
  }

  /** The allow-list is a substring test, not a suffix test: `evilimgur.com.attacker.net` passes
      a list holding `imgur.com`. */
  lemma AllowListIsSubstringMatch(m: Manager, fx: Effects, url: string)
    requires "imgur.com" in m.allowedDomains
    requires fx.parseHost(url) == Ok("evilimgur.com.attacker.net")
    ensures IsURLAllowed(m, fx, url)
  {
    var host := Text.ToLower("evilimgur.com.attacker.net");
    assert host == "evilimgur.com.attacker.net";
    assert forall k :: 0 <= k < 9 ==> host[4 + k] == "imgur.com"[k];
    assert host[4..13] == "imgur.com";
    assert Text.OccursAt("imgur.com", host, 4);
  }

  /** The string hashed into a cache key: `<url>_<width>_<height>_<format>`. */
  function KeyPreimage(url: string, width: int, height: int, format: string): string {
    url + "_" + Decimal.IntToString(width) + "_" + Decimal.IntToString(height) + "_" + format
  }

  /** `generateCacheKey`. The quality is not an argument. */
  function CacheKey(fx: Effects, url: string, width: int, height: int, format: string): string {
    fx.md5Hex(KeyPreimage(url, width, height, format))
  }

  /** In `a + "_" + b` with an underscore-free `b`, the underscore at `|a|` is the last one. */
  lemma LastUnderscoreAt(a: string, b: string)
    requires '_' !in b
    ensures (a + "_" + b)[|a|] == '_'
    ensures forall k :: |a| < k < |a| + 1 + |b| ==> (a + "_" + b)[k] != '_'
  {
    var s := a + "_" + b;
    forall k | |a| < k < |s|
      ensures s[k] != '_'
    {
      assert s[k] == b[k - |a| - 1];
    }
  }

  /** Splitting at the last underscore: equal strings that end in `_` plus an underscore-free tail
      have equal heads and tails. */
  lemma SplitAtLastUnderscore(a: string, b: string, c: string, d: string)
    requires '_' !in b && '_' !in d
    requires a + "_" + b == c + "_" + d
    ensures a == c && b == d
  {
    var s := a + "_" + b;
    LastUnderscoreAt(a, b);
    LastUnderscoreAt(c, d);
    assert |a| == |c|;
    assert a == s[..|a|];
    assert c == s[..|c|];
    assert b == s[|a| + 1..];
    assert d == s[|c| + 1..];
  }

  lemma IntToStringHasNoUnderscore(i: int)
    ensures '_' !in Decimal.IntToString(i)
  {
  }

  /** For underscore-free formats (every valid one) the pre-image determines the request: two
      requests share a pre-image only if url, width, height and format all agree. Equal requests
      get equal keys; md5 collisions are outside the model. */
  lemma KeyPreimageInjective(u1: string, w1: int, h1: int, f1: string, u2: string, w2: int, h2: int, f2: string)
    requires '_' !in f1 && '_' !in f2
    requires KeyPreimage(u1, w1, h1, f1) == KeyPreimage(u2, w2, h2, f2)
    ensures u1 == u2 && w1 == w2 && h1 == h2 && f1 == f2
  {
    var sw1, sh1 := Decimal.IntToString(w1), Decimal.IntToString(h1);
    var sw2, sh2 := Decimal.IntToString(w2), Decimal.IntToString(h2);
    IntToStringHasNoUnderscore(w1);
    IntToStringHasNoUnderscore(h1);
    IntToStringHasNoUnderscore(w2);
    IntToStringHasNoUnderscore(h2);
    SplitAtLastUnderscore(u1 + "_" + sw1 + "_" + sh1, f1, u2 + "_" + sw2 + "_" + sh2, f2);
    SplitAtLastUnderscore(u1 + "_" + sw1, sh1, u2 + "_" + sw2, sh2);
    SplitAtLastUnderscore(u1, sw1, u2, sw2);
    Decimal.IntToStringInjective(w1, w2);
    Decimal.IntToStringInjective(h1, h2);
  }

  /** With an underscore in the format the pre-image is ambiguous: two different requests share it. */
  lemma KeyPreimageCollision()
    ensures KeyPreimage("x", 1, 2, "3_jpeg") == KeyPreimage("x_1", 2, 3, "jpeg")
  {
  }

  /** `calculateDimensions` with aspect ratio `ar = origW / origH`: a missing width becomes
      `floor(height / ar)`, a missing height becomes `floor(width * ar)`, all else is unchanged.
      For positive operands these floors are the integer quotients computed below. */
  function CalculateDimensions(img: Image, width: int, height: int): (r: (int, int))
    ensures width == 0 && height > 0 ==>
      r.1 == height && r.0 >= 0 && r.0 * img.width <= height * img.height < (r.0 + 1) * img.width
    ensures !(width == 0 && height > 0) && height == 0 && width > 0 ==>
      r.0 == width && r.1 >= 0 && r.1 * img.height <= width * img.width < (r.1 + 1) * img.height
    ensures !(width == 0 && height > 0) && !(height == 0 && width > 0) ==> r == (width, height)
  {
    if width == 0 && height > 0 then
      FloorQuotient(height * img.height, img.width);
      (height * img.height / img.width, height)
    else if height == 0 && width > 0 then
      FloorQuotient(width * img.width, img.height);
      (width, width * img.width / img.height)
    else (width, height)
  }

  /** Integer division of a natural number is the floor of the quotient. */
  lemma FloorQuotient(n: nat, d: int)
    requires 0 < d
    ensures 0 <= n / d && (n / d) * d <= n < (n / d + 1) * d
  {
    assert n == (n / d) * d + n % d;
  }

  /** A 200x100 image with width 0 and height 50 gives 25x50: the code divides the height by the
      aspect ratio, so a wide image yields a narrower result, not 100x50. */
  lemma DividesByAspectRatio()
    ensures CalculateDimensions(Picture(200, 100, 0), 0, 50) == (25, 50)
  {
  }

  /** Go's `uint(x)` on a 64-bit `int`: negative values wrap around. */
  function ToUint(x: int): (r: nat)
    ensures r < 0x1_0000_0000_0000_0000
    ensures 0 <= x < 0x1_0000_0000_0000_0000 ==> r == x
    ensures -0x1_0000_0000_0000_0000 <= x < 0 ==> r == x + 0x1_0000_0000_0000_0000
  {
    x % 0x1_0000_0000_0000_0000
  }

  /** The output formats `ProcessImage` can encode. */
  predicate IsSupported(format: string) {
    format == "jpeg" || format == "png" || format == "webp"
  }

  /** The format switch: each encoder's error is prefixed with its name; any other format is
      refused. PNG is lossless and ignores the quality. */
  function Encode(fx: Effects, format: string, pic: Picture, quality: int): (r: Result<Cache.Bytes>)
    ensures !IsSupported(format) ==> r == Err("unsupported output format: " + format)
    ensures format == "jpeg" ==>
      r == (match fx.encodeJpeg(pic, quality)
            case Ok(b) => Ok(b)
            case Err(e) => Err("jpeg.Encode: " + e))
    ensures format == "png" ==>
      r == (match fx.encodePng(pic)
            case Ok(b) => Ok(b)
            case Err(e) => Err("png.Encode: " + e))
    ensures format == "webp" ==>
      r == (match fx.encodeWebp(pic, quality)
            case Ok(b) => Ok(b)
            case Err(e) => Err("webp.Encode: " + e))
    ensures r.Ok? ==> IsSupported(format)
    ensures IsSupported(format) && r.Err? ==> Text.HasPrefix(r.msg, format + ".Encode: ")
  {
    match format
    case "jpeg" =>
      (match fx.encodeJpeg(pic, quality)
       case Ok(b) => Ok(b)
       case Err(e) => Err("jpeg.Encode: " + e))
    case "png" =>
      (match fx.encodePng(pic)
       case Ok(b) => Ok(b)
       case Err(e) => Err("png.Encode: " + e))
    case "webp" =>
      (match fx.encodeWebp(pic, quality)
       case Ok(b) => Ok(b)
       case Err(e) => Err("webp.Encode: " + e))
    case _ => Err("unsupported output format: " + format)
  }

  /** PNG is lossless: the quality never reaches its encoder, so two qualities give the same
      bytes or the same error. */
  lemma PngIgnoresQuality(fx: Effects, pic: Picture, q1: int, q2: int)
    ensures Encode(fx, "png", pic, q1) == Encode(fx, "png", pic, q2)
  {
  }

  /** A lossy encoder, by contrast, may receive different qualities: jpeg passes the quality
      through, so two qualities with different jpeg outputs give different results. */
  lemma JpegUsesQuality(fx: Effects, pic: Picture, q1: int, q2: int)
    requires fx.encodeJpeg(pic, q1).Ok? && fx.encodeJpeg(pic, q2).Ok?
    requires fx.encodeJpeg(pic, q1).value != fx.encodeJpeg(pic, q2).value
    ensures Encode(fx, "jpeg", pic, q1) != Encode(fx, "jpeg", pic, q2)
  {
  }

  /** The size handed to the resampler for a request of `width` x `height`: as written, the
      request is passed to `calculateDimensions` as `(height, width)` and converted with `uint`. */
  function ResizeTarget(img: Image, width: int, height: int): (nat, nat) {
    var dims := CalculateDimensions(img, height, width);
    (ToUint(dims.0), ToUint(dims.1))
  }

  /** With both dimensions requested, the resampler receives them transposed. */
  lemma ResizeTargetTransposes(img: Image, width: int, height: int)
    requires 0 < width < 0x1_0000_0000_0000_0000 && 0 < height < 0x1_0000_0000_0000_0000
    ensures ResizeTarget(img, width, height) == (height, width)
  {
  }

  /** A 200x100 image requested at width 0, height 50 is resized to 50 wide and 100 high. */
  lemma ResizeTargetExample()
    ensures ResizeTarget(Picture(200, 100, 0), 0, 50) == (50, 100)
  {
  }

  /** A negative dimension beside a positive one reaches the resampler wrapped to a huge `uint`. */
  lemma ResizeTargetWrapsNegative(img: Image)
    ensures ResizeTarget(img, -5, 10) == (10, 0x1_0000_0000_0000_0000 - 5)
  {
  }

  /** The external calls a run made, in order. */
  datatype Call = CacheGet | HttpGet | ImageDecode | Resample | ImageEncode | CacheSet

  /** The environment of a request: the cache directory, the clock, the outcomes of the two
      file-system calls that can fail, and whether another request removes the cached file after
      `ProcessImage` returns and before the handler's `os.Stat` (the handlers' concern only). */
  datatype Disk = Disk(fs: Cache.FileSystem, now: int, removeFails: bool, writeErr: Option<string>, removedBeforeStat: bool)

  /** What `ProcessImage` returns (`path`, `err`), the cache directory afterwards, the calls made
      and the size passed to the resampler, if it was called. */
  datatype Run = Run(path: string, err: Option<string>, fs: Cache.FileSystem, calls: seq<Call>, resizedTo: Option<(nat, nat)>)

  /** `ProcessImage`, as written: no allow-list check of its own, the resize target of
      `ResizeTarget`, and the result of `Set` returned unchanged. */
  function ProcessImage(m: Manager, fx: Effects, disk: Disk, url: string, width: int, height: int, format: string, quality: int): (r: Run)
    ensures |r.calls| >= 1 && r.calls[0] == CacheGet
    ensures r.err.None? ==> r.path != "" && r.path in r.fs
    ensures r.resizedTo.Some? <==> Resample in r.calls
    ensures var key := CacheKey(fx, url, width, height, format);
      var hit := Cache.Get(m.cache, disk.fs, key, format, disk.now, disk.removeFails);
      && (hit.path != "" ==> r == Run(hit.path, None, disk.fs, [CacheGet], None))
      && (hit.path == "" && r.err.None? ==>
            r.path == Cache.GetPath(m.cache, key, format) && r.calls[|r.calls| - 1] == CacheSet)
      && (CacheSet in r.calls ==> r.calls == [CacheGet, HttpGet, ImageDecode, Resample, ImageEncode, CacheSet])
    ensures !IsSupported(format) ==> CacheSet !in r.calls && ImageEncode !in r.calls
    ensures var hit := Cache.Get(m.cache, disk.fs, CacheKey(fx, url, width, height, format), format, disk.now, disk.removeFails);
      hit.path == "" ==>
        && (fx.fetch(url).Err? ==> r == Run("", Some(fx.fetch(url).msg), hit.fs, [CacheGet, HttpGet], None))
        && (fx.fetch(url).Ok? && fx.decode(fx.fetch(url).value).Err? ==>
              r == Run("", Some(fx.decode(fx.fetch(url).value).msg), hit.fs, [CacheGet, HttpGet, ImageDecode], None))
        && (r.err.Some? && CacheSet !in r.calls ==> r.path == "" && r.fs == hit.fs)
    ensures var hit := Cache.Get(m.cache, disk.fs, CacheKey(fx, url, width, height, format), format, disk.now, disk.removeFails);
      hit.path == "" && fx.fetch(url).Ok? && fx.decode(fx.fetch(url).value).Ok? ==>
        var img := fx.decode(fx.fetch(url).value).value;
        var t := ResizeTarget(img, width, height);
        var enc := Encode(fx, format, fx.resize(t.0, t.1, img), quality);
        enc.Err? ==> r.path == "" && r.err == Some(enc.msg) && r.fs == hit.fs && CacheSet !in r.calls
  {
    var key := CacheKey(fx, url, width, height, format);
    var hit := Cache.Get(m.cache, disk.fs, key, format, disk.now, disk.removeFails);
    if hit.path != "" then Run(hit.path, None, disk.fs, [CacheGet], None)
    else match fx.fetch(url)
      case Err(e) => Run("", Some(e), hit.fs, [CacheGet, HttpGet], None)
      case Ok(body) =>
        match fx.decode(body)
        case Err(e) => Run("", Some(e), hit.fs, [CacheGet, HttpGet, ImageDecode], None)
        case Ok(img) =>
          var target := ResizeTarget(img, width, height);
          var resized := fx.resize(target.0, target.1, img);
          match Encode(fx, format, resized, quality)
          case Err(e) =>
            var calls := if IsSupported(format) then [CacheGet, HttpGet, ImageDecode, Resample, ImageEncode]
                         else [CacheGet, HttpGet, ImageDecode, Resample];
            Run("", Some(e), hit.fs, calls, Some(target))
          case Ok(bytes) =>
            var stored := Cache.Set(m.cache, hit.fs, key, bytes, format, disk.now, disk.writeErr);
            Run(stored.path, stored.err, stored.fs, [CacheGet, HttpGet, ImageDecode, Resample, ImageEncode, CacheSet], Some(target))
  }

  /** Two effect sets that agree on the hash. */
  ghost predicate SameHash(fx1: Effects, fx2: Effects) {
    forall s :: fx1.md5Hex(s) == fx2.md5Hex(s)
  }

  /** A cache hit returns the cached path without fetching, decoding or encoding: the result does
      not depend on the network, the codecs or the resampler, nor on the requested quality. */
  lemma CacheHitShortCircuits(m: Manager, fx1: Effects, fx2: Effects, disk: Disk, url: string, width: int, height: int, format: string, q1: int, q2: int)
    requires SameHash(fx1, fx2)
    requires Cache.Get(m.cache, disk.fs, CacheKey(fx1, url, width, height, format), format, disk.now, disk.removeFails).path != ""
    ensures ProcessImage(m, fx1, disk, url, width, height, format, q1)
         == ProcessImage(m, fx2, disk, url, width, height, format, q2)
    ensures ProcessImage(m, fx1, disk, url, width, height, format, q1).calls == [CacheGet]
  {
    assert CacheKey(fx1, url, width, height, format) == CacheKey(fx2, url, width, height, format);
  }

  /** On a miss with a successful fetch and decode, the resampler is asked for `ResizeTarget`. */
  lemma ProcessImageResizesToTarget(m: Manager, fx: Effects, disk: Disk, url: string, width: int, height: int, format: string, quality: int)
    requires Cache.Get(m.cache, disk.fs, CacheKey(fx, url, width, height, format), format, disk.now, disk.removeFails).path == ""
    requires fx.fetch(url).Ok? && fx.decode(fx.fetch(url).value).Ok?
    ensures ProcessImage(m, fx, disk, url, width, height, format, quality).resizedTo
         == Some(ResizeTarget(fx.decode(fx.fetch(url).value).value, width, height))
  {
  }

  /** After a successful encode the run's answer is exactly what `Set` returns for the key used in
      the lookup, written over the directory as the lookup left it. */
  lemma ProcessImageReturnsSet(m: Manager, fx: Effects, disk: Disk, url: string, width: int, height: int, format: string, quality: int)
    requires var key := CacheKey(fx, url, width, height, format);
      Cache.Get(m.cache, disk.fs, key, format, disk.now, disk.removeFails).path == ""
    requires fx.fetch(url).Ok? && fx.decode(fx.fetch(url).value).Ok?
    requires var img := fx.decode(fx.fetch(url).value).value;
      var t := ResizeTarget(img, width, height);
      Encode(fx, format, fx.resize(t.0, t.1, img), quality).Ok?
    ensures var key := CacheKey(fx, url, width, height, format);
      var hit := Cache.Get(m.cache, disk.fs, key, format, disk.now, disk.removeFails);
      var img := fx.decode(fx.fetch(url).value).value;
      var t := ResizeTarget(img, width, height);
      var bytes := Encode(fx, format, fx.resize(t.0, t.1, img), quality).value;
      var stored := Cache.Set(m.cache, hit.fs, key, bytes, format, disk.now, disk.writeErr);
      var r := ProcessImage(m, fx, disk, url, width, height, format, quality);
      r.path == stored.path && r.err == stored.err && r.fs == stored.fs
  {
  }

  /** An unsupported format fails after the image was fetched, decoded and resized, and nothing is
      written. */
  lemma UnsupportedFormatFails(m: Manager, fx: Effects, disk: Disk, url: string, width: int, height: int, format: string, quality: int)
    requires !IsSupported(format)
    requires Cache.Get(m.cache, disk.fs, CacheKey(fx, url, width, height, format), format, disk.now, disk.removeFails).path == ""
    requires fx.fetch(url).Ok? && fx.decode(fx.fetch(url).value).Ok?
    ensures var r := ProcessImage(m, fx, disk, url, width, height, format, quality);
      && r.err == Some("unsupported output format: " + format)
      && r.calls == [CacheGet, HttpGet, ImageDecode, Resample]
  {
  }
}
