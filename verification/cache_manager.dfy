/** The on-disk cache of encoded images. The cache directory is a map from paths to files whose
    modification times are whole Unix seconds; `now` is passed in. */
module Cache {
  import opened Results

  type Bytes = seq<bv8>

  datatype File = File(data: Bytes, mtime: int)

  type FileSystem = map<string, File>

  const DefaultCacheDir: string := "image_cache"
  const DefaultMaxAge: int := 86400

  datatype Config = Config(cacheDir: string, maxAge: int)

  /** `CacheManager`. */
  datatype Manager = Manager(cacheDir: string, maxAge: int)

  /** `NewManager`. `mkdirErr` is the outcome of creating the cache directory, which is not
      modelled beyond its error. */
  function NewManager(cfg: Option<Config>, mkdirErr: Option<string>): (r: Result<Manager>)
    ensures cfg.None? ==> r == Err("CacheManager config is nil!")
    ensures cfg.Some? && mkdirErr.Some? ==> r == Err(mkdirErr.value)
    ensures r.Ok? <==> cfg.Some? && mkdirErr.None?
    ensures r.Ok? ==> r.value.cacheDir != "" && r.value.maxAge != 0
    ensures r.Ok? && cfg.value.cacheDir != "" ==> r.value.cacheDir == cfg.value.cacheDir
    ensures r.Ok? && cfg.value.cacheDir == "" ==> r.value.cacheDir == DefaultCacheDir
    ensures r.Ok? && cfg.value.maxAge != 0 ==> r.value.maxAge == cfg.value.maxAge
    ensures r.Ok? && cfg.value.maxAge == 0 ==> r.value.maxAge == DefaultMaxAge
  {
    match cfg
    case None => Err("CacheManager config is nil!")
    case Some(c) =>
      var dir := if c.cacheDir == "" then DefaultCacheDir else c.cacheDir;
      var maxAge := if c.maxAge == 0 then DefaultMaxAge else c.maxAge;
      if mkdirErr.Some? then Err(mkdirErr.value) else Ok(Manager(dir, maxAge))
  }

  /** File extension for an output format: `jpeg` files are stored as `.jpg`. */
  function Extension(format: string): (ext: string)
    ensures format == "jpeg" ==> ext == "jpg"
    ensures format != "jpeg" ==> ext == format
  {
    if format != "jpeg" then format else "jpg"
  }

  /** `filepath.Join(dir, name)` for a clean directory and a plain file name. */
  function JoinPath(dir: string, name: string): string {
    if dir == "" then name else dir + "/" + name
  }

  /** `GetPath`: `<cacheDir>/<key>.<ext>`. */
  function GetPath(m: Manager, key: string, format: string): (path: string)
    ensures m.cacheDir != "" ==> path == m.cacheDir + "/" + key + "." + Extension(format)
  {
    JoinPath(m.cacheDir, key + "." + Extension(format))
  }

  /** The key is recoverable from the path: distinct keys never share a file for one format. This
      is about the joined path before cleaning. With keys and formats without a `/`, cleaning can
      only change the file names `.` and `..`, which the keys `""` and `.` give with the empty
      format; md5-hex keys never do. */
  lemma GetPathInjective(m: Manager, k1: string, k2: string, format: string)
    requires '/' !in k1 && '/' !in k2 && '/' !in format
    requires GetPath(m, k1, format) == GetPath(m, k2, format)
    ensures k1 == k2
  {
    var pre := if m.cacheDir == "" then "" else m.cacheDir + "/";
    var suf := "." + Extension(format);
    assert GetPath(m, k1, format) == pre + k1 + suf;
    assert GetPath(m, k2, format) == pre + k2 + suf;
    assert |k1| == |k2|;
    assert k1 == (pre + k1 + suf)[|pre|..|pre| + |k1|];
    assert k2 == (pre + k2 + suf)[|pre|..|pre| + |k2|];
  }

  /** The formats `jpeg` and `jpg` share one file for a given key. */
  lemma JpegAndJpgShareAFile(m: Manager, key: string)
    ensures GetPath(m, key, "jpeg") == GetPath(m, key, "jpg")
  {
  }

  /** An entry is servable while its age in whole seconds is at most `maxAge`. */
  predicate Fresh(m: Manager, f: File, now: int) {
    now - f.mtime <= m.maxAge
  }

  /** A lookup's answer (`""` for a miss) and the file system afterwards. */
  datatype Lookup = Lookup(path: string, fs: FileSystem)

  /** `Get`: a fresh file is a hit; a stale one is deleted and is a miss, even when the deletion
      fails (`removeFails`), in which case the file stays. */
  function Get(m: Manager, fs: FileSystem, key: string, format: string, now: int, removeFails: bool): (r: Lookup)
    ensures var p := GetPath(m, key, format);
      && (r.path != "" <==> p in fs && Fresh(m, fs[p], now) && p != "")
      && (r.path != "" ==> r.path == p)
      && (p !in fs || Fresh(m, fs[p], now) || removeFails ==> r.fs == fs)
      && (p in fs && !Fresh(m, fs[p], now) && !removeFails ==> r.fs == fs - {p} && p !in r.fs)
    ensures r.fs.Keys <= fs.Keys
  {
    var path := GetPath(m, key, format);
    if path !in fs then Lookup("", fs)
    else if Fresh(m, fs[path], now) then Lookup(path, fs)
    else if removeFails then Lookup("", fs)
    else Lookup("", fs - {path})
  }

  /** What `Set` returns, and the file system afterwards. */
  datatype Store = Store(path: string, err: Option<string>, fs: FileSystem)

  /** `Set`: writes `img` at `GetPath(key, format)` with modification time `now`; the path is returned
      even when the write fails with `writeErr`. The directory is not created here. */
  function Set(m: Manager, fs: FileSystem, key: string, img: Bytes, format: string, now: int, writeErr: Option<string>): (r: Store)
    ensures r.path == GetPath(m, key, format)
    ensures r.err == writeErr
    ensures writeErr.Some? ==> r.fs == fs
    ensures writeErr.None? ==> r.path in r.fs && r.fs[r.path] == File(img, now)
    ensures forall p :: p in fs && p != r.path ==> p in r.fs && r.fs[p] == fs[p]
    ensures r.fs.Keys <= fs.Keys + {r.path}
  {
    var path := GetPath(m, key, format);
    match writeErr
    case Some(e) => Store(path, writeErr, fs)
    case None => Store(path, None, fs[path := File(img, now)])
  }

  /** A successful `Set` followed by a `Get` within `maxAge` seconds returns the same path, whose
      file holds exactly the bytes written, and deletes nothing. */
  lemma SetThenGet(m: Manager, fs: FileSystem, key: string, img: Bytes, format: string, t: int, later: int, removeFails: bool)
    requires later - t <= m.maxAge
    ensures var s := Set(m, fs, key, img, format, t, None);
      var g := Get(m, s.fs, key, format, later, removeFails);
      && s.err.None?
      && s.fs[s.path].data == img
      && (s.path != "" ==> g.path == s.path)
      && g.fs == s.fs
  {
  }

  /** An entry written at `t` is a hit at `t + maxAge` and a miss at `t + maxAge + 1`, where the
      stale file is removed. */
  lemma FreshnessBoundary(m: Manager, fs: FileSystem, key: string, img: Bytes, format: string, t: int)
    requires m.cacheDir != ""
    ensures var s := Set(m, fs, key, img, format, t, None);
      var hit := Get(m, s.fs, key, format, t + m.maxAge, false);
      var miss := Get(m, s.fs, key, format, t + m.maxAge + 1, false);
      && hit.path == s.path
      && miss.path == ""
      && s.path !in miss.fs
  {
  }
}
