/**
 The path arithmetic of src/utils/fs.cpp: the per-thread memoised temporary
 directory (`get_temp_dir`) and the installation root derived from the
 executable's own path (`get_install_root`).

 The operating system is a parameter: `get_exec_path` becomes the
 `execPath` argument (`None` when it fails), `getenv("TMPDIR")` the
 `tmpdirEnv` argument and the compile-time `P_tmpdir` the `pTmpdir`
 argument. `MAX_PATH_SIZE` is declared in utils/fs.h, which is not part of
 this model, so the buffer size is the `maxPathSize` argument.
 */
module FsPaths {
  import opened Text

  // ---------------------------------------------------------------------
  // get_temp_dir

  /** The thread-local `temp_dir` buffer: empty until the first call. */
  datatype TempDirCache = TempDirCache(buffer: string)

  /** The directory text before the trailing '/' is appended: TMPDIR cut by
      `strncpy` to `maxPathSize - 1` characters, or `P_tmpdir` as it is. */
  function TempDirBase(tmpdirEnv: Option<string>, pTmpdir: string, maxPathSize: nat): (b: string)
    requires maxPathSize >= 1
    requires tmpdirEnv.None? ==> |pTmpdir| < maxPathSize
    ensures |b| < maxPathSize
    ensures tmpdirEnv.Some? ==> StartsWith(tmpdirEnv.value, b)
    ensures tmpdirEnv.Some? && |tmpdirEnv.value| < maxPathSize ==> b == tmpdirEnv.value
    ensures tmpdirEnv.None? ==> b == pTmpdir
  {
    match tmpdirEnv
    case Some(env) => if |env| < maxPathSize then env else env[..maxPathSize - 1]
    case None => pTmpdir
  }

  /** `get_temp_dir`: a filled buffer is returned as it is; otherwise the
      base directory gets a '/' appended by `strncat`, which appends nothing
      once the buffer holds `maxPathSize - 1` characters. */
  function GetTempDir(cache: TempDirCache, tmpdirEnv: Option<string>, pTmpdir: string, maxPathSize: nat)
    : (res: (TempDirCache, string))
    requires maxPathSize >= 1
    requires tmpdirEnv.None? ==> |pTmpdir| < maxPathSize
    requires |cache.buffer| < maxPathSize
    ensures res.0.buffer == res.1
    ensures |cache.buffer| > 0 ==> res.1 == cache.buffer
    ensures |res.1| < maxPathSize
    ensures |cache.buffer| == 0 ==>
              var base := TempDirBase(tmpdirEnv, pTmpdir, maxPathSize);
              StartsWith(base + "/", res.1) &&
              (|base| + 1 < maxPathSize <==> res.1 == base + "/") &&
              (|base| + 1 >= maxPathSize ==> res.1 == base)
  {
    if |cache.buffer| > 0 then (cache, cache.buffer)
    else
      var base := TempDirBase(tmpdirEnv, pTmpdir, maxPathSize);
      var dir := if maxPathSize - |base| - 1 >= 1 then base + "/" else base;
      (TempDirCache(dir), dir)
  }

  /** Memoisation: after one call, a second call returns the same text even
      if TMPDIR has changed in between, as long as the buffer can hold one
      character besides the terminator. */
  lemma TempDirMemoised(cache: TempDirCache, env1: Option<string>, env2: Option<string>,
                        pTmpdir: string, maxPathSize: nat)
    requires maxPathSize >= 2
    requires (env1.None? || env2.None?) ==> |pTmpdir| < maxPathSize
    requires |cache.buffer| < maxPathSize
    ensures var (c1, r1) := GetTempDir(cache, env1, pTmpdir, maxPathSize);
            |r1| > 0 && GetTempDir(c1, env2, pTmpdir, maxPathSize) == (c1, r1)
  {
  }

  /** With room to spare the result is exactly `$TMPDIR/`. */
  lemma TempDirFromEnv(env: string, pTmpdir: string, maxPathSize: nat)
    requires |env| + 1 < maxPathSize
    ensures GetTempDir(TempDirCache(""), Some(env), pTmpdir, maxPathSize).1 == env + "/"
  {
  }

  // ---------------------------------------------------------------------
  // get_install_root

  /** The delimiters `strrpbrk(path, "/\\")` looks for. */
  predicate IsDelim(c: char) { c == '/' || c == '\\' }

  /** `strrpbrk(s, "/\\")`: the index of the last delimiter. */
  function LastDelim(s: string): (r: Option<nat>)
    ensures r.Some? ==> r.value < |s| && IsDelim(s[r.value])
    ensures r.Some? ==> forall k :: r.value < k < |s| ==> !IsDelim(s[k])
    ensures r.None? ==> forall k :: 0 <= k < |s| ==> !IsDelim(s[k])
  {
    if |s| == 0 then None
    else if IsDelim(s[|s| - 1]) then Some(|s| - 1)
    else LastDelim(s[..|s| - 1])
  }

  predicate NoDelim(s: string) {
    forall k :: 0 <= k < |s| ==> !IsDelim(s[k])
  }

  /** `get_install_root`: cut the executable name at the last delimiter, then
      cut a final directory component that is exactly "bin" or "MacOS". */
  function GetInstallRoot(execPath: Option<string>): (r: Option<string>)
    ensures execPath.None? ==> r.None?
    ensures execPath.Some? ==> (r.None? <==> NoDelim(execPath.value))
    ensures r.Some? ==> StartsWith(execPath.value, r.value)
    ensures r.Some? ==> |r.value| <= LastDelim(execPath.value).value
  {
    match execPath
    case None => None
    case Some(path) =>
      match LastDelim(path)
      case None => None
      case Some(i) =>
        var dir := path[..i];
        match LastDelim(dir)
        case None => Some(dir)
        case Some(j) =>
          var last := dir[j + 1..];
          if last == "bin" || last == "MacOS" then Some(dir[..j]) else Some(dir)
  }

  /** Without a delimiter in front of the executable's directory that
      directory is the root, whatever its name. */
  lemma InstallRootOfBareDir(dir: string, d: char, name: string)
    requires IsDelim(d) && NoDelim(dir) && NoDelim(name)
    ensures GetInstallRoot(Some(dir + [d] + name)) == Some(dir)
  {
    var path := dir + [d] + name;
    LastDelimOfSuffix(dir, d, name);
    assert path[..|dir|] == dir;
  }

  /** `<root>/bin/<exe>` and `<root>/MacOS/<exe>` (either delimiter) give
      `<root>`; any other last directory `<root>/<dir>/<exe>` is kept. */
  lemma {:induction false} InstallRootOfLayout(root: string, d1: char, dir: string, d2: char, name: string)
    requires IsDelim(d1) && IsDelim(d2)
    requires NoDelim(dir) && NoDelim(name)
    ensures GetInstallRoot(Some(root + [d1] + dir + [d2] + name)) ==
              if dir == "bin" || dir == "MacOS" then Some(root) else Some(root + [d1] + dir)
  {
    var front := root + [d1] + dir;
    var path := front + [d2] + name;
    LastDelimOfSuffix(front, d2, name);
    assert path[..|front|] == front;
    LastDelimOfSuffix(root, d1, dir);
    assert front[|root| + 1..] == dir;
    assert front[..|root|] == root;
  }

  /** The last delimiter of `a + [d] + b` with `b` delimiter-free is the `d`. */
  lemma {:induction false} LastDelimOfSuffix(a: string, d: char, b: string)
    requires IsDelim(d) && NoDelim(b)
    ensures LastDelim(a + [d] + b) == Some(|a|)
    decreases |b|
  {
    var s := a + [d] + b;
    if |b| > 0 {
      assert s[..|s| - 1] == a + [d] + b[..|b| - 1];
      assert s[|s| - 1] == b[|b| - 1];
      LastDelimOfSuffix(a, d, b[..|b| - 1]);
    } else {
      assert s[|s| - 1] == d;
    }
  }

  /** The example of the documentation comment in the source. */
  lemma InstallRootUsrLocal()
    ensures GetInstallRoot(Some("/usr/local/bin/uv")) == Some("/usr/local")
  {
    InstallRootOfLayout("/usr/local", '/', "bin", '/', "uv");
    assert "/usr/local" + ['/'] + "bin" + ['/'] + "uv" == "/usr/local/bin/uv";
  }
}
