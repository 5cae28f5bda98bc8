// Cache naming: bot/cache.py. The key is a prefix of a SHA-256 hex digest
// of "<video_id>:<quality_label>"; the cached file is "<key>.mp4" inside the
// download directory. SHA-256 itself is a function-valued parameter that is
// only known to return 64 lower-case hex characters.

module Cache {
  import opened Wrappers
  import opened Text

  /** A character of a lower-case hex digest. */
  predicate IsLowerHex(c: char) {
    '0' <= c <= '9' || 'a' <= c <= 'f'
  }

  predicate AllLowerHex(s: string) {
    forall i :: 0 <= i < |s| ==> IsLowerHex(s[i])
  }

  /** What `hashlib.sha256(...).hexdigest()` is known to return. */
  ghost predicate IsSha256Hex(sha: string -> string) {
    forall s :: |sha(s)| == 64 && AllLowerHex(sha(s))
  }

  /** The shape of every key bot/cache.py hands out. */
  predicate IsCacheKey(key: string) {
    |key| == 32 && AllLowerHex(key)
  }

  /** The string that is hashed: `f"{video_id}:{quality_label}"`. */
  function Preimage(videoId: string, qualityLabel: string): string {
    videoId + ":" + qualityLabel
  }

  /** bot/cache.py `build_cache_key`: the first 32 characters of the digest. */
  function BuildCacheKey(videoId: string, qualityLabel: string, sha: string -> string): (key: string)
    requires IsSha256Hex(sha)
    ensures IsCacheKey(key)
    ensures StartsWith(sha(Preimage(videoId, qualityLabel)), key)
  {
    sha(Preimage(videoId, qualityLabel))[..32]
  }

  /** Two pairs with the same preimage share a key, whatever the digest. */
  lemma KeyDependsOnlyOnPreimage(v1: string, l1: string, v2: string, l2: string, sha: string -> string)
    requires IsSha256Hex(sha)
    requires Preimage(v1, l1) == Preimage(v2, l2)
    ensures BuildCacheKey(v1, l1, sha) == BuildCacheKey(v2, l2, sha)
  {
  }

  /** A ':' inside an argument makes the preimage ambiguous: moving the text
      after the first ':' of the video id into the label keeps the key. */
  lemma ColonShiftsKeepKey(a: string, b: string, qualityLabel: string, sha: string -> string)
    requires IsSha256Hex(sha)
    ensures BuildCacheKey(a + ":" + b, qualityLabel, sha) == BuildCacheKey(a, b + ":" + qualityLabel, sha)
  {
    assert Preimage(a + ":" + b, qualityLabel) == Preimage(a, b + ":" + qualityLabel);
  }

  /** ("a:b", "c") and ("a", "b:c") collide. */
  lemma ColonCollision(sha: string -> string)
    requires IsSha256Hex(sha)
    ensures BuildCacheKey("a:b", "c", sha) == BuildCacheKey("a", "b:c", sha)
  {
    ColonShiftsKeepKey("a", "b", "c", sha);
    assert "a" + ":" + "b" == "a:b";
    assert "b" + ":" + "c" == "b:c";
  }

  /** Without ':' in the video ids, the preimage determines the pair. */
  lemma PreimageInjective(v1: string, l1: string, v2: string, l2: string)
    requires ':' !in v1 && ':' !in v2
    requires Preimage(v1, l1) == Preimage(v2, l2)
    ensures v1 == v2 && l1 == l2
  {
    var p := Preimage(v1, l1);
    FirstColon(v1, l1);
    FirstColon(v2, l2);
    assert v1 == p[..|v1|] == v2;
    assert l1 == p[|v1| + 1..] == l2;
  }

  /** The first ':' of a preimage ends a colon-free video id. */
  lemma FirstColon(videoId: string, qualityLabel: string)
    requires ':' !in videoId
    ensures FirstIndex(Preimage(videoId, qualityLabel), ':') == Some(|videoId|)
  {
    FirstIndexAfter(videoId, ':', qualityLabel);
  }

  /** With a ':' in the video id, another pair has the same preimage, so the
      pair-to-preimage map is injective exactly on colon-free video ids. */
  lemma PreimageAmbiguous(videoId: string, qualityLabel: string)
    requires ':' in videoId
    ensures exists v: string, l: string :: (v, l) != (videoId, qualityLabel) && Preimage(v, l) == Preimage(videoId, qualityLabel)
  {
    var i := FirstIndex(videoId, ':').value;
    var a, b := videoId[..i], videoId[i + 1..];
    assert videoId == a + ":" + b;
    assert |a| < |videoId|;
    assert Preimage(a, b + ":" + qualityLabel) == Preimage(videoId, qualityLabel);
  }

  // ---------------------------------------------------------------------
  // Paths

  /** POSIX `os.path.join(a, b)`: an absolute `b` replaces `a`; otherwise a
      '/' is inserted unless `a` is empty or already ends in '/'. */
  function PathJoin(a: string, b: string): (r: string)
    ensures EndsWith(r, b)
    ensures StartsWith(b, "/") ==> r == b
    ensures !StartsWith(b, "/") ==> StartsWith(r, a) && |r| <= |a| + 1 + |b|
    ensures !StartsWith(b, "/") && a == [] ==> r == b
    // A non-empty directory is followed by exactly one '/' before the name:
    // its own trailing '/', or else one added.
    ensures !StartsWith(b, "/") && a != [] ==>
      var d := r[..|r| - |b|];
      StartsWith(d, a) && EndsWith(d, "/") && |d| == |a| + (if EndsWith(a, "/") then 0 else 1)
  {
    if StartsWith(b, "/") then b
    else if a == [] || a[|a| - 1] == '/' then
      assert a != [] ==> EndsWith(a, "/") by {
        if a != [] { assert a[|a| - 1..] == [a[|a| - 1]]; }
      }
      a + b
    else
      assert !EndsWith(a, "/") by {
        if |a| >= 1 { assert a[|a| - 1..][0] == a[|a| - 1]; }
      }
      a + "/" + b
  }

  /** A directory without a trailing '/' gets one. */
  lemma PathJoinExample()
    ensures PathJoin("/tmp/cache", "k.mp4") == "/tmp/cache/k.mp4"
    ensures PathJoin("/tmp/cache/", "k.mp4") == "/tmp/cache/k.mp4"
    ensures PathJoin("/tmp/cache", "/k.mp4") == "/k.mp4"
  {
    assert "/tmp/cache"[9] == 'e';
    assert "/tmp/cache/"[10] == '/';
    assert "/k.mp4"[..1] == "/";
    assert "k.mp4"[0] == 'k';
    assert "/tmp/cache" + "/" + "k.mp4" == "/tmp/cache/k.mp4";
    assert "/tmp/cache/" + "k.mp4" == "/tmp/cache/k.mp4";
  }

  /** bot/cache.py `get_cached_file_path`: the file `<key>.mp4` in the
      cache directory. */
  function CachedFilePath(cacheDir: string, key: string): (path: string)
    ensures EndsWith(path, ".mp4") && EndsWith(path, key + ".mp4")
  {
    PathJoin(cacheDir, key + ".mp4")
  }

  /** A cache key names a file directly inside the cache directory: the
      directory, one '/' unless it is empty or already ends in one, then
      `<key>.mp4`. */
  lemma CachedFileInDirectory(cacheDir: string, key: string)
    requires IsCacheKey(key)
    ensures CachedFilePath(cacheDir, key) ==
      (if cacheDir == [] || EndsWith(cacheDir, "/") then cacheDir else cacheDir + "/") + (key + ".mp4")
  {
    KeyNotAbsolute(key);
    var b := key + ".mp4";
    var path := CachedFilePath(cacheDir, key);
    if cacheDir != [] {
      var d := path[..|path| - |b|];
      assert path == d + b;
      if EndsWith(cacheDir, "/") {
        assert d == cacheDir;
      } else {
        assert d[..|cacheDir|] == cacheDir;
        assert d == cacheDir + "/";
      }
    }
  }

  /** In one directory, the path determines the key. */
  lemma PathDeterminesKey(cacheDir: string, k1: string, k2: string)
    requires IsCacheKey(k1) && IsCacheKey(k2)
    requires CachedFilePath(cacheDir, k1) == CachedFilePath(cacheDir, k2)
    ensures k1 == k2
  {
    KeyNotAbsolute(k1);
    KeyNotAbsolute(k2);
    var p := CachedFilePath(cacheDir, k1);
    var n := |p| - 36;
    assert p[n..] == k1 + ".mp4" == k2 + ".mp4";
    assert k1 == (k1 + ".mp4")[..32] == (k2 + ".mp4")[..32] == k2;
  }

  /** A key never starts with '/', so `join` keeps the directory. */
  lemma KeyNotAbsolute(key: string)
    requires IsCacheKey(key)
    ensures !StartsWith(key + ".mp4", "/")
  {
    assert (key + ".mp4")[0] == key[0];
  }

  // ---------------------------------------------------------------------
  // The abstract filesystem

  /** Paths to file contents; a path is present when `os.path.exists`. */
  type FileSystem = map<string, seq<bv8>>

  /** bot/cache.py `is_cached`: the canonical path when it exists. */
  function IsCached(fs: FileSystem, cacheDir: string, key: string): (r: Option<string>)
    ensures r.Some? <==> CachedFilePath(cacheDir, key) in fs
    ensures r.Some? ==> r.value == CachedFilePath(cacheDir, key) && r.value in fs
  {
    var path := CachedFilePath(cacheDir, key);
    if path in fs then Some(path) else None
  }
}
