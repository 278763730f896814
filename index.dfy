/**
 * Fingerprint indices (`loadLocalFiles`, `loadS3Files`): maps from a
 * relative key to a content fingerprint, filled in place while walking the
 * local tree or the S3 listing. MD5 is an input function `md5`.
 */
module FingerprintIndex {
  import opened Wrappers
  import opened GoStrings
  import opened BucketLocator
  import opened Environment

  /** Why building an index panicked in the source. */
  datatype Abort = ReadFailed(path: string) | ListFailed(message: string)

  type Index = map<string, string>

  /** `relativePath`: the key a walked file gets, relative to the walk root. */
  function RelativePath(root: string, filePath: string): string {
    if root == "." then TrimPrefix(filePath, "/")
    else TrimPrefix(TrimPrefix(filePath, root), "/")
  }

  /** Under root "." at most one leading slash is stripped, and nothing else. */
  lemma RelativePathUnderDot(filePath: string)
    ensures var r := RelativePath(".", filePath);
      (HasPrefix(filePath, "/") ==> "/" + r == filePath) && (!HasPrefix(filePath, "/") ==> r == filePath)
  {
  }

  /**
   * Under any other root, a file joined onto the root gets back exactly its
   * path below the root: `relativePath` inverts `Join`.
   */
  lemma RelativePathInvertsJoin(root: string, rel: string)
    requires root != "."
    ensures RelativePath(root, Join(root, rel)) == rel
  {
    TrimPrefixOfConcat(root, "/" + rel);
    assert Join(root, rel) == root + ("/" + rel);
    TrimPrefixOfConcat("/", rel);
  }

  /** The keys of the examples: "data" over "data/a/b.txt", and "." over "a/b.txt". */
  lemma RelativePathExamples()
    ensures RelativePath("data", "data/a/b.txt") == "a/b.txt"
    ensures RelativePath(".", "a/b.txt") == "a/b.txt"
    ensures RelativePath(".", "/a/b.txt") == "a/b.txt"
  {
    RelativePathInvertsJoin("data", "a/b.txt");
    assert "a/b.txt"[0] != '/';
  }

  // ---------------------------------------------------------------------------
  // Local index

  /**
   * The index `loadLocalFiles` builds from a walk, reading each regular
   * file through `read` (given the walked path). The first unreadable file
   * aborts the whole build.
   */
  function LocalIndex(root: string, walk: seq<WalkEntry>, read: string -> Option<Bytes>,
                      md5: Bytes -> string): Result<Index, Abort>
    decreases |walk|
  {
    if walk == [] then Success(map[])
    else match LocalIndex(root, walk[..|walk| - 1], read, md5)
      case Failure(e) => Failure(e)
      case Success(files) =>
        var entry := walk[|walk| - 1];
        if entry.isDir then Success(files)
        else match read(entry.path)
          case None => Failure(ReadFailed(entry.path))
          case Some(buf) => Success(files[RelativePath(root, entry.path) := md5(buf)])
  }

  predicate IsFile(walk: seq<WalkEntry>, j: int) {
    0 <= j < |walk| && !walk[j].isDir
  }

  lemma {:induction false} LocalIndexFailureSticks(root: string, walk: seq<WalkEntry>, n: nat,
                                                   read: string -> Option<Bytes>, md5: Bytes -> string)
    requires n <= |walk|
    requires LocalIndex(root, walk[..n], read, md5).Failure?
    ensures LocalIndex(root, walk, read, md5) == LocalIndex(root, walk[..n], read, md5)
    decreases |walk|
  {
    if n < |walk| {
      var w := walk[..|walk| - 1];
      assert w[..n] == walk[..n];
      LocalIndexFailureSticks(root, w, n, read, md5);
    } else {
      assert walk[..n] == walk;
    }
  }

  /** `loadLocalFiles`, with the reader given the walked path. */
  method LoadLocalFiles(root: string, walk: seq<WalkEntry>, read: string -> Option<Bytes>,
                        md5: Bytes -> string) returns (r: Result<Index, Abort>)
    ensures r == LocalIndex(root, walk, read, md5)
  {
    var files: Index := map[];
    var i := 0;
    while i < |walk|
      invariant 0 <= i <= |walk|
      invariant LocalIndex(root, walk[..i], read, md5) == Success(files)
    {
      assert walk[..i + 1][..i] == walk[..i];
      var entry := walk[i];
      if !entry.isDir {
        var p := RelativePath(root, entry.path);
        var buf := read(entry.path);
        if buf.None? {
          LocalIndexFailureSticks(root, walk, i + 1, read, md5);
          return Failure(ReadFailed(entry.path));
        }
        files := files[p := md5(buf.value)];
      }
      i := i + 1;
    }
    assert walk[..i] == walk;
    r := Success(files);
  }

  /** The build aborts exactly when some regular file cannot be read. */
  lemma {:induction false} LocalIndexFailsIffUnreadable(root: string, walk: seq<WalkEntry>,
                                                        read: string -> Option<Bytes>, md5: Bytes -> string)
    ensures LocalIndex(root, walk, read, md5).Failure? <==>
      exists j :: IsFile(walk, j) && read(walk[j].path).None?
    decreases |walk|
  {
    if walk != [] {
      var w := walk[..|walk| - 1];
      LocalIndexFailsIffUnreadable(root, w, read, md5);
      if exists j :: IsFile(w, j) && read(w[j].path).None? {
        var j :| IsFile(w, j) && read(w[j].path).None?;
        assert IsFile(walk, j) && walk[j] == w[j];
      }
      if exists j :: IsFile(walk, j) && read(walk[j].path).None? {
        var j :| IsFile(walk, j) && read(walk[j].path).None?;
        if j < |w| {
          assert IsFile(w, j) && walk[j] == w[j];
        }
      }
    }
  }

  /** One step of a successful build: the last entry adds its file, if any. */
  lemma LocalIndexStep(root: string, walk: seq<WalkEntry>, read: string -> Option<Bytes>, md5: Bytes -> string)
    requires walk != [] && LocalIndex(root, walk, read, md5).Success?
    ensures var w := walk[..|walk| - 1];
      var last := walk[|walk| - 1];
      && LocalIndex(root, w, read, md5).Success?
      && (last.isDir ==> LocalIndex(root, walk, read, md5) == LocalIndex(root, w, read, md5))
      && (!last.isDir ==>
            && read(last.path).Some?
            && LocalIndex(root, walk, read, md5).value
               == LocalIndex(root, w, read, md5).value[RelativePath(root, last.path) := md5(read(last.path).value)])
  {
  }

  /** Walk entry `j` is a regular file whose key is `k`. */
  predicate FileWithKey(root: string, walk: seq<WalkEntry>, j: int, k: string) {
    IsFile(walk, j) && RelativePath(root, walk[j].path) == k
  }

  /** Some regular file of the walk has key `k`. */
  ghost predicate Walked(root: string, walk: seq<WalkEntry>, k: string) {
    exists j :: FileWithKey(root, walk, j, k)
  }

  /** Walk entry `j` is the last regular file with key `k`. */
  ghost predicate LastWithKey(root: string, walk: seq<WalkEntry>, j: int, k: string) {
    FileWithKey(root, walk, j, k) && forall j' :: j < j' < |walk| ==> !FileWithKey(root, walk, j', k)
  }

  lemma WalkedSplitsAtLast(root: string, walk: seq<WalkEntry>, k: string)
    requires walk != []
    ensures Walked(root, walk, k) <==>
      Walked(root, walk[..|walk| - 1], k) || FileWithKey(root, walk, |walk| - 1, k)
  {
    var w := walk[..|walk| - 1];
    if Walked(root, w, k) {
      var j :| FileWithKey(root, w, j, k);
      assert FileWithKey(root, walk, j, k);
    }
    if Walked(root, walk, k) {
      var j :| FileWithKey(root, walk, j, k);
      if j < |w| {
        assert FileWithKey(root, w, j, k);
      }
    }
  }

  /** The keys are exactly the relative paths of the regular files walked. */
  lemma {:induction false} LocalIndexKeys(root: string, walk: seq<WalkEntry>,
                                          read: string -> Option<Bytes>, md5: Bytes -> string, k: string)
    requires LocalIndex(root, walk, read, md5).Success?
    ensures k in LocalIndex(root, walk, read, md5).value <==> Walked(root, walk, k)
    decreases |walk|
  {
    if walk != [] {
      LocalIndexStep(root, walk, read, md5);
      LocalIndexKeys(root, walk[..|walk| - 1], read, md5, k);
      WalkedSplitsAtLast(root, walk, k);
    }
  }

  /** `files[k]` is the digest of walk entry `j`, the last regular file with key `k`. */
  ghost predicate FingerprintFrom(root: string, walk: seq<WalkEntry>, read: string -> Option<Bytes>,
                                  md5: Bytes -> string, files: Index, j: int, k: string) {
    LastWithKey(root, walk, j, k) && read(walk[j].path).Some? && k in files
    && files[k] == md5(read(walk[j].path).value)
  }

  /**
   * Each key's fingerprint is the digest of the content of the last regular
   * file walked with that key.
   */
  lemma {:induction false} LocalIndexValues(root: string, walk: seq<WalkEntry>,
                                            read: string -> Option<Bytes>, md5: Bytes -> string, k: string)
    requires LocalIndex(root, walk, read, md5).Success?
    requires k in LocalIndex(root, walk, read, md5).value
    ensures exists j :: FingerprintFrom(root, walk, read, md5, LocalIndex(root, walk, read, md5).value, j, k)
    decreases |walk|
  {
    var w := walk[..|walk| - 1];
    var n := |walk| - 1;
    LocalIndexStep(root, walk, read, md5);
    if FileWithKey(root, walk, n, k) {
      assert walk[n] == walk[|walk| - 1];
      assert LastWithKey(root, walk, n, k);
      assert FingerprintFrom(root, walk, read, md5, LocalIndex(root, walk, read, md5).value, n, k);
    } else {
      LocalIndexValues(root, w, read, md5, k);
      var j :| FingerprintFrom(root, w, read, md5, LocalIndex(root, w, read, md5).value, j, k);
      assert walk[j] == w[j];
      forall j' | j < j' < |walk| ensures !FileWithKey(root, walk, j', k) {
        if j' < n {
          assert walk[j'] == w[j'] && !FileWithKey(root, w, j', k);
        }
      }
      assert LocalIndex(root, walk, read, md5).value[k] == LocalIndex(root, w, read, md5).value[k];
      assert FingerprintFrom(root, walk, read, md5, LocalIndex(root, walk, read, md5).value, j, k);
    }
  }

  /** The walk with its directory entries removed. */
  function FilesOnly(walk: seq<WalkEntry>): (r: seq<WalkEntry>)
    ensures forall e :: e in r <==> e in walk && !e.isDir
    decreases |walk|
  {
    if walk == [] then []
    else var w := walk[..|walk| - 1];
      assert forall e :: e in walk <==> e in w || e == walk[|walk| - 1];
      if walk[|walk| - 1].isDir then FilesOnly(w) else FilesOnly(w) + [walk[|walk| - 1]]
  }

  /** Directories contribute nothing: dropping them from the walk changes nothing. */
  lemma {:induction false} DirectoriesIgnored(root: string, walk: seq<WalkEntry>,
                                              read: string -> Option<Bytes>, md5: Bytes -> string)
    ensures LocalIndex(root, FilesOnly(walk), read, md5) == LocalIndex(root, walk, read, md5)
    decreases |walk|
  {
    if walk != [] {
      var w := walk[..|walk| - 1];
      var last := walk[|walk| - 1];
      DirectoriesIgnored(root, w, read, md5);
      if last.isDir {
        assert FilesOnly(walk) == FilesOnly(w);
      } else {
        var f := FilesOnly(w) + [last];
        assert FilesOnly(walk) == f;
        assert f[..|f| - 1] == FilesOnly(w) && f[|f| - 1] == last;
      }
    }
  }

  // ---------------------------------------------------------------------------
  // As-written reader

  /**
   * The reader `loadLocalFiles` actually uses: it opens the ROOT-RELATIVE
   * key `p`, not the walked path, so the file is looked up relative to the
   * working directory instead of the walk root.
   */
  function ReadAtRelativePath(root: string, read: string -> Option<Bytes>): string -> Option<Bytes> {
    filePath => read(RelativePath(root, filePath))
  }

  /** Under root "." walked paths are already relative, so the two readers agree. */
  lemma AsWrittenAgreesUnderDot(read: string -> Option<Bytes>, filePath: string)
    requires !HasPrefix(filePath, "/")
    ensures ReadAtRelativePath(".", read)(filePath) == read(filePath)
  {
    assert ReadAtRelativePath(".", read)(filePath) == read(RelativePath(".", filePath));
  }

  /**
   * Under root "data", a readable file "data/a.txt" aborts the as-written
   * build (it opens "a.txt"), while reading the walked path indexes it.
   */
  lemma AsWrittenMisreadsUnderOtherRoots(md5: Bytes -> string)
    ensures var walk := [WalkEntry("data", true), WalkEntry("data/a.txt", false)];
      var read: string -> Option<Bytes> := p => if p == "data/a.txt" then Some([104, 105]) else None;
      LocalIndex("data", walk, ReadAtRelativePath("data", read), md5) == Failure(ReadFailed("data/a.txt"))
      && LocalIndex("data", walk, read, md5) == Success(map["a.txt" := md5([104, 105])])
  {
    var walk := [WalkEntry("data", true), WalkEntry("data/a.txt", false)];
    var read: string -> Option<Bytes> := p => if p == "data/a.txt" then Some([104, 105]) else None;
    RelativePathInvertsJoin("data", "a.txt");
    assert RelativePath("data", "data/a.txt") == "a.txt";
    assert walk[..1][..0] == [];
    assert walk[..1] == [WalkEntry("data", true)];
    assert LocalIndex("data", walk[..1], read, md5) == Success(map[]);
    assert LocalIndex("data", walk[..1], ReadAtRelativePath("data", read), md5) == Success(map[]);
  }

  // ---------------------------------------------------------------------------
  // S3 index

  /** The index `loadS3Files` builds from a listing of the locator `url`. */
  function S3Index(url: string, objects: seq<S3Object>): Index
    decreases |objects|
  {
    if objects == [] then map[]
    else var o := objects[|objects| - 1];
      S3Index(url, objects[..|objects| - 1])[TrimPrefix(o.key, url) := TrimQuotes(o.etag)]
  }

  /**
   * The index an upload target evidently should have: each listed key taken
   * relative to the locator's key prefix `Key()`, under which
   * `syncDirToS3` stores every file, rather than relative to the whole
   * locator.
   */
  function PrefixRelativeIndex(url: string, s3: S3World, objects: seq<S3Object>): Index {
    S3Index(Join(s3.keyPrefix(url), ""), objects)
  }

  /** Trimming `Key() + "/"` from an uploaded key gives back the file. */
  lemma PrefixRelativeKeyInvertsJoin(keyPrefix: string, file: string)
    ensures TrimPrefix(Join(keyPrefix, file), Join(keyPrefix, "")) == file
  {
    assert Join(keyPrefix, file) == Join(keyPrefix, "") + file;
  }

  /** The bucket the locator `url` resolves to at the given `lookupBucket` call. */
  function UrlBucket(url: string, s3: S3World, call: LookupCall): Bucket {
    ResolvedBucket(s3.bucketName(url), s3.probes(s3.bucketName(url), call))
  }

  /** The outcome of `loadS3Files(url)`: a failed listing aborts, otherwise its index. */
  function RemoteIndex(url: string, s3: S3World): Result<Index, Abort> {
    match s3.list(UrlBucket(url, s3, ListingLookup), s3.path(url))
    case Failure(message) => Failure(ListFailed(message))
    case Success(objects) => Success(S3Index(url, objects))
  }

  /** `loadS3Files`: locate the bucket, list it under the locator's path, index the listing. */
  method LoadS3Files(url: string, s3: S3World) returns (r: Result<Index, Abort>)
    ensures r == RemoteIndex(url, s3)
  {
    var path := s3.path(url);
    var bucket := LookupBucket(s3.bucketName(url), s3.probes(s3.bucketName(url), ListingLookup));
    var data := s3.list(bucket, path);
    if data.Failure? {
      return Failure(ListFailed(data.error));
    }
    var contents := data.value;
    var files: Index := map[];
    var i := 0;
    while i < |contents|
      invariant 0 <= i <= |contents|
      invariant files == S3Index(url, contents[..i])
    {
      assert contents[..i + 1][..i] == contents[..i];
      var md5sum := TrimQuotes(contents[i].etag);
      var k := TrimPrefix(contents[i].key, url);
      files := files[k := md5sum];
      i := i + 1;
    }
    assert contents[..i] == contents;
    r := Success(files);
  }

  /** Listed object `j` is indexed under `k`. */
  predicate ObjectWithKey(url: string, objects: seq<S3Object>, j: int, k: string) {
    0 <= j < |objects| && TrimPrefix(objects[j].key, url) == k
  }

  ghost predicate Listed(url: string, objects: seq<S3Object>, k: string) {
    exists j :: ObjectWithKey(url, objects, j, k)
  }

  /**
   * The keys of the S3 index are the listed keys, with the whole locator
   * trimmed off when it is a prefix.
   */
  lemma {:induction false} S3IndexKeys(url: string, objects: seq<S3Object>, k: string)
    ensures k in S3Index(url, objects) <==> Listed(url, objects, k)
    decreases |objects|
  {
    if objects != [] {
      var w := objects[..|objects| - 1];
      var last := objects[|objects| - 1];
      assert S3Index(url, objects) == S3Index(url, w)[TrimPrefix(last.key, url) := TrimQuotes(last.etag)];
      S3IndexKeys(url, w, k);
      if k == TrimPrefix(last.key, url) {
        assert ObjectWithKey(url, objects, |objects| - 1, k);
      }
      if Listed(url, w, k) {
        var j :| ObjectWithKey(url, w, j, k);
        assert ObjectWithKey(url, objects, j, k);
      }
      if Listed(url, objects, k) {
        var j :| ObjectWithKey(url, objects, j, k);
        if j < |w| {
          assert ObjectWithKey(url, w, j, k);
        } else {
          assert objects[j] == last;
        }
      }
    }
  }

  /** `files[k]` is the trimmed ETag of object `j`, the last one listed under `k`. */
  ghost predicate TagFrom(url: string, objects: seq<S3Object>, files: Index, j: int, k: string) {
    ObjectWithKey(url, objects, j, k) && k in files && files[k] == TrimQuotes(objects[j].etag)
    && forall j' :: j < j' < |objects| ==> !ObjectWithKey(url, objects, j', k)
  }

  /** Each key maps to the quote-trimmed ETag of the last object listed under it. */
  lemma {:induction false} S3IndexValues(url: string, objects: seq<S3Object>, k: string)
    requires k in S3Index(url, objects)
    ensures exists j :: TagFrom(url, objects, S3Index(url, objects), j, k)
    decreases |objects|
  {
    var w := objects[..|objects| - 1];
    var n := |objects| - 1;
    assert S3Index(url, objects) == S3Index(url, w)[TrimPrefix(objects[n].key, url) := TrimQuotes(objects[n].etag)];
    if ObjectWithKey(url, objects, n, k) {
      assert TagFrom(url, objects, S3Index(url, objects), n, k);
    } else {
      S3IndexValues(url, w, k);
      var j :| TagFrom(url, w, S3Index(url, w), j, k);
      assert objects[j] == w[j];
      forall j' | j < j' < |objects| ensures !ObjectWithKey(url, objects, j', k) {
        if j' < n {
          assert objects[j'] == w[j'] && !ObjectWithKey(url, w, j', k);
        }
      }
      assert TagFrom(url, objects, S3Index(url, objects), j, k);
    }
  }

  /**
   * The prefix trimmed is the whole `s3://` locator, which an object key
   * does not start with, so keys reach the index untrimmed.
   */
  lemma S3KeysKeptWhole(url: string, key: string)
    requires HasPrefix(url, "s3://") && !HasPrefix(key, "s3://")
    ensures TrimPrefix(key, url) == key
  {
  }
}
