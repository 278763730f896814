/**
 * `SyncPair.Sync` and the two directional routines. Validation decides
 * whether anything happens; the source alone decides the direction; each
 * direction builds both indices, resolves the bucket, and runs the batch
 * loop with its own kind of transfer. A panic of the source (an unreadable
 * file, a failed listing) is the `Aborted` outcome.
 */
module SyncEngine {
  import opened Wrappers
  import opened GoStrings
  import opened Endpoints
  import opened BucketLocator
  import opened Environment
  import opened FingerprintIndex
  import opened Scheduler

  /** `SyncPair`; the credentials are folded into the S3 world. */
  datatype SyncPair = SyncPair(source: string, target: string, concurrent: int)

  datatype Direction = DirToS3 | S3ToDir

  /** What a launched routine does: `putRoutine` or `getRoutine`. */
  datatype Transfer =
    | Put(localPath: string, bucket: Bucket, key: string)
    | Get(localPath: string, bucket: Bucket, key: string)

  /**
   * `Rejected` is Sync's `false`; `Synced` its `true`, with the trace of the
   * run: both indices, the order the source index was visited in, the
   * drained batches and the completion messages received.
   */
  datatype SyncResult =
    | Rejected
    | Aborted(cause: Abort)
    | Synced(direction: Direction, source: Index, target: Index, order: seq<string>,
             batches: seq<seq<Transfer>>, completions: seq<Completion<Transfer>>)

  /** The upload for `file`: the local file under the source root to the key under the target prefix. */
  function PutTask(pair: SyncPair, s3: S3World, bucket: Bucket): string -> Transfer {
    file => Put(Join(pair.source, file), bucket, Join(s3.keyPrefix(pair.target), file))
  }

  /** The download for `file`: the object keyed `file` to the local file under the target root. */
  function GetTask(pair: SyncPair, bucket: Bucket): string -> Transfer {
    file => Get(Join(pair.target, file), bucket, file)
  }

  function LocalSide(root: string, fs: FsWorld, md5: Bytes -> string): Result<Index, Abort> {
    LocalIndex(root, fs.walk(root), fs.read, md5)
  }

  /**
   * The outcome of one directional run: the first failing index aborts;
   * otherwise the run visits every source key once and drains the batch
   * plan, receiving one completion per launched task.
   */
  ghost predicate RunOutcome(from: Result<Index, Abort>, to: Result<Index, Abort>, direction: Direction,
                             concurrent: int, task: string -> Transfer, r: SyncResult)
  {
    if from.Failure? then r == Aborted(from.error)
    else if to.Failure? then r == Aborted(to.error)
    else
      && r.Synced?
      && r.direction == direction
      && r.source == from.value
      && r.target == to.value
      && IsEnumeration(r.order, r.source.Keys)
      && r.batches == BatchPlan(r.source, r.target, r.order, concurrent, task)
      && r.completions == Completions(Flatten(r.batches))
  }

  ghost predicate DirToS3Outcome(pair: SyncPair, fs: FsWorld, s3: S3World, md5: Bytes -> string, r: SyncResult) {
    RunOutcome(LocalSide(pair.source, fs, md5), RemoteIndex(pair.target, s3), DirToS3, pair.concurrent,
               PutTask(pair, s3, UrlBucket(pair.target, s3, TransferLookup)), r)
  }

  ghost predicate S3ToDirOutcome(pair: SyncPair, fs: FsWorld, s3: S3World, md5: Bytes -> string, r: SyncResult) {
    RunOutcome(RemoteIndex(pair.source, s3), LocalSide(pair.target, fs, md5), S3ToDir, pair.concurrent,
               GetTask(pair, UrlBucket(pair.source, s3, TransferLookup)), r)
  }

  /** `syncDirToS3`. */
  method SyncDirToS3(pair: SyncPair, fs: FsWorld, s3: S3World, md5: Bytes -> string) returns (r: SyncResult)
    ensures DirToS3Outcome(pair, fs, s3, md5, r)
  {
    var sourceFiles := LoadLocalFiles(pair.source, fs.walk(pair.source), fs.read, md5);
    if sourceFiles.Failure? {
      return Aborted(sourceFiles.error);
    }
    var targetFiles := LoadS3Files(pair.target, s3);
    if targetFiles.Failure? {
      return Aborted(targetFiles.error);
    }
    var bucket := LookupBucket(s3.bucketName(pair.target), s3.probes(s3.bucketName(pair.target), TransferLookup));
    var order := EnumerateKeys(sourceFiles.value);
    var batches, received :=
      ScheduleTransfers(sourceFiles.value, targetFiles.value, order, pair.concurrent, PutTask(pair, s3, bucket));
    r := Synced(DirToS3, sourceFiles.value, targetFiles.value, order, batches, received);
  }

  /** `syncS3ToDir`; creating the local directories is not part of this model. */
  method SyncS3ToDir(pair: SyncPair, fs: FsWorld, s3: S3World, md5: Bytes -> string) returns (r: SyncResult)
    ensures S3ToDirOutcome(pair, fs, s3, md5, r)
  {
    var sourceFiles := LoadS3Files(pair.source, s3);
    if sourceFiles.Failure? {
      return Aborted(sourceFiles.error);
    }
    var targetFiles := LoadLocalFiles(pair.target, fs.walk(pair.target), fs.read, md5);
    if targetFiles.Failure? {
      return Aborted(targetFiles.error);
    }
    var bucket := LookupBucket(s3.bucketName(pair.source), s3.probes(s3.bucketName(pair.source), TransferLookup));
    var order := EnumerateKeys(sourceFiles.value);
    var batches, received :=
      ScheduleTransfers(sourceFiles.value, targetFiles.value, order, pair.concurrent, GetTask(pair, bucket));
    r := Synced(S3ToDir, sourceFiles.value, targetFiles.value, order, batches, received);
  }

  /**
   * `Sync`: an invalid pair is rejected with nothing launched; otherwise an
   * S3 source means download and anything else upload.
   */
  method Sync(pair: SyncPair, fs: FsWorld, s3: S3World, md5: Bytes -> string) returns (r: SyncResult)
    ensures r.Rejected? <==> !ValidPair(pair.source, pair.target, fs.pathExists)
    ensures ValidPair(pair.source, pair.target, fs.pathExists) && ValidS3Url(pair.source) ==>
      S3ToDirOutcome(pair, fs, s3, md5, r)
    ensures ValidPair(pair.source, pair.target, fs.pathExists) && !ValidS3Url(pair.source) ==>
      DirToS3Outcome(pair, fs, s3, md5, r)
    ensures r.Synced? ==> r.direction == (if ValidS3Url(pair.source) then S3ToDir else DirToS3)
  {
    if !ValidPair(pair.source, pair.target, fs.pathExists) {
      return Rejected;
    }
    if ValidS3Url(pair.source) {
      r := SyncS3ToDir(pair, fs, s3, md5);
    } else {
      r := SyncDirToS3(pair, fs, s3, md5);
    }
  }

  /** Everything a run launched, in launch order. */
  function Launched(r: SyncResult): seq<Transfer>
    requires r.Synced?
  {
    Flatten(r.batches)
  }

  /**
   * A completed run launches one transfer per source key whose fingerprint
   * differs from the target's, in visiting order, never more than
   * `concurrent + 1` at a time, and receives one completion per launch.
   */
  lemma RunLaunchesTheDiff(from: Result<Index, Abort>, to: Result<Index, Abort>, direction: Direction,
                           concurrent: int, task: string -> Transfer, r: SyncResult, k: string, i: nat)
    requires RunOutcome(from, to, direction, concurrent, task, r) && r.Synced?
    ensures Launched(r) == Tasks(task, Scheduled(r.source, r.target, r.order))
    ensures k in Scheduled(r.source, r.target, r.order) <==> k in r.source && TargetFingerprint(r.target, k) != r.source[k]
    ensures NoDuplicates(Scheduled(r.source, r.target, r.order))
    ensures i < |r.batches| ==> |r.batches[i]| <= (if concurrent >= 0 then concurrent + 1 else 1)
    ensures |r.completions| == |Launched(r)|
  {
    EveryLaunchDrainedOnce(r.source, r.target, r.order, concurrent, task);
    DiffIsExact(r.source, r.target, r.order, k);
    ScheduledNoDuplicates(r.source, r.target, r.order);
    if i < |r.batches| {
      BatchBound(r.source, r.target, r.order, concurrent, task, i);
    }
  }

  /**
   * Running again after a sync has brought the target in line with the
   * source transfers nothing.
   */
  lemma SecondRunTransfersNothing(from: Result<Index, Abort>, to: Result<Index, Abort>, direction: Direction,
                                  concurrent: int, task: string -> Transfer, r: SyncResult)
    requires RunOutcome(from, to, direction, concurrent, task, r) && r.Synced?
    requires InAgreement(r.source, r.target)
    ensures Launched(r) == [] && r.completions == []
  {
    NothingScheduledInAgreement(r.source, r.target, r.order);
    EveryLaunchDrainedOnce(r.source, r.target, r.order, concurrent, task);
  }

  /**
   * As written, an upload run does not bring the bucket in line with the
   * source: the object for `file` is stored at `Key()/file`, and the next
   * listing indexes it under that whole key (the locator is no prefix of
   * it), so the next run finds no entry for `file` and uploads it again.
   */
  lemma SecondDirToS3RunReuploads(pair: SyncPair, s3: S3World, bucket: Bucket, file: string, fp: string)
    requires ValidS3Url(pair.target)
    requires !HasPrefix(Join(s3.keyPrefix(pair.target), file), S3Scheme)
    requires fp != [] && fp[0] != '"' && fp[|fp| - 1] != '"'
    ensures var uploaded := S3Object(PutTask(pair, s3, bucket)(file).key, "\"" + fp + "\"");
      Scheduled(map[file := fp], S3Index(pair.target, [uploaded]), [file]) == [file]
  {
    var key := Join(s3.keyPrefix(pair.target), file);
    var uploaded := S3Object(key, "\"" + fp + "\"");
    S3KeysKeptWhole(pair.target, key);
    TrimQuotesUnwraps(fp);
    assert [uploaded][..0] == [];
    var relisted := S3Index(pair.target, [uploaded]);
    assert relisted == S3Index(pair.target, [])[TrimPrefix(key, pair.target) := TrimQuotes(uploaded.etag)];
    assert |key| > |file|;
    assert NeedsTransfer(map[file := fp], relisted, file);
  }

  /** The listing an upload of the source files in `order` leaves behind, one object per file. */
  predicate UploadedListing(pair: SyncPair, s3: S3World, bucket: Bucket, source: Index,
                            order: seq<string>, objects: seq<S3Object>)
  {
    |objects| == |order| && forall i :: 0 <= i < |order| ==>
      order[i] in source && objects[i] == S3Object(PutTask(pair, s3, bucket)(order[i]).key, "\"" + source[order[i]] + "\"")
  }

  /**
   * With listed keys taken relative to `Key()`, uploading every source file
   * and listing the bucket again gives back the source index, so a second
   * run transfers nothing: the upload round trip the as-written key mapping
   * misses.
   */
  lemma CorrectedUploadRoundTrip(pair: SyncPair, s3: S3World, bucket: Bucket, source: Index,
                                 order: seq<string>, objects: seq<S3Object>, again: seq<string>)
    requires IsEnumeration(order, source.Keys)
    requires UploadedListing(pair, s3, bucket, source, order, objects)
    requires forall k :: k in source ==> source[k] == [] || (source[k][0] != '"' && source[k][|source[k]| - 1] != '"')
    ensures PrefixRelativeIndex(pair.target, s3, objects) == source
    ensures Scheduled(source, PrefixRelativeIndex(pair.target, s3, objects), again) == []
  {
    var kp := s3.keyPrefix(pair.target);
    var strip := Join(kp, "");
    var relisted := PrefixRelativeIndex(pair.target, s3, objects);
    forall k ensures k in relisted <==> k in source {
      S3IndexKeys(strip, objects, k);
      if k in source {
        var i :| 0 <= i < |order| && order[i] == k;
        PrefixRelativeKeyInvertsJoin(kp, k);
        assert ObjectWithKey(strip, objects, i, k);
      }
      if k in relisted {
        var j :| ObjectWithKey(strip, objects, j, k);
        PrefixRelativeKeyInvertsJoin(kp, order[j]);
      }
    }
    forall k | k in source ensures relisted[k] == source[k] {
      S3IndexValues(strip, objects, k);
      var j :| TagFrom(strip, objects, relisted, j, k);
      PrefixRelativeKeyInvertsJoin(kp, order[j]);
      TrimQuotesUnwraps(source[k]);
    }
    assert relisted == source;
    NothingScheduledInAgreement(source, relisted, again);
  }
}
