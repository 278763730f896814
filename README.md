# gosync sync engine, modelled in Dafny

This project models the sync engine of gosync (`gosync/sync.go`). The engine
copies files one way: from a local directory to an S3 bucket prefix, or from
an S3 prefix to a local directory. Only files whose content fingerprint
differs are copied.

- **Validation and dispatch** (`SyncEngine.Sync`, `Endpoints`). An endpoint
  is valid when it is an existing local path or a string starting with
  `s3://`. The direction depends only on whether the source starts with
  `s3://`.
- **Bucket lookup** (`BucketLocator`). Every candidate region is probed with
  an empty listing. The bucket of the *last* successful region wins. Failure
  kinds are not told apart. When no probe succeeds, the zero-value bucket is
  returned.
- **Fingerprint indices** (`FingerprintIndex`). The local index maps the
  root-relative path of each regular file to the MD5 of its content. The S3
  index maps each listed key, with the whole `s3://…` locator trimmed when it
  is a prefix, to its ETag with every leading and trailing `"` removed.
- **Diff and batches** (`Scheduler`). A source key is transferred when its
  fingerprint differs from the target's entry. A missing target entry reads
  as `""`. Launched tasks are counted. Once the count exceeds `Concurrent`,
  every pending task is awaited and the batch restarts. A final drain
  flushes the rest.
- **Completion draining** (`Scheduler.WaitForRoutines`). Each routine sends
  one message. Messages are received in launch order.

The outside world is passed in as values:
- `Environment.FsWorld`: path existence, the walk, and file reads.
- `Environment.S3World`: the `S3Url` accessors, per-region probe answers,
  and listings.
- An `md5` function.

Go's map iteration order is unspecified. `Scheduler.EnumerateKeys` models it
as a nondeterministic enumeration, and the batch loop takes that order as an
input. Goroutine launches and channel receives are sequential events. The
drained batches are recorded in order, together with the messages received.
A panic in the source (an unreadable file, a failed listing) is the
`Aborted` outcome. `Sync` returning `false` is `Rejected`, and returning
`true` is `Synced`, which carries the trace of the run.

Source behaviours kept as written:
- A missing target key compares as `""`, so it always differs from a real
  fingerprint.
- S3 keys are trimmed with the full `s3://…` locator. An object key that
  does not itself start with `s3://` reaches the index untrimmed
  (`FingerprintIndex.S3KeysKeptWhole`).
- The last successful region wins, even if an earlier region also succeeded.
- A negative `Concurrent` makes the batch check fire after every key, so
  each key gets its own drain, possibly an empty one.
- The download task fetches the object by its index key `file`, and the
  upload task writes to `Key() + "/" + file`. The next listing indexes
  that object under the whole key, so as written an upload run is not
  idempotent (see "## Findings").
- Each `lookupBucket` call ranges over the regions afresh. The call inside
  `loadS3Files` and the routine's own call have their own probe sequences,
  so the listing and the transfers may use different regions.

In these places the code does less than its names and comments suggest,
and the model follows the code:
- The code only looks at the source to pick the direction. It does not
  check that exactly one side is remote.
- A 301 answer and any other error are handled alike. The `continue` is a
  no-op.
- The S3 index comes from one `List` call, which is one input here.
- Under root `"."`, `relativePath` only strips a leading `/`. `"./a/b.txt"`
  keeps its `./`. The walk yields cleaned paths such as `"a/b.txt"`, which
  pass through unchanged.

## Model

| member | source | states |
|---|---|---|
| `Endpoints.ValidS3Url` | gosync/sync.go:181-183 | a plain prefix test on `s3://` (characterised by `ValidS3UrlIffSchemePlusRest`) |
| `Endpoints.ValidTarget` | gosync/sync.go:167-179 | an endpoint is valid when the path exists locally or else is an S3 locator |
| `Endpoints.ValidPair` | gosync/sync.go:160-165 | both ends must be valid endpoints (characterised by `InvalidPairNamesABadEnd`) |
| `Endpoints.ValidS3UrlIffSchemePlusRest` | gosync/sync.go:181-183 | a string is an S3 locator exactly when it is `s3://` followed by anything |
| `Endpoints.InvalidPairNamesABadEnd` | gosync/sync.go:160-179 | a pair is rejected exactly when one of its two ends neither exists locally nor is an S3 locator |
| `SyncEngine.Sync` | gosync/sync.go:21-32 | the result is `Rejected` (false, nothing launched) iff the pair is invalid; otherwise an `s3://` source runs the download routine and any other source the upload routine, with that routine's full outcome |
| `SyncEngine.PutTask` | gosync/sync.go:64-68 | the upload for `file` sends the local `source/file` to key `Key()/file` of the routine's bucket |
| `SyncEngine.GetTask` | gosync/sync.go:96-106 | the download for `file` fetches the object keyed `file` into the local `target/file` |
| `SyncEngine.SyncDirToS3` | gosync/sync.go:51-80 | an unreadable local file or failed listing aborts; otherwise both indices are the specified ones, every source key is visited once, the drained batches are the batch plan of Put tasks (local `source/file` to key `Key()/file`, in the bucket of the routine's own lookup) and one completion is received per launched task |
| `SyncEngine.SyncS3ToDir` | gosync/sync.go:82-118 | the same for the S3 source and the local target, with Get tasks (object `file` to local `target/file`) |
| `SyncEngine.RunLaunchesTheDiff` | gosync/sync.go:60-78 | a completed run launches exactly the tasks of the differing source keys, each once and in visiting order; no drained batch exceeds `Concurrent+1` tasks (one task for a negative limit); completions equal launches in number |
| `SyncEngine.SecondRunTransfersNothing` | gosync/sync.go:61-62 | when the target already holds every source entry, a run launches and awaits nothing |
| `SyncEngine.SecondDirToS3RunReuploads` | gosync/sync.go:67 | as written, a file uploaded to `Key()/file` is listed back under that whole key, so the next run finds no entry for `file` and uploads it again |
| `SyncEngine.CorrectedUploadRoundTrip` | gosync/sync.go:133 | with listed keys taken relative to `Key()`, the listing left by uploading every source file indexes back to the source index, and a second run launches nothing |
| `Scheduler.ScheduleTransfers` | gosync/sync.go:60-78 | the loop's drained batches are `Chunks(tasks of the differing keys, Concurrent+1)` (with a negative limit, one batch per key plus an empty final drain), `count == len(routines)` throughout, and the messages received are the completions of all drained tasks in launch order |
| `Scheduler.WaitForRoutines` | gosync/sync.go:202-207 | one message is received per routine, the i-th being the completion of the i-th routine |
| `Scheduler.EnumerateKeys` | gosync/sync.go:61 | a range over the source index visits every key exactly once, in some order |
| `Scheduler.ScheduledIffDiffers` | gosync/sync.go:61-62 | a key is launched iff it is visited and its source fingerprint differs from the target's (missing reads as `""`) |
| `Scheduler.DiffIsExact` | gosync/sync.go:93-94 | with every source key visited, a key is launched iff it is a source key whose fingerprint differs from the target's; target-only keys are never launched |
| `Scheduler.ScheduledNoDuplicates` | gosync/sync.go:61-70 | no key is launched twice |
| `Scheduler.NothingScheduledInAgreement` | gosync/sync.go:62 | when the target agrees with the source on every source key, nothing is launched |
| `Scheduler.NothingScheduledAfterCopy` | gosync/sync.go:94 | after copying the source entries over the target (or diffing an index with itself) nothing is launched |
| `Scheduler.EveryLaunchDrainedOnce` | gosync/sync.go:71-78 | gluing the drained batches back together gives exactly the launched tasks: each is awaited once, by a mid-loop drain or the final one |
| `Scheduler.BatchBound` | gosync/sync.go:109-116 | every batch holds at most `Concurrent+1` tasks (1 for a negative limit); with a limit of at least 0, mid-loop drains hold exactly `Concurrent+1` and the final drain at most `Concurrent` |
| `Scheduler.FlattenChunks` | gosync/sync.go:71-78 | cutting the launched tasks into batches loses and duplicates nothing |
| `Scheduler.AllDifferingScheduled` | gosync/sync.go:61-70 | when every visited key differs from the target, every one is launched, in visiting order |
| `Scheduler.FiveFilesLimitTwo` | gosync/sync.go:109-116 | the batch plan for `Concurrent` 2 and five differing files is a drain of the first three tasks and a final drain of the last two |
| `BucketLocator.LastSuccess` | gosync/sync.go:36-47 | the chosen index is a successful probe with no success after it; no index means no probe succeeded |
| `BucketLocator.LookupBucket` | gosync/sync.go:34-49 | the result is the bucket bound to the last region whose probe succeeded, or the zero-value bucket if none did |
| `BucketLocator.ErrorKindIrrelevant` | gosync/sync.go:41-46 | a 301 answer and any other error are treated alike: only which regions succeeded decides the result |
| `BucketLocator.LastMatchWins` | gosync/sync.go:41-43 | a later success overrides an earlier one, so an earlier successful region (with distinct region names) is not the one reported |
| `FingerprintIndex.RelativePath` | gosync/sync.go:209-215 | the key of a walked file: under `"."` one leading `/` trimmed, otherwise the root and then one `/` trimmed (characterised by the next three rows) |
| `FingerprintIndex.RelativePathUnderDot` | gosync/sync.go:210-211 | under root `"."` at most one leading `/` is stripped and nothing else changes |
| `FingerprintIndex.RelativePathInvertsJoin` | gosync/sync.go:212-213 | under any other root, `root + "/" + rel` maps back to `rel` |
| `FingerprintIndex.RelativePathExamples` | gosync/sync.go:209-215 | `("data", "data/a/b.txt")` and `(".", "a/b.txt")` both give `"a/b.txt"` |
| `FingerprintIndex.LoadLocalFiles` | gosync/sync.go:139-158 | the filled map is the local index of the walk; the first unreadable regular file aborts |
| `FingerprintIndex.LocalIndexFailsIffUnreadable` | gosync/sync.go:145-148 | building the local index aborts iff some walked regular file cannot be read |
| `FingerprintIndex.LocalIndexKeys` | gosync/sync.go:142-143 | the keys are exactly the root-relative paths of the walked regular files |
| `FingerprintIndex.LocalIndexValues` | gosync/sync.go:150-153 | each key maps to the MD5 of the content of the last regular file walked with that key |
| `FingerprintIndex.DirectoriesIgnored` | gosync/sync.go:142 | removing the directory entries from the walk does not change the index |
| `FingerprintIndex.ReadAtRelativePath` | gosync/sync.go:143-145 | the reader as written: a walked file is opened at its root-relative key |
| `FingerprintIndex.AsWrittenMisreadsUnderOtherRoots` | gosync/sync.go:143-145 | under root `"data"`, a readable `data/a.txt` aborts the as-written build, which opens `a.txt`, while reading the walked path indexes it |
| `FingerprintIndex.AsWrittenAgreesUnderDot` | gosync/sync.go:143-145 | under root `"."` the as-written reader opens the walked file itself |
| `FingerprintIndex.LoadS3Files` | gosync/sync.go:120-137 | a failed listing of the resolved bucket aborts; otherwise the filled map is the S3 index of the listing |
| `FingerprintIndex.S3IndexKeys` | gosync/sync.go:131-134 | the keys are exactly the listed keys with the whole locator trimmed when it is a prefix |
| `FingerprintIndex.S3IndexValues` | gosync/sync.go:132-134 | each key maps to the quote-trimmed ETag of the last object listed under it |
| `FingerprintIndex.S3KeysKeptWhole` | gosync/sync.go:133 | a listed key that does not start with `s3://` is never trimmed by an `s3://` locator |
| `GoStrings.TrimPrefix` | gosync/sync.go:133 | the result is what follows the prefix when present, else the input unchanged |
| `GoStrings.TrimQuotes` | gosync/sync.go:132 | `strings.Trim(etag, "\"")`: every leading and trailing quote removed (characterised by the next two rows) |
| `GoStrings.TrimQuotesSplits` | gosync/sync.go:132 | the trimmed ETag is the middle of the tag between two quote-only runs, and neither starts nor ends with a quote |
| `GoStrings.TrimQuotesUnwraps` | gosync/sync.go:132 | a quote-free tag wrapped in one pair of quotes comes back unchanged |

## Findings

| source | as written | input that shows it | evidently intended | confidence | as-written member | corrected member |
|---|---|---|---|---|---|---|
| gosync/sync.go:143-145 | the walk callback reads `ioutil.ReadFile(p)`, where `p` is the root-relative key, so the file is opened relative to the working directory instead of the walk root | root `"data"`, walked file `"data/a.txt"`: the code opens `"a.txt"`, which fails (a panic) or reads an unrelated file | read the walked file `filePath` and key it by `p` | high, not executed | `FingerprintIndex.AsWrittenMisreadsUnderOtherRoots` | `FingerprintIndex.LocalIndexValues` |
| gosync/sync.go:133 | an upload stores `file` at key `Key() + "/" + file` (line 67), but the S3 index trims the whole `s3://…` locator from listed keys, which is never a prefix of such a key | source `{"a.txt": fp}`, target `s3://b/p` with `Key()` `"p"`: the upload writes `p/a.txt`, the next listing indexes `p/a.txt`, and `a.txt` is uploaded again on every run | index listed keys relative to `Key() + "/"`, so an upload run brings the bucket in line | medium, not executed | `SyncEngine.SecondDirToS3RunReuploads` | `SyncEngine.CorrectedUploadRoundTrip` |

The as-written reader is `FingerprintIndex.ReadAtRelativePath`. The rest of
the model, `SyncEngine.LocalSide` included, reads the walked path. Under
root `"."` the two agree (`FingerprintIndex.AsWrittenAgreesUnderDot`).

The corrected key mapping is `FingerprintIndex.PrefixRelativeIndex`. The
two routines keep the as-written mapping of line 133. For a download it is
what makes `GetTask` fetch the right object, since the listed key is the
whole key.

## Left out

- The S3 client is left out: `s3.New`, `Bucket.List`, and `Put`/`Get` and
  their errors, which are defined outside `gosync/sync.go`. Region probes and
  listings are inputs, and a transfer is the `Transfer` value it would
  perform.
- The `S3Url` accessors `Bucket()`, `Key()` and `Path()` are not part of this
  model. They are input functions of `S3World`.
- The filesystem is left out. `pathExists` (`os.Stat`), `filepath.Walk`'s
  visiting order and `ioutil.ReadFile` are inputs. The walk's error callback
  (where `info` is nil) is not modelled.
- SyncEngine.SyncS3ToDir: does not model the `filepath.Dir`/`os.MkdirAll`
  step before each download (lines 98-103), or its panic, because it is
  filesystem I/O.
- MD5 hashing and hex formatting are an input function `md5`.
- Goroutines and channels are left out. A launch and a receive are
  sequential events, and the completion message is `Completed(task)`
  rather than the formatted string.
- `fmt.Printf` logging is left out.
- Credentials (`SyncPair.Auth`) are left out. Authentication lives in the
  S3 world.
- Go map iteration order is left open. For `aws.Regions` it is a probe
  sequence given per bucket name and per `lookupBucket` call; for the
  indices it is a nondeterministic choice.
- SyncEngine.SyncDirToS3, SyncEngine.SyncS3ToDir: build the local index by
  reading the walked path, the corrected reader of "## Findings". As
  written, line 145 opens the root-relative key, which panics or reads
  another file under any root other than `"."`.
- SyncEngine.SyncDirToS3, SyncEngine.SyncS3ToDir: when no region's probe
  succeeds, the zero-value bucket is listed and used for transfers. The
  source would then panic on its nil client. The model leaves that listing
  to the `list` input, so it can return `Synced` where the source panics.
- SyncEngine.SecondRunTransfersNothing: states only that indices already in
  agreement launch nothing. It does not claim that a run produces
  agreement, which for uploads it does not as written (see "## Findings").
- A panic is the `Aborted` outcome, not a process exit. Nothing after it is
  modelled.
