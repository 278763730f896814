/**
 * What the sync engine asks of the outside world, as inputs: the local
 * filesystem, the S3 service, and the parts of the `S3Url` type whose code
 * is not part of this model.
 */
module Environment {
  import opened Wrappers
  import opened BucketLocator

  type Bytes = seq<bv8>

  /** One callback of `filepath.Walk`: the visited path and whether it is a directory. */
  datatype WalkEntry = WalkEntry(path: string, isDir: bool)

  /** One entry of an S3 listing: the object key and its ETag as the service sends it. */
  datatype S3Object = S3Object(key: string, etag: string)

  datatype FsWorld = FsWorld(
    pathExists: string -> bool,             // os.Stat succeeded
    walk: string -> seq<WalkEntry>,         // filepath.Walk visiting order under a root
    read: string -> Option<Bytes>)          // ioutil.ReadFile; None is an error

  /**
   * Which of a run's two `lookupBucket` calls is meant: the one inside
   * `loadS3Files` and the routine's own. Each call ranges over `aws.Regions`
   * afresh, in its own order, so the two may settle on different regions.
   */
  datatype LookupCall = ListingLookup | TransferLookup

  datatype S3World = S3World(
    bucketName: string -> string,           // S3Url.Bucket()
    keyPrefix: string -> string,            // S3Url.Key()
    path: string -> string,                 // S3Url.Path()
    probes: (string, LookupCall) -> seq<Probe>,  // per bucket name and call: aws.Regions in that call's order, probe answers
    list: (Bucket, string) -> Result<seq<S3Object>, string>)  // bucket.List(prefix, "", "", 0)
}
