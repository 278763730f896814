/**
 * Endpoint validation: an endpoint is an existing local path or an
 * `s3://bucket/prefix` locator. Whether a local path exists is asked of the
 * filesystem, which is an input here (`pathExists`).
 */
module Endpoints {
  import opened GoStrings

  const S3Scheme: string := "s3://"

  /** `validS3Url`: the locator test is a plain prefix test on the scheme. */
  predicate ValidS3Url(path: string) {
    HasPrefix(path, S3Scheme)
  }

  /** `validTarget`: an existing local path, or else an S3 locator. */
  predicate ValidTarget(target: string, pathExists: string -> bool) {
    pathExists(target) || ValidS3Url(target)
  }

  /** `validPair`: both ends must be valid targets. */
  predicate ValidPair(source: string, target: string, pathExists: string -> bool) {
    ValidTarget(source, pathExists) && ValidTarget(target, pathExists)
  }

  /** A string is an S3 locator exactly when it is the scheme followed by anything. */
  lemma ValidS3UrlIffSchemePlusRest(path: string)
    ensures ValidS3Url(path) <==> exists rest :: path == S3Scheme + rest
  {
    if ValidS3Url(path) {
      assert path == S3Scheme + path[|S3Scheme|..];
    } else {
      forall rest ensures path != S3Scheme + rest {
        assert S3Scheme <= S3Scheme + rest;
      }
    }
  }

  /**
   * A pair is rejected exactly when one of its ends is neither an existing
   * path nor an S3 locator.
   */
  lemma InvalidPairNamesABadEnd(source: string, target: string, pathExists: string -> bool)
    ensures !ValidPair(source, target, pathExists) <==>
      exists e :: e in [source, target] && !pathExists(e) && !(exists rest :: e == S3Scheme + rest)
  {
    ValidS3UrlIffSchemePlusRest(source);
    ValidS3UrlIffSchemePlusRest(target);
    if !ValidPair(source, target, pathExists) {
      var e := if ValidTarget(source, pathExists) then target else source;
      assert e in [source, target];
    }
  }
}
