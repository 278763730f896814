/**
 * `lookupBucket`: probe every candidate region with an empty listing and
 * keep the bucket handle of the LAST region whose probe succeeded. The
 * region iteration order (a Go map) and the probe outcomes are inputs.
 */
module BucketLocator {
  import opened Wrappers

  /** `s3.Bucket`: the client it is bound to (by region) and its name. */
  datatype Bucket = Bucket(region: Option<string>, name: string)

  /** Go's zero-value `s3.Bucket`: no client, empty name. */
  const ZeroBucket: Bucket := Bucket(None, "")

  /** What `b.List("", "", "", 0)` answered in one region. */
  datatype ProbeOutcome = Listed | ListError(message: string)

  datatype Probe = Probe(region: string, outcome: ProbeOutcome)

  /** The error text the source singles out before `continue`. */
  const Missing301: string := "Get : 301 response missing Location header"

  /** Index of the last successful probe, if any. */
  function LastSuccess(probes: seq<Probe>): (r: Option<nat>)
    ensures r.Some? ==> r.value < |probes| && probes[r.value].outcome.Listed?
    ensures r.Some? ==> forall j :: r.value < j < |probes| ==> !probes[j].outcome.Listed?
    ensures r.None? ==> forall j :: 0 <= j < |probes| ==> !probes[j].outcome.Listed?
  {
    if probes == [] then None
    else if probes[|probes| - 1].outcome.Listed? then Some(|probes| - 1)
    else LastSuccess(probes[..|probes| - 1])
  }

  /** The bucket `lookupBucket` hands back for these probes. */
  function ResolvedBucket(name: string, probes: seq<Probe>): Bucket {
    match LastSuccess(probes)
    case None => ZeroBucket
    case Some(i) => Bucket(Some(probes[i].region), name)
  }

  method LookupBucket(bucketName: string, probes: seq<Probe>) returns (bucket: Bucket)
    ensures bucket == ResolvedBucket(bucketName, probes)
    ensures (forall j :: 0 <= j < |probes| ==> !probes[j].outcome.Listed?) ==> bucket == ZeroBucket
    ensures bucket != ZeroBucket ==>
      exists i :: 0 <= i < |probes| && probes[i].outcome.Listed?
        && bucket == Bucket(Some(probes[i].region), bucketName)
        && (forall j :: i < j < |probes| ==> !probes[j].outcome.Listed?)
  {
    bucket := ZeroBucket;
    var r := 0;
    while r < |probes|
      invariant 0 <= r <= |probes|
      invariant bucket == ResolvedBucket(bucketName, probes[..r])
    {
      assert probes[..r + 1][..r] == probes[..r];
      var outcome := probes[r].outcome;
      if outcome.Listed? {
        bucket := Bucket(Some(probes[r].region), bucketName);
      } else if outcome.message == Missing301 {
        r := r + 1;
        continue;
      }
      r := r + 1;
    }
    assert probes[..r] == probes;
  }

  /** Same regions, same successes. */
  predicate SameSuccesses(p: seq<Probe>, q: seq<Probe>) {
    |p| == |q| && forall j :: 0 <= j < |p| ==>
      p[j].region == q[j].region && p[j].outcome.Listed? == q[j].outcome.Listed?
  }

  /**
   * Failure kinds are not told apart: a 301 and any other error leave the
   * result alike, so only which regions succeeded matters.
   */
  lemma ErrorKindIrrelevant(name: string, p: seq<Probe>, q: seq<Probe>)
    requires SameSuccesses(p, q)
    ensures ResolvedBucket(name, p) == ResolvedBucket(name, q)
  {
  }

  /** Region names are the keys of a map, so they never repeat. */
  predicate DistinctRegions(probes: seq<Probe>) {
    forall a, b :: 0 <= a < b < |probes| ==> probes[a].region != probes[b].region
  }

  /**
   * A later success overrides an earlier one: the last match wins, and an
   * earlier successful region is not the one reported.
   */
  lemma LastMatchWins(name: string, probes: seq<Probe>, i: nat, j: nat)
    requires i < j < |probes|
    requires probes[i].outcome.Listed? && probes[j].outcome.Listed?
    ensures exists k :: j <= k < |probes| && ResolvedBucket(name, probes) == Bucket(Some(probes[k].region), name)
    ensures DistinctRegions(probes) ==> ResolvedBucket(name, probes) != Bucket(Some(probes[i].region), name)
  {
    var k := LastSuccess(probes);
    assert k.Some? && k.value >= j;
  }
}
