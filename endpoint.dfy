/** Derivation of bucket, region and zone from the host of the endpoint URL,
    as done when the adapter is constructed. */
module Endpoint {
  import opened Text

  /** Region name to Kodo zone code. */
  const Regions: map<string, int> :=
    map["cn-east-1" := 0, "cn-north-1" := 1, "cn-south-1" := 2, "us-west-1" := 3]

  /** The zone of a region; a region missing from the table reads as Go's zero value. */
  function ZoneOf(region: string): (zone: int)
    ensures region in Regions ==> zone == Regions[region]
    ensures region !in Regions ==> zone == 0
    ensures 0 <= zone <= 3
  {
    if region in Regions then Regions[region] else 0
  }

  lemma ZoneTable()
    ensures ZoneOf("cn-east-1") == 0 && ZoneOf("cn-north-1") == 1
    ensures ZoneOf("cn-south-1") == 2 && ZoneOf("us-west-1") == 3
    ensures forall r :: ZoneOf(r) != 0 ==> r in {"cn-north-1", "cn-south-1", "us-west-1"}
  {
  }

  /** What the constructor derives: the bucket, the endpoint handed to the S3
      client (the host after the bucket), the region and the zone. */
  datatype Endpoint = Endpoint(bucket: string, endpoint: string, region: string, zone: int)

  /** The hosts the constructor accepts without panicking: a '.' to split off
      the bucket, and a '-' after it to cut the region at. */
  predicate WellFormedHost(host: string) {
    '.' in host && '-' in host[Find(host, '.') + 1..]
  }

  function Resolve(host: string): (e: Endpoint)
    requires WellFormedHost(host)
    ensures host == e.bucket + "." + e.endpoint && '.' !in e.bucket
    ensures |e.region| < |e.endpoint| && e.endpoint[..|e.region|] == e.region
    ensures e.endpoint[|e.region|] == '-' && '-' !in e.endpoint[|e.region| + 1..]
    ensures e.zone == ZoneOf(e.region)
  {
    var dot := Find(host, '.');
    var endpoint := host[dot + 1..];
    var region := endpoint[..FindLast(endpoint, '-')];
    assert host == host[..dot] + "." + endpoint;
    Endpoint(host[..dot], endpoint, region, ZoneOf(region))
  }

  /** Resolve inverts the composition of a host from its parts: the bucket is
      everything before the first '.', the region everything up to the last '-'. */
  lemma {:induction false} ResolveCompose(bucket: string, region: string, suffix: string)
    requires '.' !in bucket && '-' !in suffix
    ensures WellFormedHost(bucket + "." + region + "-" + suffix)
    ensures Resolve(bucket + "." + region + "-" + suffix)
         == Endpoint(bucket, region + "-" + suffix, region, ZoneOf(region))
  {
    var endpoint := region + "-" + suffix;
    var host := bucket + "." + endpoint;
    assert bucket + "." + region + "-" + suffix == host;
    FindAfter(bucket, '.', endpoint);
    var dot := Find(host, '.');
    assert dot == |bucket|;
    assert host[..dot] == bucket;
    assert host[dot + 1..] == endpoint;
    FindLastBefore(region, '-', suffix);
    var dash := FindLast(endpoint, '-');
    assert dash == |region|;
    assert endpoint[..dash] == region;
    assert WellFormedHost(host);
  }
}
