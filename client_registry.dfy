/**
 * Bucket-level operations of s3dol/base.py: `S3ClientReader` and
 * `S3ClientDol` expose the buckets of one client as views, and `S3Dol`
 * refuses to start without any credential profile.
 */
module ClientRegistry {
  import opened Wrappers
  import opened Sequences
  import opened Backend
  import opened BucketView

  /** `S3ClientReader.__getitem__`: the whole bucket as a view, built without any request. */
  function BucketOf(c: Client, name: string): (v: View)
    ensures v.client == c && v.bucketName == name
    ensures v.prefix == [] && v.delimiter == DefaultDelimiter
    ensures !v.noBucketCheck && !v.skipCheckAttr
    ensures forall k :: IdOfKey(v, k) == k
  {
    View(c, name, [], DefaultDelimiter, false, false)
  }

  /** `S3ClientDol.__getitem__`: always issues create_bucket, then returns the bucket's view. */
  method GetBucket(c: Client, name: string) returns (v: View)
    modifies c
    ensures c.buckets == StoreAfterCreate(old(c.buckets), name) && name in c.buckets
    ensures forall b :: b in old(c.buckets) ==> b in c.buckets && c.buckets[b] == old(c.buckets)[b]
    ensures c.log == old(c.log) + [CreateBucketCall(name)]
    ensures v == BucketOf(c, name)
  {
    c.CreateBucket(name);
    v := BucketOf(c, name);
  }

  /**
   * `S3ClientDol.__setitem__`: creates the bucket and ignores the value;
   * `warned` is whether a UserWarning is emitted (a value other than None).
   */
  method SetBucket(c: Client, name: string, valueGiven: bool) returns (warned: bool)
    modifies c
    ensures c.buckets == StoreAfterCreate(old(c.buckets), name) && name in c.buckets
    ensures c.log == old(c.log) + [CreateBucketCall(name)]
    ensures warned == valueGiven
  {
    c.CreateBucket(name);
    warned := valueGiven;
  }

  /** Removing the ids of one listing from a bucket that holds more leaves the surplus behind. */
  lemma RemainingAfterBatch(objs: Objects, ids: seq<string>)
    requires Distinct(ids) && Elems(ids) <= objs.Keys
    requires |ids| == Min(|objs|, MaxKeys)
    ensures |objs - Elems(ids)| == |objs| - |ids|
    ensures |objs - Elems(ids)| == 0 <==> |objs| <= MaxKeys
  {
    DistinctCard(ids);
    assert (objs - Elems(ids)).Keys == objs.Keys - Elems(ids);
    assert objs.Keys * Elems(ids) == Elems(ids);
  }

  /**
   * `S3ClientDol.__delitem__`: one list_objects_v2, one delete_objects
   * with every id of that listing (skipped when it lists nothing), then
   * delete_bucket. A listing holds at most MaxKeys ids, so a bucket with
   * more objects keeps the surplus and the final request fails with
   * BucketNotEmpty.
   */
  method DeleteBucket(c: Client, name: string) returns (r: Outcome<Error>, ghost listed: seq<string>)
    modifies c
    ensures name !in old(c.buckets) ==>
              r == Fail(ClientError(NoSuchBucketCode)) && c.buckets == old(c.buckets) &&
              c.log == old(c.log) + [ListObjectsV2Call(name)]
    ensures name in old(c.buckets) ==>
              Distinct(listed) && Elems(listed) <= old(c.buckets)[name].Keys &&
              |listed| == Min(|old(c.buckets)[name]|, MaxKeys) &&
              c.log == old(c.log) + [ListObjectsV2Call(name)] +
                       (if listed == [] then [] else [DeleteObjectsCall(name, listed)]) +
                       [DeleteBucketCall(name)]
    ensures name in old(c.buckets) && |old(c.buckets)[name]| <= MaxKeys ==>
              r == Pass && c.buckets == old(c.buckets) - {name}
    ensures name in old(c.buckets) && |old(c.buckets)[name]| > MaxKeys ==>
              r == Fail(ClientError(BucketNotEmptyCode)) &&
              c.buckets == old(c.buckets)[name := old(c.buckets)[name] - Elems(listed)] &&
              |c.buckets[name]| == |old(c.buckets)[name]| - MaxKeys
  {
    var res := c.ListObjectsV2(name);
    if res.Err? {
      return Fail(res.error), [];
    }
    listed := res.value;
    RemainingAfterBatch(c.buckets[name], listed);
    if |res.value| > 0 {
      var batch := c.DeleteObjects(name, res.value);
    } else {
      assert c.buckets[name] - Elems(listed) == c.buckets[name];
    }
    r := c.DeleteBucket(name);
  }

  /** `S3ClientReader.__iter__`: the name of every bucket, once. */
  method BucketNames(c: Client) returns (names: seq<string>)
    modifies c`log
    ensures Distinct(names) && Elems(names) == c.buckets.Keys
    ensures c.log == old(c.log) + [ListBucketsCall]
  {
    names := c.ListBuckets();
  }

  /** `S3Dol`: the profiles it iterates over, fixed at construction. */
  datatype Root = Root(profiles: seq<string>)

  /** `S3Dol.__init__`: fails with noCredentialsFound exactly when no profile is available. */
  function OpenRoot(profiles: seq<string>): (r: Result<Root, Error>)
    ensures r.Err? <==> |profiles| == 0
    ensures r.Err? ==> r.error == NoCredentials
    ensures r.Ok? ==> r.value.profiles == profiles
  {
    if |profiles| == 0 then Err(NoCredentials) else Ok(Root(profiles))
  }
}
