/**
 * The object-storage service the views talk to, as an in-memory store.
 * Every request the Python code sends through its `boto3` client is a
 * method of `Client`; each one appends itself to `log`, so the model can
 * say which requests an operation issues and in what order.
 */
module Backend {
  import opened Wrappers
  import opened Sequences

  type byte = b: int | 0 <= b < 256
  type Bytes = seq<byte>
  /** object id -> object body, for one bucket */
  type Objects = map<string, Bytes>
  /** bucket name -> its objects */
  type Store = map<string, Objects>

  /** At most this many ids come back from one listing request (S3's MaxKeys default). */
  const MaxKeys: nat := 1000

  /** Error codes carried by the service's `ClientError`s. */
  const NoSuchBucketCode: string := "NoSuchBucket"
  const NoSuchKeyCode: string := "NoSuchKey"
  const NotFoundCode: string := "404"
  const BucketNotEmptyCode: string := "BucketNotEmpty"

  /** The exceptions the modelled code raises or lets through. */
  datatype Error =
    | ClientError(code: string)   // botocore ClientError with response['Error']['Code']
    | KeyNotValid                 // s3dol.utility.KeyNotValidError
    | KeyErr(key: string)         // Python KeyError
    | TypeErr                     // Python TypeError
    | NoCredentials               // the noCredentialsFound S3DolException

  /** One request issued against the client. */
  datatype Call =
    | CreateBucketCall(bucket: string)
    | DeleteBucketCall(bucket: string)
    | ListBucketsCall
    | BucketMembershipCall(bucket: string)
    | PutObjectCall(bucket: string, id: string)
    | GetObjectCall(bucket: string, id: string)
    | HeadObjectCall(bucket: string, id: string)
    | DeleteObjectCall(bucket: string, id: string)
    | DeleteObjectsCall(bucket: string, ids: seq<string>)
    | ListObjectsV2Call(bucket: string)
    | ListObjectsCall(bucket: string, prefix: string)

  /** The ids of `objs` that a listing with `Prefix=prefix` returns. */
  function Matching(objs: Objects, prefix: string): set<string>
  {
    set id | id in objs && StartsWith(id, prefix)
  }

  /** Every page holds at least one and at most MaxKeys ids. */
  predicate Paged(pages: seq<seq<string>>)
  {
    forall i :: 0 <= i < |pages| ==> 0 < |pages[i]| <= MaxKeys
  }

  // The service's answers, as functions of the store.

  /** create_bucket: creating a bucket that exists is accepted and changes nothing. */
  function StoreAfterCreate(s: Store, name: string): Store
  {
    if name in s then s else s[name := map[]]
  }

  /** get_object */
  function FetchObject(s: Store, bucket: string, id: string): Result<Bytes, Error>
  {
    if bucket !in s then Err(ClientError(NoSuchBucketCode))
    else if id !in s[bucket] then Err(ClientError(NoSuchKeyCode))
    else Ok(s[bucket][id])
  }

  /** head_object: a missing object or bucket answers with the bare status 404. */
  function ProbeObject(s: Store, bucket: string, id: string): Outcome<Error>
  {
    if bucket in s && id in s[bucket] then Pass else Fail(ClientError(NotFoundCode))
  }

  /** put_object: last write wins; a service that creates buckets on first write does so here. */
  function StoreAfterPut(s: Store, createsBucketOnPut: bool, bucket: string, id: string, body: Bytes)
    : Result<Store, Error>
  {
    if bucket in s then Ok(s[bucket := s[bucket][id := body]])
    else if createsBucketOnPut then Ok(s[bucket := map[id := body]])
    else Err(ClientError(NoSuchBucketCode))
  }

  /** delete_object: deleting an absent id is accepted as a no-op. */
  function StoreAfterDelete(s: Store, bucket: string, id: string): Result<Store, Error>
  {
    if bucket !in s then Err(ClientError(NoSuchBucketCode))
    else Ok(s[bucket := s[bucket] - {id}])
  }

  /** Up to `n` distinct members of `pool`, in an order the service chooses. */
  method TakeIds(pool: set<string>, n: nat) returns (ids: seq<string>)
    ensures Distinct(ids) && Elems(ids) <= pool
    ensures |ids| == Min(|pool|, n)
    ensures |pool| <= n ==> Elems(ids) == pool
  {
    var rest := pool;
    ids := [];
    while |ids| < n && rest != {}
      invariant Distinct(ids)
      invariant Elems(ids) !! rest && Elems(ids) + rest == pool
      invariant |ids| + |rest| == |pool|
      invariant |ids| <= n
      decreases rest
    {
      var id :| id in rest;
      ids := ids + [id];
      rest := rest - {id};
    }
  }

  /** Cuts `all` into pages of at most MaxKeys ids, each id on exactly one page. */
  method Paginate(all: set<string>) returns (pages: seq<seq<string>>)
    ensures Paged(pages) && Distinct(Flatten(pages)) && Elems(Flatten(pages)) == all
  {
    var rest := all;
    pages := [];
    while rest != {}
      invariant Paged(pages) && Distinct(Flatten(pages))
      invariant Elems(Flatten(pages)) !! rest && Elems(Flatten(pages)) + rest == all
      decreases rest
    {
      var page := TakeIds(rest, MaxKeys);
      PageStep(pages, page, rest, all);
      pages := pages + [page];
      rest := rest - Elems(page);
    }
  }

  lemma PageStep(pages: seq<seq<string>>, page: seq<string>, rest: set<string>, all: set<string>)
    requires Paged(pages) && Distinct(Flatten(pages))
    requires Elems(Flatten(pages)) !! rest && Elems(Flatten(pages)) + rest == all
    requires rest != {} && Distinct(page) && Elems(page) <= rest && |page| == Min(|rest|, MaxKeys)
    ensures Paged(pages + [page]) && Distinct(Flatten(pages + [page]))
    ensures Elems(Flatten(pages + [page])) !! (rest - Elems(page))
    ensures Elems(Flatten(pages + [page])) + (rest - Elems(page)) == all
    ensures rest - Elems(page) < rest
  {
    assert |rest| > 0;
    PagedAppend(pages, page);
    assert page[0] in rest && page[0] !in rest - Elems(page);
    FlattenAppend(pages, page);
    DistinctConcat(Flatten(pages), page);
    ElemsAppend(Flatten(pages), page, rest, all);
  }

  lemma PagedAppend(pages: seq<seq<string>>, page: seq<string>)
    requires Paged(pages) && 0 < |page| <= MaxKeys
    ensures Paged(pages + [page])
  {
    forall i | 0 <= i < |pages + [page]| ensures 0 < |(pages + [page])[i]| <= MaxKeys {
      if i < |pages| {
        assert (pages + [page])[i] == pages[i];
      }
    }
  }

  lemma ElemsAppend(flat: seq<string>, page: seq<string>, rest: set<string>, all: set<string>)
    requires Elems(flat) !! rest && Elems(flat) + rest == all && Elems(page) <= rest
    ensures Elems(flat + page) == Elems(flat) + Elems(page)
    ensures Elems(flat + page) !! (rest - Elems(page))
    ensures Elems(flat + page) + (rest - Elems(page)) == all
  {
    assert Elems(flat + page) == Elems(flat) + Elems(page);
  }

  class Client {
    var buckets: Store
    var log: seq<Call>
    const createsBucketOnPut: bool

    constructor (initial: Store, createsBucketOnPut: bool)
      ensures buckets == initial && log == []
      ensures this.createsBucketOnPut == createsBucketOnPut
    {
      buckets := initial;
      log := [];
      this.createsBucketOnPut := createsBucketOnPut;
    }

    method CreateBucket(name: string)
      modifies this
      ensures buckets == StoreAfterCreate(old(buckets), name) && name in buckets
      ensures log == old(log) + [CreateBucketCall(name)]
    {
      buckets := StoreAfterCreate(buckets, name);
      log := log + [CreateBucketCall(name)];
    }

    /** delete_bucket: refused while the bucket still holds objects. */
    method DeleteBucket(name: string) returns (r: Outcome<Error>)
      modifies this
      ensures name !in old(buckets) ==> r == Fail(ClientError(NoSuchBucketCode)) && buckets == old(buckets)
      ensures name in old(buckets) && |old(buckets)[name]| > 0 ==>
                r == Fail(ClientError(BucketNotEmptyCode)) && buckets == old(buckets)
      ensures name in old(buckets) && |old(buckets)[name]| == 0 ==>
                r == Pass && buckets == old(buckets) - {name}
      ensures log == old(log) + [DeleteBucketCall(name)]
    {
      log := log + [DeleteBucketCall(name)];
      if name !in buckets {
        r := Fail(ClientError(NoSuchBucketCode));
      } else if |buckets[name]| > 0 {
        r := Fail(ClientError(BucketNotEmptyCode));
      } else {
        r := Pass;
        buckets := buckets - {name};
      }
    }

    /** list_buckets: every bucket name once. */
    method ListBuckets() returns (names: seq<string>)
      modifies this`log
      ensures Distinct(names) && Elems(names) == buckets.Keys
      ensures log == old(log) + [ListBucketsCall]
    {
      log := log + [ListBucketsCall];
      names := TakeIds(buckets.Keys, |buckets.Keys|);
    }

    method PutObject(bucket: string, id: string, body: Bytes) returns (r: Outcome<Error>)
      modifies this
      ensures var after := StoreAfterPut(old(buckets), createsBucketOnPut, bucket, id, body);
              (after.Ok? ==> r == Pass && buckets == after.value) &&
              (after.Err? ==> r == Fail(after.error) && buckets == old(buckets))
      ensures log == old(log) + [PutObjectCall(bucket, id)]
    {
      log := log + [PutObjectCall(bucket, id)];
      var after := StoreAfterPut(buckets, createsBucketOnPut, bucket, id, body);
      if after.Ok? {
        buckets := after.value;
        r := Pass;
      } else {
        r := Fail(after.error);
      }
    }

    method GetObject(bucket: string, id: string) returns (r: Result<Bytes, Error>)
      modifies this`log
      ensures r == FetchObject(buckets, bucket, id)
      ensures log == old(log) + [GetObjectCall(bucket, id)]
    {
      log := log + [GetObjectCall(bucket, id)];
      r := FetchObject(buckets, bucket, id);
    }

    method HeadObject(bucket: string, id: string) returns (r: Outcome<Error>)
      modifies this`log
      ensures r == ProbeObject(buckets, bucket, id)
      ensures log == old(log) + [HeadObjectCall(bucket, id)]
    {
      log := log + [HeadObjectCall(bucket, id)];
      r := ProbeObject(buckets, bucket, id);
    }

    method DeleteObject(bucket: string, id: string) returns (r: Outcome<Error>)
      modifies this
      ensures var after := StoreAfterDelete(old(buckets), bucket, id);
              (after.Ok? ==> r == Pass && buckets == after.value) &&
              (after.Err? ==> r == Fail(after.error) && buckets == old(buckets))
      ensures log == old(log) + [DeleteObjectCall(bucket, id)]
    {
      log := log + [DeleteObjectCall(bucket, id)];
      var after := StoreAfterDelete(buckets, bucket, id);
      if after.Ok? {
        buckets := after.value;
        r := Pass;
      } else {
        r := Fail(after.error);
      }
    }

    /** delete_objects: one batched request; absent ids count as deleted. */
    method DeleteObjects(bucket: string, ids: seq<string>) returns (r: Outcome<Error>)
      modifies this
      ensures bucket !in old(buckets) ==> r == Fail(ClientError(NoSuchBucketCode)) && buckets == old(buckets)
      ensures bucket in old(buckets) ==>
                r == Pass && buckets == old(buckets)[bucket := old(buckets)[bucket] - Elems(ids)]
      ensures log == old(log) + [DeleteObjectsCall(bucket, ids)]
    {
      log := log + [DeleteObjectsCall(bucket, ids)];
      if bucket !in buckets {
        r := Fail(ClientError(NoSuchBucketCode));
      } else {
        buckets := buckets[bucket := buckets[bucket] - Elems(ids)];
        r := Pass;
      }
    }

    /** list_objects_v2 without a continuation: one response of at most MaxKeys ids. */
    method ListObjectsV2(bucket: string) returns (r: Result<seq<string>, Error>)
      modifies this`log
      ensures bucket !in buckets ==> r == Err(ClientError(NoSuchBucketCode))
      ensures bucket in buckets ==>
                r.Ok? && Distinct(r.value) && Elems(r.value) <= buckets[bucket].Keys &&
                |r.value| == Min(|buckets[bucket]|, MaxKeys)
      ensures bucket in buckets && |buckets[bucket]| <= MaxKeys ==> r.Ok? && Elems(r.value) == buckets[bucket].Keys
      ensures log == old(log) + [ListObjectsV2Call(bucket)]
    {
      log := log + [ListObjectsV2Call(bucket)];
      if bucket !in buckets {
        r := Err(ClientError(NoSuchBucketCode));
      } else {
        var ids := TakeIds(buckets[bucket].Keys, MaxKeys);
        r := Ok(ids);
      }
    }

    /**
     * The `list_objects` paginator: every id under `prefix`, exactly once,
     * cut into pages of at most MaxKeys ids.
     */
    method ListObjects(bucket: string, prefix: string) returns (r: Result<seq<seq<string>>, Error>)
      modifies this`log
      ensures bucket !in buckets ==> r == Err(ClientError(NoSuchBucketCode))
      ensures bucket in buckets ==>
                r.Ok? && Paged(r.value) && Distinct(Flatten(r.value)) &&
                Elems(Flatten(r.value)) == Matching(buckets[bucket], prefix)
      ensures log == old(log) + [ListObjectsCall(bucket, prefix)]
    {
      log := log + [ListObjectsCall(bucket, prefix)];
      if bucket !in buckets {
        return Err(ClientError(NoSuchBucketCode));
      }
      var pages := Paginate(Matching(buckets[bucket], prefix));
      r := Ok(pages);
    }
  }
}
