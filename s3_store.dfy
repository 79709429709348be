/**
 * s3dol/store.py: the bucket-lifecycle choice of `S3Store` and
 * `validate_bucket`, the view that never checks its bucket
 * (`S3BucketDolWithouBucketCheck`) and the Supabase read path
 * (`SupabaseS3Store.__getitem__`).
 */
module S3StoreFactory {
  import opened Wrappers
  import opened Sequences
  import opened Backend
  import opened BucketView
  import opened ClientRegistry
  import opened PayloadRepair

  /**
   * `endpoint_url and '.supabase.' in endpoint_url`: a Supabase endpoint is
   * one whose URL holds the ten characters `.supabase.` at some position.
   */
  function IsSupabaseEndpoint(endpoint: Option<string>): (r: bool)
    ensures r <==> endpoint.Some? && exists i :: OccursAt(endpoint.value, ".supabase.", i)
  {
    if endpoint.None? then false
    else
      HasSubstringAt(endpoint.value, ".supabase.");
      |endpoint.value| > 0 && HasSubstring(endpoint.value, ".supabase.")
  }

  /** The prefix `prefix=path` gives: keys are built with an f-string, so None reads as "None". */
  function PathPrefix(path: Option<string>): string
  {
    if path.Some? then path.value else "None"
  }

  /**
   * `bucket_name in s3_client`: the membership test the client inherits
   * from the mapping protocol; its answer is the parameter `member`.
   */
  method BucketMember(c: Client, name: string, member: (Store, string) -> bool) returns (present: bool)
    modifies c`log
    ensures present == member(c.buckets, name)
    ensures c.log == old(c.log) + [BucketMembershipCall(name)]
  {
    c.log := c.log + [BucketMembershipCall(name)];
    present := member(c.buckets, name);
  }

  /**
   * `validate_bucket`: None skips the test; True tests membership and
   * creates (through `s3_client[name] = {}`, which warns) only when the
   * bucket is reported absent; False neither tests nor raises. Every mode
   * then indexes the client, which issues create_bucket again, so the
   * bucket exists afterwards in all three.
   */
  method ValidateBucket(c: Client, name: string, makeBucket: Option<bool>, member: (Store, string) -> bool)
    returns (v: View, warned: bool)
    modifies c
    ensures v == BucketOf(c, name)
    ensures c.buckets == StoreAfterCreate(old(c.buckets), name) && name in c.buckets
    ensures warned <==> makeBucket == Some(true) && !member(old(c.buckets), name)
    ensures makeBucket != Some(true) ==> c.log == old(c.log) + [CreateBucketCall(name)]
    ensures makeBucket == Some(true) ==>
              c.log == old(c.log) + [BucketMembershipCall(name)] +
                       (if warned then [CreateBucketCall(name)] else []) + [CreateBucketCall(name)]
  {
    warned := false;
    if makeBucket.None? {
      v := GetBucket(c, name);
      return;
    }
    if makeBucket == Some(true) {
      var present := BucketMember(c, name, member);
      if !present {
        warned := SetBucket(c, name, true);
      }
    }
    v := GetBucket(c, name);
  }

  /**
   * `S3Store`. An endpoint containing ".supabase." gives a view that never
   * checks its bucket, with prefix `path`, and sends no request. Any other
   * endpoint indexes the client (create_bucket), drops `path`, marks the
   * view with `skip_bucket_exists_check` when `make_bucket` is None, and
   * for True creates again when the bucket is then reported absent. Here
   * `c` stands for whichever client the branch builds.
   */
  method S3Store(c: Client, name: string, makeBucket: Option<bool>, path: Option<string>,
                 endpoint: Option<string>, member: (Store, string) -> bool)
    returns (v: View, warned: bool)
    modifies c
    ensures IsSupabaseEndpoint(endpoint) ==>
              v == View(c, name, PathPrefix(path), DefaultDelimiter, true, false) && !warned &&
              c.buckets == old(c.buckets) && c.log == old(c.log)
    ensures !IsSupabaseEndpoint(endpoint) ==>
              v == BucketOf(c, name).(skipCheckAttr := makeBucket.None?) &&
              c.buckets == StoreAfterCreate(old(c.buckets), name) && name in c.buckets &&
              (warned <==> makeBucket == Some(true) && !member(StoreAfterCreate(old(c.buckets), name), name)) &&
              c.log == old(c.log) + [CreateBucketCall(name)] +
                       (if makeBucket == Some(true) then [BucketMembershipCall(name)] else []) +
                       (if warned then [CreateBucketCall(name)] else [])
  {
    warned := false;
    if IsSupabaseEndpoint(endpoint) {
      v := View(c, name, PathPrefix(path), DefaultDelimiter, true, false);
      return;
    }
    v := GetBucket(c, name);
    if makeBucket.None? {
      v := v.(skipCheckAttr := true);
    } else if makeBucket == Some(true) {
      var present := BucketMember(c, name, member);
      if !present {
        warned := SetBucket(c, name, true);
      }
    }
  }

  /**
   * The view `S3Store` returns for a non-Supabase endpoint when
   * `make_bucket` is None carries the extra attribute, so indexing it with
   * a key ending in the delimiter raises TypeError where the documented
   * behaviour is the sub-view.
   */
  lemma DefaultStoreSubViewFails(c: Client, name: string, s: Store)
    ensures var v := BucketOf(c, name).(skipCheckAttr := true);
            IndexAsWritten(v, "a/", s) == Err(TypeErr) &&
            Index(v, "a/", s) == Ok(SubView(v.(prefix := "a/")))
  {
    var v := BucketOf(c, name).(skipCheckAttr := true);
    assert IdOfKey(v, "a/") == "a/";
    assert EndsWith("a/", DefaultDelimiter);
  }

  /** `S3BucketDolWithouBucketCheck._bucket_exists`: reports an existing bucket whatever the store holds. */
  function NoCheckBucketExists(v: View, s: Store): (r: bool)
    requires v.noBucketCheck
    ensures r
  {
    true
  }

  /** `S3BucketDolWithouBucketCheck.__setitem__`: a put at `prefix + k`. */
  method NoCheckSetItem(v: View, k: string, body: Bytes) returns (r: Outcome<Error>)
    requires v.noBucketCheck
    modifies v.client
    ensures var after := StoreAfterPut(old(v.client.buckets), v.client.createsBucketOnPut,
                                       v.bucketName, IdOfKey(v, k), body);
            (after.Ok? ==> r == Pass && v.client.buckets == after.value) &&
            (after.Err? ==> r == Fail(after.error) && v.client.buckets == old(v.client.buckets))
    ensures v.client.log == old(v.client.log) + [PutObjectCall(v.bucketName, IdOfKey(v, k))]
  {
    r := v.client.PutObject(v.bucketName, IdOfKey(v, k), body);
  }

  /**
   * `SupabaseS3Store.__getitem__` on store `s`: always a fetch of
   * `prefix + k` (no sub-view, even for a key ending with the delimiter);
   * NoSuchKey becomes KeyError(k), other errors pass through, and the
   * stored bytes come back repaired.
   */
  function SupabaseFetch(v: View, k: string, s: Store): (r: Result<Bytes, Error>)
    ensures r.Ok? <==> v.bucketName in s && IdOfKey(v, k) in s[v.bucketName]
    ensures r.Ok? ==> r.value == Repair(s[v.bucketName][IdOfKey(v, k)])
    ensures r == Err(KeyErr(k)) <==> v.bucketName in s && IdOfKey(v, k) !in s[v.bucketName]
    ensures v.bucketName !in s ==> r == Err(ClientError(NoSuchBucketCode))
  {
    match FetchObject(s, v.bucketName, IdOfKey(v, k))
    case Ok(raw) => Ok(Repair(raw))
    case Err(e) =>
      if e.ClientError? && e.code == NoSuchKeyCode then Err(KeyErr(k)) else Err(e)
  }

  /** Where plain indexing would descend, the Supabase read still fetches the object. */
  lemma SupabaseNoSubView(v: View, k: string, s: Store)
    requires EndsWith(IdOfKey(v, k), v.delimiter)
    requires v.bucketName in s && IdOfKey(v, k) in s[v.bucketName]
    ensures Index(v, k, s).Ok? && Index(v, k, s).value.SubView?
    ensures SupabaseFetch(v, k, s) == Ok(Repair(s[v.bucketName][IdOfKey(v, k)]))
  {
  }

  method SupabaseGet(v: View, k: string) returns (r: Result<Bytes, Error>)
    modifies v.client`log
    ensures r == SupabaseFetch(v, k, v.client.buckets)
    ensures v.client.log == old(v.client.log) + [GetObjectCall(v.bucketName, IdOfKey(v, k))]
  {
    var response := v.client.GetObject(v.bucketName, IdOfKey(v, k));
    match response
    case Ok(raw) => r := Ok(Repair(raw));
    case Err(e) =>
      if e.ClientError? && e.code == NoSuchKeyCode {
        r := Err(KeyErr(k));
      } else {
        r := Err(e);
      }
  }
}
