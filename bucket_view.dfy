/**
 * The prefixed bucket view of s3dol/base.py (`BaseS3BucketReader`,
 * `BaseS3BucketDol`, `S3BucketReader`, `S3BucketDol`): a value naming a
 * client, a bucket, a prefix and a delimiter. A user key `k` addresses the
 * backend id `prefix + k`; indexing with a key whose id ends with the
 * delimiter yields a narrower view instead of data.
 */
module BucketView {
  import opened Wrappers
  import opened Sequences
  import opened Backend

  /**
   * `skipCheckAttr` records that the instance carries the extra attribute
   * `skip_bucket_exists_check` (set by S3Store); `noBucketCheck` that its
   * class is `S3BucketDolWithouBucketCheck`.
   */
  datatype View = View(client: Client, bucketName: string, prefix: string, delimiter: string,
                       noBucketCheck: bool, skipCheckAttr: bool)

  /** What indexing a view gives back: object bytes, or a narrower view. */
  datatype Item = Data(bytes: Bytes) | SubView(view: View)

  const DefaultDelimiter: string := "/"

  /** `_id_of_key`: the backend id a user key addresses. */
  function IdOfKey(v: View, k: string): (id: string)
    ensures StartsWith(id, v.prefix) && id[|v.prefix|..] == k
  {
    v.prefix + k
  }

  /** `_key_of_id`: `id[len(prefix):]`, which Python makes empty for a shorter id. */
  function KeyOfId(v: View, id: string): (k: string)
    ensures |k| <= |id|
    ensures StartsWith(id, v.prefix) ==> v.prefix + k == id
  {
    if |id| < |v.prefix| then [] else id[|v.prefix|..]
  }

  lemma KeyOfIdOfKey(v: View, k: string)
    ensures KeyOfId(v, IdOfKey(v, k)) == k
  {
  }

  /** Leaf access through the base reader: the bytes at `id`, or the service's error. */
  function Leaf(s: Store, v: View, id: string): Result<Item, Error>
  {
    match FetchObject(s, v.bucketName, id)
    case Ok(b) => Ok(Data(b))
    case Err(e) => Err(e)
  }

  /**
   * `S3BucketReader.__getitem__` as written: the sub-view is built by
   * `type(self)(**{**self.__dict__, 'prefix': _id})`, so an instance that
   * carries an extra attribute passes it to the dataclass constructor,
   * which raises TypeError.
   */
  function IndexAsWritten(v: View, k: string, s: Store): (r: Result<Item, Error>)
    ensures EndsWith(IdOfKey(v, k), v.delimiter) && v.skipCheckAttr ==> r == Err(TypeErr)
    ensures !(EndsWith(IdOfKey(v, k), v.delimiter) && v.skipCheckAttr) ==> r == Index(v, k, s)
  {
    var id := IdOfKey(v, k);
    if EndsWith(id, v.delimiter) then
      if v.skipCheckAttr then Err(TypeErr) else Ok(SubView(v.(prefix := id)))
    else Leaf(s, v, id)
  }

  /**
   * `S3BucketReader.__getitem__`, with the sub-view built from the view's
   * own fields: a key whose id ends with the delimiter gives the view of
   * that id, without consulting the store; any other key gives the bytes
   * stored at its id.
   */
  function Index(v: View, k: string, s: Store): (r: Result<Item, Error>)
    ensures r.Ok? && r.value.SubView? <==> EndsWith(IdOfKey(v, k), v.delimiter)
    ensures r.Ok? && r.value.SubView? ==> r.value.view == v.(prefix := IdOfKey(v, k))
    ensures r.Ok? && r.value.Data? <==>
              !EndsWith(IdOfKey(v, k), v.delimiter) && v.bucketName in s && IdOfKey(v, k) in s[v.bucketName]
    ensures r.Ok? && r.value.Data? ==> r.value.bytes == s[v.bucketName][IdOfKey(v, k)]
    ensures r == Err(ClientError(NoSuchKeyCode)) <==>
              !EndsWith(IdOfKey(v, k), v.delimiter) && v.bucketName in s && IdOfKey(v, k) !in s[v.bucketName]
    ensures r == Err(ClientError(NoSuchBucketCode)) <==>
              !EndsWith(IdOfKey(v, k), v.delimiter) && v.bucketName !in s
  {
    var id := IdOfKey(v, k);
    if EndsWith(id, v.delimiter) then Ok(SubView(v.(prefix := id))) else Leaf(s, v, id)
  }

  /** Descending into a sub-view is free of I/O: the answer is the same for every store. */
  lemma IndexSubViewNoStore(v: View, k: string, s1: Store, s2: Store)
    requires EndsWith(IdOfKey(v, k), v.delimiter)
    ensures Index(v, k, s1) == Index(v, k, s2) == Ok(SubView(v.(prefix := v.prefix + k)))
  {
  }

  /**
   * Nested indexing equals flat indexing: after descending through a key
   * `a` whose id ends with the delimiter, key `b` resolves exactly as key
   * `a + b` does on the original view.
   */
  lemma IndexNested(v: View, a: string, b: string, s: Store)
    requires EndsWith(v.prefix + a, v.delimiter)
    ensures Index(v, a, s) == Ok(SubView(v.(prefix := v.prefix + a)))
    ensures Index(v.(prefix := v.prefix + a), b, s) == Index(v, a + b, s)
    ensures IdOfKey(v.(prefix := v.prefix + a), b) == IdOfKey(v, a + b)
  {
    var w := v.(prefix := v.prefix + a);
    assert IdOfKey(w, b) == IdOfKey(v, a + b);
    assert w.(prefix := IdOfKey(w, b)) == v.(prefix := IdOfKey(v, a + b));
  }

  /** Two descents, then a key: the same as one flat key. */
  lemma IndexNestedTwice(v: View, a: string, b: string, c: string, s: Store)
    requires EndsWith(v.prefix + a, v.delimiter) && EndsWith(v.prefix + a + b, v.delimiter)
    ensures Index(v, a, s) == Ok(SubView(v.(prefix := v.prefix + a)))
    ensures Index(v.(prefix := v.prefix + a), b, s) == Ok(SubView(v.(prefix := v.prefix + a + b)))
    ensures Index(v.(prefix := v.prefix + a + b), c, s) == Index(v, a + b + c, s)
  {
    var w := v.(prefix := v.prefix + a);
    IndexNested(v, a, b + c, s);
    IndexNested(w, b, c, s);
    assert w.(prefix := w.prefix + b) == v.(prefix := v.prefix + a + b);
    assert a + (b + c) == a + b + c;
  }

  /** The documented example `b['level1/']['level2/']['test-key'] == b['level1/level2/test-key']`. */
  lemma NestedExample(v: View, s: Store)
    requires v.prefix == [] && v.delimiter == DefaultDelimiter
    ensures Index(v, "level1/", s) == Ok(SubView(v.(prefix := "level1/")))
    ensures Index(v.(prefix := "level1/"), "level2/", s) == Ok(SubView(v.(prefix := "level1/level2/")))
    ensures Index(v.(prefix := "level1/level2/"), "test-key", s) == Index(v, "level1/level2/test-key", s)
  {
    var a: string, b: string, c: string := "level1/", "level2/", "test-key";
    var ab: string, abc: string := "level1/level2/", "level1/level2/test-key";
    assert ab == a + b && abc == a + b + c;
    assert EndsWith(v.prefix + a, v.delimiter) by {
      assert v.prefix + a == a && a[|a| - 1..] == DefaultDelimiter;
    }
    assert EndsWith(v.prefix + a + b, v.delimiter) by {
      assert v.prefix + a + b == ab && ab[|ab| - 1..] == DefaultDelimiter;
    }
    IndexNestedTwice(v, a, b, c, s);
    assert v.prefix + a == a && v.prefix + a + b == ab;
  }

  // Iteration

  /**
   * The keys one listing page contributes: ids ending with the delimiter
   * are dropped (`BaseS3BucketReader.__iter__`), ids outside the prefix are
   * dropped and the prefix is stripped (`S3BucketReader.__iter__`).
   */
  function PageKeys(v: View, ids: seq<string>): (keys: seq<string>)
    ensures |keys| <= |ids|
  {
    if ids == [] then []
    else
      var rest := PageKeys(v, ids[1..]);
      if !EndsWith(ids[0], v.delimiter) && StartsWith(ids[0], v.prefix)
      then [KeyOfId(v, ids[0])] + rest
      else rest
  }

  /** The keys iteration yields, page after page, in listing order. */
  function ListedKeys(v: View, pages: seq<seq<string>>): (keys: seq<string>)
    ensures |keys| <= |Flatten(pages)|
  {
    if pages == [] then [] else PageKeys(v, pages[0]) + ListedKeys(v, pages[1..])
  }

  /** A key is yielded exactly when its id is listed and does not end with the delimiter. */
  lemma {:induction false} PageKeysMember(v: View, ids: seq<string>, k: string)
    ensures k in PageKeys(v, ids) <==> (v.prefix + k in ids && !EndsWith(v.prefix + k, v.delimiter))
  {
    if ids != [] {
      PageKeysMember(v, ids[1..], k);
      assert ids == [ids[0]] + ids[1..];
      if StartsWith(ids[0], v.prefix) && ids[0] == v.prefix + k {
        assert KeyOfId(v, ids[0]) == k;
      }
    }
  }

  /** No yielded key ends with the delimiter, whatever the prefix. */
  lemma PageKeysNoDelimiter(v: View, ids: seq<string>, k: string)
    requires k in PageKeys(v, ids)
    ensures !EndsWith(k, v.delimiter)
  {
    PageKeysMember(v, ids, k);
    if EndsWith(k, v.delimiter) {
      EndsWithAppend(v.prefix, k, v.delimiter);
    }
  }

  /** Distinct ids give distinct keys. */
  lemma {:induction false} PageKeysDistinct(v: View, ids: seq<string>)
    requires Distinct(ids)
    ensures Distinct(PageKeys(v, ids))
  {
    if ids != [] {
      assert Distinct(ids[1..]);
      PageKeysDistinct(v, ids[1..]);
      var rest := PageKeys(v, ids[1..]);
      if !EndsWith(ids[0], v.delimiter) && StartsWith(ids[0], v.prefix) {
        var k := KeyOfId(v, ids[0]);
        PageKeysMember(v, ids[1..], k);
        assert ids[0] !in ids[1..];
        assert k !in rest;
        forall i, j | 0 <= i < j < |[k] + rest| ensures ([k] + rest)[i] != ([k] + rest)[j] {
          if i == 0 {
            assert ([k] + rest)[j] == rest[j - 1];
          }
        }
      }
    }
  }

  lemma {:induction false} PageKeysConcat(v: View, a: seq<string>, b: seq<string>)
    ensures PageKeys(v, a + b) == PageKeys(v, a) + PageKeys(v, b)
  {
    if a != [] {
      assert a + b != [] && (a + b)[0] == a[0];
      assert (a + b)[1..] == a[1..] + b;
      PageKeysConcat(v, a[1..], b);
      if !EndsWith(a[0], v.delimiter) && StartsWith(a[0], v.prefix) {
        var key := [KeyOfId(v, a[0])];
        assert PageKeys(v, a + b) == key + PageKeys(v, a[1..] + b);
        assert key + (PageKeys(v, a[1..]) + PageKeys(v, b)) == (key + PageKeys(v, a[1..])) + PageKeys(v, b);
      }
    } else {
      assert a + b == b;
    }
  }

  /** Iterating page by page yields what one pass over all listed ids would. */
  lemma {:induction false} ListedKeysFlatten(v: View, pages: seq<seq<string>>)
    ensures ListedKeys(v, pages) == PageKeys(v, Flatten(pages))
  {
    if pages != [] {
      ListedKeysFlatten(v, pages[1..]);
      PageKeysConcat(v, pages[0], Flatten(pages[1..]));
    }
  }

  /** The keys a view has in store `s`: stored ids under the prefix that are not directory markers. */
  function KeySet(v: View, s: Store): set<string>
  {
    if v.bucketName !in s then {}
    else set id | id in s[v.bucketName] && StartsWith(id, v.prefix) && !EndsWith(id, v.delimiter)
                :: KeyOfId(v, id)
  }

  lemma KeySetMember(v: View, s: Store, k: string)
    ensures k in KeySet(v, s) <==>
              v.bucketName in s && v.prefix + k in s[v.bucketName] && !EndsWith(v.prefix + k, v.delimiter)
  {
    if v.bucketName in s && v.prefix + k in s[v.bucketName] && !EndsWith(v.prefix + k, v.delimiter) {
      assert KeyOfId(v, v.prefix + k) == k;
    }
  }

  /**
   * Iterating over a complete listing of the view's prefix yields every
   * key of the view exactly once.
   */
  lemma ListingYieldsKeySet(v: View, s: Store, pages: seq<seq<string>>)
    requires v.bucketName in s
    requires Distinct(Flatten(pages)) && Elems(Flatten(pages)) == Matching(s[v.bucketName], v.prefix)
    ensures Distinct(ListedKeys(v, pages)) && Elems(ListedKeys(v, pages)) == KeySet(v, s)
  {
    ListedKeysFlatten(v, pages);
    PageKeysDistinct(v, Flatten(pages));
    forall k ensures k in ListedKeys(v, pages) <==> k in KeySet(v, s) {
      PageKeysMember(v, Flatten(pages), k);
      KeySetMember(v, s, k);
      assert v.prefix + k in Flatten(pages) <==> v.prefix + k in Matching(s[v.bucketName], v.prefix);
    }
  }

  // Membership

  /**
   * `BaseS3BucketReader.__contains__` on the outcome of head_object: only
   * a ClientError with code '404' becomes False; KeyNotValidError and every
   * other ClientError propagate.
   */
  function ContainsFromHead(head: Outcome<Error>): (r: Result<bool, Error>)
    ensures r == Ok(true) <==> head == Pass
    ensures r == Ok(false) <==> head == Fail(ClientError(NotFoundCode))
    ensures r.Err? <==> head.Fail? && head.error != ClientError(NotFoundCode)
    ensures r.Err? ==> r.error == head.error
  {
    match head
    case Pass => Ok(true)
    case Fail(e) =>
      if e.KeyNotValid? then Err(e)
      else if e.ClientError? && e.code == NotFoundCode then Ok(false)
      else Err(e)
  }

  /** `S3BucketReader.__contains__`: a head on `prefix + k`. */
  function Contains(v: View, k: string, s: Store): (r: Result<bool, Error>)
    ensures r == Ok(v.bucketName in s && IdOfKey(v, k) in s[v.bucketName])
  {
    ContainsFromHead(ProbeObject(s, v.bucketName, IdOfKey(v, k)))
  }

  // Key lifecycle, on the store the service keeps

  /** After `b[k] = body`: `k in b`, `b[k] == body`, and the key set gains exactly `k`. */
  lemma AfterPut(v: View, k: string, body: Bytes, s: Store, createsBucketOnPut: bool)
    requires StoreAfterPut(s, createsBucketOnPut, v.bucketName, IdOfKey(v, k), body).Ok?
    requires !EndsWith(IdOfKey(v, k), v.delimiter)
    ensures var s' := StoreAfterPut(s, createsBucketOnPut, v.bucketName, IdOfKey(v, k), body).value;
            Contains(v, k, s') == Ok(true) && Index(v, k, s') == Ok(Data(body)) &&
            KeySet(v, s') == KeySet(v, s) + {k}
  {
    var s' := StoreAfterPut(s, createsBucketOnPut, v.bucketName, IdOfKey(v, k), body).value;
    forall x ensures x in KeySet(v, s') <==> x in KeySet(v, s) + {k} {
      KeySetMember(v, s, x);
      KeySetMember(v, s', x);
      if x != k {
        assert v.prefix + x != v.prefix + k by {
          assert (v.prefix + x)[|v.prefix|..] == x;
        }
      }
    }
  }

  /** After `del b[k]`: `k not in b`, reading it fails with NoSuchKey, and the key set loses `k`. */
  lemma AfterDelete(v: View, k: string, s: Store)
    requires StoreAfterDelete(s, v.bucketName, IdOfKey(v, k)).Ok?
    ensures var s' := StoreAfterDelete(s, v.bucketName, IdOfKey(v, k)).value;
            Contains(v, k, s') == Ok(false) &&
            (!EndsWith(IdOfKey(v, k), v.delimiter) ==> Index(v, k, s') == Err(ClientError(NoSuchKeyCode))) &&
            KeySet(v, s') == KeySet(v, s) - {k}
  {
    var s' := StoreAfterDelete(s, v.bucketName, IdOfKey(v, k)).value;
    forall x ensures x in KeySet(v, s') <==> x in KeySet(v, s) - {k} {
      KeySetMember(v, s, x);
      KeySetMember(v, s', x);
      if x != k {
        assert v.prefix + x != v.prefix + k by {
          assert (v.prefix + x)[|v.prefix|..] == x;
        }
      }
    }
  }

  /**
   * The create-read-delete scenario: a fresh key is absent, present with
   * its value after the write with one more key listed, and absent again
   * after the delete with the key set back to what it was.
   */
  lemma KeyLifecycle(v: View, k: string, body: Bytes, s: Store, createsBucketOnPut: bool)
    requires v.bucketName in s && IdOfKey(v, k) !in s[v.bucketName]
    requires !EndsWith(IdOfKey(v, k), v.delimiter)
    ensures Contains(v, k, s) == Ok(false)
    ensures var s1 := StoreAfterPut(s, createsBucketOnPut, v.bucketName, IdOfKey(v, k), body).value;
            var s2 := StoreAfterDelete(s1, v.bucketName, IdOfKey(v, k)).value;
            Contains(v, k, s1) == Ok(true) && Index(v, k, s1) == Ok(Data(body)) &&
            |KeySet(v, s1)| == |KeySet(v, s)| + 1 &&
            Contains(v, k, s2) == Ok(false) && KeySet(v, s2) == KeySet(v, s)
  {
    var s1 := StoreAfterPut(s, createsBucketOnPut, v.bucketName, IdOfKey(v, k), body).value;
    AfterPut(v, k, body, s, createsBucketOnPut);
    AfterDelete(v, k, s1);
    KeySetMember(v, s, k);
  }

  // Operations that talk to the client

  /**
   * `view[k]` as written: a key whose id ends with the delimiter gives the
   * sub-view, or TypeError on an instance carrying the extra attribute,
   * without a request; any other key issues one get_object.
   */
  method GetItem(v: View, k: string) returns (r: Result<Item, Error>)
    modifies v.client`log
    ensures r == IndexAsWritten(v, k, v.client.buckets)
    ensures v.client.log == old(v.client.log) +
              (if EndsWith(IdOfKey(v, k), v.delimiter) then [] else [GetObjectCall(v.bucketName, IdOfKey(v, k))])
  {
    var id := IdOfKey(v, k);
    if EndsWith(id, v.delimiter) {
      if v.skipCheckAttr {
        return Err(TypeErr);
      }
      return Ok(SubView(v.(prefix := id)));
    }
    var body := v.client.GetObject(v.bucketName, id);
    match body
    case Ok(b) => r := Ok(Data(b));
    case Err(e) => r := Err(e);
  }

  /** `k in view` */
  method ContainsKey(v: View, k: string) returns (r: Result<bool, Error>)
    modifies v.client`log
    ensures r == Contains(v, k, v.client.buckets)
    ensures v.client.log == old(v.client.log) + [HeadObjectCall(v.bucketName, IdOfKey(v, k))]
  {
    var head := v.client.HeadObject(v.bucketName, IdOfKey(v, k));
    r := ContainsFromHead(head);
  }

  /** `view[k] = body`: a put at `prefix + k` and nowhere else. */
  method SetItem(v: View, k: string, body: Bytes) returns (r: Outcome<Error>)
    modifies v.client
    ensures var after := StoreAfterPut(old(v.client.buckets), v.client.createsBucketOnPut,
                                       v.bucketName, IdOfKey(v, k), body);
            (after.Ok? ==> r == Pass && v.client.buckets == after.value) &&
            (after.Err? ==> r == Fail(after.error) && v.client.buckets == old(v.client.buckets))
    ensures v.client.log == old(v.client.log) + [PutObjectCall(v.bucketName, IdOfKey(v, k))]
  {
    r := v.client.PutObject(v.bucketName, IdOfKey(v, k), body);
  }

  /** `del view[k]`: a delete at `prefix + k` and nowhere else. */
  method DelItem(v: View, k: string) returns (r: Outcome<Error>)
    modifies v.client
    ensures var after := StoreAfterDelete(old(v.client.buckets), v.bucketName, IdOfKey(v, k));
            (after.Ok? ==> r == Pass && v.client.buckets == after.value) &&
            (after.Err? ==> r == Fail(after.error) && v.client.buckets == old(v.client.buckets))
    ensures v.client.log == old(v.client.log) + [DeleteObjectCall(v.bucketName, IdOfKey(v, k))]
  {
    r := v.client.DeleteObject(v.bucketName, IdOfKey(v, k));
  }

  /**
   * `list(view)`: one paginated listing of the prefix, filtered and
   * stripped; every key of the view exactly once, none ending with the
   * delimiter.
   */
  method Iterate(v: View) returns (r: Result<seq<string>, Error>, ghost pages: seq<seq<string>>)
    modifies v.client`log
    ensures v.bucketName !in v.client.buckets ==> r == Err(ClientError(NoSuchBucketCode))
    ensures v.bucketName in v.client.buckets ==>
              r.Ok? && Paged(pages) && r.value == ListedKeys(v, pages) &&
              Distinct(Flatten(pages)) && Elems(Flatten(pages)) == Matching(v.client.buckets[v.bucketName], v.prefix) &&
              Distinct(r.value) && Elems(r.value) == KeySet(v, v.client.buckets) &&
              |r.value| == |KeySet(v, v.client.buckets)|
    ensures r.Ok? ==> forall k :: k in r.value ==> !EndsWith(k, v.delimiter)
    ensures v.client.log == old(v.client.log) + [ListObjectsCall(v.bucketName, v.prefix)]
  {
    var listing := v.client.ListObjects(v.bucketName, v.prefix);
    if listing.Err? {
      return Err(listing.error), [];
    }
    var keys := ListedKeys(v, listing.value);
    pages := listing.value;
    ListingYieldsKeySet(v, v.client.buckets, pages);
    DistinctCard(keys);
    ListedKeysFlatten(v, pages);
    forall k | k in keys ensures !EndsWith(k, v.delimiter) {
      PageKeysNoDelimiter(v, Flatten(pages), k);
    }
    r := Ok(keys);
  }
}
