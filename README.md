# s3dol core in Dafny

s3dol exposes S3 object storage as nested dict-like objects: profiles,
then clients, then buckets, then keys, then object bytes. This project
models the layer under the `boto3` glue and proves its properties:

- **Prefixed bucket view** (`BucketView`, from s3dol/base.py). A view is
  the value `{client, bucket, prefix, delimiter}`. A user key `k` addresses
  the backend id `prefix + k`. Indexing returns a narrower view when that id
  ends with the delimiter; otherwise it returns the stored bytes. Iteration
  filters and strips a paginated listing. Membership turns only a 404 into
  `False`. Put and delete address `prefix + k`.
- **Client-level bucket operations** (`ClientRegistry`, from s3dol/base.py).
  Getting a bucket always issues `create_bucket`. Setting a bucket creates
  it and ignores the value. Deleting a bucket lists its objects, deletes
  them in one batch, then deletes the bucket. `S3Dol` refuses to start
  with no profiles.
- **Bucket lifecycle and Supabase support** (`S3StoreFactory` and
  `PayloadRepair`, from s3dol/store.py). `validate_bucket` and `S3Store`
  choose a bucket policy from `make_bucket` and the endpoint. A view
  variant never checks its bucket. The Supabase read path strips one
  leftover frame of HTTP/1.1 chunked transfer coding (section 7.1 of
  RFC 9112).

The service is the class `Backend.Client`. It keeps an in-memory
`map<string, map<string, seq<byte>>>` (bucket to id to bytes) and a log of
the requests it received, so contracts can say which requests an operation
sends and in what order. Its answers are the functions `FetchObject`,
`ProbeObject`, `StoreAfterPut`, `StoreAfterDelete` and `StoreAfterCreate`.
These encode the following assumptions about the service, not properties
of s3dol:

- A missing object or bucket answers `head_object` with the code `404`.
- A missing object answers `get_object` with `NoSuchKey`; a missing bucket
  answers with `NoSuchBucket`.
- Creating a bucket that already exists is accepted and changes nothing.
- Deleting an absent id is accepted as a no-op.
- A write to a missing bucket fails with `NoSuchBucket`, unless the
  service creates buckets on first write (`createsBucketOnPut`).
- One `list_objects_v2` response holds at most 1000 ids (`MaxKeys`).
- The paginator returns every id under the prefix exactly once, in pages
  of at most 1000 ids. The order is the service's choice.

The code and its documented intent disagree in three places. The model
follows the code in each:

- `make_bucket=False` ("check but don't create") never checks and never
  raises, and indexing the client creates the bucket anyway.
- Indexing with a key that ends in the delimiter returns a view; it is not
  an error.
- The repair accepts only a first byte `0`, a lone digit, two digits, or
  a digit followed by a letter a–f. So a frame whose size line is a single
  digit other than `0`, or starts with a hex letter, is left unchanged.

## Model

| member | source | states |
|---|---|---|
| BucketView.IdOfKey | s3dol/base.py:151-152 | the id of key `k` starts with the prefix, and stripping the prefix gives back `k` |
| BucketView.KeyOfId | s3dol/base.py:154-155 | the key of an id that starts with the prefix, re-prefixed, is that id; a key is never longer than its id |
| BucketView.KeyOfIdOfKey | s3dol/base.py:151-155 | `_key_of_id(_id_of_key(k)) == k` for every view and key |
| BucketView.IndexAsWritten | s3dol/base.py:164-169 | indexing as written: for an instance carrying an extra attribute, a key whose id ends with the delimiter raises TypeError; in every other case it behaves as `Index` |
| BucketView.Index | s3dol/base.py:164-169 | gives a sub-view exactly when `prefix + k` ends with the delimiter, and that sub-view is the same view with prefix `prefix + k`; gives data exactly when the id is stored, and the data is the stored bytes; NoSuchKey or NoSuchBucket otherwise |
| BucketView.IndexSubViewNoStore | s3dol/base.py:164-168 | the sub-view answer is the same for every store, so descending makes no backend request |
| BucketView.IndexNested | s3dol/base.py:164-169 | after descending through `a`, key `b` resolves to the same id and the same result as key `a + b` on the original view |
| BucketView.IndexNestedTwice | s3dol/base.py:148 | two descents followed by a key give the same result as the one flat key |
| BucketView.NestedExample | s3dol/base.py:6 | on the default view, `b['level1/']` is the view with prefix `level1/`, its `['level2/']` is the view with prefix `level1/level2/`, and `['test-key']` on that view equals `b['level1/level2/test-key']` |
| BucketView.PageKeys | s3dol/base.py:157-162 | one page yields at most as many keys as it lists ids |
| BucketView.ListedKeys | s3dol/base.py:109-115 | iteration over all pages yields at most as many keys as were listed |
| BucketView.PageKeysMember | s3dol/base.py:157-162 | `k` is yielded exactly when `prefix + k` is listed and does not end with the delimiter |
| BucketView.PageKeysNoDelimiter | s3dol/base.py:112-115 | no yielded key ends with the delimiter, for any prefix |
| BucketView.PageKeysDistinct | s3dol/base.py:157-162 | a listing without repeated ids yields no repeated keys |
| BucketView.PageKeysConcat | s3dol/base.py:110-115 | the keys of two concatenated listings are the keys of the first, then the keys of the second |
| BucketView.ListedKeysFlatten | s3dol/base.py:109-115 | iterating page by page yields, in listing order, what one pass over all listed ids yields |
| BucketView.KeySetMember | s3dol/base.py:157-162 | `k` is a key of the view exactly when `prefix + k` is stored in its bucket and does not end with the delimiter |
| BucketView.ListingYieldsKeySet | s3dol/base.py:109-115 | over a complete listing of the prefix, iteration yields every key of the view exactly once |
| BucketView.ContainsFromHead | s3dol/base.py:120-132 | true exactly when head succeeds; false exactly when it fails with code '404'; any other ClientError and KeyNotValidError propagate unchanged |
| BucketView.Contains | s3dol/base.py:171-173 | `k in view` is exactly "the bucket holds id `prefix + k`" |
| BucketView.AfterPut | s3dol/base.py:176-179 | after `view[k] = body`: `k in view`, `view[k] == body`, and the key set gains exactly `k` |
| BucketView.AfterDelete | s3dol/base.py:181-183 | after `del view[k]`: `k not in view`, reading `k` fails with NoSuchKey, and the key set loses exactly `k` |
| BucketView.KeyLifecycle | s3dol/tests/test_base.py:31-40 | a fresh key is absent; after the write it is present with its value and one more key is listed; after the delete it is absent and the key set is as before |
| BucketView.GetItem | s3dol/base.py:164-169 | returns `IndexAsWritten` on the current store: a key whose id ends with the delimiter gives the sub-view, or TypeError on an instance carrying the extra attribute, with no request; any other key sends one get_object on `prefix + k` |
| BucketView.ContainsKey | s3dol/base.py:171-173 | returns `Contains` on the current store, after one head_object on `prefix + k` |
| BucketView.SetItem | s3dol/base.py:176-179 | one put_object on `prefix + k`; the store changes at that id only, or not at all when the put fails |
| BucketView.DelItem | s3dol/base.py:181-183 | one delete_object on `prefix + k`; the store changes at that id only, or not at all when the bucket is missing |
| BucketView.Iterate | s3dol/base.py:157-162 | one paginated listing of the prefix, whose pages hold every stored id under the prefix exactly once; yields the keys in that listing's order, every key of the view exactly once and none ending with the delimiter; a missing bucket raises NoSuchBucket |
| ClientRegistry.BucketOf | s3dol/base.py:196-197 | the bucket's view: empty prefix, default delimiter `/`, so keys are ids |
| ClientRegistry.GetBucket | s3dol/base.py:208-216 | always one create_bucket, then the empty-prefix view; the bucket exists afterwards and other buckets are unchanged |
| ClientRegistry.SetBucket | s3dol/base.py:218-234 | creates the bucket, ignores the value, and warns exactly when a value was given |
| ClientRegistry.RemainingAfterBatch | s3dol/base.py:236-241 | one listing's batch delete empties the bucket exactly when it held at most 1000 objects |
| ClientRegistry.DeleteBucket | s3dol/base.py:236-241 | list, then batch-delete that listing (skipped when empty), then delete the bucket; at most 1000 objects: the bucket is gone and nothing else changed; more: BucketNotEmpty with the surplus left |
| ClientRegistry.BucketNames | s3dol/base.py:193-194 | every bucket name exactly once, so a deleted bucket is not listed |
| ClientRegistry.OpenRoot | s3dol/base.py:247-249 | fails with noCredentialsFound exactly when the profile list is empty |
| PayloadRepair.LooksChunkedMeaning | s3dol/store.py:143-151 | the leading-bytes test accepts exactly: first byte `0`; a lone digit; two digits; or a digit then a letter a–f in either case |
| PayloadRepair.FindCRLF | s3dol/store.py:153-161 | the first CRLF at or after `from`, or none when there is no CRLF from there on |
| PayloadRepair.Repair | s3dol/store.py:143-170 | unchanged unless the leading-bytes test passes and a CRLF exists; a changed result holds no CRLF and is at least 4 bytes shorter |
| PayloadRepair.RepairNeedsSecondCRLF | s3dol/store.py:159-170 | with no CRLF at or after first-CRLF + 2, the input comes back unchanged |
| PayloadRepair.RepairExtracts | s3dol/store.py:153-164 | with `p` the first CRLF and `q` the first CRLF at or after `p + 2`, the result is `raw[p+2..q]` |
| PayloadRepair.RepairIdempotent | s3dol/store.py:153-170 | `Repair(Repair(x)) == Repair(x)` |
| PayloadRepair.RepairSingleChunk | s3dol/store.py:143-164 | `Repair(size + CRLF + data + CRLF + rest) == data` when size and data hold no CRLF and the framed bytes pass the test |
| PayloadRepair.RepairTwoByteSize | s3dol/store.py:143-164 | a size line of two or more bytes, starting with a digit then a digit or hex letter, always round-trips |
| PayloadRepair.SingleDigitSizeNotRepaired | s3dol/store.py:143-151 | a frame with a single-digit size line other than `0` comes back unchanged |
| S3StoreFactory.IsSupabaseEndpoint | s3dol/store.py:40-43 | true exactly when an endpoint is given and `.supabase.` occurs in it at some position |
| S3StoreFactory.BucketMember | s3dol/store.py:91 | the membership answer for the current store, recorded as one membership test |
| S3StoreFactory.ValidateBucket | s3dol/store.py:79-93 | None: one create through indexing, no membership test; True: one membership test, then an extra create (with a warning) only when the bucket is reported absent; False: same as None, never raises; the empty-prefix view in every case |
| S3StoreFactory.S3Store | s3dol/store.py:11-76 | Supabase endpoint: a no-check view with prefix `path` (`None` read as "None"), and no request; otherwise: create through indexing, `path` dropped, the attribute set when `make_bucket` is None, and an extra create when True and the bucket is then reported absent |
| S3StoreFactory.DefaultStoreSubViewFails | s3dol/store.py:71-72 | the view S3Store returns when `make_bucket` is None raises TypeError on `view['a/']`, where the corrected indexing gives the sub-view |
| S3StoreFactory.NoCheckBucketExists | s3dol/store.py:106-107 | the no-check view reports its bucket as existing, whatever the store holds |
| S3StoreFactory.NoCheckSetItem | s3dol/store.py:102-104 | one put_object on `prefix + k`; the store changes at that id only |
| S3StoreFactory.SupabaseFetch | s3dol/store.py:135-173 | fetches `prefix + k` with no sub-view dispatch; the stored bytes come back repaired; a missing key raises KeyError(k); a missing bucket propagates NoSuchBucket |
| S3StoreFactory.SupabaseNoSubView | s3dol/store.py:135-138 | for a stored key that ends with the delimiter, plain indexing gives a sub-view, while the Supabase read returns the repaired bytes |
| S3StoreFactory.SupabaseGet | s3dol/store.py:135-173 | one get_object on `prefix + k`, returning `SupabaseFetch` on the current store |

## Left out

- Credential and session resolution: `get_aws_credentials`, `list_profile_names`, `get_client` and `_find_default_credentials` read environment variables and `boto3` sessions. The profile list is a parameter of `OpenRoot`, and the client is a parameter everywhere else.
- `S3Dol.__iter__` is left out: it returns the profile names that credential resolution finds (s3dol/base.py:253-254), and that list is a parameter of the model.
- `S3Dol.__getitem__` and `S3DolReadOnly` are left out: they only build clients through credential resolution.
- `boto3` client construction in `S3Store` and `from_params`: both are left out. `S3Store` builds a different client on each branch; both are the one parameter `c`.
- The paginator and HTTP mechanics are left out. Every listing page succeeds, so `Resp.ascertain_200_status_code` never raises. `Resp.key` and `Resp.contents` (s3dol.utility is not part of this model) are read as "the ids on the page". An empty bucket gives no pages instead of one empty page; the keys yielded are the same.
- Laziness of iteration: the model computes the whole key sequence, so stopping early is not modelled.
- `KeyNotValidError` and service errors other than the codes listed above (permissions, throttling) are never produced by the backend model. That only they propagate from membership is stated on `ContainsFromHead`.
- `warnings.warn` is a side channel, recorded only as the boolean `warned`.
- `bucket_name in s3_client` is inherited from `dol` (not part of this model). Its answer is the parameter `member`; its own requests are not modelled beyond one logged membership test.
- `skip_bucket_check` (s3dol/store.py:39-41) is computed but never read afterwards. Routing depends only on the endpoint test, which `IsSupabaseEndpoint` states.
- S3Store: with `path=None` on the Supabase branch, the model addresses `"None" + k` as the f-string does. In the source, a non-empty listing of such a view raises TypeError at `_id.startswith(None)` (s3dol/base.py:161), before `len(None)` is reached; an empty listing raises nothing. The model lists under the prefix "None" instead.
- The read-only classes `S3BucketReader` and `S3ClientReader` are not distinguished from their writable subclasses. The reading operations are the same; the model does not capture that writing to them raises.
- Writes racing the listing and the batch delete in bucket deletion: deletion is modelled as a sequence of steps with no other writer.
- The `try/except ValueError` in the repair has no branch to model: nothing inside it raises ValueError.

## Findings

| source | as written | input that shows it | evidently intended | confidence | as-written member | corrected member |
|---|---|---|---|---|---|---|
| s3dol/store.py:71-72 | `S3Store` sets `skip_bucket_exists_check` on the returned view when `make_bucket` is None (the default). Sub-view construction (s3dol/base.py:167-168) then passes every instance attribute to the dataclass constructor, which rejects the unknown keyword with TypeError. | `S3Store('b')` with a non-Supabase endpoint, then `store['a/']` | `store['a/']` returns the view with prefix `a/`, as for any other view | high; not executed | S3StoreFactory.DefaultStoreSubViewFails | BucketView.IndexNested |
