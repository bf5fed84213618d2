/** The cloud bucket as the core sees it: objects under string keys, listed in key order, and
    the projections `list_backups`, `get_metadata` and `verify_upload` make of them. */
module GcsStorage {
  import opened Wrappers
  import opened Text
  import opened Exceptions
  import opened Json
  import opened Files
  import Models

  /** A stored object: its content and the size, update time and etag the store reports, each
      of which may be missing. */
  datatype CloudObject = CloudObject(
    content: FileContent, size: Option<int>, updated: Option<Models.DateTime>, etag: Option<string>)

  /** The bucket: the objects by key, whether a listing succeeds (it raises GoogleCloudError
      otherwise) and the keys an upload to fails with GoogleCloudError. */
  datatype Bucket = Bucket(objects: map<string, CloudObject>, listable: bool, refused: set<string>)

  /** A backup found in the bucket. */
  datatype BackupInfo = BackupInfo(
    key: string, filename: string, backupType: string, sizeBytes: int,
    lastModified: Models.DateTime, etag: Option<string>)

  datatype UploadResult = UploadResult(
    success: bool, key: string, sizeBytes: int, etag: Option<string>, error: Option<string>)

  // ---------------------------------------------------------------------------
  // Upload, as the store's own operation
  // ---------------------------------------------------------------------------

  /** `upload_file`: the local file becomes the object under `key`, stamped with the store's
      time and etag; a missing local file or a refused key gives a failed result and leaves the
      bucket as it was. */
  function UploadFile(bucket: Bucket, fs: Fs, path: Path, key: string, now: Models.DateTime, etag: string)
    : (r: (Bucket, UploadResult))
    ensures r.1.success <==> path in fs.files && key !in bucket.refused
    ensures r.1.key == key
    ensures r.1.success ==> r.0 == bucket.(objects := bucket.objects[key :=
      CloudObject(fs.files[path], Some(SizeOf(fs.files[path])), Some(now), Some(etag))])
    ensures !r.1.success ==> r.0 == bucket && r.1.sizeBytes == 0 && r.1.error.Some?
  {
    match ReadFile(fs, path)
    case Err(e) => (bucket, UploadResult(false, key, 0, None, Some("Upload failed: " + e.Message())))
    case Ok(content) =>
      if key in bucket.refused then
        (bucket, UploadResult(false, key, 0, None, Some("GCS upload failed: 403 POST " + key)))
      else
        var size := SizeOf(content);
        (bucket.(objects := bucket.objects[key := CloudObject(content, Some(size), Some(now), Some(etag))]),
         UploadResult(true, key, size, Some(etag), None))
  }

  // ---------------------------------------------------------------------------
  // Key parsing
  // ---------------------------------------------------------------------------

  /** The prefix a listing asks for: `{prefix}/`, or `{prefix}/{type}/` when a non-empty type
      filter is given. */
  function ListingPrefix(prefix: string, backupType: Option<string>): (r: string)
    ensures backupType.Some? && backupType.value != "" ==> r == prefix + "/" + backupType.value + "/"
    ensures backupType.None? || backupType.value == "" ==> r == prefix + "/"
  {
    if backupType.Some? && backupType.value != "" then prefix + "/" + backupType.value + "/"
    else prefix + "/"
  }

  /** The category and the file name `list_backups` reads off a key: every `{prefix}/` is removed,
      the rest is split on `/`, the category is the first piece when there are several
      (`"unknown"` otherwise) and the file name is the last piece. */
  function ParseKey(prefix: string, key: string): (r: (string, string))
    ensures '/' !in r.1
  {
    var parts := Split(ReplaceAll(key, prefix + "/", ""), '/');
    (if |parts| > 1 then parts[0] else "unknown", parts[|parts| - 1])
  }

  lemma SplitTwo(a: string, b: string)
    requires '/' !in a && '/' !in b
    ensures Split(a + "/" + b, '/') == [a, b]
  {
    var s := a + "/" + b;
    IndexOfAfter(a, '/', b);
    assert s[..|a|] == a && s[|a| + 1..] == b;
  }

  /** A key laid out as `{prefix}/{type}/{name}` parses back into its category and name, as long
      as `{prefix}/` does not occur again after the prefix. */
  lemma ParseKeyOfLayout(prefix: string, t: string, n: string)
    requires '/' !in t && '/' !in n
    requires !Contains(t + "/" + n, prefix + "/")
    ensures ParseKey(prefix, prefix + "/" + t + "/" + n) == (t, n)
  {
    var pat := prefix + "/";
    var key := prefix + "/" + t + "/" + n;
    assert key == pat + (t + "/" + n);
    assert StartsWith(key, pat);
    assert key[|pat|..] == t + "/" + n;
    ReplaceAllAbsent(t + "/" + n, pat, "");
    assert ReplaceAll(key, pat, "") == t + "/" + n;
    SplitTwo(t, n);
  }

  /** A key without any `/` after the prefix has no category. */
  lemma ParseKeyWithoutCategory(prefix: string, n: string)
    requires '/' !in n
    ensures ParseKey(prefix, prefix + "/" + n) == ("unknown", n)
  {
    var pat := prefix + "/";
    var key := prefix + "/" + n;
    assert StartsWith(key, pat);
    assert key[|pat|..] == n;
    assert !Contains(n, pat) by {
      if Contains(n, pat) {
        SlashInContained(n, pat);
      }
    }
    ReplaceAllAbsent(n, pat, "");
    assert ReplaceAll(key, pat, "") == n;
    assert IndexOf(n, '/') == None;
    assert Split(n, '/') == [n];
  }

  lemma {:induction false} SlashInContained(s: string, sub: string)
    requires Contains(s, sub) && '/' in sub
    ensures '/' in s
    decreases |s|
  {
    if StartsWith(s, sub) {
      var k :| 0 <= k < |sub| && sub[k] == '/';
      assert s[k] == '/';
    } else {
      SlashInContained(s[1..], sub);
      var k :| 0 <= k < |s[1..]| && s[1..][k] == '/';
      assert s[k + 1] == '/';
    }
  }

  /** Under a type filter every listed key that follows the layout parses to that category. */
  lemma FilteredListingHasItsType(prefix: string, t: string, key: string)
    requires t != "" && '/' !in t
    requires StartsWith(key, ListingPrefix(prefix, Some(t)))
    requires var n := key[|prefix| + |t| + 2..]; '/' !in n && !Contains(t + "/" + n, prefix + "/")
    ensures ParseKey(prefix, key).0 == t
  {
    var lp := ListingPrefix(prefix, Some(t));
    var n := key[|lp|..];
    assert key == lp + n;
    assert key == prefix + "/" + t + "/" + n;
    ParseKeyOfLayout(prefix, t, n);
  }

  // ---------------------------------------------------------------------------
  // Listing
  // ---------------------------------------------------------------------------

  /** The keys under a prefix, in the order the store lists them (by key). */
  function ListedKeys(bucket: Bucket, listingPrefix: string): (r: seq<string>)
    ensures StrictlySorted(r)
    ensures forall k :: k in r <==> k in bucket.objects && StartsWith(k, listingPrefix)
  {
    SortedSet(set k | k in bucket.objects && StartsWith(k, listingPrefix))
  }

  /** The record made for one `.dump` object: sizes default to 0 and a missing update time to
      the local clock `now`. */
  function Info(prefix: string, key: string, obj: CloudObject, now: Models.DateTime): (r: BackupInfo)
    ensures r.key == key && r.etag == obj.etag
    ensures (r.backupType, r.filename) == ParseKey(prefix, key)
    ensures r.sizeBytes == obj.size.GetOr(0) && r.lastModified == obj.updated.GetOr(now)
  {
    var parsed := ParseKey(prefix, key);
    BackupInfo(key, parsed.1, parsed.0, obj.size.GetOr(0), obj.updated.GetOr(now), obj.etag)
  }

  predicate KeysIn(keys: seq<string>, objects: map<string, CloudObject>) {
    forall i :: 0 <= i < |keys| ==> keys[i] in objects
  }

  /** The list the loop builds from the listed keys, in listing order. */
  function Collected(objects: map<string, CloudObject>, keys: seq<string>, prefix: string, now: Models.DateTime)
    : seq<BackupInfo>
    requires KeysIn(keys, objects)
  {
    if keys == [] then []
    else
      var key := keys[|keys| - 1];
      Collected(objects, keys[..|keys| - 1], prefix, now)
      + (if EndsWith(key, ".dump") then [Info(prefix, key, objects[key], now)] else [])
  }

  lemma CollectedSnoc(
    objects: map<string, CloudObject>, keys: seq<string>, i: int, prefix: string, now: Models.DateTime)
    requires KeysIn(keys, objects) && 0 <= i < |keys|
    ensures KeysIn(keys[..i], objects) && KeysIn(keys[..i + 1], objects)
    ensures Collected(objects, keys[..i + 1], prefix, now)
      == Collected(objects, keys[..i], prefix, now)
        + (if EndsWith(keys[i], ".dump") then [Info(prefix, keys[i], objects[keys[i]], now)] else [])
  {
    assert keys[..i + 1][..i] == keys[..i];
  }

  /** A record is collected iff it is the record of a listed `.dump` key. */
  lemma {:induction false} CollectedMembers(
    objects: map<string, CloudObject>, keys: seq<string>, prefix: string, now: Models.DateTime, x: BackupInfo)
    requires KeysIn(keys, objects)
    ensures x in Collected(objects, keys, prefix, now)
      <==> x.key in keys && EndsWith(x.key, ".dump") && x == Info(prefix, x.key, objects[x.key], now)
  {
    if keys != [] {
      var init := keys[..|keys| - 1];
      CollectedMembers(objects, init, prefix, now, x);
      assert keys == init + [keys[|keys| - 1]];
    }
  }

  /** The two kinds of datetime are mixed: `updated` is aware, the local clock's `now` naive. */
  predicate Mixed(infos: seq<BackupInfo>) {
    exists i, j :: 0 <= i < |infos| && 0 <= j < |infos| && infos[i].lastModified.utc != infos[j].lastModified.utc
  }

  /** Newest first: no record is older than one after it. */
  predicate NewestFirst(infos: seq<BackupInfo>) {
    forall i, j :: 0 <= i < j < |infos| ==> !Models.Earlier(infos[i].lastModified, infos[j].lastModified)
  }

  /** Put `x` in front of the first record not newer than it. */
  function InsertNewest(x: BackupInfo, sorted: seq<BackupInfo>): seq<BackupInfo> {
    if sorted == [] || !Models.Earlier(x.lastModified, sorted[0].lastModified) then [x] + sorted
    else [sorted[0]] + InsertNewest(x, sorted[1..])
  }

  /** `sort(key=last_modified, reverse=True)`: a stable sort, newest first. */
  function SortNewestFirst(infos: seq<BackupInfo>): seq<BackupInfo> {
    if infos == [] then [] else InsertNewest(infos[0], SortNewestFirst(infos[1..]))
  }

  /** The records with one given time, in order. */
  function AtTime(infos: seq<BackupInfo>, t: Models.DateTime): seq<BackupInfo> {
    if infos == [] then []
    else (if infos[0].lastModified == t then [infos[0]] else []) + AtTime(infos[1..], t)
  }

  /** `Earlier` orders datetimes by their fields: it is irreflexive, and "not earlier" is
      transitive, so it sorts like a total preorder. */
  lemma EarlierOrder(a: Models.DateTime, b: Models.DateTime, c: Models.DateTime)
    ensures !Models.Earlier(a, a)
    ensures Models.Earlier(a, b) ==> !Models.Earlier(b, a)
    ensures !Models.Earlier(a, b) && !Models.Earlier(b, c) ==> !Models.Earlier(a, c)
  {
  }

  predicate DistinctKeys(infos: seq<BackupInfo>) {
    forall i, j :: 0 <= i < j < |infos| ==> infos[i].key != infos[j].key
  }

  lemma {:induction false} InsertNewestPermutes(x: BackupInfo, sorted: seq<BackupInfo>)
    ensures multiset(InsertNewest(x, sorted)) == multiset([x] + sorted)
    decreases |sorted|
  {
    if sorted != [] && Models.Earlier(x.lastModified, sorted[0].lastModified) {
      InsertNewestPermutes(x, sorted[1..]);
      assert sorted == [sorted[0]] + sorted[1..];
    }
  }

  lemma NewestFirstCons(y: BackupInfo, rest: seq<BackupInfo>)
    requires NewestFirst(rest)
    requires forall j :: 0 <= j < |rest| ==> !Models.Earlier(y.lastModified, rest[j].lastModified)
    ensures NewestFirst([y] + rest)
  {
    var r := [y] + rest;
    forall i, j | 0 <= i < j < |r| ensures !Models.Earlier(r[i].lastModified, r[j].lastModified) {
      assert r[j] == rest[j - 1];
      if i > 0 {
        assert r[i] == rest[i - 1];
      }
    }
  }

  lemma {:induction false} InsertNewestSorted(x: BackupInfo, sorted: seq<BackupInfo>)
    requires NewestFirst(sorted)
    ensures NewestFirst(InsertNewest(x, sorted))
    decreases |sorted|
  {
    if sorted == [] || !Models.Earlier(x.lastModified, sorted[0].lastModified) {
      forall j | 0 <= j < |sorted| ensures !Models.Earlier(x.lastModified, sorted[j].lastModified) {
        EarlierOrder(x.lastModified, sorted[0].lastModified, sorted[j].lastModified);
        EarlierOrder(sorted[0].lastModified, sorted[0].lastModified, sorted[0].lastModified);
      }
      NewestFirstCons(x, sorted);
    } else {
      var y := sorted[0];
      var tail := sorted[1..];
      var rest := InsertNewest(x, tail);
      InsertNewestSorted(x, tail);
      InsertNewestPermutes(x, tail);
      forall j | 0 <= j < |rest| ensures !Models.Earlier(y.lastModified, rest[j].lastModified) {
        assert rest[j] in multiset([x] + tail);
        if rest[j] == x {
          EarlierOrder(x.lastModified, y.lastModified, y.lastModified);
        } else {
          var k :| 0 <= k < |tail| && tail[k] == rest[j];
          assert sorted[k + 1] == rest[j];
        }
      }
      NewestFirstCons(y, rest);
    }
  }

  lemma {:induction false} InsertNewestStable(x: BackupInfo, sorted: seq<BackupInfo>, t: Models.DateTime)
    ensures AtTime(InsertNewest(x, sorted), t) == AtTime([x] + sorted, t)
    decreases |sorted|
  {
    if sorted != [] && Models.Earlier(x.lastModified, sorted[0].lastModified) {
      var y := sorted[0];
      var rest := InsertNewest(x, sorted[1..]);
      InsertNewestStable(x, sorted[1..], t);
      assert ([y] + rest)[1..] == rest;
      assert ([x] + sorted)[1..] == sorted;
      assert ([x] + sorted[1..])[1..] == sorted[1..];
      EarlierOrder(x.lastModified, y.lastModified, y.lastModified);
      assert y.lastModified == t ==> x.lastModified != t;
    }
  }

  lemma {:induction false} InsertNewestDistinct(x: BackupInfo, sorted: seq<BackupInfo>)
    requires DistinctKeys(sorted)
    requires forall j :: 0 <= j < |sorted| ==> sorted[j].key != x.key
    ensures DistinctKeys(InsertNewest(x, sorted))
    decreases |sorted|
  {
    if sorted != [] && Models.Earlier(x.lastModified, sorted[0].lastModified) {
      var tail := sorted[1..];
      var rest := InsertNewest(x, tail);
      assert DistinctKeys(tail) by {
        forall i, j | 0 <= i < j < |tail| ensures tail[i].key != tail[j].key {
          assert tail[i] == sorted[i + 1] && tail[j] == sorted[j + 1];
        }
      }
      InsertNewestDistinct(x, tail);
      InsertNewestPermutes(x, tail);
      forall j | 0 <= j < |rest| ensures rest[j].key != sorted[0].key {
        assert rest[j] in multiset([x] + tail);
        if rest[j] != x {
          var k :| 0 <= k < |tail| && tail[k] == rest[j];
          assert sorted[k + 1] == rest[j];
        }
      }
      DistinctCons(sorted[0], rest);
    } else {
      DistinctCons(x, sorted);
    }
  }

  /** A record whose key none of a list of distinct keys holds may be put in front. */
  lemma DistinctCons(y: BackupInfo, rest: seq<BackupInfo>)
    requires DistinctKeys(rest)
    requires forall j :: 0 <= j < |rest| ==> rest[j].key != y.key
    ensures DistinctKeys([y] + rest)
  {
    var r := [y] + rest;
    forall i, j | 0 <= i < j < |r| ensures r[i].key != r[j].key {
      assert r[j] == rest[j - 1];
      if i > 0 {
        assert r[i] == rest[i - 1];
      }
    }
  }

  /** The sort orders newest first and loses and adds nothing. */
  lemma {:induction false} SortNewestFirstCorrect(infos: seq<BackupInfo>)
    ensures NewestFirst(SortNewestFirst(infos))
    ensures multiset(SortNewestFirst(infos)) == multiset(infos)
  {
    if infos != [] {
      var rest := SortNewestFirst(infos[1..]);
      SortNewestFirstCorrect(infos[1..]);
      InsertNewestSorted(infos[0], rest);
      InsertNewestPermutes(infos[0], rest);
      assert infos == [infos[0]] + infos[1..];
    }
  }

  /** The sort is stable: records with the same time keep their listing order. */
  lemma {:induction false} SortNewestFirstStable(infos: seq<BackupInfo>, t: Models.DateTime)
    ensures AtTime(SortNewestFirst(infos), t) == AtTime(infos, t)
  {
    if infos != [] {
      var rest := SortNewestFirst(infos[1..]);
      SortNewestFirstStable(infos[1..], t);
      InsertNewestStable(infos[0], rest, t);
      assert ([infos[0]] + rest)[1..] == rest;
    }
  }

  /** Sorting records with distinct keys keeps the keys distinct. */
  lemma {:induction false} SortNewestFirstDistinct(infos: seq<BackupInfo>)
    requires DistinctKeys(infos)
    ensures DistinctKeys(SortNewestFirst(infos))
  {
    if infos != [] {
      var rest := SortNewestFirst(infos[1..]);
      SortNewestFirstDistinct(infos[1..]);
      SortNewestFirstCorrect(infos[1..]);
      forall j | 0 <= j < |rest| ensures rest[j].key != infos[0].key {
        assert rest[j] in multiset(infos[1..]);
        var k :| 0 <= k < |infos| - 1 && infos[1..][k] == rest[j];
        assert infos[k + 1] == rest[j];
      }
      InsertNewestDistinct(infos[0], rest);
    }
  }

  const MixedDatetimes := "can't compare offset-naive and offset-aware datetimes"

  /** `list_backups` as a value: a failed listing raises CloudStorageError; otherwise the `.dump`
      objects under the listing prefix, newest first, unless aware and naive times are mixed,
      which makes the sort raise TypeError. */
  function ListBackupsResult(bucket: Bucket, prefix: string, backupType: Option<string>, now: Models.DateTime)
    : Result<seq<BackupInfo>, Error>
  {
    if !bucket.listable then Err(CloudStorageError("Failed to list backups: 503 GET " + ListingPrefix(prefix, backupType)))
    else
      var keys := ListedKeys(bucket, ListingPrefix(prefix, backupType));
      var infos := Collected(bucket.objects, keys, prefix, now);
      if Mixed(infos) then Err(TypeError(MixedDatetimes)) else Ok(SortNewestFirst(infos))
  }

  /** `list_backups`: the loop over the listed objects appends a record per `.dump` object, and
      the records are then sorted newest first. */
  method ListBackups(bucket: Bucket, prefix: string, backupType: Option<string>, now: Models.DateTime)
    returns (r: Result<seq<BackupInfo>, Error>)
    ensures r == ListBackupsResult(bucket, prefix, backupType, now)
  {
    var listingPrefix := ListingPrefix(prefix, backupType);
    if !bucket.listable {
      return Err(CloudStorageError("Failed to list backups: 503 GET " + listingPrefix));
    }
    var keys := ListedKeys(bucket, listingPrefix);
    assert KeysIn(keys, bucket.objects);
    var backups := CollectDumps(bucket.objects, keys, prefix, now);
    if Mixed(backups) {
      return Err(TypeError(MixedDatetimes));
    }
    r := Ok(SortNewestFirst(backups));
  }

  /** The loop of `list_backups`: one record per listed `.dump` key, in listing order. */
  method CollectDumps(objects: map<string, CloudObject>, keys: seq<string>, prefix: string, now: Models.DateTime)
    returns (backups: seq<BackupInfo>)
    requires KeysIn(keys, objects)
    ensures backups == Collected(objects, keys, prefix, now)
  {
    backups := [];
    for i := 0 to |keys|
      invariant backups == Collected(objects, keys[..i], prefix, now)
    {
      var key := keys[i];
      CollectedSnoc(objects, keys, i, prefix, now);
      if EndsWith(key, ".dump") {
        backups := backups + [Info(prefix, key, objects[key], now)];
      }
    }
    assert keys[..|keys|] == keys;
  }

  /** When a listing fails, and when it succeeds: it fails with CloudStorageError when the
      store cannot list, and otherwise with TypeError exactly when two listed `.dump` objects
      carry times of different kinds (one from the store, aware; one from the local clock). */
  lemma ListBackupsOutcome(bucket: Bucket, prefix: string, backupType: Option<string>, now: Models.DateTime)
    ensures var r := ListBackupsResult(bucket, prefix, backupType, now);
      (!bucket.listable ==> r.Err? && r.error.CloudStorageError?)
      && (bucket.listable ==> (r.Err? <==> exists k1, k2 ::
        ListedDump(bucket, prefix, backupType, k1) && ListedDump(bucket, prefix, backupType, k2)
        && bucket.objects[k1].updated.GetOr(now).utc != bucket.objects[k2].updated.GetOr(now).utc))
      && (r.Err? && bucket.listable ==> r.error.TypeError?)
  {
    var r := ListBackupsResult(bucket, prefix, backupType, now);
    if bucket.listable {
      var keys := ListedKeys(bucket, ListingPrefix(prefix, backupType));
      var infos := Collected(bucket.objects, keys, prefix, now);
      if Mixed(infos) {
        var i, j :| 0 <= i < |infos| && 0 <= j < |infos| && infos[i].lastModified.utc != infos[j].lastModified.utc;
        CollectedMembers(bucket.objects, keys, prefix, now, infos[i]);
        CollectedMembers(bucket.objects, keys, prefix, now, infos[j]);
        assert ListedDump(bucket, prefix, backupType, infos[i].key);
        assert ListedDump(bucket, prefix, backupType, infos[j].key);
      } else {
        forall k1, k2 | ListedDump(bucket, prefix, backupType, k1) && ListedDump(bucket, prefix, backupType, k2)
          ensures bucket.objects[k1].updated.GetOr(now).utc == bucket.objects[k2].updated.GetOr(now).utc
        {
          var x1 := Info(prefix, k1, bucket.objects[k1], now);
          var x2 := Info(prefix, k2, bucket.objects[k2], now);
          CollectedMembers(bucket.objects, keys, prefix, now, x1);
          CollectedMembers(bucket.objects, keys, prefix, now, x2);
          var i :| 0 <= i < |infos| && infos[i] == x1;
          var j :| 0 <= j < |infos| && infos[j] == x2;
        }
      }
    }
  }

  /** A `.dump` object under the listing prefix. */
  predicate ListedDump(bucket: Bucket, prefix: string, backupType: Option<string>, key: string) {
    key in bucket.objects && StartsWith(key, ListingPrefix(prefix, backupType)) && EndsWith(key, ".dump")
  }

  /** What a successful listing holds: exactly the `.dump` objects under the listing prefix,
      each once, with its parsed category and name, its size (0 when unknown) and its time,
      newest first, with objects of the same time in key order. */
  lemma ListBackupsContents(bucket: Bucket, prefix: string, backupType: Option<string>, now: Models.DateTime)
    requires ListBackupsResult(bucket, prefix, backupType, now).Ok?
    ensures var r := ListBackupsResult(bucket, prefix, backupType, now).value;
      NewestFirst(r) && DistinctKeys(r)
      && (forall x :: x in r <==>
        ListedDump(bucket, prefix, backupType, x.key) && x == Info(prefix, x.key, bucket.objects[x.key], now))
      && (forall i, j :: 0 <= i < j < |r| && r[i].lastModified == r[j].lastModified ==> LexLess(r[i].key, r[j].key))
  {
    var keys := ListedKeys(bucket, ListingPrefix(prefix, backupType));
    var infos := Collected(bucket.objects, keys, prefix, now);
    var sorted := SortNewestFirst(infos);
    SortNewestFirstCorrect(infos);
    CollectedKeyOrder(bucket.objects, keys, prefix, now);
    IncreasingKeysDistinct(infos);
    SortNewestFirstDistinct(infos);
    forall x ensures x in sorted <==> x in infos {
      assert x in sorted <==> x in multiset(sorted);
    }
    forall x ensures x in infos <==>
      ListedDump(bucket, prefix, backupType, x.key) && x == Info(prefix, x.key, bucket.objects[x.key], now)
    {
      CollectedMembers(bucket.objects, keys, prefix, now, x);
    }
    forall i, j | 0 <= i < j < |sorted| && sorted[i].lastModified == sorted[j].lastModified
      ensures LexLess(sorted[i].key, sorted[j].key)
    {
      SameTimeInKeyOrder(bucket.objects, keys, prefix, now, sorted, i, j);
    }
  }

  /** Two records of the same time come out of the stable sort in listing (key) order. */
  lemma SameTimeInKeyOrder(
    objects: map<string, CloudObject>, keys: seq<string>, prefix: string, now: Models.DateTime,
    sorted: seq<BackupInfo>, i: int, j: int)
    requires KeysIn(keys, objects) && StrictlySorted(keys)
    requires sorted == SortNewestFirst(Collected(objects, keys, prefix, now))
    requires 0 <= i < j < |sorted| && sorted[i].lastModified == sorted[j].lastModified
    ensures LexLess(sorted[i].key, sorted[j].key)
  {
    var infos := Collected(objects, keys, prefix, now);
    var t := sorted[i].lastModified;
    SortNewestFirstStable(infos, t);
    var a, b := AtTimeKeepsOrder(sorted, t, i, j);
    CollectedKeyOrder(objects, keys, prefix, now);
    AtTimeSubsequence(infos, t);
  }

  /** A record of time `t` has a place in `AtTime(s, t)`. */
  lemma {:induction false} AtTimeIndexOf(s: seq<BackupInfo>, t: Models.DateTime, i: int) returns (k: int)
    requires 0 <= i < |s| && s[i].lastModified == t
    ensures 0 <= k < |AtTime(s, t)| && AtTime(s, t)[k] == s[i]
  {
    var rest := AtTime(s[1..], t);
    if i == 0 {
      k := 0;
    } else {
      var k' := AtTimeIndexOf(s[1..], t, i - 1);
      k := if s[0].lastModified == t then k' + 1 else k';
    }
  }

  /** Records of time `t` appear in `AtTime(s, t)` in the order they have in `s`. */
  lemma {:induction false} AtTimeKeepsOrder(s: seq<BackupInfo>, t: Models.DateTime, i: int, j: int)
    returns (a: int, b: int)
    requires 0 <= i < j < |s| && s[i].lastModified == t && s[j].lastModified == t
    ensures 0 <= a < b < |AtTime(s, t)| && AtTime(s, t)[a] == s[i] && AtTime(s, t)[b] == s[j]
  {
    if i == 0 {
      var k := AtTimeIndexOf(s[1..], t, j - 1);
      a, b := 0, k + 1;
    } else {
      var a', b' := AtTimeKeepsOrder(s[1..], t, i - 1, j - 1);
      var off := if s[0].lastModified == t then 1 else 0;
      a, b := a' + off, b' + off;
    }
  }

  predicate KeysIncreasing(infos: seq<BackupInfo>) {
    forall i, j :: 0 <= i < j < |infos| ==> LexLess(infos[i].key, infos[j].key)
  }

  lemma IncreasingKeysDistinct(infos: seq<BackupInfo>)
    requires KeysIncreasing(infos)
    ensures DistinctKeys(infos)
  {
    forall i, j | 0 <= i < j < |infos| ensures infos[i].key != infos[j].key {
      LexIrreflexive(infos[i].key);
    }
  }

  /** The records of one time, taken from records in strictly increasing key order, are in
      strictly increasing key order. */
  lemma {:induction false} AtTimeSubsequence(infos: seq<BackupInfo>, t: Models.DateTime)
    requires KeysIncreasing(infos)
    ensures KeysIncreasing(AtTime(infos, t))
  {
    if infos != [] {
      var tail := infos[1..];
      assert KeysIncreasing(tail) by {
        forall i, j | 0 <= i < j < |tail| ensures LexLess(tail[i].key, tail[j].key) {
          assert tail[i] == infos[i + 1] && tail[j] == infos[j + 1];
        }
      }
      AtTimeSubsequence(tail, t);
      AtTimeMembers(tail, t);
      var sub := AtTime(infos, t);
      var rest := AtTime(tail, t);
      if infos[0].lastModified == t {
        assert sub == [infos[0]] + rest;
        forall i, j | 0 <= i < j < |sub| ensures LexLess(sub[i].key, sub[j].key) {
          assert sub[j] == rest[j - 1];
          if i == 0 {
            assert rest[j - 1] in tail;
            var k :| 0 <= k < |tail| && tail[k] == rest[j - 1];
            assert infos[k + 1] == rest[j - 1];
          } else {
            assert sub[i] == rest[i - 1];
          }
        }
      } else {
        assert sub == rest;
      }
    }
  }

  lemma {:induction false} AtTimeMembers(infos: seq<BackupInfo>, t: Models.DateTime)
    ensures forall x :: x in AtTime(infos, t) ==> x in infos
  {
    if infos != [] {
      AtTimeMembers(infos[1..], t);
    }
  }

  /** Collecting keys listed in order gives records in strictly increasing key order. */
  lemma {:induction false} CollectedKeyOrder(
    objects: map<string, CloudObject>, keys: seq<string>, prefix: string, now: Models.DateTime)
    requires KeysIn(keys, objects) && StrictlySorted(keys)
    ensures KeysIncreasing(Collected(objects, keys, prefix, now))
  {
    if keys != [] {
      var init := keys[..|keys| - 1];
      var last := keys[|keys| - 1];
      assert StrictlySorted(init);
      CollectedKeyOrder(objects, init, prefix, now);
      var c0 := Collected(objects, init, prefix, now);
      forall i | 0 <= i < |c0| ensures LexLess(c0[i].key, last) {
        CollectedMembers(objects, init, prefix, now, c0[i]);
        var k :| 0 <= k < |init| && init[k] == c0[i].key;
      }
    }
  }

  // ---------------------------------------------------------------------------
  // Sidecar lookup and upload verification
  // ---------------------------------------------------------------------------

  /** The key `get_metadata` looks up: every `.dump` in the dump key becomes `.json`. */
  function MetadataKey(dumpKey: string): string {
    ReplaceAll(dumpKey, ".dump", ".json")
  }

  /** `get_metadata`: the sidecar document, or None when it is missing or does not hold JSON. */
  function GetMetadata(bucket: Bucket, dumpKey: string): (r: Option<Value>)
    ensures r.Some? <==>
      MetadataKey(dumpKey) in bucket.objects && bucket.objects[MetadataKey(dumpKey)].content.Document?
    ensures r.Some? ==> bucket.objects[MetadataKey(dumpKey)].content == Document(r.value)
  {
    var key := MetadataKey(dumpKey);
    if key !in bucket.objects then None
    else match bucket.objects[key].content
      case Document(doc) => Some(doc)
      case Blob(_) => None
  }

  /** For a dump key whose only `.dump` is its ending, the sidecar key swaps that suffix. */
  lemma MetadataKeyOfDump(stem: string)
    requires !Contains(stem + ".dum", ".dump")
    ensures MetadataKey(stem + ".dump") == stem + ".json"
  {
    assert ".dump"[..4] == ".dum";
    ReplaceAllAtEnd(stem, ".dump", ".json");
  }

  /** A sidecar uploaded under the key derived from its dump's key is what `get_metadata`
      returns for that dump. */
  lemma UploadThenGetMetadata(
    bucket: Bucket, fs: Fs, path: Path, stem: string, now: Models.DateTime, etag: string, doc: Value)
    requires !Contains(stem + ".dum", ".dump")
    requires path in fs.files && fs.files[path] == Document(doc)
    requires stem + ".json" !in bucket.refused
    ensures GetMetadata(UploadFile(bucket, fs, path, stem + ".json", now, etag).0, stem + ".dump") == Some(doc)
  {
    MetadataKeyOfDump(stem);
  }

  /** `verify_upload`: the reported size, 0 when unknown, equals the expected size; a missing
      object makes `reload` raise, which reads as False. */
  function VerifyUpload(bucket: Bucket, key: string, expectedSize: int): (r: bool)
    ensures r <==> key in bucket.objects && bucket.objects[key].size.GetOr(0) == expectedSize
  {
    if key !in bucket.objects then false
    else bucket.objects[key].size.GetOr(0) == expectedSize
  }

  /** An upload that succeeded verifies against the local file's size. */
  lemma UploadThenVerify(bucket: Bucket, fs: Fs, path: Path, key: string, now: Models.DateTime, etag: string)
    requires UploadFile(bucket, fs, path, key, now, etag).1.success
    ensures VerifyUpload(UploadFile(bucket, fs, path, key, now, etag).0, key, SizeOf(fs.files[path]))
  {
  }
}
