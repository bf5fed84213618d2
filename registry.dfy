/** The upload ledger: a table from `"{type}/{filename}"` to what was uploaded under that name,
    kept in insertion order, saved to a JSON file after each change. */
module Registry {
  import opened Wrappers
  import opened Text
  import Models
  import GcsStorage
  import Json
  import Exceptions

  /** One uploaded backup. `synced` marks entries rebuilt from a cloud listing, whose checksum
      is the object's etag. */
  datatype Entry = Entry(filename: string, checksum: string, uploadedAt: string, gcsKey: string, synced: bool)

  /** The ledger key of a backup. */
  function KeyOf(backupType: string, filename: string): string {
    backupType + "/" + filename
  }

  /** The `uploaded` dictionary: its keys in insertion order and the entry under each. */
  datatype Table = Table(keys: seq<string>, entries: map<string, Entry>) {
    ghost predicate Valid() {
      Distinct(keys) && forall k :: k in keys <==> k in entries
    }

    /** `len(uploaded)`. */
    function Count(): nat {
      |entries|
    }

    /** `uploaded[key] = entry`: a new key goes last, an existing one keeps its place. */
    function Put(key: string, entry: Entry): (r: Table)
      requires Valid()
      ensures r.Valid() && r.entries == entries[key := entry]
      ensures key in entries ==> r.keys == keys
      ensures key !in entries ==> r.keys == keys + [key]
    {
      Table(if key in entries then keys else keys + [key], entries[key := entry])
    }

    /** `del uploaded[key]`. */
    function Delete(key: string): (r: Table)
      requires Valid()
      ensures r.Valid() && r.entries == entries - {key} && r.keys == Without(keys, key)
    {
      Table(Without(keys, key), entries - {key})
    }

    /** `is_uploaded`: the stored object key when an entry exists under `"{type}/{filename}"`
        and its checksum is the given one; None otherwise, even when an entry exists. */
    function IsUploaded(backupType: string, filename: string, checksum: string): (r: Option<string>)
      ensures r.Some? <==>
        KeyOf(backupType, filename) in entries && entries[KeyOf(backupType, filename)].checksum == checksum
      ensures r.Some? ==> r.value == entries[KeyOf(backupType, filename)].gcsKey
    {
      var key := KeyOf(backupType, filename);
      if key in entries && entries[key].checksum == checksum then Some(entries[key].gcsKey) else None
    }
  }

  const EmptyTable := Table([], map[])

  /** `s` without `x`, in order. */
  function Without(s: seq<string>, x: string): (r: seq<string>)
    ensures forall y :: y in r <==> y in s && y != x
    ensures Distinct(s) ==> Distinct(r)
  {
    if s == [] then []
    else
      var rest := Without(s[1..], x);
      if s[0] == x then rest
      else
        assert Distinct(s) ==> s[0] !in s[1..];
        [s[0]] + rest
  }

  /** A valid table has exactly as many entries as keys. */
  lemma CountIsKeys(t: Table)
    requires t.Valid()
    ensures t.Count() == |t.keys|
  {
    DistinctCardinality(t.keys);
    assert t.entries.Keys == set x | x in t.keys;
  }

  // ---------------------------------------------------------------------------
  // Marking and removing
  // ---------------------------------------------------------------------------

  /** The entry `mark_uploaded` writes, stamped with the current time. */
  function MarkedEntry(filename: string, checksum: string, gcsKey: string, now: string): Entry {
    Entry(filename, checksum, now, gcsKey, false)
  }

  /** Marking a backup makes `is_uploaded` answer with its object key for that checksum; every
      other key keeps its entry, and the table grows by one exactly when the key is new. */
  lemma MarkThenIsUploaded(t: Table, backupType: string, filename: string, checksum: string, gcsKey: string, now: string)
    requires t.Valid()
    ensures var r := t.Put(KeyOf(backupType, filename), MarkedEntry(filename, checksum, gcsKey, now));
      r.IsUploaded(backupType, filename, checksum) == Some(gcsKey)
      && (forall k :: k != KeyOf(backupType, filename) ==> (k in r.entries <==> k in t.entries))
      && (forall k :: k != KeyOf(backupType, filename) && k in t.entries ==> r.entries[k] == t.entries[k])
      && r.Count() == t.Count() + (if KeyOf(backupType, filename) in t.entries then 0 else 1)
  {
    var key := KeyOf(backupType, filename);
    var r := t.Put(key, MarkedEntry(filename, checksum, gcsKey, now));
    CountIsKeys(t);
    CountIsKeys(r);
  }

  /** Marking again with another checksum makes the old checksum stale. */
  lemma MarkOverwrites(t: Table, backupType: string, filename: string, c1: string, c2: string, k1: string, k2: string, now: string)
    requires t.Valid() && c1 != c2
    ensures var key := KeyOf(backupType, filename);
      var r := t.Put(key, MarkedEntry(filename, c1, k1, now)).Put(key, MarkedEntry(filename, c2, k2, now));
      r.IsUploaded(backupType, filename, c1) == None && r.IsUploaded(backupType, filename, c2) == Some(k2)
  {
  }

  /** `remove_entry` on the table: the key is gone, every other entry stays, and a key that was
      not there leaves the table as it was. */
  lemma RemoveEffect(t: Table, backupType: string, filename: string)
    requires t.Valid()
    ensures var key := KeyOf(backupType, filename);
      var r := t.Delete(key);
      key !in r.entries && r.IsUploaded(backupType, filename, "") == None
      && (forall k :: k != key && k in t.entries ==> k in r.entries && r.entries[k] == t.entries[k])
      && (key !in t.entries ==> r == t)
  {
    var key := KeyOf(backupType, filename);
    if key !in t.entries {
      WithoutAbsent(t.keys, key);
      assert t.entries - {key} == t.entries;
    }
  }

  /** Removing shrinks the table by one exactly when the key was there. */
  lemma RemoveCount(t: Table, key: string)
    requires t.Valid()
    ensures t.Delete(key).Count() == t.Count() - (if key in t.entries then 1 else 0)
  {
    if key in t.entries {
      assert (t.entries - {key}).Keys == t.entries.Keys - {key};
    } else {
      assert t.entries - {key} == t.entries;
    }
  }

  lemma {:induction false} WithoutAbsent(s: seq<string>, x: string)
    requires x !in s
    ensures Without(s, x) == s
  {
    if s != [] {
      WithoutAbsent(s[1..], x);
      assert s == [s[0]] + s[1..];
    }
  }

  // ---------------------------------------------------------------------------
  // Reconciliation from a cloud listing
  // ---------------------------------------------------------------------------

  predicate CloudType(t: string) {
    t == "daily" || t == "weekly" || t == "manual"
  }

  /** `prefix.rstrip("/") + "/"`. */
  function SyncPrefix(prefix: string): string {
    RStripChar(prefix, '/') + "/"
  }

  /** The category and file name `sync_from_gcs` reads off an object key: the key must start
      with the sync prefix, the rest must hold a `/`, and the part before it must be a
      category. */
  function SyncKey(prefix: string, key: string): (r: Option<(string, string)>)
    ensures r.Some? ==>
      key == SyncPrefix(prefix) + r.value.0 + "/" + r.value.1 && '/' !in r.value.0 && CloudType(r.value.0)
  {
    var ps := SyncPrefix(prefix);
    if !StartsWith(key, ps) then None
    else
      assert key == ps + key[|ps|..];
      match SplitOnce(key[|ps|..], '/')
      case None => None
      case Some(parts) => if CloudType(parts.0) then Some(parts) else None
  }

  /** Conversely, every key laid out as `{prefix}/{category}/{rest}` is taken. */
  lemma SyncKeyOfLayout(prefix: string, t: string, rest: string)
    requires '/' !in t
    ensures SyncKey(prefix, SyncPrefix(prefix) + t + "/" + rest) == if CloudType(t) then Some((t, rest)) else None
  {
    var ps := SyncPrefix(prefix);
    var key := ps + t + "/" + rest;
    assert key[..|ps|] == ps;
    assert key[|ps|..] == t + "/" + rest;
    IndexOfAfter(t, '/', rest);
    var tail := t + "/" + rest;
    assert tail[..|t|] == t && tail[|t| + 1..] == rest;
  }

  /** The entry `sync_from_gcs` writes: the etag (or "") stands in for the checksum. */
  function SyncedEntry(b: GcsStorage.BackupInfo, filename: string): Entry {
    Entry(filename, b.etag.GetOr(""), b.lastModified.IsoFormat(), b.key, true)
  }

  /** The ledger key an object would be synced under, if any. */
  predicate SyncsTo(prefix: string, b: GcsStorage.BackupInfo, key: string) {
    SyncKey(prefix, b.key).Some? && KeyOf(SyncKey(prefix, b.key).value.0, SyncKey(prefix, b.key).value.1) == key
  }

  /** One iteration of the loop: a taken key not yet in the table is added; nothing is
      overwritten. */
  function SyncOne(t: Table, prefix: string, b: GcsStorage.BackupInfo): (Table, nat)
    requires t.Valid()
  {
    match SyncKey(prefix, b.key)
    case None => (t, 0)
    case Some(parts) =>
      var key := KeyOf(parts.0, parts.1);
      if key in t.entries then (t, 0) else (t.Put(key, SyncedEntry(b, parts.1)), 1)
  }

  /** The loop over the listing: the table after it and `sync_count`. */
  function SyncAll(t: Table, prefix: string, backups: seq<GcsStorage.BackupInfo>): (r: (Table, nat))
    requires t.Valid()
    ensures r.0.Valid()
  {
    if backups == [] then (t, 0)
    else
      var prev := SyncAll(t, prefix, backups[..|backups| - 1]);
      SyncOneEffect(prev.0, prefix, backups[|backups| - 1]);
      var step := SyncOne(prev.0, prefix, backups[|backups| - 1]);
      (step.0, prev.1 + step.1)
  }

  /** One iteration adds at most the object's own key, at the end, and changes nothing else. */
  lemma SyncOneEffect(t: Table, prefix: string, b: GcsStorage.BackupInfo)
    requires t.Valid()
    ensures var r := SyncOne(t, prefix, b);
      r.0.Valid()
      && |r.0.keys| == |t.keys| + r.1 && r.0.keys[..|t.keys|] == t.keys
      && (forall k :: k in t.entries ==> k in r.0.entries && r.0.entries[k] == t.entries[k])
      && (forall k :: SyncsTo(prefix, b, k) ==> k in r.0.entries)
      && (forall k :: k in r.0.entries && k !in t.entries ==>
            SyncsTo(prefix, b, k) && r.0.entries[k] == SyncedEntry(b, SyncKey(prefix, b.key).value.1))
  {
    var r := SyncOne(t, prefix, b);
    assert r.0.keys[..|t.keys|] == t.keys by {
      if r.1 == 1 {
        assert r.0.keys == t.keys + [r.0.keys[|t.keys|]];
      }
    }
  }

  lemma SyncOneCases(t: Table, prefix: string, b: GcsStorage.BackupInfo)
    requires t.Valid()
    ensures var parts := SyncKey(prefix, b.key);
      SyncOne(t, prefix, b)
      == if parts.Some? && KeyOf(parts.value.0, parts.value.1) !in t.entries
        then (t.Put(KeyOf(parts.value.0, parts.value.1), SyncedEntry(b, parts.value.1)), 1)
        else (t, 0)
  {
  }

  lemma SyncAllSnoc(t: Table, prefix: string, backups: seq<GcsStorage.BackupInfo>, i: int)
    requires t.Valid() && 0 <= i < |backups|
    ensures var prev := SyncAll(t, prefix, backups[..i]);
      var step := SyncOne(prev.0, prefix, backups[i]);
      SyncAll(t, prefix, backups[..i + 1]) == (step.0, prev.1 + step.1)
  {
    assert backups[..i + 1][..i] == backups[..i];
  }

  /** Reconciliation only adds: old keys keep their entries and their places, and the count is
      the number of keys added. */
  lemma {:induction false} SyncAllAdditive(t: Table, prefix: string, backups: seq<GcsStorage.BackupInfo>)
    requires t.Valid()
    ensures var r := SyncAll(t, prefix, backups);
      |t.keys| <= |r.0.keys| && r.0.keys[..|t.keys|] == t.keys
      && (forall k :: k in t.entries ==> k in r.0.entries && r.0.entries[k] == t.entries[k])
      && r.1 == |r.0.keys| - |t.keys|
  {
    if backups != [] {
      var init := backups[..|backups| - 1];
      var prev := SyncAll(t, prefix, init);
      SyncAllAdditive(t, prefix, init);
      SyncOneEffect(prev.0, prefix, backups[|backups| - 1]);
      var r := SyncAll(t, prefix, backups);
      assert r.0.keys[..|t.keys|] == r.0.keys[..|prev.0.keys|][..|t.keys|];
    }
  }

  /** The count is the number of entries added. */
  lemma SyncAllCount(t: Table, prefix: string, backups: seq<GcsStorage.BackupInfo>)
    requires t.Valid()
    ensures var r := SyncAll(t, prefix, backups);
      r.1 == r.0.Count() - t.Count()
  {
    SyncAllAdditive(t, prefix, backups);
    CountIsKeys(t);
    CountIsKeys(SyncAll(t, prefix, backups).0);
  }

  /** After reconciliation every taken key of the listing is in the table. */
  lemma {:induction false} SyncAllComplete(t: Table, prefix: string, backups: seq<GcsStorage.BackupInfo>)
    requires t.Valid()
    ensures forall i, key :: 0 <= i < |backups| && SyncsTo(prefix, backups[i], key) ==>
      key in SyncAll(t, prefix, backups).0.entries
  {
    if backups != [] {
      var init := backups[..|backups| - 1];
      SyncAllComplete(t, prefix, init);
      var prev := SyncAll(t, prefix, init);
      SyncOneEffect(prev.0, prefix, backups[|backups| - 1]);
      var r := SyncAll(t, prefix, backups);
      forall i, key | 0 <= i < |backups| && SyncsTo(prefix, backups[i], key) ensures key in r.0.entries {
        if i < |backups| - 1 {
          assert backups[i] == init[i];
        }
      }
    }
  }

  /** Object `i` is the first of the listing that maps to `key`. */
  ghost predicate FirstToSync(prefix: string, backups: seq<GcsStorage.BackupInfo>, key: string, i: int) {
    0 <= i < |backups| && SyncsTo(prefix, backups[i], key)
    && forall j :: 0 <= j < i ==> !SyncsTo(prefix, backups[j], key)
  }

  lemma FirstToSyncExtends(prefix: string, init: seq<GcsStorage.BackupInfo>, backups: seq<GcsStorage.BackupInfo>, key: string, i: int)
    requires |init| <= |backups| && init == backups[..|init|]
    requires FirstToSync(prefix, init, key, i)
    ensures FirstToSync(prefix, backups, key, i)
  {
    assert backups[i] == init[i];
    forall j | 0 <= j < i ensures !SyncsTo(prefix, backups[j], key) {
      assert backups[j] == init[j];
    }
  }

  /** Each added entry comes from the first listed object that maps to its key: its checksum is
      that object's etag (or ""), its object key that object's key. */
  lemma {:induction false} SyncAllOrigin(t: Table, prefix: string, backups: seq<GcsStorage.BackupInfo>, key: string)
    requires t.Valid()
    requires key in SyncAll(t, prefix, backups).0.entries && key !in t.entries
    ensures exists i ::
      FirstToSync(prefix, backups, key, i)
      && SyncAll(t, prefix, backups).0.entries[key] == SyncedEntry(backups[i], SyncKey(prefix, backups[i].key).value.1)
  {
    var last := |backups| - 1;
    var init := backups[..last];
    var prev := SyncAll(t, prefix, init);
    var r := SyncAll(t, prefix, backups);
    SyncOneEffect(prev.0, prefix, backups[last]);
    if key in prev.0.entries {
      SyncAllOrigin(t, prefix, init, key);
      var i :| FirstToSync(prefix, init, key, i)
        && prev.0.entries[key] == SyncedEntry(init[i], SyncKey(prefix, init[i].key).value.1);
      FirstToSyncExtends(prefix, init, backups, key, i);
      assert backups[i] == init[i];
    } else {
      SyncAllComplete(t, prefix, init);
      forall j | 0 <= j < last ensures !SyncsTo(prefix, backups[j], key) {
        assert backups[j] == init[j];
      }
      assert FirstToSync(prefix, backups, key, last);
    }
  }

  /** A listing whose taken keys are all in the table changes nothing and counts 0. */
  lemma {:induction false} SyncAllNoop(t: Table, prefix: string, backups: seq<GcsStorage.BackupInfo>)
    requires t.Valid()
    requires forall i, key :: 0 <= i < |backups| && SyncsTo(prefix, backups[i], key) ==> key in t.entries
    ensures SyncAll(t, prefix, backups) == (t, 0)
  {
    if backups != [] {
      var init := backups[..|backups| - 1];
      forall i, key | 0 <= i < |init| && SyncsTo(prefix, init[i], key) ensures key in t.entries {
        assert init[i] == backups[i];
      }
      SyncAllNoop(t, prefix, init);
      var b := backups[|backups| - 1];
      if SyncKey(prefix, b.key).Some? {
        assert SyncsTo(prefix, b, KeyOf(SyncKey(prefix, b.key).value.0, SyncKey(prefix, b.key).value.1));
      }
    }
  }

  /** A second reconciliation with the same listing adds nothing and counts 0. */
  lemma SyncAllIdempotent(t: Table, prefix: string, backups: seq<GcsStorage.BackupInfo>)
    requires t.Valid()
    ensures var once := SyncAll(t, prefix, backups).0;
      SyncAll(once, prefix, backups) == (once, 0)
  {
    SyncAllComplete(t, prefix, backups);
    SyncAllNoop(SyncAll(t, prefix, backups).0, prefix, backups);
  }

  // ---------------------------------------------------------------------------
  // Listing the ledger
  // ---------------------------------------------------------------------------

  /** A ledger row as `list_uploaded` reports it. */
  datatype UploadedItem = UploadedItem(key: string, filename: string, checksum: string, uploadedAt: string, gcsKey: string)

  function ItemOf(key: string, e: Entry): UploadedItem {
    UploadedItem(key, e.filename, e.checksum, e.uploadedAt, e.gcsKey)
  }

  /** The category of a ledger key: the text before its first `/`, or `"unknown"`. */
  function EntryType(key: string): string {
    match SplitOnce(key, '/')
    case None => "unknown"
    case Some(parts) => parts.0
  }

  lemma EntryTypeOfKey(backupType: string, filename: string)
    requires '/' !in backupType
    ensures EntryType(KeyOf(backupType, filename)) == backupType
  {
    var key := KeyOf(backupType, filename);
    IndexOfAfter(backupType, '/', filename);
    assert key[..|backupType|] == backupType;
  }

  predicate Matches(key: string, backupType: Option<string>) {
    backupType.None? || EntryType(key) == backupType.value
  }

  predicate KeysIn(keys: seq<string>, entries: map<string, Entry>) {
    forall i :: 0 <= i < |keys| ==> keys[i] in entries
  }

  /** The rows the loop collects over the keys, in order. */
  function Listed(entries: map<string, Entry>, keys: seq<string>, backupType: Option<string>): seq<UploadedItem>
    requires KeysIn(keys, entries)
  {
    if keys == [] then []
    else
      var key := keys[|keys| - 1];
      Listed(entries, keys[..|keys| - 1], backupType)
      + (if Matches(key, backupType) then [ItemOf(key, entries[key])] else [])
  }

  /** The loop over one more key adds that key's row, if it is of the category. */
  lemma ListedStep(entries: map<string, Entry>, keys: seq<string>, i: nat, backupType: Option<string>)
    requires KeysIn(keys, entries) && i < |keys|
    ensures KeysIn(keys[..i], entries) && KeysIn(keys[..i + 1], entries)
    ensures Listed(entries, keys[..i + 1], backupType)
            == Listed(entries, keys[..i], backupType)
               + (if Matches(keys[i], backupType) then [ItemOf(keys[i], entries[keys[i]])] else [])
  {
    assert keys[..i + 1][..i] == keys[..i];
  }

  /** `list_uploaded(t)` holds exactly the rows of the keys whose category is `t` (all rows for
      no filter), in ledger order. */
  lemma {:induction false} ListedMembers(entries: map<string, Entry>, keys: seq<string>, backupType: Option<string>, x: UploadedItem)
    requires KeysIn(keys, entries)
    ensures x in Listed(entries, keys, backupType)
      <==> x.key in keys && Matches(x.key, backupType) && x == ItemOf(x.key, entries[x.key])
  {
    if keys != [] {
      var init := keys[..|keys| - 1];
      ListedMembers(entries, init, backupType, x);
      assert keys == init + [keys[|keys| - 1]];
    }
  }

  /** Without a filter every row is listed, in ledger order. */
  lemma {:induction false} ListedAll(entries: map<string, Entry>, keys: seq<string>)
    requires KeysIn(keys, entries)
    ensures var r := Listed(entries, keys, None);
      |r| == |keys| && forall i :: 0 <= i < |keys| ==> r[i] == ItemOf(keys[i], entries[keys[i]])
  {
    if keys != [] {
      ListedAll(entries, keys[..|keys| - 1]);
    }
  }

  // ---------------------------------------------------------------------------
  // The ledger object
  // ---------------------------------------------------------------------------

  /** What the ledger file holds. */
  datatype Ledger = Ledger(table: Table, lastUpdated: string)

  /** The ledger file as found: absent, unreadable (IOError), not JSON, a JSON document on
      which counting the `uploaded` entries raises `error`, or a ledger. */
  datatype Stored = Absent | Unreadable | NotJson | Malformed(error: Exceptions.Error) | Holds(ledger: Ledger)

  /** `len(data["uploaded"])` on a loaded document: the exception it raises, if any. A document
      that is not a dict, or lacks the key, cannot be indexed; a value without a length (None, a
      bool, a number) cannot be counted. */
  function CountError(doc: Json.Value): (r: Option<Exceptions.Error>)
    ensures doc.Object? && "uploaded" !in Json.Keys(doc.fields) ==> r == Some(Exceptions.KeyError("uploaded"))
    ensures !doc.Object? ==> r.Some? && r.value.TypeError?
    ensures r.None? ==> Json.Index(doc, "uploaded").Ok?
  {
    match Json.Index(doc, "uploaded")
    case Err(e) => Some(e)
    case Ok(v) =>
      if v.Object? || v.Array? || v.Str? then None
      else Some(Exceptions.TypeError("object of type '" + Json.TypeName(v) + "' has no len()"))
  }

  /** `_load`: the ledger the object starts from. A missing file, one that cannot be read and
      one that is not JSON start an empty ledger; a document whose entries cannot be counted
      raises out of the constructor. */
  function Load(file: Stored): (r: Result<Ledger, Exceptions.Error>)
    ensures r.Err? <==> file.Malformed?
    ensures r.Err? ==> r.error == file.error
    ensures file.Holds? ==> r == Ok(file.ledger)
    ensures r.Ok? && !file.Holds? ==> r.value.table == EmptyTable && r.value.lastUpdated == ""
  {
    match file
    case Holds(ledger) => Ok(ledger)
    case Malformed(e) => Err(e)
    case _ => Ok(Ledger(EmptyTable, ""))
  }

  class UploadRegistry {
    var table: Table
    var lastUpdated: string
    /** The ledger file. */
    var file: Stored
    /** Whether the file's directory can be created and the file written. */
    const writable: bool

    ghost predicate Valid()
      reads this
    {
      table.Valid()
    }

    /** `__init__` once `_load` has returned: the stored ledger, or an empty one when there is
        no file or it cannot be read or parsed. `Open` is the call that may raise instead. */
    constructor(file: Stored, writable: bool)
      requires Load(file).Ok?
      requires file.Holds? ==> file.ledger.table.Valid()
      ensures Valid() && this.file == file && this.writable == writable
      ensures table == Load(file).value.table && lastUpdated == Load(file).value.lastUpdated
    {
      if file.Holds? {
        table := file.ledger.table;
        lastUpdated := file.ledger.lastUpdated;
      } else {
        table := EmptyTable;
        lastUpdated := "";
      }
      this.file := file;
      this.writable := writable;
    }

    /** `UploadRegistry(path)`: a new ledger object over the file, or the exception counting
        its entries raised while loading it. */
    static method Open(file: Stored, writable: bool) returns (r: Result<UploadRegistry, Exceptions.Error>)
      requires file.Holds? ==> file.ledger.table.Valid()
      ensures r.Err? <==> Load(file).Err?
      ensures r.Err? ==> r.error == Load(file).error
      ensures r.Ok? ==> fresh(r.value) && r.value.Valid() && r.value.file == file && r.value.writable == writable
      ensures r.Ok? ==> r.value.table == Load(file).value.table && r.value.lastUpdated == Load(file).value.lastUpdated
    {
      if file.Malformed? {
        return Err(file.error);
      }
      var registry := new UploadRegistry(file, writable);
      return Ok(registry);
    }

    /** `_save`: the time is set first; a failed write is swallowed. */
    method Save(now: string)
      modifies this
      ensures table == old(table) && lastUpdated == now
      ensures file == if writable then Holds(Ledger(table, now)) else old(file)
    {
      lastUpdated := now;
      if writable {
        file := Holds(Ledger(table, now));
      }
    }

    function IsUploaded(backupType: string, filename: string, checksum: string): (r: Option<string>)
      reads this
      ensures r == table.IsUploaded(backupType, filename, checksum)
    {
      table.IsUploaded(backupType, filename, checksum)
    }

    /** `mark_uploaded`: the entry under the key is replaced or added, then the ledger is saved. */
    method MarkUploaded(backupType: string, filename: string, checksum: string, gcsKey: string, now: string)
      requires Valid()
      modifies this
      ensures Valid()
      ensures table == old(table).Put(KeyOf(backupType, filename), MarkedEntry(filename, checksum, gcsKey, now))
      ensures IsUploaded(backupType, filename, checksum) == Some(gcsKey)
      ensures lastUpdated == now && file == if writable then Holds(Ledger(table, now)) else old(file)
    {
      table := table.Put(KeyOf(backupType, filename), MarkedEntry(filename, checksum, gcsKey, now));
      Save(now);
    }

    /** `sync_from_gcs`: the loop adds the taken keys that are missing and counts them; the
        ledger is saved only when something was added. */
    method SyncFromGcs(backups: seq<GcsStorage.BackupInfo>, prefix: string, now: string) returns (syncCount: nat)
      requires Valid()
      modifies this
      ensures Valid()
      ensures (table, syncCount) == SyncAll(old(table), prefix, backups)
      ensures lastUpdated == if syncCount > 0 then now else old(lastUpdated)
      ensures file == if syncCount > 0 && writable then Holds(Ledger(table, now)) else old(file)
    {
      syncCount := AddMissing(backups, prefix);
      if syncCount > 0 {
        Save(now);
      }
    }

    /** The loop of `sync_from_gcs`, which changes only the table. */
    method AddMissing(backups: seq<GcsStorage.BackupInfo>, prefix: string) returns (syncCount: nat)
      requires Valid()
      modifies this
      ensures (table, syncCount) == SyncAll(old(table), prefix, backups)
      ensures lastUpdated == old(lastUpdated) && file == old(file)
    {
      ghost var start := table;
      syncCount := 0;
      for i := 0 to |backups|
        invariant (table, syncCount) == SyncAll(start, prefix, backups[..i])
        invariant lastUpdated == old(lastUpdated) && file == old(file)
      {
        var backup := backups[i];
        SyncAllSnoc(start, prefix, backups, i);
        SyncOneCases(table, prefix, backup);
        var parts := SyncKey(prefix, backup.key);
        if parts.Some? {
          var key := KeyOf(parts.value.0, parts.value.1);
          if key !in table.entries {
            table := table.Put(key, SyncedEntry(backup, parts.value.1));
            syncCount := syncCount + 1;
          }
        }
      }
      assert backups[..|backups|] == backups;
    }

    /** `remove_entry`: True and the entry deleted (and the ledger saved) iff the key is there. */
    method RemoveEntry(backupType: string, filename: string, now: string) returns (removed: bool)
      requires Valid()
      modifies this
      ensures Valid()
      ensures removed <==> KeyOf(backupType, filename) in old(table).entries
      ensures table == old(table).Delete(KeyOf(backupType, filename))
      ensures removed ==> lastUpdated == now && file == if writable then Holds(Ledger(table, now)) else old(file)
      ensures !removed ==> table == old(table) && lastUpdated == old(lastUpdated) && file == old(file)
    {
      var key := KeyOf(backupType, filename);
      if key in table.entries {
        table := table.Delete(key);
        Save(now);
        return true;
      }
      RemoveEffect(table, backupType, filename);
      return false;
    }

    /** `get_uploaded_count`. */
    function GetUploadedCount(): (n: nat)
      reads this
      requires Valid()
      ensures n == |table.keys|
    {
      CountIsKeys(table);
      table.Count()
    }

    /** `list_uploaded`: a loop over the ledger in order, keeping the rows of the category. */
    method ListUploaded(backupType: Option<string>) returns (items: seq<UploadedItem>)
      requires Valid()
      ensures items == Listed(table.entries, table.keys, backupType)
    {
      var keys := table.keys;
      assert KeysIn(keys, table.entries);
      items := [];
      for i := 0 to |keys|
        invariant items == Listed(table.entries, keys[..i], backupType)
      {
        var key := keys[i];
        ListedStep(table.entries, keys, i, backupType);
        if Matches(key, backupType) {
          items := items + [ItemOf(key, table.entries[key])];
        }
      }
      assert keys[..|keys|] == keys;
    }

    /** `clear`: the table is emptied and the ledger saved. */
    method Clear(now: string)
      modifies this
      ensures Valid() && table == EmptyTable && GetUploadedCount() == 0
      ensures lastUpdated == now && file == if writable then Holds(Ledger(table, now)) else old(file)
    {
      table := EmptyTable;
      Save(now);
    }
  }
}
