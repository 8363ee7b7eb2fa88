/**
 * scripts/restore-storage-core.ts: restore from the mirror and the six checks. What each check
 * means, that together they are exact, and which of them each kind of damage turns red.
 */
module Restore {
  import opened Text
  import opened ObjectStore
  import opened Mirror

  datatype CheckId = Vacuous | Count | Size | Integrity | Catalog | Opens

  datatype Check = Check(id: CheckId, ok: bool)

  /** A row of `board_snapshots`. */
  datatype SnapshotRow = SnapshotRow(storageKey: string, byteSize: nat, stateVector: Bytes)

  datatype Scope = Scope(bucket: string, prefix: string)

  /**
   * Everything a restore reads. `decode` gives a document's state vector, None when the bytes are
   * no document; `refused` are the keys whose put the target fails though the length is right;
   * `rows` is None for a bucket without a catalogue.
   */
  datatype World = World(
    backups: Objects, target: Objects, manifest: Manifest, scope: Scope, rows: Option<seq<SnapshotRow>>,
    verifyOnly: bool, refused: set<string>, clock: Option<int>,
    sha: Bytes -> string, decode: Bytes -> Option<Bytes>)

  function InPrefix(entries: seq<Entry>, prefix: string): (r: seq<Entry>)
    ensures forall e :: e in r <==> e in entries && StartsWith(e.key, prefix)
  {
    if entries == [] then []
    else (if StartsWith(entries[0].key, prefix) then [entries[0]] else []) + InPrefix(entries[1..], prefix)
  }

  function SelectEntries(m: Manifest, scope: Scope): (r: seq<Entry>) {
    InPrefix(if scope.bucket in m.buckets then m.buckets[scope.bucket] else [], scope.prefix)
  }

  function RowsInScope(rows: seq<SnapshotRow>, prefix: string): (r: seq<SnapshotRow>)
    ensures forall x :: x in r <==> x in rows && StartsWith(x.storageKey, prefix)
  {
    if rows == [] then []
    else (if StartsWith(rows[0].storageKey, prefix) then [rows[0]] else []) + RowsInScope(rows[1..], prefix)
  }

  function Entries(w: World): seq<Entry> {
    SelectEntries(w.manifest, w.scope)
  }

  // ----- what becomes of an entry -----

  /** The bytes an entry is checked against: the mirror's, or the target's when only verifying. */
  function Source(w: World, key: string): Option<Bytes> {
    if w.verifyOnly then BytesAt(w.target, key) else BytesAt(w.backups, MirrorKeyOf(w.scope.bucket, key))
  }

  predicate IsMissing(w: World, e: Entry) {
    Source(w, e.key).None?
  }

  predicate BadSize(w: World, e: Entry) {
    Source(w, e.key).Some? && (|Source(w, e.key).value| != e.size || (!w.verifyOnly && e.key in w.refused))
  }

  /** The entry's bytes were read or copied to the end, so its hash is known. */
  predicate Hashed(w: World, e: Entry) {
    Source(w, e.key).Some? && (w.verifyOnly || !BadSize(w, e))
  }

  predicate BadHash(w: World, e: Entry) {
    Hashed(w, e) && e.sha256 != Some(w.sha(Source(w, e.key).value))
  }

  /** The keys a restore writes. */
  function WrittenKeys(w: World, entries: seq<Entry>): set<string> {
    if w.verifyOnly then {} else set e | e in entries && Hashed(w, e) :: e.key
  }

  function AfterEntries(w: World, entries: seq<Entry>): Objects {
    w.target + map k | k in WrittenKeys(w, entries) && Source(w, k).Some? :: Object(Source(w, k).value, w.clock)
  }

  function After(w: World): Objects {
    AfterEntries(w, Entries(w))
  }

  // ----- the six checks -----

  predicate RowHasBytes(objects: Objects, r: SnapshotRow) {
    r.storageKey in objects
  }

  predicate RowOpens(w: World, objects: Objects, r: SnapshotRow) {
    r.storageKey in objects && w.decode(objects[r.storageKey].bytes) == Some(r.stateVector)
  }

  /** A non-empty mirror beside a catalogue that knows nothing in scope. */
  predicate EmptyCatalog(w: World) {
    w.rows.Some? && RowsInScope(w.rows.value, w.scope.prefix) == [] && Entries(w) != []
  }

  predicate CountOk(w: World) {
    forall e :: e in Entries(w) ==> !IsMissing(w, e)
  }

  predicate SizeOk(w: World) {
    forall e :: e in Entries(w) ==> !BadSize(w, e)
  }

  predicate IntegrityOk(w: World) {
    forall e :: e in Entries(w) ==> !BadHash(w, e)
  }

  predicate CatalogOk(w: World) {
    w.rows.None? ||
    (!EmptyCatalog(w) && forall r :: r in RowsInScope(w.rows.value, w.scope.prefix) ==> RowHasBytes(After(w), r))
  }

  predicate OpensOk(w: World) {
    w.rows.None? ||
    (!EmptyCatalog(w) && forall r :: r in RowsInScope(w.rows.value, w.scope.prefix) ==> RowOpens(w, After(w), r))
  }

  predicate Ok(w: World, id: CheckId) {
    match id
    case Vacuous => Entries(w) != []
    case Count => CountOk(w)
    case Size => SizeOk(w)
    case Integrity => IntegrityOk(w)
    case Catalog => CatalogOk(w)
    case Opens => OpensOk(w)
  }

  function Report(w: World): seq<Check> {
    [Check(Vacuous, Ok(w, Vacuous)), Check(Count, Ok(w, Count)), Check(Size, Ok(w, Size)),
     Check(Integrity, Ok(w, Integrity)), Check(Catalog, Ok(w, Catalog)), Check(Opens, Ok(w, Opens))]
  }

  // ----- the code -----

  lemma CatalogChecks(w: World)
    ensures w.rows.None? ==> Ok(w, Catalog) && Ok(w, Opens)
    ensures w.rows.Some? ==>
              var rows := RowsInScope(w.rows.value, w.scope.prefix);
              var empty := |rows| == 0 && |Entries(w)| > 0;
              (Ok(w, Catalog) <==> !empty && forall r :: r in rows ==> RowHasBytes(After(w), r)) &&
              (Ok(w, Opens) <==> !empty && forall r :: r in rows ==> RowOpens(w, After(w), r))
  {}

  /** The keys of the entries, or rows, something is wrong with, in order. */
  ghost function Keys<T>(items: seq<T>, keyOf: T -> string, wrong: T -> bool): (keys: seq<string>)
    ensures keys == [] <==> forall x :: x in items ==> !wrong(x)
  {
    if items == [] then []
    else
      var init, last := items[..|items| - 1], items[|items| - 1];
      assert items == init + [last];
      Keys(init, keyOf, wrong) + if wrong(last) then [keyOf(last)] else []
  }

  lemma KeysOneMore<T>(items: seq<T>, i: nat, keyOf: T -> string, wrong: T -> bool)
    requires i < |items|
    ensures Keys(items[..i + 1], keyOf, wrong)
         == Keys(items[..i], keyOf, wrong) + if wrong(items[i]) then [keyOf(items[i])] else []
  {
    assert items[..i + 1][..i] == items[..i];
  }

  ghost function EntryKey(): Entry -> string { (e: Entry) => e.key }

  ghost function RowKey(): SnapshotRow -> string { (r: SnapshotRow) => r.storageKey }

  ghost function Gone(w: World): Entry -> bool { e => IsMissing(w, e) }

  ghost function Missized(w: World): Entry -> bool { e => BadSize(w, e) }

  ghost function Mishashed(w: World): Entry -> bool { e => BadHash(w, e) && e.sha256.Some? }

  ghost function Unhashed(w: World): Entry -> bool { e => BadHash(w, e) && e.sha256.None? }

  ghost function Empty(objects: Objects): SnapshotRow -> bool { r => !RowHasBytes(objects, r) }

  ghost function Unreadable(w: World, objects: Objects): SnapshotRow -> bool {
    r => RowHasBytes(objects, r) && !RowOpens(w, objects, r)
  }

  /** The copying loop: what it found wrong, and the target it leaves. */
  method CopyEntries(backups: Store, target: Store, entries: seq<Entry>, ghost w: World,
                     bucket: string, verifyOnly: bool, refused: set<string>, sha: Bytes -> string)
    returns (missing: seq<string>, sizeMismatch: seq<string>, shaMismatch: seq<string>, shaUnknown: seq<string>)
    requires backups != target
    requires w.backups == backups.objects && w.target == target.objects && w.clock == target.clock
    requires w.scope.bucket == bucket && w.verifyOnly == verifyOnly && w.refused == refused && w.sha == sha
    modifies target
    ensures target.clock == old(target.clock)
    ensures target.objects == AfterEntries(w, entries)
    ensures missing == Keys(entries, EntryKey(), Gone(w))
    ensures sizeMismatch == Keys(entries, EntryKey(), Missized(w))
    ensures shaMismatch == Keys(entries, EntryKey(), Mishashed(w))
    ensures shaUnknown == Keys(entries, EntryKey(), Unhashed(w))
  {
    missing, sizeMismatch, shaMismatch, shaUnknown := [], [], [], [];
    hide AfterEntries, IsMissing, BadSize, BadHash, Hashed, Keys;
    NothingWrittenYet(w);
    NothingWrongYet(EntryKey(), Gone(w));
    NothingWrongYet(EntryKey(), Missized(w));
    NothingWrongYet(EntryKey(), Mishashed(w));
    NothingWrongYet(EntryKey(), Unhashed(w));
    for i := 0 to |entries|
      invariant target.clock == old(target.clock) && backups.objects == w.backups
      invariant target.objects == AfterEntries(w, entries[..i])
      invariant missing == Keys(entries[..i], EntryKey(), Gone(w))
      invariant sizeMismatch == Keys(entries[..i], EntryKey(), Missized(w))
      invariant shaMismatch == Keys(entries[..i], EntryKey(), Mishashed(w))
      invariant shaUnknown == Keys(entries[..i], EntryKey(), Unhashed(w))
    {
      var entry := entries[i];
      AfterOneMore(w, entries[..i], entry);
      EntryStatus(w, entry);
      assert entries[..i + 1] == entries[..i] + [entry];
      KeysOneMore(entries, i, EntryKey(), Gone(w));
      KeysOneMore(entries, i, EntryKey(), Missized(w));
      KeysOneMore(entries, i, EntryKey(), Mishashed(w));
      KeysOneMore(entries, i, EntryKey(), Unhashed(w));
      var actualSha: string;
      var actualSize: Option<nat>;
      if verifyOnly {
        VerifyingWritesNothing(w, entries[..i]);
        var body := target.GetObject(entry.key);
        if body == None {
          missing := missing + [entry.key];
          continue;
        }
        actualSha := sha(body.value);
        actualSize := Some(|body.value|);
      } else {
        var body := backups.GetObject(MirrorKeyOf(bucket, entry.key));
        if body == None {
          missing := missing + [entry.key];
          continue;
        }
        var stored := false;
        if entry.key !in refused {
          stored := target.PutObject(entry.key, body.value, entry.size);
        }
        if !stored {
          sizeMismatch := sizeMismatch + [entry.key];
          continue;
        }
        actualSha := sha(body.value);
        var head := target.HeadObject(entry.key);
        actualSize := if head.Some? then Some(head.value.size) else None;
      }
      if actualSize != Some(entry.size) {
        sizeMismatch := sizeMismatch + [entry.key];
      }
      if entry.sha256 == None {
        shaUnknown := shaUnknown + [entry.key];
      } else if actualSha != entry.sha256.value {
        shaMismatch := shaMismatch + [entry.key];
      }
    }
    assert entries[..|entries|] == entries;
  }

  /** What the loop's branches ask, in the order it asks. */
  lemma EntryStatus(w: World, e: Entry)
    ensures IsMissing(w, e) <==> Source(w, e.key).None?
    ensures IsMissing(w, e) ==> !BadSize(w, e) && !Hashed(w, e) && !BadHash(w, e)
    ensures !IsMissing(w, e) ==>
              var bytes := Source(w, e.key).value;
              && (BadSize(w, e) <==> |bytes| != e.size || (!w.verifyOnly && e.key in w.refused))
              && (Hashed(w, e) <==> w.verifyOnly || !BadSize(w, e))
              && (BadHash(w, e) <==> Hashed(w, e) && e.sha256 != Some(w.sha(bytes)))
  {}

  lemma NothingWrongYet<T>(keyOf: T -> string, wrong: T -> bool)
    ensures Keys([], keyOf, wrong) == []
  {}

  lemma NothingWrittenYet(w: World)
    ensures AfterEntries(w, []) == w.target
  {}

  lemma VerifyingWritesNothing(w: World, entries: seq<Entry>)
    requires w.verifyOnly
    ensures AfterEntries(w, entries) == w.target
  {}

  lemma AfterOneMore(w: World, entries: seq<Entry>, e: Entry)
    ensures AfterEntries(w, entries + [e])
         == if !w.verifyOnly && Hashed(w, e)
            then AfterEntries(w, entries)[e.key := Object(Source(w, e.key).value, w.clock)]
            else AfterEntries(w, entries)
  {
    hide Hashed, Source, AfterEntries, WrittenKeys;
    WrittenOneMore(w, entries, e);
    if Hashed(w, e) { HashedHasSource(w, e); }
    var a, b := AfterEntries(w, entries), AfterEntries(w, entries + [e]);
    var c := if !w.verifyOnly && Hashed(w, e) then a[e.key := Object(Source(w, e.key).value, w.clock)] else a;
    forall k ensures (k in b <==> k in c) && (k in b ==> b[k] == c[k]) {
      AfterEntriesAt(w, entries, k);
      AfterEntriesAt(w, entries + [e], k);
    }
    assert b == c;
  }

  lemma AfterEntriesAt(w: World, entries: seq<Entry>, k: string)
    ensures var a := AfterEntries(w, entries);
            if k in WrittenKeys(w, entries) && Source(w, k).Some?
            then k in a && a[k] == Object(Source(w, k).value, w.clock)
            else (k in a <==> k in w.target) && (k in a ==> a[k] == w.target[k])
  {
    hide WrittenKeys, Source;
  }

  lemma WrittenOneMore(w: World, entries: seq<Entry>, e: Entry)
    ensures WrittenKeys(w, entries + [e])
            == WrittenKeys(w, entries) + (if !w.verifyOnly && Hashed(w, e) then {e.key} else {})
  {
    hide Hashed;
  }

  lemma HashedHasSource(w: World, e: Entry)
    requires Hashed(w, e)
    ensures Source(w, e.key).Some?
  {}

  /** The catalogue loop. */
  method CheckRows(target: Store, rows: seq<SnapshotRow>, ghost w: World, decode: Bytes -> Option<Bytes>)
    returns (noBytes: seq<string>, badDoc: seq<string>)
    requires w.decode == decode
    ensures noBytes == Keys(rows, RowKey(), Empty(target.objects))
    ensures badDoc == Keys(rows, RowKey(), Unreadable(w, target.objects))
  {
    hide Keys;
    noBytes, badDoc := [], [];
    NothingWrongYet(RowKey(), Empty(target.objects));
    NothingWrongYet(RowKey(), Unreadable(w, target.objects));
    for i := 0 to |rows|
      invariant noBytes == Keys(rows[..i], RowKey(), Empty(target.objects))
      invariant badDoc == Keys(rows[..i], RowKey(), Unreadable(w, target.objects))
    {
      var row := rows[i];
      KeysOneMore(rows, i, RowKey(), Empty(target.objects));
      KeysOneMore(rows, i, RowKey(), Unreadable(w, target.objects));
      var body := target.GetObject(row.storageKey);
      if body == None {
        noBytes := noBytes + [row.storageKey];
        continue;
      }
      var vector := decode(body.value);
      if vector != Some(row.stateVector) {
        badDoc := badDoc + [row.storageKey];
      }
    }
    assert rows[..|rows|] == rows;
  }

  method RestoreAndVerify(backups: Store, target: Store, manifest: Manifest, scope: Scope,
                          snapshots: Option<seq<SnapshotRow>>, verifyOnly: bool, refused: set<string>,
                          sha: Bytes -> string, decode: Bytes -> Option<Bytes>)
    returns (checks: seq<Check>)
    requires backups != target
    modifies target
    ensures var w := World(old(backups.objects), old(target.objects), manifest, scope, snapshots,
                           verifyOnly, refused, old(target.clock), sha, decode);
            target.objects == After(w) && checks == Report(w)
  {
    ghost var w := World(backups.objects, target.objects, manifest, scope, snapshots,
                         verifyOnly, refused, target.clock, sha, decode);
    hide *;
    var entries := SelectEntries(manifest, scope);
    var missing, sizeMismatch, shaMismatch, shaUnknown :=
      CopyEntries(backups, target, entries, w, scope.bucket, verifyOnly, refused, sha);
    var catalog, opens := CheckCatalog(target, snapshots, scope.prefix, entries, w, decode);
    EntryListsMean(w, entries);
    ReportIs(w, entries, target.objects);
    checks := [Check(Vacuous, |entries| > 0), Check(Count, |missing| == 0), Check(Size, |sizeMismatch| == 0),
               Check(Integrity, |shaMismatch| == 0 && |shaUnknown| == 0),
               Check(Catalog, catalog), Check(Opens, opens)];
  }

  /** Each list is empty exactly when no entry fails that way. */
  lemma EntryListsMean(w: World, entries: seq<Entry>)
    ensures |Keys(entries, EntryKey(), Gone(w))| == 0 <==> forall e :: e in entries ==> !IsMissing(w, e)
    ensures |Keys(entries, EntryKey(), Missized(w))| == 0 <==> forall e :: e in entries ==> !BadSize(w, e)
    ensures |Keys(entries, EntryKey(), Mishashed(w))| == 0 && |Keys(entries, EntryKey(), Unhashed(w))| == 0
            <==> forall e :: e in entries ==> !BadHash(w, e)
  {
    hide Keys, IsMissing, BadSize, BadHash;
  }

  lemma RowListsMean(w: World, rows: seq<SnapshotRow>, objects: Objects)
    ensures |Keys(rows, RowKey(), Empty(objects))| == 0 <==> forall r :: r in rows ==> RowHasBytes(objects, r)
    ensures |Keys(rows, RowKey(), Empty(objects))| == 0 && |Keys(rows, RowKey(), Unreadable(w, objects))| == 0
            <==> forall r :: r in rows ==> RowOpens(w, objects, r)
  {
    hide Keys;
  }

  lemma ReportIs(w: World, entries: seq<Entry>, after: Objects)
    requires entries == SelectEntries(w.manifest, w.scope) && after == AfterEntries(w, entries)
    ensures after == After(w) && entries == Entries(w)
    ensures Report(w) == [
              Check(Vacuous, |entries| > 0),
              Check(Count, forall e :: e in entries ==> !IsMissing(w, e)),
              Check(Size, forall e :: e in entries ==> !BadSize(w, e)),
              Check(Integrity, forall e :: e in entries ==> !BadHash(w, e)),
              Check(Catalog, Ok(w, Catalog)), Check(Opens, Ok(w, Opens))]
  {}

  /** The two checks against the rows; both pass unasked for a bucket without a catalogue. */
  method CheckCatalog(target: Store, snapshots: Option<seq<SnapshotRow>>, prefix: string, entries: seq<Entry>,
                      ghost w: World, decode: Bytes -> Option<Bytes>)
    returns (catalog: bool, opens: bool)
    requires w.decode == decode && w.rows == snapshots && w.scope.prefix == prefix
    requires entries == SelectEntries(w.manifest, w.scope) && target.objects == AfterEntries(w, entries)
    ensures catalog == Ok(w, Catalog) && opens == Ok(w, Opens)
  {
    hide After, AfterEntries, RowsInScope, RowOpens, RowHasBytes;
    CatalogChecks(w);
    hide Ok;
    AfterIs(w, entries);
    if snapshots == None {
      return true, true;
    }
    var inScope := RowsInScope(snapshots.value, prefix);
    var noBytes, badDoc := CheckRows(target, inScope, w, decode);
    RowListsMean(w, inScope, target.objects);
    var emptyCatalog := |inScope| == 0 && |entries| > 0;
    catalog := |noBytes| == 0 && !emptyCatalog;
    opens := |badDoc| == 0 && |noBytes| == 0 && !emptyCatalog;
  }

  lemma AfterIs(w: World, entries: seq<Entry>)
    requires entries == SelectEntries(w.manifest, w.scope)
    ensures AfterEntries(w, entries) == After(w) && entries == Entries(w)
  {}
}
