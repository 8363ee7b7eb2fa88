/**
 * What the six checks of a restore are worth: together exact, and each kind of damage, in every
 * world that was green, turns red exactly the checks that answer for it.
 */
module RestoreChecks {
  import opened Text
  import opened ObjectStore
  import opened Mirror
  import opened Restore

  ghost predicate AllGreen(w: World) {
    forall id: CheckId :: Ok(w, id)
  }

  /** Exactly these checks are red. */
  ghost predicate RedExactly(w: World, reds: set<CheckId>) {
    forall id: CheckId :: !Ok(w, id) <==> id in reds
  }

  lemma RedByCases(w: World, reds: set<CheckId>)
    requires (Vacuous in reds) != Ok(w, Vacuous) && (Count in reds) != Ok(w, Count)
    requires (Size in reds) != Ok(w, Size) && (Integrity in reds) != Ok(w, Integrity)
    requires (Catalog in reds) != Ok(w, Catalog) && (Opens in reds) != Ok(w, Opens)
    ensures RedExactly(w, reds)
  {
    hide Ok;
    forall id ensures !Ok(w, id) <==> id in reds {
      match id
      case Vacuous =>
      case Count =>
      case Size =>
      case Integrity =>
      case Catalog =>
      case Opens =>
    }
  }

  /** The target holds the entry with the manifest's size and hash. */
  ghost predicate Restored(w: World, target: Objects, e: Entry) {
    e.key in target && |target[e.key].bytes| == e.size && e.sha256 == Some(w.sha(target[e.key].bytes))
  }

  ghost predicate CatalogHolds(w: World, target: Objects) {
    w.rows.Some? ==>
      RowsInScope(w.rows.value, w.scope.prefix) != []
      && forall r :: r in RowsInScope(w.rows.value, w.scope.prefix) ==> RowOpens(w, target, r)
  }

  /** Nothing in scope is in the target before the restore. */
  ghost predicate FreshTarget(w: World) {
    forall k :: StartsWith(k, w.scope.prefix) ==> k !in w.target
  }

  lemma EntriesInScope(w: World)
    ensures forall e :: e in Entries(w) ==> StartsWith(e.key, w.scope.prefix)
  {}

  /** What a restore leaves at a key: the mirror's bytes where an entry got through, else what was there. */
  lemma AfterAt(w: World, k: string)
    requires !w.verifyOnly
    ensures k in After(w) <==> k in w.target || exists e :: e in Entries(w) && e.key == k && Hashed(w, e)
    ensures (exists e :: e in Entries(w) && e.key == k && Hashed(w, e)) ==>
              Source(w, k).Some? && k in After(w) && After(w)[k].bytes == Source(w, k).value
    ensures (forall e :: e in Entries(w) && e.key == k ==> !Hashed(w, e)) && k in w.target ==>
              After(w)[k] == w.target[k]
  {}

  lemma VerifyLeaves(w: World)
    requires w.verifyOnly
    ensures After(w) == w.target
  {}

  // ----- the checks in objects, entries and rows -----

  ghost predicate Listed(w: World, e: Entry) {
    && w.scope.bucket in w.manifest.buckets && e in w.manifest.buckets[w.scope.bucket]
    && StartsWith(e.key, w.scope.prefix)
  }

  /** The object a key is judged by: the target's own in a verifying pass, else the mirror's copy. */
  ghost function Found(w: World, key: string): Option<Object> {
    var objects, name := if w.verifyOnly then w.target else w.backups,
                         if w.verifyOnly then key else "storage/" + w.scope.bucket + "/" + key;
    if name in objects then Some(objects[name]) else None
  }

  /** What a restore puts: found, of the manifest's size, and not refused. */
  ghost predicate Copied(w: World, e: Entry) {
    && !w.verifyOnly && Listed(w, e) && Found(w, e.key).Some?
    && |Found(w, e.key).value.bytes| == e.size && e.key !in w.refused
  }

  lemma EntryInWords(w: World, e: Entry)
    ensures e in Entries(w) <==> Listed(w, e)
    ensures IsMissing(w, e) <==> Found(w, e.key).None?
    ensures Found(w, e.key).Some? ==>
              Source(w, e.key) == Some(Found(w, e.key).value.bytes)
              && (BadSize(w, e) <==> |Found(w, e.key).value.bytes| != e.size || (!w.verifyOnly && e.key in w.refused))
    ensures Listed(w, e) && !w.verifyOnly ==> (Copied(w, e) <==> Hashed(w, e))
  {}

  /** What each check on entries is green about. */
  lemma EntryChecksMean(w: World)
    ensures Ok(w, Vacuous) <==> exists e :: Listed(w, e)
    ensures Ok(w, Count) <==> forall e :: Listed(w, e) ==> Found(w, e.key).Some?
    ensures Ok(w, Size)
            <==> forall e :: Listed(w, e) && Found(w, e.key).Some? ==>
                   |Found(w, e.key).value.bytes| == e.size && (w.verifyOnly || e.key !in w.refused)
    ensures Ok(w, Integrity)
            <==> forall e :: Listed(w, e) && Found(w, e.key).Some? && (w.verifyOnly || Copied(w, e)) ==>
                   e.sha256 == Some(w.sha(Found(w, e.key).value.bytes))
  {
    forall e: Entry ensures e in Entries(w) <==> Listed(w, e) { EntryInWords(w, e); }
    forall e: Entry ensures IsMissing(w, e) <==> Found(w, e.key).None? { EntryInWords(w, e); }
    forall e: Entry
      ensures BadSize(w, e) <==> (Found(w, e.key).Some? && (|Found(w, e.key).value.bytes| != e.size
                                                            || (!w.verifyOnly && e.key in w.refused)))
    {
      EntryInWords(w, e);
    }
    forall e | Listed(w, e)
      ensures BadHash(w, e) <==> (Found(w, e.key).Some? && (w.verifyOnly || Copied(w, e))
                                  && e.sha256 != Some(w.sha(Found(w, e.key).value.bytes)))
    {
      EntryInWords(w, e);
    }
    hide Listed, Found, Copied, Entries, IsMissing, BadSize, BadHash;
    if Entries(w) != [] { assert Entries(w)[0] in Entries(w); }
  }

  /** What a restore leaves at a key: a copied entry's bytes, else what was there. */
  lemma TargetMeans(w: World, k: string)
    ensures k in After(w) <==> k in w.target || exists e :: Copied(w, e) && e.key == k
    ensures (exists e :: Copied(w, e) && e.key == k) ==>
              Found(w, k).Some? && k in After(w) && After(w)[k].bytes == Found(w, k).value.bytes
    ensures (forall e :: Copied(w, e) ==> e.key != k) && k in w.target ==> After(w)[k] == w.target[k]
  {
    forall e: Entry ensures !w.verifyOnly ==> (Copied(w, e) <==> e in Entries(w) && Hashed(w, e)) {
      EntryInWords(w, e);
    }
    if w.verifyOnly { VerifyLeaves(w); } else { AfterAt(w, k); }
    FoundIsSource(w, k);
    hide Listed, Found, Entries, Hashed, After;
  }

  lemma FoundIsSource(w: World, k: string)
    ensures Source(w, k) == if Found(w, k).Some? then Some(Found(w, k).value.bytes) else None
  {}

  /** Some row in scope, if there is an entry in scope. */
  ghost predicate HasRows(w: World)
    requires w.rows.Some?
  {
    (exists e :: Listed(w, e)) ==> exists r :: r in w.rows.value && StartsWith(r.storageKey, w.scope.prefix)
  }

  lemma RowsExpected(w: World)
    requires w.rows.Some?
    ensures EmptyCatalog(w) <==> !HasRows(w)
  {
    EntryChecksMean(w);
    var rows := RowsInScope(w.rows.value, w.scope.prefix);
    hide Entries, RowsInScope, Listed, StartsWith;
    if rows != [] { assert rows[0] in rows; }
  }

  /** What the two checks on rows are green about: rows where there are entries, and each has its bytes, or opens. */
  lemma RowChecksMean(w: World)
    requires w.rows.Some?
    ensures Ok(w, Catalog)
            <==> && HasRows(w)
                 && forall r :: r in w.rows.value && StartsWith(r.storageKey, w.scope.prefix) ==>
                      r.storageKey in After(w)
    ensures Ok(w, Opens)
            <==> && HasRows(w)
                 && forall r :: r in w.rows.value && StartsWith(r.storageKey, w.scope.prefix) ==>
                      r.storageKey in After(w) && w.decode(After(w)[r.storageKey].bytes) == Some(r.stateVector)
  {
    RowsExpected(w);
    hide After, EmptyCatalog, HasRows, RowsInScope, StartsWith;
  }

  /** Without rows there is nothing for them to say. */
  lemma NoRowsNoChecks(w: World)
    requires w.rows.None?
    ensures Ok(w, Catalog) && Ok(w, Opens)
  {}

  /** Green means the target holds everything the manifest lists in scope. */
  lemma GreenIsRestored(w: World, e: Entry)
    requires Ok(w, Count) && Ok(w, Size) && Ok(w, Integrity) && e in Entries(w)
    ensures Restored(w, After(w), e)
  {
    assert !IsMissing(w, e) && !BadSize(w, e) && !BadHash(w, e);
    if w.verifyOnly { VerifyLeaves(w); } else { AfterAt(w, e.key); }
  }

  /**
   * The six checks are exact together: for a verifying pass and for a restore into a target empty
   * in scope, all are green just when the scope is not empty, the target holds every entry with
   * the manifest's size and hash, and some row is in scope and every one opens to its state vector.
   */
  lemma ChecksAreExact(w: World)
    requires w.verifyOnly || FreshTarget(w)
    ensures AllGreen(w)
            <==> Entries(w) != [] && (forall e :: e in Entries(w) ==> Restored(w, After(w), e))
                 && CatalogHolds(w, After(w))
  {
    EntriesInScope(w);
    if AllGreen(w) {
      assert Ok(w, Vacuous) && Ok(w, Count) && Ok(w, Size) && Ok(w, Integrity) && Ok(w, Opens);
      forall e | e in Entries(w) ensures Restored(w, After(w), e) { GreenIsRestored(w, e); }
    }
    if Entries(w) != [] && (forall e :: e in Entries(w) ==> Restored(w, After(w), e)) && CatalogHolds(w, After(w)) {
      forall e | e in Entries(w) ensures !IsMissing(w, e) && !BadSize(w, e) && !BadHash(w, e) {
        assert Restored(w, After(w), e);
        if w.verifyOnly { VerifyLeaves(w); } else { AfterAt(w, e.key); }
      }
    }
  }

  /** Into a target that is not empty the restore's own verdict is about the mirror. */
  lemma RestoreVerdictIsTheMirrors(w: World)
    requires !w.verifyOnly
    ensures AllGreen(w)
            <==> Entries(w) != [] && CatalogHolds(w, After(w)) &&
                 forall e :: e in Entries(w) ==>
                   var m := MirrorKeyOf(w.scope.bucket, e.key);
                   m in w.backups && |w.backups[m].bytes| == e.size && e.key !in w.refused
                   && e.sha256 == Some(w.sha(w.backups[m].bytes))
  {
    if AllGreen(w) {
      assert Ok(w, Vacuous) && Ok(w, Count) && Ok(w, Size) && Ok(w, Integrity) && Ok(w, Opens);
      assert forall e :: e in Entries(w) ==> !IsMissing(w, e) && !BadSize(w, e) && !BadHash(w, e);
    }
  }

  /** A verifying pass after a green restore is green and changes nothing. */
  lemma VerifyAfterGreen(w: World)
    requires !w.verifyOnly && AllGreen(w)
    ensures var again := w.(target := After(w), verifyOnly := true);
            AllGreen(again) && After(again) == After(w)
  {
    var again := w.(target := After(w), verifyOnly := true);
    VerifyLeaves(again);
    assert Entries(again) == Entries(w);
    assert Ok(w, Vacuous) && Ok(w, Count) && Ok(w, Size) && Ok(w, Integrity) && Ok(w, Opens);
    forall e | e in Entries(again) ensures Restored(again, After(again), e) {
      GreenIsRestored(w, e);
    }
    assert CatalogHolds(again, After(again)) by {
      if w.rows.Some? {
        forall r | r in RowsInScope(w.rows.value, w.scope.prefix) ensures RowOpens(again, After(again), r) {
          assert RowOpens(w, After(w), r);
        }
      }
    }
    ChecksAreExact(again);
  }

  // ----- damage -----

  /** A world whose restore would be green. */
  ghost predicate Healthy(w: World) {
    !w.verifyOnly && FreshTarget(w) && AllGreen(w)
  }

  /** Some row in scope names the key. */
  ghost predicate Catalogued(w: World, key: string) {
    w.rows.Some? && exists r :: r in RowsInScope(w.rows.value, w.scope.prefix) && r.storageKey == key
  }

  /** The mirror's object of one key replaced, by None when it is lost. */
  function Damaged(w: World, key: string, bytes: Option<Bytes>): World {
    var m := MirrorKeyOf(w.scope.bucket, key);
    w.(backups := if bytes.None? then w.backups - {m} else w.backups[m := Object(bytes.value, None)])
  }

  lemma DamageIsLocal(w: World, key: string, bytes: Option<Bytes>, e: Entry)
    requires !w.verifyOnly
    ensures var d := Damaged(w, key, bytes);
            Entries(d) == Entries(w) &&
            (e.key != key ==> Source(d, e.key) == Source(w, e.key) && IsMissing(d, e) == IsMissing(w, e)
                              && BadSize(d, e) == BadSize(w, e) && BadHash(d, e) == BadHash(w, e)
                              && Hashed(d, e) == Hashed(w, e)) &&
            Source(d, key) == bytes
  {
    MirrorKeysAreOneToOne(w.scope.bucket, e.key, key);
  }

  lemma HealthyEntry(w: World, e: Entry)
    requires Healthy(w) && e in Entries(w)
    ensures !IsMissing(w, e) && !BadSize(w, e) && !BadHash(w, e) && e.key !in w.refused
    ensures e.key !in w.target && e.key in After(w)
  {
    assert Ok(w, Count) && Ok(w, Size) && Ok(w, Integrity);
    EntriesInScope(w);
    AfterAt(w, e.key);
  }

  /** Where nothing was damaged the target is restored as before. */
  lemma DamageLeavesOthers(w: World, key: string, bytes: Option<Bytes>, k: string)
    requires Healthy(w) && k != key
    ensures var d := Damaged(w, key, bytes);
            (k in After(d) <==> k in After(w)) && (k in After(d) ==> After(d)[k].bytes == After(w)[k].bytes)
  {
    var d := Damaged(w, key, bytes);
    forall e: Entry { DamageIsLocal(w, key, bytes, e); }
    AfterAt(w, k);
    AfterAt(d, k);
    if e :| e in Entries(w) && e.key == k && Hashed(w, e) {
      assert Hashed(d, e);
    }
    if e :| e in Entries(d) && e.key == k && Hashed(d, e) {
      assert Hashed(w, e);
    }
  }

  /** The catalogue checks after damage: as before for other rows, by what is restored for its own. */
  lemma DamagedCatalog(w: World, key: string, bytes: Option<Bytes>)
    requires Healthy(w)
    ensures var d := Damaged(w, key, bytes);
            (!Catalogued(w, key) ==> Ok(d, Catalog) && Ok(d, Opens)) &&
            (key !in After(d) && Catalogued(w, key) ==> !Ok(d, Catalog) && !Ok(d, Opens)) &&
            (key in After(d) ==> Ok(d, Catalog))
  {
    var d := Damaged(w, key, bytes);
    forall e: Entry { DamageIsLocal(w, key, bytes, e); }
    assert Ok(w, Catalog) && Ok(w, Opens);
    if w.rows.Some? {
      var rows := RowsInScope(w.rows.value, w.scope.prefix);
      forall r | r in rows && r.storageKey != key ensures RowOpens(d, After(d), r) && RowHasBytes(After(d), r) {
        DamageLeavesOthers(w, key, bytes, r.storageKey);
        assert RowOpens(w, After(w), r);
      }
      if r :| r in rows && r.storageKey == key && key !in After(d) {
        assert !RowHasBytes(After(d), r) && !RowOpens(d, After(d), r);
      }
    }
  }

  /** In a healthy world two entries of one key have one size and one hash. */
  lemma SameKeySameEntry(w: World, e: Entry)
    requires Healthy(w) && e in Entries(w)
    ensures forall f :: f in Entries(w) && f.key == e.key ==> f == e
  {
    HealthyEntry(w, e);
    forall f | f in Entries(w) && f.key == e.key ensures f == e { HealthyEntry(w, f); }
  }

  /** After damage to one key, each check on entries says what became of that key's entry. */
  lemma DamagedEntries(w: World, e: Entry, bytes: Option<Bytes>)
    requires Healthy(w) && e in Entries(w)
    ensures var d := Damaged(w, e.key, bytes);
            Entries(d) != [] && (CountOk(d) <==> !IsMissing(d, e)) && (SizeOk(d) <==> !BadSize(d, e)) &&
            (IntegrityOk(d) <==> !BadHash(d, e))
  {
    var d := Damaged(w, e.key, bytes);
    SameKeySameEntry(w, e);
    DamageIsLocal(w, e.key, bytes, e);
    hide IsMissing, BadSize, BadHash, Hashed, Source, Healthy, Entries, After;
    forall f | f in Entries(w) && f != e
      ensures !IsMissing(d, f) && !BadSize(d, f) && !BadHash(d, f)
    {
      HealthyEntry(w, f);
      DamageIsLocal(w, e.key, bytes, f);
    }
  }

  lemma DamagedKey(w: World, e: Entry, bytes: Option<Bytes>)
    requires Healthy(w) && e in Entries(w)
    ensures var d := Damaged(w, e.key, bytes);
            (e.key in After(d) <==> Hashed(d, e)) && Source(d, e.key) == bytes
            && e.key !in d.refused && !d.verifyOnly && d.sha == w.sha
  {
    var d := Damaged(w, e.key, bytes);
    SameKeySameEntry(w, e);
    HealthyEntry(w, e);
    DamageIsLocal(w, e.key, bytes, e);
    AfterAt(d, e.key);
  }

  /** Some row in scope names the key and these bytes are not its document. */
  ghost predicate Misopens(w: World, key: string, bytes: Bytes) {
    w.rows.Some? && exists r :: r in RowsInScope(w.rows.value, w.scope.prefix) && r.storageKey == key
                                && w.decode(bytes) != Some(r.stateVector)
  }

  lemma HealthyRows(w: World)
    requires Healthy(w) && w.rows.Some?
    ensures !w.verifyOnly
    ensures var rows := RowsInScope(w.rows.value, w.scope.prefix);
            rows != []
            && forall r :: r in rows ==>
                 r.storageKey in After(w) && r.storageKey !in w.target && RowOpens(w, After(w), r)
  {
    assert Ok(w, Opens) && Ok(w, Vacuous);
    hide After, Entries;
    forall r | r in RowsInScope(w.rows.value, w.scope.prefix) ensures r.storageKey in After(w) {
      assert RowOpens(w, After(w), r);
    }
  }

  /** Bytes that came through the put are what the rows of their key open; other rows open as before. */
  lemma RowAfterDamage(w: World, e: Entry, bytes: Bytes, r: SnapshotRow)
    requires Healthy(w) && e in Entries(w) && |bytes| == e.size
    requires w.rows.Some? && r in RowsInScope(w.rows.value, w.scope.prefix)
    ensures var d := Damaged(w, e.key, Some(bytes));
            RowOpens(d, After(d), r) <==> r.storageKey != e.key || w.decode(bytes) == Some(r.stateVector)
  {
    hide After, Entries, RowsInScope, CountOk, SizeOk, IntegrityOk, CatalogOk, Source;
    var d := Damaged(w, e.key, Some(bytes));
    HealthyRows(w);
    if r.storageKey == e.key {
      DamagedKey(w, e, Some(bytes));
      DamageIsLocal(w, e.key, Some(bytes), e);
      HashedAfter(d, e);
    } else {
      DamageLeavesOthers(w, e.key, Some(bytes), r.storageKey);
    }
  }

  lemma HashedAfter(w: World, e: Entry)
    requires !w.verifyOnly && e in Entries(w) && Hashed(w, e)
    ensures Source(w, e.key).Some? && e.key in After(w) && After(w)[e.key].bytes == Source(w, e.key).value
  {
    AfterAt(w, e.key);
  }

  lemma DamagedOpens(w: World, e: Entry, bytes: Bytes)
    requires Healthy(w) && e in Entries(w) && |bytes| == e.size
    ensures Ok(Damaged(w, e.key, Some(bytes)), Opens) <==> !Misopens(w, e.key, bytes)
  {
    hide After, Entries, RowsInScope, RowOpens, Healthy, Source;
    var d := Damaged(w, e.key, Some(bytes));
    if w.rows.Some? {
      HealthyRows(w);
      forall r | r in RowsInScope(w.rows.value, w.scope.prefix)
        ensures RowOpens(d, After(d), r) <==> r.storageKey != e.key || w.decode(bytes) == Some(r.stateVector)
      {
        RowAfterDamage(w, e, bytes, r);
      }
    }
  }

  /** Bytes changed, size kept: the hash tells; opening tells iff a row names the object and its document changed. */
  lemma SameSizeCorruption(w: World, e: Entry, bytes: Bytes)
    requires Healthy(w) && e in Entries(w) && |bytes| == e.size && Some(w.sha(bytes)) != e.sha256
    ensures var d := Damaged(w, e.key, Some(bytes));
            RedExactly(d, {Integrity} + if Misopens(w, e.key, bytes) then {Opens} else {})
  {
    hide CountOk, SizeOk, IntegrityOk, CatalogOk, OpensOk, Source, After, Entries, Healthy, Catalogued, Damaged,
      RedExactly, Misopens;
    var d := Damaged(w, e.key, Some(bytes));
    DamagedEntries(w, e, Some(bytes));
    DamagedKey(w, e, Some(bytes));
    DamagedCatalog(w, e.key, Some(bytes));
    DamagedOpens(w, e, bytes);
    RedByCases(d, {Integrity} + if Misopens(w, e.key, bytes) then {Opens} else {});
  }

  /** A cut or grown object: the put refuses it, so its hash is never asked. */
  lemma WrongLength(w: World, e: Entry, bytes: Bytes)
    requires Healthy(w) && e in Entries(w) && |bytes| != e.size
    ensures RedExactly(Damaged(w, e.key, Some(bytes)),
                       if Catalogued(w, e.key) then {Size, Catalog, Opens} else {Size})
  {
    DamagedEntries(w, e, Some(bytes));
    DamagedKey(w, e, Some(bytes));
    DamagedCatalog(w, e.key, Some(bytes));
    hide CountOk, SizeOk, IntegrityOk, CatalogOk, OpensOk, Source, After, Entries, Healthy, Catalogued;
  }

  lemma LostObject(w: World, e: Entry)
    requires Healthy(w) && e in Entries(w)
    ensures RedExactly(Damaged(w, e.key, None),
                       if Catalogued(w, e.key) then {Count, Catalog, Opens} else {Count})
  {
    DamagedEntries(w, e, None);
    DamagedKey(w, e, None);
    DamagedCatalog(w, e.key, None);
    hide CountOk, SizeOk, IntegrityOk, CatalogOk, OpensOk, Source, After, Entries, Healthy, Catalogued;
  }

  lemma EntryChecksIgnoreRows(w: World, rows: Option<seq<SnapshotRow>>)
    ensures var d := w.(rows := rows);
            After(d) == After(w) && Entries(d) == Entries(w) &&
            CountOk(d) == CountOk(w) && SizeOk(d) == SizeOk(w) && IntegrityOk(d) == IntegrityOk(w)
  {
    var d := w.(rows := rows);
    hide IsMissing, BadSize, BadHash, Hashed, Source, SelectEntries;
    forall e: Entry ensures Hashed(d, e) == Hashed(w, e) && IsMissing(d, e) == IsMissing(w, e) &&
            BadSize(d, e) == BadSize(w, e) && BadHash(d, e) == BadHash(w, e)
    {
      EntryIgnoresRows(w, rows, e);
    }
    assert WrittenKeys(d, Entries(w)) == WrittenKeys(w, Entries(w));
    forall k: string ensures Source(d, k) == Source(w, k) { EntryIgnoresRows(w, rows, Entry(k, 0, None)); }
    assert AfterEntries(d, Entries(w)) == AfterEntries(w, Entries(w));
  }

  lemma EntryIgnoresRows(w: World, rows: Option<seq<SnapshotRow>>, e: Entry)
    ensures var d := w.(rows := rows);
            Source(d, e.key) == Source(w, e.key) && IsMissing(d, e) == IsMissing(w, e) &&
            BadSize(d, e) == BadSize(w, e) && BadHash(d, e) == BadHash(w, e) && Hashed(d, e) == Hashed(w, e)
  {}

  /** A row the mirror never saw: both catalogue checks. */
  lemma UnknownRow(w: World, row: SnapshotRow)
    requires Healthy(w) && w.rows.Some?
    requires StartsWith(row.storageKey, w.scope.prefix) && forall e :: e in Entries(w) ==> e.key != row.storageKey
    ensures RedExactly(w.(rows := Some(w.rows.value + [row])), {Catalog, Opens})
  {
    var d := w.(rows := Some(w.rows.value + [row]));
    EntryChecksIgnoreRows(w, d.rows);
    AfterAt(w, row.storageKey);
    assert row in d.rows.value;
    assert row in RowsInScope(d.rows.value, d.scope.prefix);
    assert !RowHasBytes(After(d), row) && !RowOpens(d, After(d), row);
    assert Ok(w, Vacuous) && Ok(w, Count) && Ok(w, Size) && Ok(w, Integrity);
  }

  /** Rows read from the wrong database: no row in scope beside a mirror that has entries. */
  lemma EmptyCatalogue(w: World, rows: seq<SnapshotRow>)
    requires Healthy(w) && RowsInScope(rows, w.scope.prefix) == []
    ensures RedExactly(w.(rows := Some(rows)), {Catalog, Opens})
  {
    EntryChecksIgnoreRows(w, Some(rows));
    assert Ok(w, Vacuous) && Ok(w, Count) && Ok(w, Size) && Ok(w, Integrity);
  }

  /** A scope without entries proves nothing; rows in it are then missing as well. */
  lemma EmptyScope(w: World)
    requires !w.verifyOnly && FreshTarget(w) && Entries(w) == []
    ensures RedExactly(w, if w.rows.Some? && RowsInScope(w.rows.value, w.scope.prefix) != []
                          then {Vacuous, Catalog, Opens} else {Vacuous})
  {
    if w.rows.Some? {
      var rows := RowsInScope(w.rows.value, w.scope.prefix);
      forall r | r in rows ensures !RowHasBytes(After(w), r) && !RowOpens(w, After(w), r) {
        AfterAt(w, r.storageKey);
      }
      if rows != [] { assert rows[0] in rows; }
    }
  }

  /** The mirror took these bytes of the key and the manifest says so, wherever it lists the key. */
  ghost predicate MirroredTruly(w: World, d: World, key: string, bytes: Bytes) {
    && d == Damaged(w, key, Some(bytes)).(manifest := d.manifest)
    && |Entries(d)| == |Entries(w)|
    && forall j :: 0 <= j < |Entries(w)| ==>
         Entries(d)[j] == if Entries(w)[j].key == key then Entry(key, |bytes|, Some(w.sha(bytes))) else Entries(w)[j]
  }

  /** The mirror copied rubbish truly: size and hash right, document worthless. Only opening it tells. */
  lemma FaithfulRubbish(w: World, d: World, e: Entry, bytes: Bytes)
    requires Healthy(w) && e in Entries(w) && MirroredTruly(w, d, e.key, bytes)
    ensures RedExactly(d, if Misopens(w, e.key, bytes) then {Opens} else {})
  {
    hide CountOk, SizeOk, IntegrityOk, CatalogOk, OpensOk, Entries, MirroredTruly, Damaged, RowsInScope, RedExactly,
      Healthy;
    RubbishEntries(w, d, e, bytes);
    RubbishRows(w, d, e, bytes);
    RedByCases(d, if Misopens(w, e.key, bytes) then {Opens} else {});
  }

  lemma RubbishEntry(w: World, d: World, e: Entry, bytes: Bytes, j: nat)
    requires Healthy(w) && e in Entries(w) && MirroredTruly(w, d, e.key, bytes) && j < |Entries(d)|
    ensures var g := Entries(d)[j];
            !IsMissing(d, g) && !BadSize(d, g) && !BadHash(d, g) && Hashed(d, g) && g.key == Entries(w)[j].key
  {
    hide Source, Damaged, Healthy, Entries;
    var f := Entries(w)[j];
    HealthyEntry(w, f);
    HealthyCopies(w);
    RubbishSource(w, d, e.key, bytes, f.key);
  }

  lemma RubbishSource(w: World, d: World, key: string, bytes: Bytes, k: string)
    requires !w.verifyOnly && d == Damaged(w, key, Some(bytes)).(manifest := d.manifest)
    ensures Source(d, k) == if k == key then Some(bytes) else Source(w, k)
    ensures !d.verifyOnly && d.refused == w.refused && d.sha == w.sha && d.target == w.target
  {
    MirrorKeysAreOneToOne(w.scope.bucket, k, key);
  }

  lemma RubbishEntries(w: World, d: World, e: Entry, bytes: Bytes)
    requires Healthy(w) && e in Entries(w) && MirroredTruly(w, d, e.key, bytes)
    ensures Ok(d, Vacuous) && Ok(d, Count) && Ok(d, Size) && Ok(d, Integrity)
    ensures |Entries(d)| == |Entries(w)| && !w.verifyOnly && !d.verifyOnly
    ensures forall j :: 0 <= j < |Entries(d)| ==> Entries(d)[j].key == Entries(w)[j].key && Hashed(d, Entries(d)[j])
  {
    forall j | 0 <= j < |Entries(d)|
      ensures var g := Entries(d)[j];
              !IsMissing(d, g) && !BadSize(d, g) && !BadHash(d, g) && Hashed(d, g) && g.key == Entries(w)[j].key
    {
      RubbishEntry(w, d, e, bytes, j);
    }
    hide IsMissing, BadSize, BadHash, Hashed, Entries;
  }

  lemma RubbishKeyRestored(w: World, d: World, k: string)
    requires !w.verifyOnly && !d.verifyOnly && k in After(w) && k !in w.target
    requires |Entries(d)| == |Entries(w)|
    requires forall j :: 0 <= j < |Entries(d)| ==> Entries(d)[j].key == Entries(w)[j].key && Hashed(d, Entries(d)[j])
    ensures k in After(d)
  {
    hide Hashed, Source, Entries;
    AfterAt(w, k);
    AfterAt(d, k);
    var g :| g in Entries(w) && g.key == k;
    var j :| 0 <= j < |Entries(w)| && Entries(w)[j] == g;
    assert Entries(d)[j] in Entries(d);
  }

  lemma RubbishRestored(w: World, d: World, e: Entry, bytes: Bytes)
    requires Healthy(w) && e in Entries(w) && MirroredTruly(w, d, e.key, bytes)
    ensures e.key in After(d) && After(d)[e.key].bytes == bytes
  {
    hide Healthy, Entries, After, Source, Damaged;
    var j :| 0 <= j < |Entries(w)| && Entries(w)[j] == e;
    RubbishEntry(w, d, e, bytes, j);
    HealthyCopies(w);
    RubbishSource(w, d, e.key, bytes, e.key);
    var g := Entries(d)[j];
    assert g in Entries(d) && g.key == e.key && Hashed(d, g);
    AfterAt(d, e.key);
  }

  lemma HealthyCopies(w: World)
    requires Healthy(w)
    ensures !w.verifyOnly
  {}

  /** The catalogue's other documents open as before; the key's own opens by its new bytes. */
  lemma RubbishRows(w: World, d: World, e: Entry, bytes: Bytes)
    requires Healthy(w) && e in Entries(w) && MirroredTruly(w, d, e.key, bytes)
    ensures Ok(d, Catalog) && (Ok(d, Opens) <==> !Misopens(w, e.key, bytes))
  {
    hide Hashed, Source, After, Entries, RowsInScope, Healthy, RowOpens, RowHasBytes;
    if w.rows.Some? {
      var rows := RowsInScope(w.rows.value, w.scope.prefix);
      RubbishEntries(w, d, e, bytes);
      HealthyRows(w);
      forall r | r in rows
        ensures RowHasBytes(After(d), r)
        ensures RowOpens(d, After(d), r) <==> r.storageKey != e.key || w.decode(bytes) == Some(r.stateVector)
      {
        RubbishRow(w, d, e, bytes, r);
      }
    }
  }

  lemma RubbishRow(w: World, d: World, e: Entry, bytes: Bytes, r: SnapshotRow)
    requires Healthy(w) && e in Entries(w) && MirroredTruly(w, d, e.key, bytes)
    requires w.rows.Some? && r in RowsInScope(w.rows.value, w.scope.prefix)
    ensures RowHasBytes(After(d), r)
    ensures RowOpens(d, After(d), r) <==> r.storageKey != e.key || w.decode(bytes) == Some(r.stateVector)
  {
    hide Hashed, After, Entries, RowsInScope, Healthy;
    HealthyRows(w);
    RubbishEntries(w, d, e, bytes);
    RubbishKeyRestored(w, d, r.storageKey);
    if r.storageKey == e.key {
      RubbishRestored(w, d, e, bytes);
    } else {
      RubbishElsewhere(w, d, e, bytes, r.storageKey);
    }
  }

  lemma RubbishElsewhere(w: World, d: World, e: Entry, bytes: Bytes, k: string)
    requires Healthy(w) && e in Entries(w) && MirroredTruly(w, d, e.key, bytes)
    requires k != e.key && k in After(w) && k !in w.target && k in After(d)
    ensures After(d)[k].bytes == After(w)[k].bytes
  {
    hide After, Entries, Healthy, Source, Damaged, Hashed;
    HealthyCopies(w);
    RubbishSource(w, d, e.key, bytes, k);
    AfterAt(w, k);
    AfterAt(d, k);
  }
}
