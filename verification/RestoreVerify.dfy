/**
 * The verify-only pass over a target that was sound: for any change to one of its objects, exactly which
 * of the six checks turn red. Nothing is copied, so no put refuses a wrong length here.
 */
module RestoreVerify {
  import opened Text
  import opened ObjectStore
  import opened Mirror
  import opened Restore
  import opened RestoreChecks

  ghost predicate Sound(w: World) {
    w.verifyOnly && AllGreen(w)
  }

  /** The target's object of one key replaced, by None when it is lost. */
  function TargetDamaged(w: World, key: string, bytes: Option<Bytes>): World {
    w.(target := if bytes.None? then w.target - {key} else w.target[key := Object(bytes.value, None)])
  }

  lemma SoundEntry(w: World, e: Entry)
    requires Sound(w) && e in Entries(w)
    ensures !IsMissing(w, e) && !BadSize(w, e) && !BadHash(w, e)
  {
    assert Ok(w, Count) && Ok(w, Size) && Ok(w, Integrity);
  }

  lemma SameKeySameEntry(w: World, e: Entry, f: Entry)
    requires Sound(w) && e in Entries(w) && f in Entries(w) && f.key == e.key
    ensures f == e
  {
    SoundEntry(w, e);
    SoundEntry(w, f);
  }

  /** Only the damaged key's entry is judged anew: by its length and its hash, if there is anything to read. */
  lemma EntryJudged(w: World, key: string, bytes: Option<Bytes>, f: Entry)
    requires Sound(w)
    ensures var d := TargetDamaged(w, key, bytes);
            Entries(d) == Entries(w) &&
            if f.key != key then
              IsMissing(d, f) == IsMissing(w, f) && BadSize(d, f) == BadSize(w, f) && BadHash(d, f) == BadHash(w, f)
            else
              && (IsMissing(d, f) <==> bytes.None?)
              && (BadSize(d, f) <==> bytes.Some? && |bytes.value| != f.size)
              && (BadHash(d, f) <==> bytes.Some? && f.sha256 != Some(w.sha(bytes.value)))
  {
    hide AllGreen;
  }

  lemma EntryChecks(w: World, e: Entry, bytes: Option<Bytes>)
    requires Sound(w) && e in Entries(w)
    ensures var d := TargetDamaged(w, e.key, bytes);
            Ok(d, Vacuous) && (Ok(d, Count) <==> bytes.Some?)
            && (Ok(d, Size) <==> bytes.None? || |bytes.value| == e.size)
            && (Ok(d, Integrity) <==> bytes.None? || e.sha256 == Some(w.sha(bytes.value)))
  {
    var d := TargetDamaged(w, e.key, bytes);
    EntryJudged(w, e.key, bytes, e);
    forall f | f in Entries(w) && f != e ensures !IsMissing(d, f) && !BadSize(d, f) && !BadHash(d, f) {
      SoundEntry(w, f);
      if f.key == e.key { SameKeySameEntry(w, e, f); }
      EntryJudged(w, e.key, bytes, f);
    }
    hide IsMissing, BadSize, BadHash, Hashed, Entries, Sound, TargetDamaged;
  }

  lemma RowJudged(w: World, key: string, bytes: Option<Bytes>, r: SnapshotRow)
    requires Sound(w) && w.rows.Some? && r in RowsInScope(w.rows.value, w.scope.prefix)
    ensures var d := TargetDamaged(w, key, bytes);
            && (RowHasBytes(After(d), r) <==> r.storageKey != key || bytes.Some?)
            && (RowOpens(d, After(d), r)
                <==> r.storageKey != key || (bytes.Some? && w.decode(bytes.value) == Some(r.stateVector)))
  {
    assert Ok(w, Catalog) && Ok(w, Opens);
    var d := TargetDamaged(w, key, bytes);
    VerifyLeaves(w);
    VerifyLeaves(d);
    hide After, Entries, RowsInScope;
    assert RowOpens(w, After(w), r);
  }

  lemma CatalogChecks(w: World, key: string, bytes: Option<Bytes>)
    requires Sound(w)
    ensures var d := TargetDamaged(w, key, bytes);
            && (Ok(d, Catalog) <==> bytes.Some? || !Catalogued(w, key))
            && (Ok(d, Opens) <==> if bytes.Some? then !Misopens(w, key, bytes.value) else !Catalogued(w, key))
  {
    assert Ok(w, Catalog) && Ok(w, Opens) && Ok(w, Vacuous);
    var d := TargetDamaged(w, key, bytes);
    assert Entries(d) == Entries(w);
    hide After, Entries, RowsInScope, RowOpens, RowHasBytes, Sound, TargetDamaged;
    if w.rows.Some? {
      forall r | r in RowsInScope(w.rows.value, w.scope.prefix)
        ensures RowHasBytes(After(d), r) <==> r.storageKey != key || bytes.Some?
        ensures RowOpens(d, After(d), r)
                <==> r.storageKey != key || (bytes.Some? && w.decode(bytes.value) == Some(r.stateVector))
      {
        RowJudged(w, key, bytes, r);
      }
    }
  }

  /** The checks that answer for one entry's object found like this by a verifying pass. */
  ghost function Reds(w: World, e: Entry, bytes: Option<Bytes>): set<CheckId> {
    if bytes.None? then {Count} + if Catalogued(w, e.key) then {Catalog, Opens} else {}
    else
      (if |bytes.value| != e.size then {Size} else {})
      + (if e.sha256 != Some(w.sha(bytes.value)) then {Integrity} else {})
      + (if Misopens(w, e.key, bytes.value) then {Opens} else {})
  }

  /**
   * Whatever has happened to one object of a sound target: lost, it turns count red; of another length,
   * size, and integrity with it unless the hashes collide; of the same length, integrity alone; and the
   * catalogue checks join exactly where a row names the object and it is gone or opens to another state.
   */
  lemma VerifyLocalises(w: World, e: Entry, bytes: Option<Bytes>)
    requires Sound(w) && e in Entries(w)
    ensures RedExactly(TargetDamaged(w, e.key, bytes), Reds(w, e, bytes))
  {
    hide CountOk, SizeOk, IntegrityOk, CatalogOk, OpensOk, Entries, Sound, TargetDamaged, Catalogued, Misopens,
      RedExactly;
    EntryChecks(w, e, bytes);
    CatalogChecks(w, e.key, bytes);
    RedByCases(TargetDamaged(w, e.key, bytes), Reds(w, e, bytes));
  }
}
