/**
 * Mirror, then restore: over a quiet source the two undo each other, byte for byte, in whatever
 * part of the bucket is asked for.
 */
module RestoreRoundTrip {
  import opened Text
  import opened ObjectStore
  import opened Mirror
  import opened Restore

  /** What a source that nobody changes shows of the listed keys. */
  function Quiet(source: Objects, keys: seq<string>): (seen: seq<Sighting>)
    requires forall k :: k in keys ==> k in source
    ensures |seen| == |keys|
    ensures forall i :: 0 <= i < |keys| ==>
              seen[i] == Sighting(keys[i], Some(|source[keys[i]].bytes|), Some(source[keys[i]].bytes), Acknowledged)
  {
    seq(|keys|, i requires 0 <= i < |keys| =>
      assert keys[i] in keys;
      Sighting(keys[i], Some(|source[keys[i]].bytes|), Some(source[keys[i]].bytes), Acknowledged))
  }

  ghost predicate ListsOnce(keys: seq<string>, source: Objects) {
    (forall k :: k in keys <==> k in source) && forall i, j :: 0 <= i < j < |keys| ==> keys[i] != keys[j]
  }

  function TrueEntryOf(job: Job, source: Objects, k: string): Entry
    requires k in source
  {
    Entry(k, |source[k].bytes|, Some(job.sha(source[k].bytes)))
  }

  /** What the skip rule would take up is true: nothing known yet, or keys are written once. */
  ghost predicate SkipsAreTrue(job: Job, objects: Objects, source: Objects) {
    forall k :: k in source && Skips(job, objects, k, |source[k].bytes|) ==>
      objects[MirrorKeyOf(job.bucket, k)].bytes == source[k].bytes
      && job.previous[k].sha256 == Some(job.sha(source[k].bytes))
  }

  lemma FreshSkipsNothing(job: Job, objects: Objects, source: Objects)
    requires job.previous == map[]
    ensures SkipsAreTrue(job, objects, source)
  {}

  /** The chain invariant over write-once keys is enough. */
  lemma WriteOnceSkipsAreTrue(job: Job, objects: Objects, source: Objects, content: string -> Bytes)
    requires Keyed(job.previous) && Holds(objects, job.bucket, content)
    requires forall k :: k in job.previous ==> TrueEntry(job.sha, content, job.previous[k])
    requires forall k :: k in source ==> source[k].bytes == content(k)
    ensures SkipsAreTrue(job, objects, source)
  {}

  /** The entry and the bytes a quiet key gets: the manifest's and the mirror's when it is skipped. */
  function QuietEntry(job: Job, objects: Objects, source: Objects, k: string): Entry
    requires k in source
  {
    if Skips(job, objects, k, |source[k].bytes|) then Entry(k, |source[k].bytes|, job.previous[k].sha256)
    else TrueEntryOf(job, source, k)
  }

  function QuietBytes(job: Job, objects: Objects, source: Objects, k: string): Bytes
    requires k in source
  {
    if Skips(job, objects, k, |source[k].bytes|) then objects[MirrorKeyOf(job.bucket, k)].bytes else source[k].bytes
  }

  ghost predicate HoldsBytes(objects: Objects, name: string, bytes: Bytes) {
    name in objects && objects[name].bytes == bytes
  }

  /** What a mirror of a quiet source records and holds, skipped keys included. */
  lemma {:induction false} QuietVisits(job: Job, objects: Objects, source: Objects, keys: seq<string>)
    requires '/' !in job.bucket && !job.dryRun
    requires forall k :: k in keys ==> k in source
    requires forall i, j :: 0 <= i < j < |keys| ==> keys[i] != keys[j]
    ensures var p := VisitAll(job, objects, Quiet(source, keys));
            p.result.failed == [] && |p.result.entries| == |keys| &&
            (forall i :: 0 <= i < |keys| ==>
               keys[i] in source && p.result.entries[i] == QuietEntry(job, objects, source, keys[i])) &&
            forall k :: k in keys ==>
              HoldsBytes(p.objects, MirrorKeyOf(job.bucket, k), QuietBytes(job, objects, source, k))
  {
    hide Visit, QuietEntry, QuietBytes, MirrorKeyOf;
    if keys != [] {
      var init, last := keys[..|keys| - 1], keys[|keys| - 1];
      QuietVisits(job, objects, source, init);
      assert Quiet(source, keys)[..|keys| - 1] == Quiet(source, init);
      var before := VisitAll(job, objects, Quiet(source, init));
      forall i | 0 <= i < |init|
        ensures MirrorKeyOf(job.bucket, Quiet(source, init)[i].key) != MirrorKeyOf(job.bucket, last) {
        MirrorKeysAreOneToOne(job.bucket, init[i], last);
      }
      OnlySightedChange(job, objects, Quiet(source, init), MirrorKeyOf(job.bucket, last));
      QuietVisit(job, before, objects, source, last);
      forall k | k in init ensures MirrorKeyOf(job.bucket, k) != MirrorKeyOf(job.bucket, last) {
        MirrorKeysAreOneToOne(job.bucket, k, last);
      }
      assert keys == init + [last];
    }
  }

  lemma QuietVisit(job: Job, p: Progress, objects: Objects, source: Objects, k: string)
    requires !job.dryRun && k in source
    requires var m := MirrorKeyOf(job.bucket, k);
             (m in p.objects <==> m in objects) && (m in p.objects ==> p.objects[m] == objects[m])
    ensures var q := Visit(job, p, Sighting(k, Some(|source[k].bytes|), Some(source[k].bytes), Acknowledged));
            var m := MirrorKeyOf(job.bucket, k);
            q.result.failed == p.result.failed
            && q.result.entries == p.result.entries + [QuietEntry(job, objects, source, k)]
            && HoldsBytes(q.objects, m, QuietBytes(job, objects, source, k))
            && (forall n :: n != m && n in p.objects ==> n in q.objects && q.objects[n] == p.objects[n])
  {}

  /** A failure-free mirror of a quiet source records every key truly and holds its bytes. */
  lemma QuietMirror(job: Job, objects: Objects, source: Objects, keys: seq<string>)
    requires '/' !in job.bucket && !job.dryRun && SkipsAreTrue(job, objects, source)
    requires forall k :: k in keys ==> k in source
    requires forall i, j :: 0 <= i < j < |keys| ==> keys[i] != keys[j]
    ensures var p := VisitAll(job, objects, Quiet(source, keys));
            p.result.failed == [] && |p.result.entries| == |keys| &&
            (forall i :: 0 <= i < |keys| ==>
               keys[i] in source && p.result.entries[i] == TrueEntryOf(job, source, keys[i])) &&
            forall k :: k in keys ==> HoldsBytes(p.objects, MirrorKeyOf(job.bucket, k), source[k].bytes)
  {
    hide VisitAll, Quiet, Skips, HoldsBytes, MirrorKeyOf;
    QuietVisits(job, objects, source, keys);
  }

  /** The mirror of a quiet source is true, in entries and in bytes. */
  ghost predicate MirrorsTruly(job: Job, p: Progress, source: Objects, keys: seq<string>) {
    |p.result.entries| == |keys| &&
    forall i :: 0 <= i < |keys| ==>
      && keys[i] in source && p.result.entries[i] == TrueEntryOf(job, source, keys[i])
      && HoldsBytes(p.objects, MirrorKeyOf(job.bucket, keys[i]), source[keys[i]].bytes)
  }

  /**
   * Exactly when: every key's entry and bytes are the source's if and only if each object the skip rule
   * takes up has the source's bytes and its hash in the manifest. A rewrite of equal size breaks just that.
   */
  lemma MirrorIsTrueIff(job: Job, objects: Objects, source: Objects, keys: seq<string>)
    requires '/' !in job.bucket && !job.dryRun && ListsOnce(keys, source)
    ensures MirrorsTruly(job, VisitAll(job, objects, Quiet(source, keys)), source, keys)
            <==> SkipsAreTrue(job, objects, source)
  {
    hide VisitAll, Quiet, Skips, MirrorKeyOf;
    var p := VisitAll(job, objects, Quiet(source, keys));
    QuietVisits(job, objects, source, keys);
    if MirrorsTruly(job, p, source, keys) {
      forall k | k in source && Skips(job, objects, k, |source[k].bytes|)
        ensures QuietEntry(job, objects, source, k) == TrueEntryOf(job, source, k)
                && QuietBytes(job, objects, source, k) == source[k].bytes
      {
        assert k in keys;
        var i :| 0 <= i < |keys| && keys[i] == k;
        assert p.result.entries[i] == TrueEntryOf(job, source, k);
      }
    }
  }

  /** The restore of that mirror into an empty target, for any prefix and any catalogue. */
  ghost function RestoreOf(job: Job, mirrored: Objects, m: Manifest, prefix: string,
                           rows: Option<seq<SnapshotRow>>, decode: Bytes -> Option<Bytes>): World
  {
    World(mirrored, map[], m, Scope(job.bucket, prefix), rows, false, {}, job.clock, job.sha, decode)
  }

  /**
   * Mirror then restore is the identity: the target holds exactly the source's objects under the
   * prefix, and the checks on count, size and integrity are green.
   */
  lemma RestoreUndoesMirror(job: Job, objects: Objects, source: Objects, keys: seq<string>, mirrored: Objects,
                            m: Manifest, prefix: string, rows: Option<seq<SnapshotRow>>, decode: Bytes -> Option<Bytes>)
    requires '/' !in job.bucket && !job.dryRun && SkipsAreTrue(job, objects, source) && ListsOnce(keys, source)
    requires var p := VisitAll(job, objects, Quiet(source, keys));
             job.bucket in m.buckets && m.buckets[job.bucket] == p.result.entries &&
             forall k :: k in source ==>
               MirrorKeyOf(job.bucket, k) in p.objects ==>
               MirrorKeyOf(job.bucket, k) in mirrored
               && mirrored[MirrorKeyOf(job.bucket, k)] == p.objects[MirrorKeyOf(job.bucket, k)]
    ensures var w := RestoreOf(job, mirrored, m, prefix, rows, decode);
            (forall k :: k in After(w) <==> k in source && StartsWith(k, prefix)) &&
            (forall k :: k in After(w) ==> After(w)[k].bytes == source[k].bytes) &&
            Ok(w, Count) && Ok(w, Size) && Ok(w, Integrity) &&
            (Ok(w, Vacuous) <==> exists k :: k in source && StartsWith(k, prefix))
  {
    hide VisitAll, Quiet, SkipsAreTrue, Entries, After, Ok, MirrorKeyOf;
    var w := RestoreOf(job, mirrored, m, prefix, rows, decode);
    QuietMirror(job, objects, source, keys);
    EntriesAreTheSource(job, source, keys, m.buckets[job.bucket], w);
    RestoresTheSource(job, source, w);
  }

  /** Entries that are the source's, over a mirror that holds them: all of it is restored and checks out. */
  lemma RestoresTheSource(job: Job, source: Objects, w: World)
    requires !w.verifyOnly && w.refused == {} && w.target == map[] && w.sha == job.sha && w.scope.bucket == job.bucket
    requires forall k :: k in source ==> HoldsBytes(w.backups, MirrorKeyOf(job.bucket, k), source[k].bytes)
    requires forall e :: e in Entries(w) ==> e.key in source && e == TrueEntryOf(job, source, e.key)
    ensures forall k :: k in After(w) <==> exists e :: e in Entries(w) && e.key == k
    ensures forall k :: k in After(w) ==> k in source && After(w)[k].bytes == source[k].bytes
    ensures Ok(w, Count) && Ok(w, Size) && Ok(w, Integrity) && (Ok(w, Vacuous) <==> Entries(w) != [])
  {
    forall e | e in Entries(w) ensures !IsMissing(w, e) && !BadSize(w, e) && !BadHash(w, e) {
      EntryChecksOut(job, source, w, e);
    }
    RestoredKeys(w);
    hide IsMissing, BadSize, BadHash, Entries, After, Hashed;
    forall k | k in After(w) ensures k in source && After(w)[k].bytes == source[k].bytes {
      SourceIsMirrored(job, source, w, k);
    }
  }

  /** The entries in scope are the source's objects in scope. */
  lemma EntriesAreTheSource(job: Job, source: Objects, keys: seq<string>, entries: seq<Entry>, w: World)
    requires ListsOnce(keys, source) && |entries| == |keys|
    requires forall i :: 0 <= i < |keys| ==> keys[i] in source && entries[i] == TrueEntryOf(job, source, keys[i])
    requires w.scope.bucket in w.manifest.buckets && w.manifest.buckets[w.scope.bucket] == entries
    ensures forall e :: e in Entries(w) ==> e.key in source && e == TrueEntryOf(job, source, e.key)
    ensures forall k :: (exists e :: e in Entries(w) && e.key == k) <==> k in source && StartsWith(k, w.scope.prefix)
    ensures Entries(w) != [] <==> exists k :: k in source && StartsWith(k, w.scope.prefix)
  {
    forall k | k in source && StartsWith(k, w.scope.prefix) ensures exists e :: e in Entries(w) && e.key == k {
      assert k in keys;
      var i :| 0 <= i < |keys| && keys[i] == k;
      assert entries[i] in entries;
      assert entries[i] in Entries(w) && entries[i].key == k;
    }
    forall e | e in Entries(w) ensures e.key in source && e == TrueEntryOf(job, source, e.key) {
      var i :| 0 <= i < |entries| && entries[i] == e;
    }
    if Entries(w) != [] {
      assert Entries(w)[0] in Entries(w);
    }
  }

  lemma EntryChecksOut(job: Job, source: Objects, w: World, e: Entry)
    requires !w.verifyOnly && w.refused == {} && w.sha == job.sha && w.scope.bucket == job.bucket
    requires e.key in source && e == TrueEntryOf(job, source, e.key)
    requires var n := MirrorKeyOf(job.bucket, e.key); n in w.backups && w.backups[n].bytes == source[e.key].bytes
    ensures !IsMissing(w, e) && !BadSize(w, e) && !BadHash(w, e)
  {}

  lemma SourceIsMirrored(job: Job, source: Objects, w: World, k: string)
    requires !w.verifyOnly && w.scope.bucket == job.bucket && k in source
    requires var n := MirrorKeyOf(job.bucket, k); n in w.backups && w.backups[n].bytes == source[k].bytes
    ensures Source(w, k) == Some(source[k].bytes)
  {}

  /** With every entry hashed, an empty target ends up with their keys and bytes and no others. */
  lemma RestoredKeys(w: World)
    requires !w.verifyOnly && w.target == map[]
    requires forall e :: e in Entries(w) ==> !IsMissing(w, e) && !BadSize(w, e)
    ensures forall k :: k in After(w) <==> exists e :: e in Entries(w) && e.key == k
    ensures forall k :: k in After(w) ==> Source(w, k) == Some(After(w)[k].bytes)
  {
    assert forall e :: e in Entries(w) ==> Hashed(w, e);
  }
}
