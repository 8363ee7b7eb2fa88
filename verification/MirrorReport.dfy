/**
 * scripts/backup-run.ts, what mirrorBucket reports: every listed key that the source still has is recorded
 * once or reported as failed, never both, and the counters say how often each happened.
 */
module MirrorReport {
  import opened Text
  import opened ObjectStore
  import opened Mirror

  /** The mirror has the size, and the last manifest knows the hash for it. */
  ghost predicate Known(job: Job, objects: Objects, s: Sighting) {
    var name := "storage/" + job.bucket + "/" + s.key;
    && s.head.Some? && name in objects && |objects[name].bytes| == s.head.value
    && s.key in job.previous && job.previous[s.key].sha256.Some? && job.previous[s.key].size == s.head.value
  }

  /** The put went through to the target, whether or not it said so. */
  ghost predicate Stored(job: Job, objects: Objects, s: Sighting) {
    && s.head.Some? && !Known(job, objects, s) && !job.dryRun
    && s.body.Some? && |s.body.value| == s.head.value && s.answer != Lost
  }

  ghost predicate Failing(job: Job, objects: Objects, s: Sighting) {
    s.head.Some? && !Known(job, objects, s) && !job.dryRun && !(Stored(job, objects, s) && s.answer == Acknowledged)
  }

  /** The entry a sighting leaves when it is there and does not fail. */
  ghost function EntryFor(job: Job, objects: Objects, s: Sighting): Entry
    requires s.head.Some? && !Failing(job, objects, s)
  {
    Entry(s.key, s.head.value,
          if Known(job, objects, s) then job.previous[s.key].sha256
          else if job.dryRun then None
          else Some(job.sha(s.body.value)))
  }

  /** One visit in those terms, on a target that still has the key's object as the run found it. */
  lemma VisitReports(job: Job, p: Progress, objects: Objects, s: Sighting)
    requires var m := MirrorKeyOf(job.bucket, s.key);
             (m in p.objects <==> m in objects) && (m in p.objects ==> p.objects[m] == objects[m])
    ensures var q := Visit(job, p, s);
            && q.result.failed == p.result.failed + (if Failing(job, objects, s) then [s.key] else [])
            && q.result.entries == p.result.entries
               + (if s.head.Some? && !Failing(job, objects, s) then [EntryFor(job, objects, s)] else [])
            && q.result.skipped == p.result.skipped + (if Known(job, objects, s) then 1 else 0)
            && q.result.copied + q.result.skipped == p.result.copied + p.result.skipped
               + (if s.head.Some? && !Failing(job, objects, s) then 1 else 0)
            && q.objects == (if Stored(job, objects, s)
                             then p.objects[MirrorKeyOf(job.bucket, s.key) := Object(s.body.value, job.clock)]
                             else p.objects)
  {}

  /** The sightings of a listing that satisfy something. */
  ghost function Those(seen: seq<Sighting>, ok: Sighting -> bool): set<int> {
    set i | 0 <= i < |seen| && ok(seen[i])
  }

  lemma ThoseOneMore(seen: seq<Sighting>, ok: Sighting -> bool)
    requires seen != []
    ensures |Those(seen, ok)| == |Those(seen[..|seen| - 1], ok)| + if ok(seen[|seen| - 1]) then 1 else 0
  {
    var n := |seen| - 1;
    assert Those(seen, ok) == Those(seen[..n], ok) + if ok(seen[n]) then {n} else {};
  }

  lemma LastAsFound(job: Job, objects: Objects, seen: seq<Sighting>)
    requires Distinct(seen) && seen != []
    ensures var o := VisitAll(job, objects, seen[..|seen| - 1]).objects;
            var m := MirrorKeyOf(job.bucket, seen[|seen| - 1].key);
            (m in o <==> m in objects) && (m in o ==> o[m] == objects[m])
  {
    hide VisitAll, MirrorKeyOf;
    var init, s := seen[..|seen| - 1], seen[|seen| - 1];
    forall i | 0 <= i < |init| ensures MirrorKeyOf(job.bucket, init[i].key) != MirrorKeyOf(job.bucket, s.key) {
      MirrorKeysAreOneToOne(job.bucket, init[i].key, s.key);
    }
    OnlySightedChange(job, objects, init, MirrorKeyOf(job.bucket, s.key));
  }

  /**
   * The counters: everything recorded was copied or skipped, skipped is how many sightings the last manifest
   * and the mirror already know, and what the source still has is recorded or reported, one by one.
   */
  lemma {:induction false} CountersAreExact(job: Job, objects: Objects, seen: seq<Sighting>)
    requires Distinct(seen)
    ensures var r := VisitAll(job, objects, seen).result;
            && r.copied + r.skipped == |r.entries|
            && r.skipped == |Those(seen, s => Known(job, objects, s))|
            && |r.failed| == |Those(seen, s => Failing(job, objects, s))|
            && |r.entries| + |r.failed| == |Those(seen, (s: Sighting) => s.head.Some?)|
  {
    hide Known, Stored, Failing, Those, Visit;
    var known, failing := (s: Sighting) => Known(job, objects, s), (s: Sighting) => Failing(job, objects, s);
    var there := (s: Sighting) => s.head.Some?;
    if seen == [] {
      NoneOfNone(known);
      NoneOfNone(failing);
      NoneOfNone(there);
    } else {
      var init, s := seen[..|seen| - 1], seen[|seen| - 1];
      CountersAreExact(job, objects, init);
      LastAsFound(job, objects, seen);
      VisitReports(job, VisitAll(job, objects, init), objects, s);
      FailingIsThere(job, objects, s);
      ThoseOneMore(seen, known);
      ThoseOneMore(seen, failing);
      ThoseOneMore(seen, there);
    }
  }

  lemma NoneOfNone(ok: Sighting -> bool)
    ensures Those([], ok) == {}
  {}

  lemma FailingIsThere(job: Job, objects: Objects, s: Sighting)
    ensures Failing(job, objects, s) ==> s.head.Some?
    ensures Known(job, objects, s) ==> s.head.Some? && !Failing(job, objects, s)
  {}

  /** Nothing is recorded or reported that was not listed. */
  lemma {:induction false} ReportedAreListed(job: Job, objects: Objects, seen: seq<Sighting>)
    requires Distinct(seen)
    ensures var r := VisitAll(job, objects, seen).result;
            (forall k :: k in r.failed ==> KeyOf(seen, k)) && (forall e :: e in r.entries ==> KeyOf(seen, e.key))
  {
    hide Known, Stored, Failing, EntryFor, Visit, KeyOf, Distinct;
    if seen != [] {
      var init, s := seen[..|seen| - 1], seen[|seen| - 1];
      LastIsNew(seen, "");
      ReportedAreListed(job, objects, init);
      LastAsFound(job, objects, seen);
      VisitReports(job, VisitAll(job, objects, init), objects, s);
      EntryKeepsKey(job, objects, s);
      KeysGoOn(seen);
    }
  }

  lemma EntryKeepsKey(job: Job, objects: Objects, s: Sighting)
    ensures s.head.Some? && !Failing(job, objects, s) ==> EntryFor(job, objects, s).key == s.key
  {}

  ghost predicate Reports(job: Job, objects: Objects, p: Progress, s: Sighting) {
    var m := MirrorKeyOf(job.bucket, s.key);
    && (s.key in p.result.failed <==> Failing(job, objects, s))
    && (forall e :: e in p.result.entries && e.key == s.key <==>
          s.head.Some? && !Failing(job, objects, s) && e == EntryFor(job, objects, s))
    && (if Stored(job, objects, s) then m in p.objects && p.objects[m] == Object(s.body.value, job.clock)
        else (m in p.objects <==> m in objects) && (m in p.objects ==> p.objects[m] == objects[m]))
  }

  lemma LastReports(job: Job, p: Progress, objects: Objects, s: Sighting)
    requires var m := MirrorKeyOf(job.bucket, s.key);
             (m in p.objects <==> m in objects) && (m in p.objects ==> p.objects[m] == objects[m])
    requires s.key !in p.result.failed && forall e :: e in p.result.entries ==> e.key != s.key
    ensures Reports(job, objects, Visit(job, p, s), s)
  {
    hide Known, Failing, Visit, MirrorKeyOf;
    VisitReports(job, p, objects, s);
  }

  lemma OthersReport(job: Job, p: Progress, objects: Objects, s: Sighting, t: Sighting)
    requires var m := MirrorKeyOf(job.bucket, s.key);
             (m in p.objects <==> m in objects) && (m in p.objects ==> p.objects[m] == objects[m])
    requires s.key != t.key && Reports(job, objects, p, t)
    ensures Reports(job, objects, Visit(job, p, s), t)
  {
    hide Known, Stored, Failing, EntryFor, Visit, MirrorKeyOf;
    VisitReports(job, p, objects, s);
    EntryKeepsKey(job, objects, s);
    MirrorKeysAreOneToOne(job.bucket, s.key, t.key);
  }

  /** What the run makes of one sighting. */
  lemma {:induction false} EachReports(job: Job, objects: Objects, seen: seq<Sighting>, i: nat)
    requires Distinct(seen) && i < |seen|
    ensures Reports(job, objects, VisitAll(job, objects, seen), seen[i])
  {
    hide Reports, Visit, MirrorKeyOf, KeyOf;
    var init, s := seen[..|seen| - 1], seen[|seen| - 1];
    LastIsNew(seen, "");
    LastAsFound(job, objects, seen);
    if i < |init| {
      EachReports(job, objects, init, i);
      OthersReport(job, VisitAll(job, objects, init), objects, s, init[i]);
    } else {
      ReportedAreListed(job, objects, init);
      LastReports(job, VisitAll(job, objects, init), objects, s);
    }
  }

  /**
   * In the words of the script, for a key listed once that the source still has. `known` is when the mirror
   * has its size and the last manifest a hash for that size. It is reported as failed exactly when it is not
   * known, the run is real, and its body vanished, came in another length, or the put was refused or not
   * acknowledged. Otherwise it has exactly one entry, with the known hash, none in a dry run, or the body's own.
   */
  lemma SightingAccounted(job: Job, objects: Objects, seen: seq<Sighting>, i: nat)
    requires Distinct(seen) && i < |seen| && seen[i].head.Some?
    ensures var r, s := VisitAll(job, objects, seen).result, seen[i];
            var name := "storage/" + job.bucket + "/" + s.key;
            var known := name in objects && |objects[name].bytes| == s.head.value && s.key in job.previous
                         && job.previous[s.key].sha256.Some? && job.previous[s.key].size == s.head.value;
            var fails := !known && !job.dryRun
                         && (s.body.None? || |s.body.value| != s.head.value || s.answer != Acknowledged);
            && (s.key in r.failed <==> fails)
            && (forall e :: e in r.entries && e.key == s.key <==>
                  !fails && e == Entry(s.key, s.head.value,
                                       if known then job.previous[s.key].sha256
                                       else if job.dryRun then None else Some(job.sha(s.body.value))))
  {
    EachReports(job, objects, seen, i);
    hide VisitAll;
  }

  /** A key that is gone when asked for is neither recorded nor reported. */
  lemma GoneIsSilent(job: Job, objects: Objects, seen: seq<Sighting>, i: nat)
    requires Distinct(seen) && i < |seen| && seen[i].head.None?
    ensures var r := VisitAll(job, objects, seen).result;
            seen[i].key !in r.failed && forall e :: e in r.entries ==> e.key != seen[i].key
  {
    EachReports(job, objects, seen, i);
    hide VisitAll;
    var r := VisitAll(job, objects, seen).result;
    forall e | e in r.entries ensures e.key != seen[i].key {}
  }

  /** What the target holds of a listed key after the run: the body where the put got through, else what it held. */
  lemma TargetHolds(job: Job, objects: Objects, seen: seq<Sighting>, i: nat)
    requires Distinct(seen) && i < |seen|
    ensures var o, s := VisitAll(job, objects, seen).objects, seen[i];
            var name := "storage/" + job.bucket + "/" + s.key;
            var known := s.head.Some? && name in objects && |objects[name].bytes| == s.head.value
                         && s.key in job.previous && job.previous[s.key].sha256.Some?
                         && job.previous[s.key].size == s.head.value;
            if s.head.Some? && !known && !job.dryRun && s.body.Some? && |s.body.value| == s.head.value
               && s.answer != Lost
            then name in o && o[name] == Object(s.body.value, job.clock)
            else (name in o <==> name in objects) && (name in o ==> o[name] == objects[name])
  {
    EachReports(job, objects, seen, i);
    hide VisitAll;
  }
}
