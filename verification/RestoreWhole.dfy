/**
 * Backup and restore end to end: a storage mirror run over two quiet sources, the manifest it wrote
 * read back as the newest one, and either bucket restored from it.
 */
module RestoreWhole {
  import opened Text
  import opened ObjectStore
  import opened Mirror
  import opened MirrorChain
  import opened Restore
  import opened RestoreRoundTrip

  /** The two live buckets, with the order in which each is listed. */
  datatype Sources = Sources(snapshots: Objects, snapshotKeys: seq<string>, assets: Objects, assetKeys: seq<string>)

  ghost predicate Listed(s: Sources) {
    ListsOnce(s.snapshotKeys, s.snapshots) && ListsOnce(s.assetKeys, s.assets)
  }

  /** The run sees both sources as they are and completes. */
  ghost predicate Sees(run: Run, s: Sources)
    requires Listed(s)
  {
    run.Completed? && run.snaps == Quiet(s.snapshots, s.snapshotKeys) && run.assets == Quiet(s.assets, s.assetKeys)
  }

  function SourceOf(n: Names, s: Sources, b: string): Objects {
    if b == n.snapshots then s.snapshots else s.assets
  }

  function KeysOf(n: Names, s: Sources, b: string): seq<string> {
    if b == n.snapshots then s.snapshotKeys else s.assetKeys
  }

  /** What the newest manifest has the run skip is right, in both buckets. */
  ghost predicate SkipsRightly(codec: Codec, n: Names, clock: Option<int>, objects: Objects, s: Sources) {
    forall prior, b :: IsPrior(codec, objects, prior) && (b == n.snapshots || b == n.assets) ==>
      SkipsAreTrue(JobOf(codec, b, false, prior, clock), objects, SourceOf(n, s, b))
  }

  /** What one run leaves of one bucket: its visit, recorded in the manifest the next reader finds. */
  ghost predicate Backs(codec: Codec, n: Names, clock: Option<int>, objects: Objects, prior: Option<Manifest>,
                        s: Sources, after: Objects, m: Manifest, b: string)
    requires Listed(s)
  {
    var job, source := JobOf(codec, b, false, prior, clock), SourceOf(n, s, b);
    exists start ::
      var p := VisitAll(job, start, Quiet(source, KeysOf(n, s, b)));
      SkipsAreTrue(job, start, source) && EntriesOf(m, b) == p.result.entries && b in m.buckets
      && SameUnder(b, p.objects, after)
  }

  /** The same objects under one bucket's mirror keys. */
  ghost predicate SameUnder(b: string, one: Objects, other: Objects) {
    forall k :: var name := MirrorKeyOf(b, k);
      (name in other <==> name in one) && (name in other ==> other[name] == one[name])
  }

  lemma VisitKeepsUnder(job: Job, objects: Objects, seen: seq<Sighting>, b: string)
    requires '/' !in job.bucket && '/' !in b && b != job.bucket
    ensures SameUnder(b, objects, VisitAll(job, objects, seen).objects)
  {
    hide VisitAll, MirrorKeyOf;
    forall k ensures var o, m := VisitAll(job, objects, seen).objects, MirrorKeyOf(b, k);
                     (m in o <==> m in objects) && (m in o ==> o[m] == objects[m]) {
      VisitAllKeepsElsewhere(job, objects, seen, b, k);
    }
  }

  lemma ManifestKeepsUnder(codec: Codec, objects: Objects, stamp: string, m: Manifest, clock: Option<int>, b: string)
    requires IsBucketName(b)
    ensures SameUnder(b, objects, WithManifest(codec, objects, stamp, m, clock))
  {
    hide MirrorKeyOf, IsManifestKey;
    forall k ensures MirrorKeyOf(b, k) != ManifestKeyOf(stamp) { MirrorKeyIsNoManifest(b, k); }
  }

  lemma SameUnderChains(b: string, one: Objects, two: Objects, three: Objects)
    requires SameUnder(b, one, two) && SameUnder(b, two, three)
    ensures SameUnder(b, one, three)
  {}

  /** Skipping looks at the bucket's own mirror keys only. */
  lemma SkipsUnder(job: Job, one: Objects, other: Objects, source: Objects)
    requires SameUnder(job.bucket, one, other) && SkipsAreTrue(job, one, source)
    ensures SkipsAreTrue(job, other, source)
  {
    hide MirrorKeyOf;
    forall k | k in source && Skips(job, other, k, |source[k].bytes|) ensures Skips(job, one, k, |source[k].bytes|) {
      var name := MirrorKeyOf(job.bucket, k);
      assert name in other <==> name in one;
    }
  }

  /** The manifest a run reads back is its own, with both buckets' entries in it. */
  lemma ReadsBack(codec: Codec, n: Names, clock: Option<int>, objects: Objects, prior: Option<Manifest>, run: Run,
                  after: Objects, m: Manifest)
    requires RoundTrips(codec) && Named(n) && Tells(objects, run) && Regular(run) && IsPrior(codec, after, Some(m))
    requires var both := VisitBoth(codec, n, false, prior, clock, objects, run.snaps, run.assets);
             after == WithManifest(codec, both.1.objects, run.stamp,
                                   Manifest(run.takenAt, Buckets(both.0.result, both.1.result), run.pgBackupKey), clock)
    ensures var both := VisitBoth(codec, n, false, prior, clock, objects, run.snaps, run.assets);
            EntriesOf(m, n.snapshots) == both.0.result.entries && EntriesOf(m, n.assets) == both.1.result.entries
            && n.snapshots in m.buckets && n.assets in m.buckets
  {
    var both := VisitBoth(codec, n, false, prior, clock, objects, run.snaps, run.assets);
    var written := Manifest(run.takenAt, Buckets(both.0.result, both.1.result), run.pgBackupKey);
    VisitAllKeepsBucket(JobOf(codec, n.snapshots, false, prior, clock), objects, run.snaps);
    VisitAllKeepsBucket(JobOf(codec, n.assets, false, prior, clock), both.0.objects, run.assets);
    BothRecordedOnce(codec, n, clock, objects, prior, run);
    hide VisitAll, IsPrior, IsManifestKey, Less;
    BothKeepManifests(codec, n, clock, objects, prior, run);
    WrittenIsNewest(codec, n, objects, both.1.objects, run.stamp, written, clock);
    PriorUnique(codec, after, Some(m), Some(written));
  }

  lemma RunBacksSnapshots(codec: Codec, n: Names, clock: Option<int>, objects: Objects, prior: Option<Manifest>,
                          s: Sources, run: Run, after: Objects, m: Manifest)
    requires Named(n) && Listed(s) && Sees(run, s) && IsPrior(codec, objects, prior)
    requires SkipsRightly(codec, n, clock, objects, s)
    requires var both := VisitBoth(codec, n, false, prior, clock, objects, run.snaps, run.assets);
             EntriesOf(m, n.snapshots) == both.0.result.entries && n.snapshots in m.buckets
             && exists w :: after == WithManifest(codec, both.1.objects, run.stamp, w, clock)
    ensures Backs(codec, n, clock, objects, prior, s, after, m, n.snapshots)
  {
    hide VisitAll, SameUnder, SkipsAreTrue, IsPrior, EntriesOf, Quiet, WithManifest;
    var both := VisitBoth(codec, n, false, prior, clock, objects, run.snaps, run.assets);
    var w :| after == WithManifest(codec, both.1.objects, run.stamp, w, clock);
    VisitKeepsUnder(JobOf(codec, n.assets, false, prior, clock), both.0.objects, run.assets, n.snapshots);
    ManifestKeepsUnder(codec, both.1.objects, run.stamp, w, clock, n.snapshots);
    SameUnderChains(n.snapshots, both.0.objects, both.1.objects, after);
    assert SkipsAreTrue(JobOf(codec, n.snapshots, false, prior, clock), objects, SourceOf(n, s, n.snapshots));
  }

  lemma RunBacksAssets(codec: Codec, n: Names, clock: Option<int>, objects: Objects, prior: Option<Manifest>,
                       s: Sources, run: Run, after: Objects, m: Manifest)
    requires Named(n) && Listed(s) && Sees(run, s) && IsPrior(codec, objects, prior)
    requires SkipsRightly(codec, n, clock, objects, s)
    requires var both := VisitBoth(codec, n, false, prior, clock, objects, run.snaps, run.assets);
             EntriesOf(m, n.assets) == both.1.result.entries && n.assets in m.buckets
             && exists w :: after == WithManifest(codec, both.1.objects, run.stamp, w, clock)
    ensures Backs(codec, n, clock, objects, prior, s, after, m, n.assets)
  {
    hide VisitAll, SameUnder, SkipsAreTrue, IsPrior, EntriesOf, Quiet, WithManifest;
    var both := VisitBoth(codec, n, false, prior, clock, objects, run.snaps, run.assets);
    var w :| after == WithManifest(codec, both.1.objects, run.stamp, w, clock);
    VisitKeepsUnder(JobOf(codec, n.snapshots, false, prior, clock), objects, run.snaps, n.assets);
    ManifestKeepsUnder(codec, both.1.objects, run.stamp, w, clock, n.assets);
    assert SkipsAreTrue(JobOf(codec, n.assets, false, prior, clock), objects, SourceOf(n, s, n.assets));
    SkipsUnder(JobOf(codec, n.assets, false, prior, clock), objects, both.0.objects, s.assets);
  }

  /** Exactly the source's objects under the prefix, and the checks on count, size and integrity are green. */
  ghost predicate GivesBack(w: World, source: Objects) {
    && (forall k :: k in After(w) <==> k in source && StartsWith(k, w.scope.prefix))
    && (forall k :: k in After(w) ==> After(w)[k].bytes == source[k].bytes)
    && Ok(w, Count) && Ok(w, Size) && Ok(w, Integrity)
    && (Ok(w, Vacuous) <==> exists k :: k in source && StartsWith(k, w.scope.prefix))
  }

  lemma BackedIsGivenBack(codec: Codec, n: Names, clock: Option<int>, objects: Objects, prior: Option<Manifest>,
                          s: Sources, after: Objects, m: Manifest, b: string, prefix: string,
                          rows: Option<seq<SnapshotRow>>, decode: Bytes -> Option<Bytes>)
    requires Named(n) && Listed(s) && (b == n.snapshots || b == n.assets)
    requires Backs(codec, n, clock, objects, prior, s, after, m, b)
    ensures GivesBack(RestoreOf(JobOf(codec, b, false, None, clock), after, m, prefix, rows, decode), SourceOf(n, s, b))
  {
    hide VisitAll, SkipsAreTrue, Quiet, After, Ok, MirrorKeyOf;
    var job, source := JobOf(codec, b, false, prior, clock), SourceOf(n, s, b);
    var start :|
      var p := VisitAll(job, start, Quiet(source, KeysOf(n, s, b)));
      SkipsAreTrue(job, start, source) && EntriesOf(m, b) == p.result.entries && b in m.buckets
      && SameUnder(b, p.objects, after);
    RestoreUndoesMirror(job, start, source, KeysOf(n, s, b), after, m, prefix, rows, decode);
  }

  /**
   * One run over two quiet sources, then the newest manifest read back and either bucket restored, whatever
   * the prefix: the restored target is the source. What the run skips has to be right, as MirrorIsTrueIff has it.
   */
  lemma RestoreUndoesRun(codec: Codec, n: Names, clock: Option<int>, objects: Objects, s: Sources, run: Run,
                         after: Objects, m: Manifest, b: string, prefix: string,
                         rows: Option<seq<SnapshotRow>>, decode: Bytes -> Option<Bytes>)
    requires RoundTrips(codec) && Named(n) && Listed(s) && Sees(run, s) && Tells(objects, run)
    requires SkipsRightly(codec, n, clock, objects, s) && Leaves(codec, n, clock, objects, run, after)
    requires IsPrior(codec, after, Some(m)) && (b == n.snapshots || b == n.assets)
    ensures GivesBack(RestoreOf(JobOf(codec, b, false, None, clock), after, m, prefix, rows, decode), SourceOf(n, s, b))
  {
    hide VisitBoth, IsPrior, Tells, SkipsRightly, GivesBack, Backs, EntriesOf, Named, RoundTrips, WithManifest;
    var prior :| IsPrior(codec, objects, prior) &&
      var both := VisitBoth(codec, n, false, prior, clock, objects, run.snaps, run.assets);
      after == WithManifest(codec, both.1.objects, run.stamp,
                            Manifest(run.takenAt, Buckets(both.0.result, both.1.result), run.pgBackupKey), clock);
    QuietIsRegular(s.snapshots, s.snapshotKeys);
    QuietIsRegular(s.assets, s.assetKeys);
    ReadsBack(codec, n, clock, objects, prior, run, after, m);
    if b == n.snapshots {
      RunBacksSnapshots(codec, n, clock, objects, prior, s, run, after, m);
    } else {
      RunBacksAssets(codec, n, clock, objects, prior, s, run, after, m);
    }
    BackedIsGivenBack(codec, n, clock, objects, prior, s, after, m, b, prefix, rows, decode);
  }

  lemma QuietIsRegular(source: Objects, keys: seq<string>)
    requires ListsOnce(keys, source)
    ensures Distinct(Quiet(source, keys))
  {}

  /**
   * With keys written once: after any history of runs, crashes and failing keys among them, one run that
   * completes and tells gives both sources back. Nothing is asked of what it skips.
   */
  lemma RestoreAfterAnyHistory(codec: Codec, n: Names, clock: Option<int>, states: seq<Objects>, runs: seq<Run>,
                               ofSnapshots: string -> Bytes, ofAssets: string -> Bytes, s: Sources, run: Run,
                               after: Objects, m: Manifest, b: string, prefix: string,
                               rows: Option<seq<SnapshotRow>>, decode: Bytes -> Option<Bytes>)
    requires RoundTrips(codec) && Named(n) && IsHistory(codec, n, clock, states, runs)
    requires TrueWorld(codec, n, states[0], ofSnapshots, ofAssets)
    requires forall j :: 0 <= j < |runs| ==> OnceWritten(n, runs[j], ofSnapshots, ofAssets)
    requires forall k :: k in s.snapshots ==> s.snapshots[k].bytes == ofSnapshots(k)
    requires forall k :: k in s.assets ==> s.assets[k].bytes == ofAssets(k)
    requires Listed(s) && Sees(run, s) && Tells(states[|runs|], run)
    requires Leaves(codec, n, clock, states[|runs|], run, after)
    requires IsPrior(codec, after, Some(m)) && (b == n.snapshots || b == n.assets)
    ensures GivesBack(RestoreOf(JobOf(codec, b, false, None, clock), after, m, prefix, rows, decode), SourceOf(n, s, b))
  {
    hide TrueWorld, OnceWritten, Leaves, Tells, Sees, IsPrior, GivesBack, Named, RoundTrips;
    WriteOnceSurvivesCrashes(codec, n, clock, states, runs, ofSnapshots, ofAssets, |runs|);
    TrueWorldSkipsRightly(codec, n, clock, states[|runs|], s, ofSnapshots, ofAssets);
    RestoreUndoesRun(codec, n, clock, states[|runs|], s, run, after, m, b, prefix, rows, decode);
  }

  lemma TrueWorldSkipsRightly(codec: Codec, n: Names, clock: Option<int>, objects: Objects, s: Sources,
                              ofSnapshots: string -> Bytes, ofAssets: string -> Bytes)
    requires Named(n) && TrueWorld(codec, n, objects, ofSnapshots, ofAssets)
    requires forall k :: k in s.snapshots ==> s.snapshots[k].bytes == ofSnapshots(k)
    requires forall k :: k in s.assets ==> s.assets[k].bytes == ofAssets(k)
    ensures SkipsRightly(codec, n, clock, objects, s)
  {
    hide IsPrior, EntriesOf, SkipsAreTrue, TrueEntry, Holds;
    forall prior, b | IsPrior(codec, objects, prior) && (b == n.snapshots || b == n.assets)
      ensures SkipsAreTrue(JobOf(codec, b, false, prior, clock), objects, SourceOf(n, s, b))
    {
      var job, content := JobOf(codec, b, false, prior, clock), if b == n.snapshots then ofSnapshots else ofAssets;
      if prior.Some? { assert IsPrior(codec, objects, Some(prior.value)); }
      WriteOnceSkipsAreTrue(job, objects, SourceOf(n, s, b), content);
    }
  }
}
