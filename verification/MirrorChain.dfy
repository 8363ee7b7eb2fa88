/**
 * scripts/backup-run.ts, runStorageMirror: both buckets mirrored against the newest manifest,
 * then a new manifest written. Which histories of runs keep the newest manifest true.
 */
module MirrorChain {
  import opened Text
  import opened ObjectStore
  import opened Mirror
  import Stamps

  /** SHA-256 and the manifest's JSON form, as given functions. */
  datatype Codec = Codec(sha: Bytes -> string, encode: Manifest -> Bytes, decode: Bytes -> Manifest)

  ghost predicate RoundTrips(codec: Codec) {
    forall m :: codec.decode(codec.encode(m)) == m
  }

  datatype Names = Names(snapshots: string, assets: string)

  /** A bucket name has no slash and does not look like the start of a manifest's name. */
  predicate IsBucketName(b: string) {
    '/' !in b && !StartsWith(b, "manifest-")
  }

  predicate Named(n: Names) {
    IsBucketName(n.snapshots) && IsBucketName(n.assets) && n.snapshots != n.assets
  }

  predicate IsManifestKey(key: string) {
    StartsWith(key, MANIFEST_PREFIX) && EndsWith(key, ".json")
  }

  function ManifestKeyOf(stamp: string): (key: string)
    ensures IsManifestKey(key)
  {
    var key := MANIFEST_PREFIX + stamp + ".json";
    assert key[..|MANIFEST_PREFIX|] == MANIFEST_PREFIX && key[|key| - 5..] == ".json";
    key
  }

  ghost predicate Newest(objects: Objects, key: string) {
    key in objects && IsManifestKey(key)
    && forall k :: k in objects && IsManifestKey(k) ==> k == key || Less(k, key)
  }

  lemma NewestUnique(objects: Objects, k: string, l: string)
    requires Newest(objects, k) && Newest(objects, l)
    ensures k == l
  {
    LessTotal(k, l);
  }

  lemma MirrorKeyIsNoManifest(b: string, k: string)
    requires IsBucketName(b)
    ensures !IsManifestKey(MirrorKeyOf(b, k))
  {
    var x := MirrorKeyOf(b, k);
    if |x| >= 17 {
      var head := x[..17];
      assert MANIFEST_PREFIX[8..17] == "manifest-";
      if |b| >= 9 {
        assert head[8..17] == b[..9];
      } else {
        assert head[8 + |b|] == '/' && MANIFEST_PREFIX[8 + |b|] != '/';
      }
    }
  }

  /** The last manifest by name, over the keys under the manifest prefix, or None. */
  method LatestStorageManifest(target: Store, codec: Codec, listing: seq<string>)
    returns (latest: Option<(string, Manifest)>)
    requires forall k :: k in listing <==> k in target.objects && StartsWith(k, MANIFEST_PREFIX)
    ensures latest.None? ==> !exists k :: k in target.objects && IsManifestKey(k)
    ensures latest.Some? ==> Newest(target.objects, latest.value.0)
                             && latest.value.1 == codec.decode(target.objects[latest.value.0].bytes)
  {
    var best: Option<string> := None;
    for i := 0 to |listing|
      invariant best.None? ==> forall k :: k in listing[..i] ==> !IsManifestKey(k)
      invariant best.Some? ==> best.value in target.objects && IsManifestKey(best.value)
      invariant best.Some? ==>
                  forall k :: k in listing[..i] && IsManifestKey(k) ==> k == best.value || Less(k, best.value)
    {
      var key := listing[i];
      assert key in listing;
      if EndsWith(key, ".json") && (best == None || Less(best.value, key)) {
        if best.Some? {
          forall k | k in listing[..i] && IsManifestKey(k) && k != best.value ensures Less(k, key) {
            LessTransitive(k, best.value, key);
          }
        }
        best := Some(key);
      } else if best.Some? {
        LessTotal(best.value, key);
      }
    }
    assert listing[..|listing|] == listing;
    if best == None {
      return None;
    }
    var bytes := target.GetObject(best.value);
    latest := Some((best.value, codec.decode(bytes.value)));
  }

  /** `new Map(entries.map(e => [e.key, e]))`: a later entry of the same key wins. */
  function ByKey(entries: seq<Entry>): (m: map<string, Entry>)
    ensures Keyed(m)
    ensures forall k :: k in m ==> m[k] in entries
    ensures forall e :: e in entries ==> e.key in m
  {
    if entries == [] then map[]
    else
      var last := entries[|entries| - 1];
      ByKey(entries[..|entries| - 1])[last.key := last]
  }

  function EntriesOf(m: Manifest, bucket: string): seq<Entry> {
    if bucket in m.buckets then m.buckets[bucket] else []
  }

  function PreviousOf(prior: Option<Manifest>, bucket: string): (m: map<string, Entry>)
    ensures Keyed(m)
  {
    if prior.None? then map[] else ByKey(EntriesOf(prior.value, bucket))
  }

  function JobOf(codec: Codec, bucket: string, dryRun: bool, prior: Option<Manifest>, clock: Option<int>): Job {
    Job(codec.sha, bucket, dryRun, PreviousOf(prior, bucket), clock)
  }

  /** Both buckets visited, the second on what the first left. */
  function VisitBoth(codec: Codec, n: Names, dryRun: bool, prior: Option<Manifest>, clock: Option<int>,
                     objects: Objects, snaps: seq<Sighting>, assets: seq<Sighting>): (Progress, Progress)
  {
    var first := VisitAll(JobOf(codec, n.snapshots, dryRun, prior, clock), objects, snaps);
    (first, VisitAll(JobOf(codec, n.assets, dryRun, prior, clock), first.objects, assets))
  }

  /** The newest manifest, which a run starts from. */
  ghost predicate IsPrior(codec: Codec, objects: Objects, prior: Option<Manifest>) {
    if prior.None? then !exists k :: k in objects && IsManifestKey(k)
    else exists k :: Newest(objects, k) && prior.value == codec.decode(objects[k].bytes)
  }

  lemma PriorUnique(codec: Codec, objects: Objects, p: Option<Manifest>, q: Option<Manifest>)
    requires IsPrior(codec, objects, p) && IsPrior(codec, objects, q)
    ensures p == q
  {
    if p.Some? && q.Some? {
      var k :| Newest(objects, k) && p.value == codec.decode(objects[k].bytes);
      var l :| Newest(objects, l) && q.value == codec.decode(objects[l].bytes);
      NewestUnique(objects, k, l);
    }
  }

  /** `buckets` of the written manifest; the two names differ, so neither overwrites the other. */
  function Buckets(first: MirrorResult, second: MirrorResult): map<string, seq<Entry>> {
    map[first.bucket := first.entries][second.bucket := second.entries]
  }

  method RunStorageMirror(target: Store, codec: Codec, n: Names, listing: seq<string>,
                          snaps: seq<Sighting>, assets: seq<Sighting>, dryRun: bool,
                          stamp: string, takenAt: string, pgBackupKey: Option<string>)
    returns (manifestKey: Option<string>, results: (MirrorResult, MirrorResult), ghost prior: Option<Manifest>)
    requires forall k :: k in listing <==> k in target.objects && StartsWith(k, MANIFEST_PREFIX)
    modifies target
    ensures IsPrior(codec, old(target.objects), prior)
    ensures dryRun ==> target.objects == old(target.objects)
    ensures var both := VisitBoth(codec, n, dryRun, prior, old(target.clock), old(target.objects), snaps, assets);
            results == (both.0.result, both.1.result) &&
            manifestKey == (if dryRun then None else Some(ManifestKeyOf(stamp))) &&
            target.objects ==
              if dryRun then both.1.objects
              else WithManifest(codec, both.1.objects, stamp,
                                Manifest(takenAt, Buckets(both.0.result, both.1.result), pgBackupKey),
                                old(target.clock))
  {
    var latest := LatestStorageManifest(target, codec, listing);
    prior := if latest.None? then None else Some(latest.value.1);
    var previous := if latest.None? then map[] else ByKey(EntriesOf(latest.value.1, n.snapshots));
    var first := MirrorBucket(snaps, target, n.snapshots, dryRun, previous, codec.sha);
    previous := if latest.None? then map[] else ByKey(EntriesOf(latest.value.1, n.assets));
    var second := MirrorBucket(assets, target, n.assets, dryRun, previous, codec.sha);
    results := (first, second);
    manifestKey := None;
    DryRunsWriteNothing(codec, n, prior, old(target.clock), old(target.objects), snaps, assets);
    if !dryRun {
      manifestKey := Some(ManifestKeyOf(stamp));
      var body := codec.encode(Manifest(takenAt, Buckets(first, second), pgBackupKey));
      var _ := target.PutObject(manifestKey.value, body, |body|);
    }
  }

  function WithManifest(codec: Codec, objects: Objects, stamp: string, m: Manifest, clock: Option<int>): Objects {
    objects[ManifestKeyOf(stamp) := Object(codec.encode(m), clock)]
  }

  lemma {:induction false} DryRunWritesNothing(job: Job, objects: Objects, seen: seq<Sighting>)
    requires job.dryRun
    ensures VisitAll(job, objects, seen).objects == objects
  {
    if seen != [] { DryRunWritesNothing(job, objects, seen[..|seen| - 1]); }
  }

  lemma DryRunsWriteNothing(codec: Codec, n: Names, prior: Option<Manifest>, clock: Option<int>, objects: Objects,
                            snaps: seq<Sighting>, assets: seq<Sighting>)
    ensures VisitBoth(codec, n, true, prior, clock, objects, snaps, assets).1.objects == objects
  {
    DryRunWritesNothing(JobOf(codec, n.snapshots, true, prior, clock), objects, snaps);
    DryRunWritesNothing(JobOf(codec, n.assets, true, prior, clock), objects, assets);
  }

  // ----- histories -----

  /** A run that wrote its manifest, or one that died after visiting these keys and no more. */
  datatype Run =
    | Completed(snaps: seq<Sighting>, assets: seq<Sighting>,
                stamp: string, takenAt: string, pgBackupKey: Option<string>)
    | Crashed(snaps: seq<Sighting>, assets: seq<Sighting>)

  /** What a run leaves in the backup bucket: RunStorageMirror's own result, or its part before the crash. */
  ghost predicate Leaves(codec: Codec, n: Names, clock: Option<int>, objects: Objects, run: Run, after: Objects) {
    exists prior :: IsPrior(codec, objects, prior) &&
      var both := VisitBoth(codec, n, false, prior, clock, objects, run.snaps, run.assets);
      after == if run.Crashed? then both.1.objects
               else WithManifest(codec, both.1.objects, run.stamp,
                                 Manifest(run.takenAt, Buckets(both.0.result, both.1.result), run.pgBackupKey), clock)
  }

  /** Listings yield each key once. */
  ghost predicate Regular(run: Run) {
    Distinct(run.snaps) && Distinct(run.assets)
  }

  /** The run completes and its manifest is the newest; where stamps go back it need not be. */
  ghost predicate Tells(objects: Objects, run: Run) {
    run.Completed? &&
    forall k :: k in objects && IsManifestKey(k) ==> k == ManifestKeyOf(run.stamp) || Less(k, ManifestKeyOf(run.stamp))
  }

  /** With the scripts' own stamps the newest manifest by name is the latest one in time. */
  lemma ManifestKeysSortInTime(a: Stamps.Utc, b: Stamps.Utc)
    requires Stamps.Valid(a) && Stamps.Valid(b)
    ensures Less(ManifestKeyOf(Stamps.StampNow(a)), ManifestKeyOf(Stamps.StampNow(b)))
            <==> Stamps.Second(a) < Stamps.Second(b)
  {
    hide Less, Stamps.StampNow, Stamps.Second, Stamps.Valid;
    Stamps.LabelledKeyOrder(MANIFEST_PREFIX, ".json", a, b);
  }

  /** No key is listed twice in a bucket. */
  ghost predicate OneEach(entries: seq<Entry>) {
    forall i, j :: 0 <= i < j < |entries| ==> entries[i].key != entries[j].key
  }

  ghost predicate ManifestBacked(codec: Codec, n: Names, objects: Objects, m: Manifest) {
    OneEach(EntriesOf(m, n.snapshots)) && OneEach(EntriesOf(m, n.assets)) &&
    forall b, e :: (b == n.snapshots || b == n.assets) && e in EntriesOf(m, b) ==> Backed(codec.sha, objects, b, e)
  }

  ghost predicate ManifestHalfBacked(codec: Codec, n: Names, objects: Objects, m: Manifest) {
    forall b, e :: (b == n.snapshots || b == n.assets) && e in EntriesOf(m, b) ==> HalfBacked(codec.sha, objects, b, e)
  }

  /** Every entry with a sha in the newest manifest has exactly that hash and size in the mirror. */
  ghost predicate ChainTrue(codec: Codec, n: Names, objects: Objects) {
    forall m :: IsPrior(codec, objects, Some(m)) ==> ManifestBacked(codec, n, objects, m)
  }

  ghost predicate ChainHalfTrue(codec: Codec, n: Names, objects: Objects) {
    forall m :: IsPrior(codec, objects, Some(m)) ==> ManifestHalfBacked(codec, n, objects, m)
  }

  lemma VisitAllKeepsElsewhere(job: Job, objects: Objects, seen: seq<Sighting>, b: string, k: string)
    requires '/' !in job.bucket && '/' !in b && b != job.bucket
    ensures var o, m := VisitAll(job, objects, seen).objects, MirrorKeyOf(b, k);
            (m in o <==> m in objects) && (m in o ==> o[m] == objects[m])
  {
    forall i | 0 <= i < |seen| { MirrorKeysDiffer(b, k, job.bucket, seen[i].key); }
    OnlySightedChange(job, objects, seen, MirrorKeyOf(b, k));
  }

  lemma VisitAllKeepsManifests(job: Job, objects: Objects, seen: seq<Sighting>, name: string)
    requires IsBucketName(job.bucket) && IsManifestKey(name)
    ensures var o := VisitAll(job, objects, seen).objects;
            (name in o <==> name in objects) && (name in o ==> o[name] == objects[name])
  {
    forall i | 0 <= i < |seen| { MirrorKeyIsNoManifest(job.bucket, seen[i].key); }
    OnlySightedChange(job, objects, seen, name);
  }

  /** The written manifest is the newest one and reads back as written; the mirror is as the visits left it. */
  lemma WrittenIsNewest(codec: Codec, n: Names, objects: Objects, mirrored: Objects, stamp: string, m: Manifest,
                        clock: Option<int>)
    requires RoundTrips(codec)
    requires forall name :: IsManifestKey(name) ==> (name in mirrored <==> name in objects)
    requires forall k :: k in objects && IsManifestKey(k) ==> k == ManifestKeyOf(stamp) || Less(k, ManifestKeyOf(stamp))
    ensures IsPrior(codec, WithManifest(codec, mirrored, stamp, m, clock), Some(m))
  {
    var after := WithManifest(codec, mirrored, stamp, m, clock);
    assert Newest(after, ManifestKeyOf(stamp));
  }

  lemma ManifestKeyTouchesNoEntry(codec: Codec, mirrored: Objects, stamp: string, m: Manifest, clock: Option<int>,
                                  b: string, e: Entry)
    requires IsBucketName(b) && Backed(codec.sha, mirrored, b, e)
    ensures Backed(codec.sha, WithManifest(codec, mirrored, stamp, m, clock), b, e)
  {
    MirrorKeyIsNoManifest(b, e.key);
  }

  lemma BackedElsewhere(job: Job, objects: Objects, seen: seq<Sighting>, b: string, e: Entry)
    requires '/' !in job.bucket && '/' !in b && b != job.bucket
    ensures Backed(job.sha, VisitAll(job, objects, seen).objects, b, e) == Backed(job.sha, objects, b, e)
    ensures HalfBacked(job.sha, VisitAll(job, objects, seen).objects, b, e) == HalfBacked(job.sha, objects, b, e)
  {
    VisitAllKeepsElsewhere(job, objects, seen, b, e.key);
  }

  /** A run records no key twice. */
  lemma {:induction false} RecordedOnce(job: Job, objects: Objects, seen: seq<Sighting>)
    requires '/' !in job.bucket && Distinct(seen)
    ensures var entries := VisitAll(job, objects, seen).result.entries;
            OneEach(entries) && forall e :: e in entries ==> KeyOf(seen, e.key)
  {
    hide Visit, KeyOf, Distinct, MirrorKeyOf;
    if seen != [] {
      var init, s := seen[..|seen| - 1], seen[|seen| - 1];
      LastIsNew(seen, job.bucket);
      RecordedOnce(job, objects, init);
      OneRecord(job, VisitAll(job, objects, init), s);
      OneMoreRecorded(VisitAll(job, objects, init).result.entries, VisitAll(job, objects, seen).result.entries, seen);
    }
  }

  lemma OneMoreRecorded(before: seq<Entry>, after: seq<Entry>, seen: seq<Sighting>)
    requires seen != [] && OneEach(before) && forall e :: e in before ==> KeyOf(seen[..|seen| - 1], e.key)
    requires !KeyOf(seen[..|seen| - 1], seen[|seen| - 1].key)
    requires after == before || (|after| == |before| + 1 && after[..|before|] == before
                                 && after[|before|].key == seen[|seen| - 1].key)
    ensures OneEach(after) && forall e :: e in after ==> KeyOf(seen, e.key)
  {
    KeysGoOn(seen);
    hide KeyOf;
    assert forall i :: 0 <= i < |before| ==> before[i] in before && before[i] == after[i];
  }

  /** A visit records at most its own key. */
  lemma OneRecord(job: Job, p: Progress, s: Sighting)
    ensures var after := Visit(job, p, s).result.entries;
            after == p.result.entries
            || (|after| == |p.result.entries| + 1 && after[..|p.result.entries|] == p.result.entries
                && after[|p.result.entries|].key == s.key)
  {}

  /** The visits of both buckets: what they record is backed, and they leave the manifests alone. */
  lemma BothRecordBacked(codec: Codec, n: Names, clock: Option<int>, objects: Objects, prior: Option<Manifest>,
                         run: Run)
    requires Named(n) && Distinct(run.snaps) && Distinct(run.assets)
    requires prior.Some? ==> ManifestHalfBacked(codec, n, objects, prior.value)
    ensures var both := VisitBoth(codec, n, false, prior, clock, objects, run.snaps, run.assets);
            (forall e :: e in both.0.result.entries ==> Backed(codec.sha, both.1.objects, n.snapshots, e)) &&
            (forall e :: e in both.1.result.entries ==> Backed(codec.sha, both.1.objects, n.assets, e)) &&
            OneEach(both.0.result.entries) && OneEach(both.1.result.entries) &&
            (forall name :: IsManifestKey(name) ==> (name in both.1.objects <==> name in objects))
  {
    var both := VisitBoth(codec, n, false, prior, clock, objects, run.snaps, run.assets);
    var j, k := JobOf(codec, n.snapshots, false, prior, clock), JobOf(codec, n.assets, false, prior, clock);
    RecordedEntriesAreBacked(j, objects, run.snaps);
    forall e: Entry { BackedElsewhere(j, objects, run.snaps, n.assets, e); }
    RecordedEntriesAreBacked(k, both.0.objects, run.assets);
    RecordedOnce(j, objects, run.snaps);
    RecordedOnce(k, both.0.objects, run.assets);
    forall e: Entry { BackedElsewhere(k, both.0.objects, run.assets, n.snapshots, e); }
    forall name | IsManifestKey(name) ensures name in both.1.objects <==> name in objects {
      VisitAllKeepsManifests(j, objects, run.snaps, name);
      VisitAllKeepsManifests(k, both.0.objects, run.assets, name);
    }
  }

  lemma NewManifestBacked(codec: Codec, n: Names, clock: Option<int>, both: (Progress, Progress), run: Run)
    requires Named(n) && run.Completed?
    requires both.0.result.bucket == n.snapshots && both.1.result.bucket == n.assets
    requires OneEach(both.0.result.entries) && OneEach(both.1.result.entries)
    requires forall e :: e in both.0.result.entries ==> Backed(codec.sha, both.1.objects, n.snapshots, e)
    requires forall e :: e in both.1.result.entries ==> Backed(codec.sha, both.1.objects, n.assets, e)
    ensures var m := Manifest(run.takenAt, Buckets(both.0.result, both.1.result), run.pgBackupKey);
            ManifestBacked(codec, n, WithManifest(codec, both.1.objects, run.stamp, m, clock), m)
  {
    var m := Manifest(run.takenAt, Buckets(both.0.result, both.1.result), run.pgBackupKey);
    forall b, e | (b == n.snapshots || b == n.assets) && e in EntriesOf(m, b)
      ensures Backed(codec.sha, WithManifest(codec, both.1.objects, run.stamp, m, clock), b, e)
    {
      ManifestKeyTouchesNoEntry(codec, both.1.objects, run.stamp, m, clock, b, e);
    }
  }

  lemma {:induction false} VisitAllKeepsBucket(job: Job, objects: Objects, seen: seq<Sighting>)
    ensures VisitAll(job, objects, seen).result.bucket == job.bucket
  {
    if seen != [] { VisitAllKeepsBucket(job, objects, seen[..|seen| - 1]); }
  }

  /**
   * A run that completes and tells leaves a true newest manifest: whatever the sources did during it,
   * whichever keys failed, and even if the run before it did neither.
   */
  lemma CompletedRunIsTrue(codec: Codec, n: Names, clock: Option<int>, objects: Objects, run: Run, after: Objects)
    requires RoundTrips(codec) && Named(n) && Tells(objects, run) && Regular(run)
    requires ChainHalfTrue(codec, n, objects) && Leaves(codec, n, clock, objects, run, after)
    ensures ChainTrue(codec, n, after)
  {
    var prior :| IsPrior(codec, objects, prior) &&
      var both := VisitBoth(codec, n, false, prior, clock, objects, run.snaps, run.assets);
      after == WithManifest(codec, both.1.objects, run.stamp,
                            Manifest(run.takenAt, Buckets(both.0.result, both.1.result), run.pgBackupKey), clock);
    var both := VisitBoth(codec, n, false, prior, clock, objects, run.snaps, run.assets);
    var m := Manifest(run.takenAt, Buckets(both.0.result, both.1.result), run.pgBackupKey);
    BothRecordBacked(codec, n, clock, objects, prior, run);
    WrittenIsNewest(codec, n, objects, both.1.objects, run.stamp, m, clock);
    VisitAllKeepsBucket(JobOf(codec, n.snapshots, false, prior, clock), objects, run.snaps);
    VisitAllKeepsBucket(JobOf(codec, n.assets, false, prior, clock), both.0.objects, run.assets);
    NewManifestBacked(codec, n, clock, both, run);
    forall q | IsPrior(codec, after, Some(q)) ensures ManifestBacked(codec, n, after, q) {
      PriorUnique(codec, after, Some(q), Some(m));
    }
  }

  lemma {:induction false} ByKeyFinds(entries: seq<Entry>, e: Entry)
    requires OneEach(entries) && e in entries
    ensures ByKey(entries)[e.key] == e
  {}

  /** What a run that does not tell leaves: the newest manifest it started from, over what it visited. */
  lemma UntoldKeepsPrior(codec: Codec, n: Names, clock: Option<int>, objects: Objects, prior: Option<Manifest>,
                         run: Run, after: Objects)
    requires Named(n) && IsPrior(codec, objects, prior) && !Tells(objects, run)
    requires var both := VisitBoth(codec, n, false, prior, clock, objects, run.snaps, run.assets);
             after == if run.Crashed? then both.1.objects
                      else WithManifest(codec, both.1.objects, run.stamp,
                                        Manifest(run.takenAt, Buckets(both.0.result, both.1.result), run.pgBackupKey),
                                        clock)
    ensures IsPrior(codec, after, prior)
    ensures SameMirror(n, VisitBoth(codec, n, false, prior, clock, objects, run.snaps, run.assets).1.objects, after)
  {
    hide VisitBoth, IsManifestKey, Less, MirrorKeyOf, IsPrior;
    var both := VisitBoth(codec, n, false, prior, clock, objects, run.snaps, run.assets);
    CrashKeepsPrior(codec, n, clock, objects, prior, run, both.1.objects);
    if run.Completed? {
      BothKeepManifests(codec, n, clock, objects, prior, run);
      var m := Manifest(run.takenAt, Buckets(both.0.result, both.1.result), run.pgBackupKey);
      StaleKeepsNewest(codec, both.1.objects, prior, run.stamp, m, clock);
      forall b, k | b == n.snapshots || b == n.assets ensures MirrorKeyOf(b, k) != ManifestKeyOf(run.stamp) {
        MirrorKeyIsNoManifest(b, k);
      }
    }
  }

  /** The same objects under both buckets' mirror keys. */
  ghost predicate SameMirror(n: Names, a: Objects, b: Objects) {
    forall bucket, k :: bucket == n.snapshots || bucket == n.assets ==>
      var name := MirrorKeyOf(bucket, k);
      (name in b <==> name in a) && (name in b ==> b[name] == a[name])
  }

  lemma StaleKeepsNewest(codec: Codec, objects: Objects, prior: Option<Manifest>, stamp: string, m: Manifest,
                         clock: Option<int>)
    requires IsPrior(codec, objects, prior)
    requires exists k :: k in objects && IsManifestKey(k) && k != ManifestKeyOf(stamp) && !Less(k, ManifestKeyOf(stamp))
    ensures IsPrior(codec, WithManifest(codec, objects, stamp, m, clock), prior)
  {
    hide Less, IsManifestKey;
    var key, after := ManifestKeyOf(stamp), WithManifest(codec, objects, stamp, m, clock);
    var k :| k in objects && IsManifestKey(k) && k != key && !Less(k, key);
    LessTotal(k, key);
    var newest :| Newest(objects, newest) && prior.value == codec.decode(objects[newest].bytes);
    if k != newest { LessTransitive(key, k, newest); }
    LessTotal(key, newest);
    assert Newest(after, newest);
  }

  /** A run that crashes, or does not tell, leaves the newest manifest half true: it cannot fool the next. */
  lemma CrashedRunIsHalfTrue(codec: Codec, n: Names, clock: Option<int>, objects: Objects, run: Run, after: Objects)
    requires Named(n) && !Tells(objects, run) && Regular(run)
    requires ChainTrue(codec, n, objects) && Leaves(codec, n, clock, objects, run, after)
    ensures ChainHalfTrue(codec, n, after)
  {
    hide VisitBoth, Tells, Less, EntriesOf, ManifestBacked, IsManifestKey, MirrorKeyOf;
    var prior :| IsPrior(codec, objects, prior) &&
      var both := VisitBoth(codec, n, false, prior, clock, objects, run.snaps, run.assets);
      after == if run.Crashed? then both.1.objects
               else WithManifest(codec, both.1.objects, run.stamp,
                                 Manifest(run.takenAt, Buckets(both.0.result, both.1.result), run.pgBackupKey), clock);
    UntoldKeepsPrior(codec, n, clock, objects, prior, run, after);
    hide IsPrior;
    forall q | IsPrior(codec, after, Some(q)) ensures ManifestHalfBacked(codec, n, after, q) {
      PriorUnique(codec, after, Some(q), prior);
      forall b, e | (b == n.snapshots || b == n.assets) && e in EntriesOf(q, b)
        ensures HalfBacked(codec.sha, after, b, e)
      {
        VisitedHalfBacked(codec, n, clock, objects, q, run, b, e);
      }
    }
  }

  lemma VisitedHalfBacked(codec: Codec, n: Names, clock: Option<int>, objects: Objects, q: Manifest, run: Run,
                          b: string, e: Entry)
    requires Named(n) && Regular(run) && ManifestBacked(codec, n, objects, q)
    requires (b == n.snapshots || b == n.assets) && e in EntriesOf(q, b)
    ensures var both := VisitBoth(codec, n, false, Some(q), clock, objects, run.snaps, run.assets);
            HalfBacked(codec.sha, both.1.objects, b, e)
  {
    hide HalfBacked, VisitAll;
    var j, k := JobOf(codec, n.snapshots, false, Some(q), clock), JobOf(codec, n.assets, false, Some(q), clock);
    var mid := VisitAll(j, objects, run.snaps).objects;
    ByKeyFinds(EntriesOf(q, b), e);
    assert Backed(codec.sha, objects, b, e);
    if b == n.snapshots {
      CutRunLeavesHalfBacked(j, objects, run.snaps, e);
      BackedElsewhere(k, mid, run.assets, b, e);
    } else {
      BackedElsewhere(j, objects, run.snaps, b, e);
      CutRunLeavesHalfBacked(k, mid, run.assets, e);
    }
  }

  /** A crashed run wrote no manifest, so the newest one is the one it started from. */
  lemma CrashKeepsPrior(codec: Codec, n: Names, clock: Option<int>, objects: Objects, prior: Option<Manifest>,
                        run: Run, after: Objects)
    requires Named(n) && IsPrior(codec, objects, prior)
    requires after == VisitBoth(codec, n, false, prior, clock, objects, run.snaps, run.assets).1.objects
    ensures IsPrior(codec, after, prior)
  {
    var j, k := JobOf(codec, n.snapshots, false, prior, clock), JobOf(codec, n.assets, false, prior, clock);
    var mid := VisitAll(j, objects, run.snaps).objects;
    forall name | IsManifestKey(name)
      ensures (name in after <==> name in objects) && (name in after ==> after[name] == objects[name])
    {
      VisitAllKeepsManifests(j, objects, run.snaps, name);
      VisitAllKeepsManifests(k, mid, run.assets, name);
    }
    if prior.Some? {
      var key :| Newest(objects, key) && prior.value == codec.decode(objects[key].bytes);
      assert Newest(after, key);
    }
  }

  lemma TrueIsHalfTrue(codec: Codec, n: Names, objects: Objects)
    ensures ChainTrue(codec, n, objects) ==> ChainHalfTrue(codec, n, objects)
  {
    hide IsPrior, EntriesOf;
  }

  /** The backup bucket after each run, starting from `states[0]`. */
  ghost predicate IsHistory(codec: Codec, n: Names, clock: Option<int>, states: seq<Objects>, runs: seq<Run>) {
    |states| == |runs| + 1 &&
    forall i :: 0 <= i < |runs| ==>
      Regular(runs[i]) && Leaves(codec, n, clock, states[i], runs[i], states[i + 1])
  }

  /**
   * Over any number of runs: if no two that crash or do not tell come one right after the other, the
   * newest manifest is true after every run that tells, whatever happened to sources and keys.
   */
  lemma {:induction false} ChainHolds(codec: Codec, n: Names, clock: Option<int>, states: seq<Objects>,
                                      runs: seq<Run>, i: nat)
    requires RoundTrips(codec) && Named(n) && IsHistory(codec, n, clock, states, runs) && i <= |runs|
    requires ChainTrue(codec, n, states[0])
    requires forall j :: 0 < j < |runs| ==> Tells(states[j - 1], runs[j - 1]) || Tells(states[j], runs[j])
    ensures ChainHalfTrue(codec, n, states[i])
    ensures i == 0 || Tells(states[i - 1], runs[i - 1]) ==> ChainTrue(codec, n, states[i])
  {
    hide Leaves, Tells, ChainTrue, ChainHalfTrue, Named, RoundTrips;
    TrueIsHalfTrue(codec, n, states[i]);
    if i > 0 {
      ChainHolds(codec, n, clock, states, runs, i - 1);
      if Tells(states[i - 1], runs[i - 1]) {
        CompletedRunIsTrue(codec, n, clock, states[i - 1], runs[i - 1], states[i]);
      } else {
        CrashedRunIsHalfTrue(codec, n, clock, states[i - 1], runs[i - 1], states[i]);
      }
    }
  }

  // ----- sources whose keys are written once -----

  ghost predicate OnceWritten(n: Names, run: Run, ofSnapshots: string -> Bytes, ofAssets: string -> Bytes) {
    WriteOnce(run.snaps, ofSnapshots) && WriteOnce(run.assets, ofAssets)
  }

  ghost predicate TrueEntries(codec: Codec, objects: Objects, b: string, content: string -> Bytes,
                              entries: seq<Entry>) {
    forall e :: e in entries ==>
      TrueEntry(codec.sha, content, e) && (e.sha256.Some? ==> MirrorKeyOf(b, e.key) in objects)
  }

  /** The mirror holds only true bytes, and the newest manifest lists only what it holds. */
  ghost predicate TrueWorld(codec: Codec, n: Names, objects: Objects, ofSnapshots: string -> Bytes,
                            ofAssets: string -> Bytes) {
    && Holds(objects, n.snapshots, ofSnapshots) && Holds(objects, n.assets, ofAssets)
    && forall m :: IsPrior(codec, objects, Some(m)) ==>
         OneEach(EntriesOf(m, n.snapshots)) && OneEach(EntriesOf(m, n.assets))
         && TrueEntries(codec, objects, n.snapshots, ofSnapshots, EntriesOf(m, n.snapshots))
         && TrueEntries(codec, objects, n.assets, ofAssets, EntriesOf(m, n.assets))
  }

  lemma TrueWorldIsTrueChain(codec: Codec, n: Names, objects: Objects, ofSnapshots: string -> Bytes,
                             ofAssets: string -> Bytes)
    requires TrueWorld(codec, n, objects, ofSnapshots, ofAssets)
    ensures ChainTrue(codec, n, objects)
  {}

  lemma HoldsElsewhere(job: Job, objects: Objects, seen: seq<Sighting>, b: string, content: string -> Bytes)
    requires '/' !in job.bucket && '/' !in b && b != job.bucket && Holds(objects, b, content)
    ensures Holds(VisitAll(job, objects, seen).objects, b, content)
  {
    forall k { VisitAllKeepsElsewhere(job, objects, seen, b, k); }
  }

  /** What both visits leave when keys are written once. */
  lemma BothStayTrue(codec: Codec, n: Names, clock: Option<int>, objects: Objects, prior: Option<Manifest>, run: Run,
                     ofSnapshots: string -> Bytes, ofAssets: string -> Bytes)
    requires Named(n) && OnceWritten(n, run, ofSnapshots, ofAssets) && IsPrior(codec, objects, prior)
    requires TrueWorld(codec, n, objects, ofSnapshots, ofAssets)
    ensures var both := VisitBoth(codec, n, false, prior, clock, objects, run.snaps, run.assets);
            var after := both.1.objects;
            Holds(after, n.snapshots, ofSnapshots) && Holds(after, n.assets, ofAssets) &&
            TrueEntries(codec, after, n.snapshots, ofSnapshots, both.0.result.entries) &&
            TrueEntries(codec, after, n.assets, ofAssets, both.1.result.entries) &&
            (forall name :: name in objects ==> name in after)
  {
    var j, k := JobOf(codec, n.snapshots, false, prior, clock), JobOf(codec, n.assets, false, prior, clock);
    var mid := VisitAll(j, objects, run.snaps).objects;
    WriteOnceStaysTrue(j, objects, run.snaps, ofSnapshots);
    HoldsElsewhere(j, objects, run.snaps, n.assets, ofAssets);
    WriteOnceStaysTrue(k, mid, run.assets, ofAssets);
    HoldsElsewhere(k, mid, run.assets, n.snapshots, ofSnapshots);
  }

  lemma CrashKeepsTrueWorld(codec: Codec, n: Names, clock: Option<int>, objects: Objects, run: Run, after: Objects,
                            ofSnapshots: string -> Bytes, ofAssets: string -> Bytes)
    requires Named(n) && !Tells(objects, run) && OnceWritten(n, run, ofSnapshots, ofAssets)
    requires TrueWorld(codec, n, objects, ofSnapshots, ofAssets) && Leaves(codec, n, clock, objects, run, after)
    ensures TrueWorld(codec, n, after, ofSnapshots, ofAssets)
  {
    hide VisitBoth, Tells, Less, EntriesOf, IsManifestKey, OneEach, MirrorKeyOf;
    var prior :| IsPrior(codec, objects, prior) &&
      var both := VisitBoth(codec, n, false, prior, clock, objects, run.snaps, run.assets);
      after == if run.Crashed? then both.1.objects
               else WithManifest(codec, both.1.objects, run.stamp,
                                 Manifest(run.takenAt, Buckets(both.0.result, both.1.result), run.pgBackupKey), clock);
    BothStayTrue(codec, n, clock, objects, prior, run, ofSnapshots, ofAssets);
    UntoldKeepsPrior(codec, n, clock, objects, prior, run, after);
    hide IsPrior;
    forall m | IsPrior(codec, after, Some(m)) ensures prior == Some(m) {
      PriorUnique(codec, after, Some(m), prior);
    }
  }

  lemma BothRecordedOnce(codec: Codec, n: Names, clock: Option<int>, objects: Objects, prior: Option<Manifest>,
                         run: Run)
    requires Named(n) && run.Completed? && Regular(run)
    ensures var both := VisitBoth(codec, n, false, prior, clock, objects, run.snaps, run.assets);
            var m := Manifest(run.takenAt, Buckets(both.0.result, both.1.result), run.pgBackupKey);
            EntriesOf(m, n.snapshots) == both.0.result.entries && EntriesOf(m, n.assets) == both.1.result.entries &&
            OneEach(both.0.result.entries) && OneEach(both.1.result.entries)
  {
    var j, k := JobOf(codec, n.snapshots, false, prior, clock), JobOf(codec, n.assets, false, prior, clock);
    var mid := VisitAll(j, objects, run.snaps).objects;
    VisitAllKeepsBucket(j, objects, run.snaps);
    VisitAllKeepsBucket(k, mid, run.assets);
    RecordedOnce(j, objects, run.snaps);
    RecordedOnce(k, mid, run.assets);
  }

  lemma CompletionKeepsTrueWorld(codec: Codec, n: Names, clock: Option<int>, objects: Objects, run: Run, after: Objects,
                                 ofSnapshots: string -> Bytes, ofAssets: string -> Bytes)
    requires RoundTrips(codec) && Named(n) && Tells(objects, run) && OnceWritten(n, run, ofSnapshots, ofAssets)
    requires Regular(run)
    requires TrueWorld(codec, n, objects, ofSnapshots, ofAssets) && Leaves(codec, n, clock, objects, run, after)
    ensures TrueWorld(codec, n, after, ofSnapshots, ofAssets)
  {
    hide VisitBoth, EntriesOf, Buckets, OneEach, Less;
    var prior :| IsPrior(codec, objects, prior) &&
      var both := VisitBoth(codec, n, false, prior, clock, objects, run.snaps, run.assets);
      after == WithManifest(codec, both.1.objects, run.stamp,
                            Manifest(run.takenAt, Buckets(both.0.result, both.1.result), run.pgBackupKey), clock);
    var both := VisitBoth(codec, n, false, prior, clock, objects, run.snaps, run.assets);
    var m := Manifest(run.takenAt, Buckets(both.0.result, both.1.result), run.pgBackupKey);
    BothStayTrue(codec, n, clock, objects, prior, run, ofSnapshots, ofAssets);
    BothKeepManifests(codec, n, clock, objects, prior, run);
    WrittenIsNewest(codec, n, objects, both.1.objects, run.stamp, m, clock);
    BothRecordedOnce(codec, n, clock, objects, prior, run);
    WritingManifestKeepsHolds(codec, both.1.objects, run.stamp, m, clock, n.snapshots, ofSnapshots);
    WritingManifestKeepsHolds(codec, both.1.objects, run.stamp, m, clock, n.assets, ofAssets);
    forall q | IsPrior(codec, after, Some(q)) ensures q == m {
      PriorUnique(codec, after, Some(q), Some(m));
    }
  }

  lemma BothKeepManifests(codec: Codec, n: Names, clock: Option<int>, objects: Objects, prior: Option<Manifest>,
                          run: Run)
    requires Named(n)
    ensures var after := VisitBoth(codec, n, false, prior, clock, objects, run.snaps, run.assets).1.objects;
            forall name :: IsManifestKey(name) ==> (name in after <==> name in objects)
  {
    var j, k := JobOf(codec, n.snapshots, false, prior, clock), JobOf(codec, n.assets, false, prior, clock);
    var mid := VisitAll(j, objects, run.snaps).objects;
    forall name | IsManifestKey(name)
      ensures name in VisitAll(k, mid, run.assets).objects <==> name in objects
    {
      VisitAllKeepsManifests(j, objects, run.snaps, name);
      VisitAllKeepsManifests(k, mid, run.assets, name);
    }
  }

  lemma WritingManifestKeepsHolds(codec: Codec, mirrored: Objects, stamp: string, m: Manifest, clock: Option<int>,
                                  b: string, content: string -> Bytes)
    requires IsBucketName(b) && Holds(mirrored, b, content)
    ensures Holds(WithManifest(codec, mirrored, stamp, m, clock), b, content)
  {
    forall k { MirrorKeyIsNoManifest(b, k); }
  }

  /** With keys written once, the newest manifest is true after every run, whether it tells or not, in any order. */
  lemma {:induction false} WriteOnceSurvivesCrashes(codec: Codec, n: Names, clock: Option<int>, states: seq<Objects>,
                                                    runs: seq<Run>, ofSnapshots: string -> Bytes,
                                                    ofAssets: string -> Bytes, i: nat)
    requires RoundTrips(codec) && Named(n) && IsHistory(codec, n, clock, states, runs) && i <= |runs|
    requires TrueWorld(codec, n, states[0], ofSnapshots, ofAssets)
    requires forall j :: 0 <= j < |runs| ==> OnceWritten(n, runs[j], ofSnapshots, ofAssets)
    ensures TrueWorld(codec, n, states[i], ofSnapshots, ofAssets) && ChainTrue(codec, n, states[i])
  {
    hide TrueWorld, ChainTrue, Leaves, Tells, OnceWritten, Regular, Named, RoundTrips;
    if i > 0 {
      WriteOnceSurvivesCrashes(codec, n, clock, states, runs, ofSnapshots, ofAssets, i - 1);
      if Tells(states[i - 1], runs[i - 1]) {
        CompletionKeepsTrueWorld(codec, n, clock, states[i - 1], runs[i - 1], states[i], ofSnapshots, ofAssets);
      } else {
        CrashKeepsTrueWorld(codec, n, clock, states[i - 1], runs[i - 1], states[i], ofSnapshots, ofAssets);
      }
    }
    TrueWorldIsTrueChain(codec, n, states[i], ofSnapshots, ofAssets);
  }
}
