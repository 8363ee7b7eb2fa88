/**
 * scripts/backup-run.ts: the incremental mirror of the object buckets and its chain of dated
 * manifests. An object is copied again unless the size agrees and the last manifest knows its
 * sha; what that rule is worth under changing sources, failures and crashes is settled here.
 */
module Mirror {
  import opened Text
  import opened ObjectStore

  const MIRROR_PREFIX := "storage/"
  const MANIFEST_PREFIX := "storage/manifest-"

  /** `sha256` is None in a dry run and in manifests older than the hash. */
  datatype Entry = Entry(key: string, size: nat, sha256: Option<string>)

  datatype MirrorResult = MirrorResult(
    bucket: string, copied: nat, skipped: nat, failed: seq<string>, entries: seq<Entry>)

  datatype Manifest = Manifest(takenAt: string, buckets: map<string, seq<Entry>>, pgBackupKey: Option<string>)

  /** How the target answered a put: it may also have written and then failed to say so. */
  datatype Answer = Acknowledged | Lost | Unacknowledged

  /** One listed key with what the source, which others keep changing, said of it when asked. */
  datatype Sighting = Sighting(key: string, head: Option<nat>, body: Option<Bytes>, answer: Answer)

  function MirrorKeyOf(bucket: string, key: string): string {
    MIRROR_PREFIX + bucket + "/" + key
  }

  lemma MirrorKeysDiffer(b: string, k: string, c: string, l: string)
    requires '/' !in b && '/' !in c
    ensures MirrorKeyOf(b, k) == MirrorKeyOf(c, l) <==> b == c && k == l
  {
    var x, y := MirrorKeyOf(b, k), MirrorKeyOf(c, l);
    var n := |MIRROR_PREFIX|;
    assert forall i :: 0 <= i < |b| ==> x[n + i] == b[i] && b[i] in b;
    assert forall i :: 0 <= i < |c| ==> y[n + i] == c[i] && c[i] in c;
    assert x[n + |b|] == '/' && y[n + |c|] == '/';
    assert x[n + |b| + 1..] == k && y[n + |c| + 1..] == l;
    assert x[n..n + |b|] == b && y[n..n + |c|] == c;
  }

  // ----- one bucket -----

  /** What a run of mirrorBucket is given. */
  datatype Job = Job(
    sha: Bytes -> string, bucket: string, dryRun: bool, previous: map<string, Entry>, clock: Option<int>)

  datatype Progress = Progress(objects: Objects, result: MirrorResult)

  predicate Skips(job: Job, objects: Objects, key: string, size: nat) {
    var m := MirrorKeyOf(job.bucket, key);
    m in objects && |objects[m].bytes| == size && key in job.previous
    && job.previous[key].sha256.Some? && job.previous[key].size == size
  }

  function Fail(p: Progress, key: string): Progress {
    p.(result := p.result.(failed := p.result.failed + [key]))
  }

  function Record(p: Progress, e: Entry, copied: bool): Progress {
    var r := p.result;
    p.(result := r.(copied := if copied then r.copied + 1 else r.copied,
                    skipped := if copied then r.skipped else r.skipped + 1,
                    entries := r.entries + [e]))
  }

  function Visit(job: Job, p: Progress, s: Sighting): Progress {
    if s.head == None then p
    else
      var size := s.head.value;
      var m := MirrorKeyOf(job.bucket, s.key);
      if Skips(job, p.objects, s.key, size) then
        Record(p, Entry(s.key, size, job.previous[s.key].sha256), false)
      else if job.dryRun then Record(p, Entry(s.key, size, None), true)
      else if s.body == None || s.answer == Lost || |s.body.value| != size then Fail(p, s.key)
      else
        var stored := p.(objects := p.objects[m := Object(s.body.value, job.clock)]);
        if s.answer == Unacknowledged then Fail(stored, s.key)
        else Record(stored, Entry(s.key, size, Some(job.sha(s.body.value))), true)
  }

  function VisitAll(job: Job, objects: Objects, seen: seq<Sighting>): Progress {
    if seen == [] then Progress(objects, MirrorResult(job.bucket, 0, 0, [], []))
    else Visit(job, VisitAll(job, objects, seen[..|seen| - 1]), seen[|seen| - 1])
  }

  method MirrorBucket(seen: seq<Sighting>, target: Store, bucketName: string, dryRun: bool,
                      previous: map<string, Entry>, sha: Bytes -> string)
    returns (result: MirrorResult)
    modifies target
    ensures target.clock == old(target.clock)
    ensures Progress(target.objects, result)
         == VisitAll(Job(sha, bucketName, dryRun, previous, target.clock), old(target.objects), seen)
  {
    ghost var job := Job(sha, bucketName, dryRun, previous, target.clock);
    result := MirrorResult(bucketName, 0, 0, [], []);
    for i := 0 to |seen|
      invariant target.clock == old(target.clock)
      invariant Progress(target.objects, result) == VisitAll(job, old(target.objects), seen[..i])
    {
      var s := seen[i];
      assert seen[..i + 1][..i] == seen[..i];
      if s.head == None {
        continue;
      }
      var size := s.head.value;
      var mirrorKey := MirrorKeyOf(bucketName, s.key);
      var existing := target.HeadObject(mirrorKey);
      if existing.Some? && existing.value.size == size && s.key in previous
         && previous[s.key].sha256.Some? && previous[s.key].size == size {
        result := result.(skipped := result.skipped + 1,
                          entries := result.entries + [Entry(s.key, size, previous[s.key].sha256)]);
        continue;
      }
      if dryRun {
        result := result.(copied := result.copied + 1, entries := result.entries + [Entry(s.key, size, None)]);
        continue;
      }
      if s.body == None {
        result := result.(failed := result.failed + [s.key]);
        continue;
      }
      var stored := false;
      if s.answer != Lost {
        stored := target.PutObject(mirrorKey, s.body.value, size);
      }
      if !stored || s.answer == Unacknowledged {
        result := result.(failed := result.failed + [s.key]);
        continue;
      }
      var check := target.HeadObject(mirrorKey);
      if check == None || check.value.size != size {
        result := result.(failed := result.failed + [s.key]);
        continue;
      }
      result := result.(copied := result.copied + 1,
                        entries := result.entries + [Entry(s.key, size, Some(sha(s.body.value)))]);
    }
    assert seen[..|seen|] == seen;
  }

  // ----- what an entry is worth -----

  /** The mirror holds bytes of this size and hash. */
  ghost predicate Backed(sha: Bytes -> string, objects: Objects, bucket: string, e: Entry) {
    e.sha256.Some? ==>
      var m := MirrorKeyOf(bucket, e.key);
      m in objects && |objects[m].bytes| == e.size && sha(objects[m].bytes) == e.sha256.value
  }

  /** Backed, or so visibly not that the skip rule cannot take the entry up. */
  ghost predicate HalfBacked(sha: Bytes -> string, objects: Objects, bucket: string, e: Entry) {
    var m := MirrorKeyOf(bucket, e.key);
    Backed(sha, objects, bucket, e) || (m in objects ==> |objects[m].bytes| != e.size)
  }

  /** A listing yields a key once. */
  ghost predicate Distinct(seen: seq<Sighting>) {
    forall i, j :: 0 <= i < j < |seen| ==> seen[i].key != seen[j].key
  }

  ghost predicate KeyOf(seen: seq<Sighting>, key: string) {
    exists i :: 0 <= i < |seen| && seen[i].key == key
  }

  ghost predicate Keyed(previous: map<string, Entry>) {
    forall k :: k in previous ==> previous[k].key == k
  }

  /** Only the mirror keys of sighted keys are written. */
  lemma {:induction false} OnlySightedChange(job: Job, objects: Objects, seen: seq<Sighting>, name: string)
    requires forall i :: 0 <= i < |seen| ==> MirrorKeyOf(job.bucket, seen[i].key) != name
    ensures var o := VisitAll(job, objects, seen).objects;
            (name in o <==> name in objects) && (name in o ==> o[name] == objects[name])
  {
    if seen != [] {
      OnlySightedChange(job, objects, seen[..|seen| - 1], name);
    }
  }

  lemma LastIsNew(seen: seq<Sighting>, bucket: string)
    requires Distinct(seen) && seen != [] && '/' !in bucket
    ensures Distinct(seen[..|seen| - 1]) && !KeyOf(seen[..|seen| - 1], seen[|seen| - 1].key)
    ensures forall i :: 0 <= i < |seen| - 1 ==>
              MirrorKeyOf(bucket, seen[i].key) != MirrorKeyOf(bucket, seen[|seen| - 1].key)
  {
    forall i | 0 <= i < |seen| - 1 {
      MirrorKeysDiffer(bucket, seen[i].key, bucket, seen[|seen| - 1].key);
    }
  }

  lemma KeysGoOn(seen: seq<Sighting>)
    requires seen != []
    ensures KeyOf(seen, seen[|seen| - 1].key)
    ensures forall k :: KeyOf(seen[..|seen| - 1], k) ==> KeyOf(seen, k)
  {
    forall k | KeyOf(seen[..|seen| - 1], k) ensures KeyOf(seen, k) {
      var i :| 0 <= i < |seen| - 1 && seen[..|seen| - 1][i].key == k;
      assert seen[i].key == k;
    }
  }

  lemma VisitKeepsOthersBacked(job: Job, p: Progress, s: Sighting, e: Entry)
    requires '/' !in job.bucket && Backed(job.sha, p.objects, job.bucket, e) && e.key != s.key
    ensures Backed(job.sha, Visit(job, p, s).objects, job.bucket, e)
  {
    MirrorKeysDiffer(job.bucket, e.key, job.bucket, s.key);
  }

  /** Every entry a run records is backed when the run ends, whatever the source did meanwhile. */
  lemma {:induction false} RecordedEntriesAreBacked(job: Job, objects: Objects, seen: seq<Sighting>)
    requires '/' !in job.bucket && Distinct(seen) && Keyed(job.previous)
    requires forall k :: k in job.previous ==> HalfBacked(job.sha, objects, job.bucket, job.previous[k])
    ensures var p := VisitAll(job, objects, seen);
            forall e :: e in p.result.entries ==>
              Backed(job.sha, p.objects, job.bucket, e) && KeyOf(seen, e.key)
  {
    if seen != [] {
      var init, s := seen[..|seen| - 1], seen[|seen| - 1];
      LastIsNew(seen, job.bucket);
      RecordedEntriesAreBacked(job, objects, init);
      var before, after := VisitAll(job, objects, init), VisitAll(job, objects, seen);
      OnlySightedChange(job, objects, init, MirrorKeyOf(job.bucket, s.key));
      forall e | e in after.result.entries
        ensures Backed(job.sha, after.objects, job.bucket, e) && KeyOf(seen, e.key)
      {
        if e in before.result.entries {
          var i :| 0 <= i < |init| && init[i].key == e.key;
          assert seen[i].key == e.key;
          VisitKeepsOthersBacked(job, before, s, e);
        } else {
          assert e.key == s.key == seen[|seen| - 1].key;
        }
      }
    }
  }

  /** A run cut short anywhere leaves a backed manifest half backed. */
  lemma {:induction false} CutRunLeavesHalfBacked(job: Job, objects: Objects, seen: seq<Sighting>, e: Entry)
    requires '/' !in job.bucket && Distinct(seen) && !job.dryRun
    requires Backed(job.sha, objects, job.bucket, e)
    requires e.sha256.Some? ==> e.key in job.previous && job.previous[e.key] == e
    ensures HalfBacked(job.sha, VisitAll(job, objects, seen).objects, job.bucket, e)
  {
    var m := MirrorKeyOf(job.bucket, e.key);
    if seen != [] {
      var init, s := seen[..|seen| - 1], seen[|seen| - 1];
      LastIsNew(seen, job.bucket);
      CutRunLeavesHalfBacked(job, objects, init, e);
      MirrorKeysDiffer(job.bucket, e.key, job.bucket, s.key);
      if s.key == e.key {
        OnlySightedChange(job, objects, init, m);
      }
    }
  }

  // ----- write-once sources -----

  /** Every sighting of a key shows the one content the key ever has. */
  ghost predicate WriteOnce(seen: seq<Sighting>, content: string -> Bytes) {
    forall i :: 0 <= i < |seen| ==>
      (seen[i].head.Some? ==> seen[i].head.value == |content(seen[i].key)|) &&
      (seen[i].body.Some? ==> seen[i].body.value == content(seen[i].key))
  }

  ghost predicate Holds(objects: Objects, bucket: string, content: string -> Bytes) {
    forall k :: MirrorKeyOf(bucket, k) in objects ==> objects[MirrorKeyOf(bucket, k)].bytes == content(k)
  }

  ghost predicate TrueEntry(sha: Bytes -> string, content: string -> Bytes, e: Entry) {
    e.size == |content(e.key)| && (e.sha256.Some? ==> e.sha256.value == sha(content(e.key)))
  }

  lemma {:induction false} WriteOnceStaysTrue(job: Job, objects: Objects, seen: seq<Sighting>, content: string -> Bytes)
    requires '/' !in job.bucket && WriteOnce(seen, content) && Keyed(job.previous)
    requires Holds(objects, job.bucket, content)
    requires forall k :: k in job.previous ==> TrueEntry(job.sha, content, job.previous[k])
    ensures var p := VisitAll(job, objects, seen);
            Holds(p.objects, job.bucket, content) &&
            (forall name :: name in objects ==> name in p.objects) &&
            forall e :: e in p.result.entries ==>
              TrueEntry(job.sha, content, e) && (e.sha256.Some? ==> MirrorKeyOf(job.bucket, e.key) in p.objects)
  {
    if seen != [] {
      var init, s := seen[..|seen| - 1], seen[|seen| - 1];
      assert WriteOnce(init, content);
      WriteOnceStaysTrue(job, objects, init, content);
      var before, after := VisitAll(job, objects, init), VisitAll(job, objects, seen);
      forall k | MirrorKeyOf(job.bucket, k) in after.objects
        ensures after.objects[MirrorKeyOf(job.bucket, k)].bytes == content(k)
      {
        MirrorKeysAreOneToOne(job.bucket, k, s.key);
      }
    }
  }

  lemma MirrorKeysAreOneToOne(bucket: string, k: string, l: string)
    ensures MirrorKeyOf(bucket, k) == MirrorKeyOf(bucket, l) ==> k == l
  {
    var n := |MIRROR_PREFIX + bucket + "/"|;
    assert MirrorKeyOf(bucket, k)[n..] == k && MirrorKeyOf(bucket, l)[n..] == l;
  }

}
