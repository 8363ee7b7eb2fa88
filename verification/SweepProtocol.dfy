/**
 * scripts/sweep-orphans.ts: any number of sweeps running while users upload, commit, trash and
 * purge. Time is explicit: what keeps a live blob from being deleted is the grace period, and
 * how long it must be is settled exactly.
 */
module SweepProtocol {
  import opened Text
  import ObjectStore
  import Sweep

  datatype Bucket = Assets | Snapshots
  datatype Key = Key(bucket: Bucket, name: string)

  /** Whether a key is ever put a second time: never, not while a sweep has it condemned, or at any time. */
  datatype Rewrites = Never | Uncondemned | Anytime

  /**
   * `late`: a row first naming a blob is committed less than this many milliseconds after the
   * blob was last written. `gap`: the sweep's clock is read at most this long after its rows.
   * `skew`: how far that clock may be from the store's. `rewrites`: which second puts there are.
   * `sparesPicks`: whatever takes a row away or repoints it leaves a ready one for each key that a
   * deduplicating commit has picked.
   */
  datatype Params = Params(
    late: int, gap: int, skew: int, minAgeHours: real, rewrites: Rewrites, sparesPicks: bool)

  predicate Sensible(p: Params) {
    p.late >= 1 && p.gap >= 0 && p.skew >= 0
  }

  /**
   * A row of `files` or `board_snapshots`. A trashed one, by its own date or its board's, is still a
   * row; one that is not ready announces an upload. Either kind may be pointed at another blob: the
   * commit's update looks at the row's id alone.
   */
  datatype Row = Row(key: Key, trashed: bool, ready: bool)

  datatype Phase = RowsOfAssets | RowsOfBoth | Scanning(bucket: Bucket) | Deleting(bucket: Bucket)

  datatype Sweeper = Sweeper(
    phase: Phase,
    refs: map<Bucket, set<Key>>,
    readAt: map<Bucket, int>,
    now: int,
    doomed: set<Key>)

  /**
   * `objects` holds each blob's lastModified as the store tells it, `written` the true time of the
   * last put. `picks`: keys that deduplicating commits have read and not yet written to their row.
   * `lost`: deleted by a sweep and not put again since.
   */
  datatype State = State(
    time: int,
    objects: map<Key, Option<int>>,
    written: map<Key, int>,
    rows: map<nat, Row>,
    picks: map<nat, Key>,
    sweepers: map<nat, Sweeper>,
    lost: set<Key>)

  datatype Step =
    | Tick(until: int)
    | Upload(key: Key, dated: bool)
    | Discard(key: Key)
    | Commit(id: nat, key: Key, ready: bool)
    | Pick(who: nat, key: Key)
    | CommitPick(who: nat, id: nat)
    | SetTrashed(id: nat, trashed: bool)
    | Remove(ids: set<nat>)
    | ReadAssetRows(who: nat)
    | ReadSnapshotRows(who: nat)
    | ReadClock(who: nat, now: int)
    | Examine(who: nat, key: Key)
    | EndScan(who: nat)
    | Delete(who: nat, key: Key)
    | EndDelete(who: nat)
    | Crash(who: nat)

  ghost predicate Named(s: State, key: Key) {
    exists id :: id in s.rows && s.rows[id].key == key
  }

  ghost predicate NamedReady(s: State, key: Key) {
    exists id :: id in s.rows && s.rows[id].key == key && s.rows[id].ready
  }

  /**
   * A row may come to name a blob before the blob is written (the upload is announced first),
   * within `late` of its last writing, or while a row names it.
   */
  ghost predicate MayCommit(p: Params, s: State, key: Key) {
    key !in s.written || s.time < s.written[key] + p.late || Named(s, key)
  }

  /** What the picks stand on. */
  ghost predicate PicksNamed(s: State) {
    forall r :: r in s.picks ==> NamedReady(s, s.picks[r])
  }

  ghost predicate Spares(p: Params, t: State) {
    p.sparesPicks ==> PicksNamed(t)
  }

  ghost predicate Condemned(s: State, key: Key) {
    exists i :: i in s.sweepers && key in s.sweepers[i].doomed
  }

  ghost predicate MayPut(p: Params, s: State, key: Key) {
    key !in s.written || p.rewrites.Anytime? || (p.rewrites.Uncondemned? && !Condemned(s, key))
  }

  /** A purge takes trashed rows; the compactor forgets the rows of snapshots it replaced. */
  ghost predicate MayRemove(s: State, ids: set<nat>) {
    forall id :: id in ids && id in s.rows ==> s.rows[id].trashed || s.rows[id].key.bucket == Snapshots
  }

  ghost function KeysIn(s: State, bucket: Bucket): set<Key> {
    set id | id in s.rows && s.rows[id].key.bucket == bucket :: s.rows[id].key
  }

  /** planSweep's verdict on a listed key. */
  ghost predicate Condemns(p: Params, w: Sweeper, objects: map<Key, Option<int>>, key: Key) {
    key.bucket in w.refs && key !in w.refs[key.bucket] && key in objects && objects[key].Some?
    && !(Sweep.AgeHours(w.now, objects[key].value) < p.minAgeHours)
  }

  /** One bucket as a sweep here sees it, in the terms of the code's own plan. */
  ghost function ViewOf(p: Params, w: Sweeper, objects: map<Key, Option<int>>, b: Bucket): Sweep.View
    requires b in w.refs
  {
    Sweep.View(map k | k in objects && k.bucket == b :: k.name := ObjectStore.Object([], objects[k]),
               set k | k in w.refs[b] && k.bucket == b :: k.name, w.now, p.minAgeHours)
  }

  /** The steps condemn a key exactly where the code's plan calls it an orphan. */
  lemma CondemnsIsFate(p: Params, w: Sweeper, objects: map<Key, Option<int>>, key: Key)
    requires key.bucket in w.refs
    ensures Condemns(p, w, objects, key)
            <==> Sweep.FateOf(ViewOf(p, w, objects, key.bucket), key.name) == Sweep.Orphaned
  {
    var v := ViewOf(p, w, objects, key.bucket);
    assert forall k: Key :: k.bucket == key.bucket && k.name == key.name ==> k == key;
    assert key in objects ==> key.name in v.objects;
  }

  ghost predicate Next(p: Params, s: State, step: Step, t: State) {
    match step
    case Tick(until) => s.time <= until && t == s.(time := until)
    case Upload(k, dated) =>
      MayPut(p, s, k) &&
      t == s.(objects := s.objects[k := if dated then Some(s.time) else None],
              written := s.written[k := s.time], lost := s.lost - {k})
    case Discard(k) => t == s.(objects := s.objects - {k})
    case Commit(id, k, ready) =>
      MayCommit(p, s, k) && t == s.(rows := s.rows[id := Row(k, false, ready)]) && Spares(p, t)
    case Pick(r, k) =>
      r !in s.picks && k.bucket == Assets && NamedReady(s, k) && t == s.(picks := s.picks[r := k])
    case CommitPick(r, id) =>
      r in s.picks &&
      t == s.(rows := s.rows[id := Row(s.picks[r], false, true)], picks := s.picks - {r}) && Spares(p, t)
    case SetTrashed(id, b) => id in s.rows && t == s.(rows := s.rows[id := s.rows[id].(trashed := b)])
    case Remove(ids) => MayRemove(s, ids) && t == s.(rows := s.rows - ids) && Spares(p, t)
    case ReadAssetRows(i) =>
      i !in s.sweepers &&
      t == s.(sweepers := s.sweepers[i :=
        Sweeper(RowsOfAssets, map[Assets := KeysIn(s, Assets)], map[Assets := s.time], 0, {})])
    case ReadSnapshotRows(i) =>
      i in s.sweepers && s.sweepers[i].phase == RowsOfAssets &&
      var w := s.sweepers[i];
      t == s.(sweepers := s.sweepers[i :=
        w.(phase := RowsOfBoth, refs := w.refs[Snapshots := KeysIn(s, Snapshots)],
           readAt := w.readAt[Snapshots := s.time])])
    case ReadClock(i, now) =>
      i in s.sweepers && s.sweepers[i].phase == RowsOfBoth &&
      var w := s.sweepers[i];
      Assets in w.readAt && s.time - w.readAt[Assets] <= p.gap &&
      s.time - p.skew <= now <= s.time + p.skew &&
      t == s.(sweepers := s.sweepers[i := w.(phase := Scanning(Assets), now := now)])
    case Examine(i, k) =>
      i in s.sweepers && s.sweepers[i].phase == Scanning(k.bucket) &&
      var w := s.sweepers[i];
      t == if Condemns(p, w, s.objects, k)
           then s.(sweepers := s.sweepers[i := w.(doomed := w.doomed + {k})]) else s
    case EndScan(i) =>
      i in s.sweepers && s.sweepers[i].phase.Scanning? &&
      var w := s.sweepers[i];
      t == s.(sweepers := s.sweepers[i := w.(phase := Deleting(w.phase.bucket))])
    case Delete(i, k) =>
      i in s.sweepers && s.sweepers[i].phase == Deleting(k.bucket) && k in s.sweepers[i].doomed &&
      var w := s.sweepers[i];
      t == s.(objects := s.objects - {k}, lost := s.lost + {k},
              sweepers := s.sweepers[i := w.(doomed := w.doomed - {k})])
    case EndDelete(i) =>
      i in s.sweepers && s.sweepers[i].phase.Deleting? &&
      var w := s.sweepers[i];
      t == s.(sweepers := if w.phase.bucket == Assets
                          then s.sweepers[i := w.(phase := Scanning(Snapshots), doomed := {})]
                          else s.sweepers - {i})
    case Crash(i) => t == s.(sweepers := s.sweepers - {i})
  }

  /** A sweep starts on any world whose dates are true; nothing is assumed of its rows. */
  ghost predicate Dated(s: State) {
    && (forall k :: k in s.objects ==> k in s.written)
    && (forall k :: k in s.objects && s.objects[k].Some? ==> s.objects[k].value == s.written[k])
    && (forall k :: k in s.written ==> s.written[k] <= s.time)
  }

  ghost predicate Init(s: State) {
    Dated(s) && s.picks == map[] && s.sweepers == map[] && s.lost == {}
  }

  ghost predicate CanStep(p: Params, s: State, t: State) {
    exists step :: Next(p, s, step, t)
  }

  ghost predicate IsRun(p: Params, run: seq<State>) {
    run != [] && Init(run[0]) &&
    forall i :: 0 <= i < |run| - 1 ==> CanStep(p, run[i], run[i + 1])
  }

  /** At no point of the run does a row name a blob that a sweep deleted and nobody put again. */
  ghost predicate Safe(run: seq<State>) {
    forall j, k :: 0 <= j < |run| && k in run[j].lost ==> !Named(run[j], k)
  }

  /** The grace period outlasts the latest commit, the reading of rows and the clocks' difference. */
  ghost predicate GraceSuffices(p: Params) {
    p.minAgeHours * 3_600_000.0 > (p.late + p.gap + p.skew - 1) as real
  }

  ghost predicate Suffices(p: Params) {
    GraceSuffices(p) && !p.rewrites.Anytime? && p.sparesPicks
  }

  // ----- safety -----

  /** Its time to get a first row is over and it has none: it never will have. */
  ghost predicate Settled(p: Params, s: State, k: Key) {
    k in s.written && s.written[k] + p.late <= s.time && !Named(s, k)
  }

  /** Too old to get a first row when the sweep read the rows, and in none of them. */
  ghost predicate MissedBy(p: Params, s: State, w: Sweeper, k: Key) {
    k in s.written && k.bucket in w.refs && k.bucket in w.readAt && k !in w.refs[k.bucket]
    && s.written[k] + p.late <= w.readAt[k.bucket]
  }

  ghost predicate SweeperOk(p: Params, s: State, w: Sweeper) {
    && (forall b :: b in w.refs <==> b in w.readAt)
    && Assets in w.readAt && (w.phase != RowsOfAssets ==> Snapshots in w.readAt)
    && (Snapshots in w.readAt ==> w.readAt[Assets] <= w.readAt[Snapshots])
    && (forall b :: b in w.readAt ==> w.readAt[b] <= s.time)
    && (forall k :: MissedBy(p, s, w, k) ==> !Named(s, k))
    && (w.phase.Scanning? || w.phase.Deleting? ==> w.now <= w.readAt[Assets] + p.gap + p.skew)
    && (forall k :: k in w.doomed ==> Settled(p, s, k))
  }

  ghost predicate Inv(p: Params, s: State) {
    && Dated(s)
    && (forall i :: i in s.sweepers ==> SweeperOk(p, s, s.sweepers[i]))
    && (forall k :: k in s.lost ==> Settled(p, s, k))
    && PicksNamed(s)
  }

  ghost predicate ChangesWorldOnly(step: Step) {
    || step.Tick? || step.Upload? || step.Discard? || step.Commit? || step.Pick? || step.CommitPick?
    || step.SetTrashed? || step.Remove?
  }

  lemma PicksStayNamed(p: Params, s: State, step: Step, t: State)
    requires p.sparesPicks && PicksNamed(s) && Next(p, s, step, t) && ChangesWorldOnly(step)
    ensures PicksNamed(t)
  {
    hide MayCommit, MayPut, KeysIn, Condemns, Condemned;
    forall r | r in t.picks ensures NamedReady(t, t.picks[r]) {
      if !(step.Commit? || step.CommitPick? || step.Remove?) {
        var id :| id in s.rows && s.rows[id].key == t.picks[r] && s.rows[id].ready;
        assert id in t.rows && t.rows[id].key == t.picks[r] && t.rows[id].ready;
      }
    }
  }

  lemma SettledStays(p: Params, s: State, step: Step, t: State, k: Key)
    requires Sensible(p) && Next(p, s, step, t) && ChangesWorldOnly(step) && PicksNamed(s) && Settled(p, s, k)
    requires step.Upload? ==> step.key != k
    ensures Settled(p, t, k)
  {
    hide MayPut, MayRemove, KeysIn, Condemns;
    forall id | id in t.rows ensures t.rows[id].key != k {
      assert id in s.rows ==> s.rows[id].key != k;
    }
  }

  /** What users and the purge do leaves every sweep's reading of the rows good. */
  lemma WorldKeepsSweeperOk(p: Params, s: State, step: Step, t: State, i: nat)
    requires Sensible(p) && Suffices(p) && Next(p, s, step, t) && ChangesWorldOnly(step)
    requires Dated(s) && PicksNamed(s) && i in s.sweepers && SweeperOk(p, s, s.sweepers[i])
    ensures SweeperOk(p, t, s.sweepers[i])
  {
    hide MayCommit, MayRemove, KeysIn, Condemns, Named;
    var w := s.sweepers[i];
    forall k | k in w.doomed ensures Settled(p, t, k) {
      assert Condemned(s, k);
      SettledStays(p, s, step, t, k);
    }
    forall k | MissedBy(p, t, w, k) ensures !Named(t, k) {
      assert MissedBy(p, s, w, k);
      SettledStays(p, s, step, t, k);
    }
  }

  lemma CondemnedIsSettled(p: Params, s: State, w: Sweeper, k: Key)
    requires Sensible(p) && GraceSuffices(p) && Dated(s) && SweeperOk(p, s, w)
    requires w.phase.Scanning? && Condemns(p, w, s.objects, k)
    ensures Settled(p, s, k)
  {
    var at := s.objects[k].value;
    AgeIsLongEnough(p, w.now - at);
    assert k.bucket == Assets || k.bucket == Snapshots;
    assert MissedBy(p, s, w, k);
  }

  lemma AgeIsLongEnough(p: Params, age: int)
    requires GraceSuffices(p) && !(Sweep.AgeHours(age, 0) < p.minAgeHours)
    ensures age >= p.late + p.gap + p.skew
  {
    assert age as real >= p.minAgeHours * 3_600_000.0;
  }

  lemma FreshRowsAreGood(s: State, b: Bucket)
    ensures forall k: Key :: k.bucket == b && k !in KeysIn(s, b) ==> !Named(s, k)
  {}

  /** Only sweeper `i` changed, to one that is good. */
  lemma ReplacingSweeperKeepsInv(p: Params, s: State, i: nat, w: Sweeper, t: State)
    requires Inv(p, s) && SweeperOk(p, s, w) && t == s.(sweepers := s.sweepers[i := w])
    ensures Inv(p, t)
  {
    hide Settled, MissedBy;
    forall k ensures Settled(p, t, k) == Settled(p, s, k) { SameRowsSameSettled(p, s, t, k); }
    forall j | j in t.sweepers ensures SweeperOk(p, t, t.sweepers[j]) {
      var v := t.sweepers[j];
      assert SweeperOk(p, s, v);
      forall k ensures MissedBy(p, t, v, k) == MissedBy(p, s, v, k) { SameMissed(p, s, t, v, k); }
      forall k ensures Named(t, k) == Named(s, k) { SameRowsSameSettled(p, s, t, k); }
    }
  }

  lemma SameRowsSameSettled(p: Params, s: State, t: State, k: Key)
    requires t.rows == s.rows && t.written == s.written && t.time == s.time
    ensures Settled(p, t, k) == Settled(p, s, k) && Named(t, k) == Named(s, k)
  {}

  lemma SameMissed(p: Params, s: State, t: State, w: Sweeper, k: Key)
    requires t.written == s.written
    ensures MissedBy(p, t, w, k) == MissedBy(p, s, w, k)
  {}

  lemma ReadAssetRowsKeepsInv(p: Params, s: State, step: Step, t: State)
    requires Sensible(p) && Inv(p, s) && Next(p, s, step, t) && step.ReadAssetRows?
    ensures Inv(p, t)
  {
    FreshRowsAreGood(s, Assets);
    ReplacingSweeperKeepsInv(p, s, step.who, t.sweepers[step.who], t);
  }

  lemma ReadSnapshotRowsKeepsInv(p: Params, s: State, step: Step, t: State)
    requires Sensible(p) && Inv(p, s) && Next(p, s, step, t) && step.ReadSnapshotRows?
    ensures Inv(p, t)
  {
    var v, w := s.sweepers[step.who], t.sweepers[step.who];
    assert SweeperOk(p, s, v);
    FreshRowsAreGood(s, Snapshots);
    assert SweeperOk(p, s, w) by {
      hide Settled, Named;
      forall k | MissedBy(p, s, w, k) ensures !Named(s, k) {
        if k.bucket == Assets { assert MissedBy(p, s, v, k); }
      }
    }
    ReplacingSweeperKeepsInv(p, s, step.who, w, t);
  }

  lemma ReadClockKeepsInv(p: Params, s: State, step: Step, t: State)
    requires Sensible(p) && Inv(p, s) && Next(p, s, step, t) && step.ReadClock?
    ensures Inv(p, t)
  {
    var v, w := s.sweepers[step.who], t.sweepers[step.who];
    assert SweeperOk(p, s, v);
    assert SweeperOk(p, s, w) by {
      hide Settled, Named;
      forall k | MissedBy(p, s, w, k) ensures !Named(s, k) { assert MissedBy(p, s, v, k); }
    }
    ReplacingSweeperKeepsInv(p, s, step.who, w, t);
  }

  lemma ScanningKeepsInv(p: Params, s: State, step: Step, t: State)
    requires Sensible(p) && GraceSuffices(p) && Inv(p, s) && Next(p, s, step, t)
    requires step.Examine? || step.EndScan?
    ensures Inv(p, t)
  {
    var i := step.who;
    var v, w := s.sweepers[i], t.sweepers[i];
    assert SweeperOk(p, s, v);
    if step.Examine? && Condemns(p, v, s.objects, step.key) {
      CondemnedIsSettled(p, s, v, step.key);
    }
    if t != s {
      assert SweeperOk(p, s, w) by {
        forall k | MissedBy(p, s, w, k) ensures !Named(s, k) { assert MissedBy(p, s, v, k); }
      }
      ReplacingSweeperKeepsInv(p, s, i, w, t);
    }
  }

  lemma SweeperLooksAtRowsOnly(p: Params, s: State, t: State, w: Sweeper)
    requires t.rows == s.rows && t.written == s.written && t.time == s.time && SweeperOk(p, s, w)
    ensures SweeperOk(p, t, w)
  {
    hide Settled, MissedBy;
    forall k ensures Settled(p, t, k) == Settled(p, s, k) && Named(t, k) == Named(s, k) {
      SameRowsSameSettled(p, s, t, k);
    }
    forall k ensures MissedBy(p, t, w, k) == MissedBy(p, s, w, k) { SameMissed(p, s, t, w, k); }
  }

  /** Nothing changed but objects going, sweeps moving on and settled keys being lost. */
  lemma LossKeepsInv(p: Params, s: State, t: State)
    requires Inv(p, s) && t == s.(objects := t.objects, sweepers := t.sweepers, lost := t.lost)
    requires forall k :: k in t.objects ==> k in s.objects && t.objects[k] == s.objects[k]
    requires forall i :: i in t.sweepers ==> SweeperOk(p, s, t.sweepers[i])
    requires forall k :: k in t.lost ==> Settled(p, s, k)
    ensures Inv(p, t)
  {
    hide SweeperOk, Settled;
    forall i | i in t.sweepers ensures SweeperOk(p, t, t.sweepers[i]) {
      SweeperLooksAtRowsOnly(p, s, t, t.sweepers[i]);
    }
    forall k ensures Settled(p, t, k) == Settled(p, s, k) { SameRowsSameSettled(p, s, t, k); }
  }

  lemma DeleteKeepsInv(p: Params, s: State, step: Step, t: State)
    requires Inv(p, s) && Next(p, s, step, t) && step.Delete?
    ensures Inv(p, t)
  {
    hide MayCommit, MayPut, MayRemove, KeysIn, Condemns, Settled, Dated, NamedReady;
    var v := s.sweepers[step.who];
    assert SweeperOk(p, s, v);
    assert Settled(p, s, step.key);
    FewerDoomed(p, s, v, t.sweepers[step.who]);
    hide SweeperOk;
    LossKeepsInv(p, s, t);
  }

  lemma DeletingKeepsInv(p: Params, s: State, step: Step, t: State)
    requires Inv(p, s) && Next(p, s, step, t)
    requires step.Delete? || step.EndDelete? || step.Crash?
    ensures Inv(p, t)
  {
    hide MayCommit, MayPut, MayRemove, KeysIn, Condemns, Settled, SweeperOk, Dated, NamedReady;
    if step.Delete? {
      DeleteKeepsInv(p, s, step, t);
    } else {
      if step.who in t.sweepers {
        FewerDoomed(p, s, s.sweepers[step.who], t.sweepers[step.who]);
      }
      LossKeepsInv(p, s, t);
    }
  }

  /** A sweeper that has deleted, or goes on to the second bucket. */
  lemma FewerDoomed(p: Params, s: State, v: Sweeper, w: Sweeper)
    requires SweeperOk(p, s, v) && v.phase.Deleting? && (w.phase == v.phase || w.phase == Scanning(Snapshots))
    requires w == v.(phase := w.phase, doomed := w.doomed) && w.doomed <= v.doomed
    ensures SweeperOk(p, s, w)
  {
    hide Settled, Named;
    forall k | MissedBy(p, s, w, k) ensures !Named(s, k) { assert MissedBy(p, s, v, k); }
  }

  lemma WorldLeavesSweepers(p: Params, s: State, step: Step, t: State)
    requires Next(p, s, step, t) && ChangesWorldOnly(step)
    ensures t.sweepers == s.sweepers && t.lost <= s.lost && (step.Upload? ==> step.key !in t.lost)
    ensures Dated(s) ==> Dated(t)
  {
    hide MayCommit, MayPut, MayRemove, NamedReady, Named, PicksNamed, Spares, KeysIn, Condemns;
  }

  lemma WorldKeepsInv(p: Params, s: State, step: Step, t: State)
    requires Sensible(p) && Suffices(p) && Inv(p, s) && Next(p, s, step, t) && ChangesWorldOnly(step)
    ensures Inv(p, t)
  {
    hide SweeperOk, Settled, NamedReady, Named, PicksNamed, Next, Dated;
    PicksStayNamed(p, s, step, t);
    WorldLeavesSweepers(p, s, step, t);
    forall i | i in t.sweepers ensures SweeperOk(p, t, t.sweepers[i]) {
      WorldKeepsSweeperOk(p, s, step, t, i);
    }
    forall k | k in t.lost ensures Settled(p, t, k) {
      SettledStays(p, s, step, t, k);
    }
  }

  lemma StepKeepsInv(p: Params, s: State, step: Step, t: State)
    requires Sensible(p) && Suffices(p) && Inv(p, s) && Next(p, s, step, t)
    ensures Inv(p, t)
  {
    if ChangesWorldOnly(step) {
      WorldKeepsInv(p, s, step, t);
    } else if step.Delete? || step.EndDelete? || step.Crash? {
      DeletingKeepsInv(p, s, step, t);
    } else if step.Examine? || step.EndScan? {
      ScanningKeepsInv(p, s, step, t);
    } else if step.ReadAssetRows? {
      ReadAssetRowsKeepsInv(p, s, step, t);
    } else if step.ReadSnapshotRows? {
      ReadSnapshotRowsKeepsInv(p, s, step, t);
    } else {
      ReadClockKeepsInv(p, s, step, t);
    }
  }

  lemma {:induction false} RunKeepsInv(p: Params, run: seq<State>, j: nat)
    requires Sensible(p) && Suffices(p) && IsRun(p, run) && j < |run|
    ensures Inv(p, run[j])
  {
    hide Next, Suffices, SweeperOk, Settled;
    if j > 0 {
      RunKeepsInv(p, run, j - 1);
      assert CanStep(p, run[j - 1], run[j]);
      var step :| Next(p, run[j - 1], step, run[j]);
      StepKeepsInv(p, run[j - 1], step, run[j]);
    }
  }

  /** Over every interleaving: no row ever names a blob that a sweep deleted. */
  lemma SufficientGraceIsSafe(p: Params, run: seq<State>)
    requires Sensible(p) && Suffices(p) && IsRun(p, run)
    ensures Safe(run)
  {
    hide IsRun, Suffices, SweeperOk, Named;
    forall j, k | 0 <= j < |run| && k in run[j].lost ensures !Named(run[j], k) {
      RunKeepsInv(p, run, j);
      assert Settled(p, run[j], k);
    }
  }

  // ----- necessity: three ways to lose a live blob -----

  /** The sweep's part of all three runs: rows, rows, clock, one key, end of the scan, in one instant each. */
  function Reader(phase: Phase, at: int, now: int, refs: set<Key>, doomed: set<Key>): Sweeper {
    Sweeper(phase, map[Assets := refs, Snapshots := {}], map[Assets := at, Snapshots := at], now, doomed)
  }

  lemma AgeReached(p: Params, age: int)
    requires age as real >= p.minAgeHours * 3_600_000.0
    ensures !(Sweep.AgeHours(age, 0) < p.minAgeHours)
  {}

  /**
   * A short grace period: the rows are read one millisecond before the blob's row can last be
   * committed, the row is committed, and the blob is old enough.
   */
  function ShortGraceRun(p: Params): (r: seq<State>)
    ensures |r| == 11
  {
    var k, read := Key(Assets, "blob"), p.late - 1;
    var clock := read + p.gap + p.skew;
    var t0 := State(0, map[], map[], map[], map[], map[], {});
    var t1 := t0.(objects := map[k := Some(0)], written := map[k := 0]);
    var t2 := t1.(time := read);
    var t3 := t2.(sweepers := map[0 := Sweeper(RowsOfAssets, map[Assets := {}], map[Assets := read], 0, {})]);
    var t4 := t3.(sweepers := map[0 := Reader(RowsOfBoth, read, 0, {}, {})]);
    var t5 := t4.(rows := map[0 := Row(k, false, true)]);
    var t6 := t5.(time := read + p.gap);
    var t7 := t6.(sweepers := map[0 := Reader(Scanning(Assets), read, clock, {}, {})]);
    var t8 := t7.(sweepers := map[0 := Reader(Scanning(Assets), read, clock, {}, {k})]);
    var t9 := t8.(sweepers := map[0 := Reader(Deleting(Assets), read, clock, {}, {k})]);
    var t10 := t9.(objects := map[], lost := {k}, sweepers := map[0 := Reader(Deleting(Assets), read, clock, {}, {})]);
    [t0, t1, t2, t3, t4, t5, t6, t7, t8, t9, t10]
  }

  lemma ShortGraceUploads(p: Params)
    requires Sensible(p)
    ensures var r := ShortGraceRun(p); CanStep(p, r[0], r[1]) && CanStep(p, r[1], r[2])
  {
    var r, k := ShortGraceRun(p), Key(Assets, "blob");
    assert Next(p, r[0], Upload(k, true), r[1]);
    assert Next(p, r[1], Tick(p.late - 1), r[2]);
  }

  lemma ShortGraceReads(p: Params)
    requires Sensible(p)
    ensures var r := ShortGraceRun(p); CanStep(p, r[2], r[3]) && CanStep(p, r[3], r[4])
  {
    var r := ShortGraceRun(p);
    assert KeysIn(r[2], Assets) == {} && KeysIn(r[3], Snapshots) == {};
    assert Next(p, r[2], ReadAssetRows(0), r[3]);
    assert Next(p, r[3], ReadSnapshotRows(0), r[4]);
  }

  lemma ShortGraceCommits(p: Params)
    requires Sensible(p)
    ensures var r := ShortGraceRun(p); CanStep(p, r[4], r[5]) && CanStep(p, r[5], r[6])
  {
    var r, k := ShortGraceRun(p), Key(Assets, "blob");
    assert Next(p, r[4], Commit(0, k, true), r[5]);
    assert Next(p, r[5], Tick(p.late - 1 + p.gap), r[6]);
  }

  lemma ShortGraceCondemns(p: Params)
    requires Sensible(p) && !GraceSuffices(p)
    ensures var r := ShortGraceRun(p); CanStep(p, r[6], r[7]) && CanStep(p, r[7], r[8])
  {
    var r, k := ShortGraceRun(p), Key(Assets, "blob");
    assert Next(p, r[6], ReadClock(0, p.late - 1 + p.gap + p.skew), r[7]);
    AgeReached(p, p.late - 1 + p.gap + p.skew);
    var w := r[7].sweepers[0];
    assert w.refs[Assets] == {} && r[7].objects[k] == Some(0);
    assert Condemns(p, w, r[7].objects, k);
    assert w.doomed + {k} == {k};
    assert Next(p, r[7], Examine(0, k), r[8]);
  }

  lemma ShortGraceDeletes(p: Params)
    requires Sensible(p)
    ensures var r := ShortGraceRun(p); CanStep(p, r[8], r[9]) && CanStep(p, r[9], r[10])
  {
    var r, k := ShortGraceRun(p), Key(Assets, "blob");
    assert Next(p, r[8], EndScan(0), r[9]);
    assert r[9].sweepers[0].doomed - {k} == {};
    assert Next(p, r[9], Delete(0, k), r[10]);
  }

  lemma ShortGraceEnds(p: Params)
    ensures var r := ShortGraceRun(p); Init(r[0]) && !Safe(r)
  {
    var r, k := ShortGraceRun(p), Key(Assets, "blob");
    assert r[10].rows[0].key == k && Named(r[10], k) && k in r[10].lost;
  }

  lemma ShortGraceIsUnsafe(p: Params)
    requires Sensible(p) && !GraceSuffices(p)
    ensures IsRun(p, ShortGraceRun(p)) && !Safe(ShortGraceRun(p))
  {
    hide ShortGraceRun, CanStep, Init, Safe, GraceSuffices;
    ShortGraceEnds(p);
    ShortGraceUploads(p);
    ShortGraceReads(p);
    ShortGraceCommits(p);
    ShortGraceCondemns(p);
    ShortGraceDeletes(p);
  }

  /** A time at which a blob written at 0 is past any grace period. */
  function Late(p: Params): (at: int)
    requires p.skew >= 0
    ensures at >= 0 && at as real >= p.minAgeHours * 3_600_000.0
  {
    var x := (p.minAgeHours * 3_600_000.0).Floor + 1;
    if x < 0 then 0 else x
  }

  /**
   * A second put: a snapshot whose compaction died before its row was recorded is condemned, put again
   * under the same key, recorded, and then deleted by the sweep that had condemned it.
   */
  function RewriteRun(p: Params): (r: seq<State>)
    requires Sensible(p)
    ensures |r| == 11
  {
    var k, at := Key(Snapshots, "board/000000000007.ybin"), Late(p);
    var t0 := State(at, map[k := Some(0)], map[k := 0], map[], map[], map[], {});
    var t1 := t0.(sweepers := map[0 := Sweeper(RowsOfAssets, map[Assets := {}], map[Assets := at], 0, {})]);
    var t2 := t0.(sweepers := map[0 := Reader(RowsOfBoth, at, 0, {}, {})]);
    var t3 := t0.(sweepers := map[0 := Reader(Scanning(Assets), at, at, {}, {})]);
    var t4 := t0.(sweepers := map[0 := Reader(Deleting(Assets), at, at, {}, {})]);
    var t5 := t0.(sweepers := map[0 := Reader(Scanning(Snapshots), at, at, {}, {})]);
    var t6 := t0.(sweepers := map[0 := Reader(Scanning(Snapshots), at, at, {}, {k})]);
    var t7 := t0.(sweepers := map[0 := Reader(Deleting(Snapshots), at, at, {}, {k})]);
    var t8 := t7.(objects := map[k := Some(at)], written := map[k := at]);
    var t9 := t8.(rows := map[0 := Row(k, false, true)]);
    var t10 := t9.(objects := map[], lost := {k}, sweepers := map[0 := Reader(Deleting(Snapshots), at, at, {}, {})]);
    [t0, t1, t2, t3, t4, t5, t6, t7, t8, t9, t10]
  }

  lemma RewriteReadsAssets(p: Params)
    requires Sensible(p)
    ensures var r := RewriteRun(p); CanStep(p, r[0], r[1])
  {
    hide MayCommit, MayPut, MayRemove, Condemns, Spares, Late;
    var r := RewriteRun(p);
    assert KeysIn(r[0], Assets) == {};
    assert Next(p, r[0], ReadAssetRows(0), r[1]);
  }

  lemma RewriteReadsSnapshots(p: Params)
    requires Sensible(p)
    ensures var r := RewriteRun(p); CanStep(p, r[1], r[2])
  {
    hide MayCommit, MayPut, MayRemove, Condemns, Spares, Late;
    var r := RewriteRun(p);
    assert KeysIn(r[1], Snapshots) == {};
    assert Next(p, r[1], ReadSnapshotRows(0), r[2]);
  }

  lemma RewriteScans(p: Params)
    requires Sensible(p)
    ensures var r := RewriteRun(p); CanStep(p, r[2], r[3])
  {
    hide MayCommit, MayPut, MayRemove, KeysIn, Condemns, Spares, Late;
    var r := RewriteRun(p);
    assert Next(p, r[2], ReadClock(0, Late(p)), r[3]);
  }

  lemma RewriteMovesOn(p: Params)
    requires Sensible(p)
    ensures var r := RewriteRun(p); CanStep(p, r[4], r[5])
  {
    hide MayCommit, MayPut, MayRemove, KeysIn, Condemns, Spares, NamedReady, Late;
    var r := RewriteRun(p);
    assert Next(p, r[4], EndDelete(0), r[5]);
  }

  lemma RewriteEndsScans(p: Params)
    requires Sensible(p)
    ensures var r := RewriteRun(p); CanStep(p, r[3], r[4]) && CanStep(p, r[6], r[7])
  {
    hide MayCommit, MayPut, MayRemove, KeysIn, Condemns, Spares, NamedReady, Late;
    var r := RewriteRun(p);
    assert Next(p, r[3], EndScan(0), r[4]);
    assert Next(p, r[6], EndScan(0), r[7]);
  }

  lemma RewriteCondemns(p: Params)
    requires Sensible(p)
    ensures var r := RewriteRun(p); CanStep(p, r[5], r[6])
  {
    hide MayCommit, MayPut, MayRemove, KeysIn, Spares, Late;
    var r, k := RewriteRun(p), Key(Snapshots, "board/000000000007.ybin");
    AgeReached(p, Late(p));
    var w := r[5].sweepers[0];
    assert w.refs[Snapshots] == {} && r[5].objects[k] == Some(0);
    assert Condemns(p, w, r[5].objects, k);
    assert w.doomed + {k} == {k};
    assert Next(p, r[5], Examine(0, k), r[6]);
  }

  lemma RewriteRewrites(p: Params)
    requires Sensible(p) && p.rewrites.Anytime?
    ensures var r := RewriteRun(p); CanStep(p, r[7], r[8]) && CanStep(p, r[8], r[9])
  {
    hide MayRemove, KeysIn, Condemns;
    var r, k := RewriteRun(p), Key(Snapshots, "board/000000000007.ybin");
    assert r[7].lost - {k} == {};
    assert Next(p, r[7], Upload(k, true), r[8]);
    assert Next(p, r[8], Commit(0, k, true), r[9]);
  }

  lemma RewriteDeletes(p: Params)
    requires Sensible(p)
    ensures var r := RewriteRun(p); CanStep(p, r[9], r[10])
  {
    hide MayCommit, MayPut, MayRemove, KeysIn, Condemns, Spares, Late;
    var r, k := RewriteRun(p), Key(Snapshots, "board/000000000007.ybin");
    assert r[9].sweepers[0].doomed - {k} == {};
    assert Next(p, r[9], Delete(0, k), r[10]);
  }

  lemma RewriteEnds(p: Params)
    requires Sensible(p)
    ensures var r := RewriteRun(p); Init(r[0]) && !Safe(r)
  {
    var r, k := RewriteRun(p), Key(Snapshots, "board/000000000007.ybin");
    assert r[10].rows[0].key == k && Named(r[10], k) && k in r[10].lost;
  }

  /** Whatever the grace period: keys put again at any time are lost. */
  lemma RewritesAreUnsafe(p: Params)
    requires Sensible(p) && p.rewrites.Anytime?
    ensures IsRun(p, RewriteRun(p)) && !Safe(RewriteRun(p))
  {
    hide RewriteRun, CanStep, Init, Safe;
    RewriteEnds(p);
    RewriteReadsAssets(p);
    RewriteReadsSnapshots(p);
    RewriteScans(p);
    RewriteMovesOn(p);
    RewriteEndsScans(p);
    RewriteCondemns(p);
    RewriteRewrites(p);
    RewriteDeletes(p);
  }

  /**
   * Deduplication in two statements: a commit picks the blob of a ready file whose board is in the
   * trash, the purge takes that file, the sweep its blob, and the commit points its own row there.
   */
  function PickRun(p: Params): (r: seq<State>)
    requires Sensible(p)
    ensures |r| == 10
  {
    var k, c, at := Key(Assets, "blob"), Key(Assets, "copy"), Late(p);
    var rows := map[0 := Row(k, true, true), 1 := Row(c, false, false)];
    var left := map[1 := Row(c, false, false)];
    var t0 := State(at, map[k := Some(0)], map[k := 0], rows, map[], map[], {});
    var t1 := t0.(picks := map[5 := k]);
    var t2 := t1.(rows := left);
    var t3 := t2.(sweepers := map[0 := Sweeper(RowsOfAssets, map[Assets := {c}], map[Assets := at], 0, {})]);
    var t4 := t2.(sweepers := map[0 := Reader(RowsOfBoth, at, 0, {c}, {})]);
    var t5 := t2.(sweepers := map[0 := Reader(Scanning(Assets), at, at, {c}, {})]);
    var t6 := t2.(sweepers := map[0 := Reader(Scanning(Assets), at, at, {c}, {k})]);
    var t7 := t2.(sweepers := map[0 := Reader(Deleting(Assets), at, at, {c}, {k})]);
    var t8 := t2.(objects := map[], lost := {k}, sweepers := map[0 := Reader(Deleting(Assets), at, at, {c}, {})]);
    var t9 := t8.(rows := map[1 := Row(k, false, true)], picks := map[]);
    [t0, t1, t2, t3, t4, t5, t6, t7, t8, t9]
  }

  lemma PickPicks(p: Params)
    requires Sensible(p) && !p.sparesPicks
    ensures var r := PickRun(p); CanStep(p, r[0], r[1]) && CanStep(p, r[1], r[2])
  {
    hide MayCommit, MayPut, KeysIn, Condemns, PicksNamed, Late;
    var r, k := PickRun(p), Key(Assets, "blob");
    assert r[0].rows[0].ready && NamedReady(r[0], k);
    assert Next(p, r[0], Pick(5, k), r[1]);
    assert r[1].rows - {0} == r[2].rows;
    assert Next(p, r[1], Remove({0}), r[2]);
  }

  lemma PickReadsAssets(p: Params)
    requires Sensible(p)
    ensures var r := PickRun(p); CanStep(p, r[2], r[3])
  {
    hide MayCommit, MayPut, MayRemove, Condemns, Spares, NamedReady, Late;
    var r, c := PickRun(p), Key(Assets, "copy");
    assert r[2].rows[1].key == c;
    assert KeysIn(r[2], Assets) == {c};
    assert Next(p, r[2], ReadAssetRows(0), r[3]);
  }

  lemma PickReadsSnapshots(p: Params)
    requires Sensible(p)
    ensures var r := PickRun(p); CanStep(p, r[3], r[4])
  {
    hide MayCommit, MayPut, MayRemove, Condemns, Spares, NamedReady, Late;
    var r := PickRun(p);
    assert KeysIn(r[3], Snapshots) == {};
    assert Next(p, r[3], ReadSnapshotRows(0), r[4]);
  }

  lemma PickReadsClock(p: Params)
    requires Sensible(p)
    ensures var r := PickRun(p); CanStep(p, r[4], r[5])
  {
    hide MayCommit, MayPut, MayRemove, KeysIn, Condemns, Late;
    var r := PickRun(p);
    assert Next(p, r[4], ReadClock(0, Late(p)), r[5]);
  }

  lemma PickCondemns(p: Params)
    requires Sensible(p)
    ensures var r := PickRun(p); CanStep(p, r[5], r[6])
  {
    hide MayCommit, MayPut, MayRemove, KeysIn, Late, Spares, NamedReady;
    var r, k := PickRun(p), Key(Assets, "blob");
    AgeReached(p, Late(p));
    var w := r[5].sweepers[0];
    assert k !in w.refs[Assets] && r[5].objects[k] == Some(0);
    assert Condemns(p, w, r[5].objects, k);
    hide Condemns;
    assert w.doomed + {k} == {k};
    assert Next(p, r[5], Examine(0, k), r[6]);
  }

  lemma PickEndsScan(p: Params)
    requires Sensible(p)
    ensures var r := PickRun(p); CanStep(p, r[6], r[7])
  {
    hide MayCommit, MayPut, MayRemove, KeysIn, Late, Condemns, Spares, NamedReady;
    var r := PickRun(p);
    assert Next(p, r[6], EndScan(0), r[7]);
  }

  lemma PickDeletes(p: Params)
    requires Sensible(p)
    ensures var r := PickRun(p); CanStep(p, r[7], r[8])
  {
    hide MayCommit, MayPut, MayRemove, KeysIn, Condemns, Spares, NamedReady, Late;
    var r, k := PickRun(p), Key(Assets, "blob");
    assert r[7].sweepers[0].doomed - {k} == {};
    assert Next(p, r[7], Delete(0, k), r[8]);
  }

  lemma PickCommits(p: Params)
    requires Sensible(p)
    ensures var r := PickRun(p); CanStep(p, r[8], r[9])
  {
    hide MayCommit, MayPut, MayRemove, KeysIn, Condemns, NamedReady, Late;
    var r := PickRun(p);
    assert r[8].picks - {5} == map[];
    assert Next(p, r[8], CommitPick(5, 1), r[9]);
  }

  lemma PickEnds(p: Params)
    requires Sensible(p)
    ensures var r := PickRun(p); Init(r[0]) && !Safe(r)
  {
    var r, k := PickRun(p), Key(Assets, "blob");
    assert r[9].rows[1].key == k && Named(r[9], k) && k in r[9].lost;
  }

  /** Whatever the grace period: a picked blob whose last row is purged before the commit is lost. */
  lemma UnsparedPicksAreUnsafe(p: Params)
    requires Sensible(p) && !p.sparesPicks
    ensures IsRun(p, PickRun(p)) && !Safe(PickRun(p))
  {
    hide PickRun, CanStep, Init, Safe;
    PickEnds(p);
    PickPicks(p);
    PickReadsAssets(p);
    PickReadsSnapshots(p);
    PickReadsClock(p);
    PickCondemns(p);
    PickEndsScan(p);
    PickDeletes(p);
    PickCommits(p);
  }

  /**
   * Exactly when every interleaving is safe: the grace period outlasts the latest commit, the reading
   * and the clock difference; no key is put again while a sweep has it condemned; and neither a purge
   * nor another commit takes the last ready row of a blob that a deduplicating commit is about to name.
   */
  lemma SafeExactlyWithEnoughGrace(p: Params)
    requires Sensible(p)
    ensures (forall run :: IsRun(p, run) ==> Safe(run))
            <==> GraceSuffices(p) && !p.rewrites.Anytime? && p.sparesPicks
  {
    hide IsRun, Safe, GraceSuffices, Sensible;
    if Suffices(p) {
      forall run | IsRun(p, run) ensures Safe(run) { SufficientGraceIsSafe(p, run); }
    } else if p.rewrites.Anytime? {
      RewritesAreUnsafe(p);
    } else if !p.sparesPicks {
      UnsparedPicksAreUnsafe(p);
    } else {
      ShortGraceIsUnsafe(p);
    }
  }
}
