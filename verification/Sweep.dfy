/**
 * scripts/sweep-orphans-core.ts and scripts/sweep-orphans.ts: the orphan sweep over one
 * bucket, and over both. Only the plan's orphans reach the store's delete.
 */
module Sweep {
  import opened Text
  import opened ObjectStore

  datatype Orphan = Orphan(key: string, ageHours: real, bytes: nat)

  datatype Plan = Plan(
    bucket: string,
    referenced: nat,
    tooYoung: seq<string>,
    unknownAge: seq<string>,
    orphans: seq<Orphan>)

  function AgeHours(now: int, modified: int): real {
    (now - modified) as real / 3_600_000.0
  }

  /** What one run of the sweep reads: the bucket, the keys rows name, the clock, the grace period. */
  datatype View = View(objects: Objects, refs: set<string>, now: int, minAgeHours: real)

  datatype Fate = Referenced | Vanished | UnknownAge | TooYoung | Orphaned

  function FateOf(v: View, key: string): Fate {
    if key in v.refs then Referenced
    else if key !in v.objects then Vanished
    else
      match v.objects[key].modified
      case None => UnknownAge
      case Some(at) => if AgeHours(v.now, at) < v.minAgeHours then TooYoung else Orphaned
  }

  /** The listed keys of one fate, in order and with repetition. */
  function Having(v: View, listing: seq<string>, fate: Fate): (keys: seq<string>)
    ensures forall k :: k in keys <==> k in listing && FateOf(v, k) == fate
  {
    if listing == [] then []
    else
      var last := listing[|listing| - 1];
      Having(v, listing[..|listing| - 1], fate) + (if FateOf(v, last) == fate then [last] else [])
  }

  function Keys(orphans: seq<Orphan>): (keys: seq<string>)
    ensures |keys| == |orphans| && forall i :: 0 <= i < |keys| ==> keys[i] == orphans[i].key
  {
    seq(|orphans|, i requires 0 <= i < |orphans| => orphans[i].key)
  }

  /** The orphan as the operator reads it: its true age and size. */
  ghost predicate Measured(v: View, o: Orphan) {
    o.key in v.objects && v.objects[o.key].modified.Some?
    && o.ageHours == AgeHours(v.now, v.objects[o.key].modified.value)
    && o.bytes == |v.objects[o.key].bytes|
  }

  ghost predicate Faithful(plan: Plan, v: View, listing: seq<string>) {
    && plan.referenced == |Having(v, listing, Referenced)|
    && plan.tooYoung == Having(v, listing, TooYoung)
    && plan.unknownAge == Having(v, listing, UnknownAge)
    && Keys(plan.orphans) == Having(v, listing, Orphaned)
    && forall o :: o in plan.orphans ==> Measured(v, o)
  }

  ghost function OrphanOf(v: View, key: string): (o: Orphan)
    requires FateOf(v, key) == Orphaned
    ensures o.key == key && Measured(v, o)
  {
    Orphan(key, AgeHours(v.now, v.objects[key].modified.value), |v.objects[key].bytes|)
  }

  /** The plan once `key` is sorted in. */
  ghost function Sorted(plan: Plan, v: View, key: string): Plan {
    match FateOf(v, key)
    case Referenced => plan.(referenced := plan.referenced + 1)
    case Vanished => plan
    case UnknownAge => plan.(unknownAge := plan.unknownAge + [key])
    case TooYoung => plan.(tooYoung := plan.tooYoung + [key])
    case Orphaned => plan.(orphans := plan.orphans + [OrphanOf(v, key)])
  }

  lemma EmptyPlanIsFaithful(bucket: string, v: View)
    ensures Faithful(Plan(bucket, 0, [], [], []), v, [])
  {}

  lemma FaithfulOneMore(plan: Plan, v: View, listing: seq<string>, key: string)
    requires Faithful(plan, v, listing)
    ensures Faithful(Sorted(plan, v, key), v, listing + [key])
  {}

  /**
   * Sorts what the listing yields into referenced, too young, of unknown age and orphaned;
   * a key that vanished since it was listed is in none of them. Deletes nothing.
   */
  method PlanSweep(store: Store, bucket: string, listing: seq<string>, referencedKeys: set<string>,
                   now: int, minAgeHours: real)
    returns (plan: Plan)
    ensures plan.bucket == bucket
    ensures Faithful(plan, View(store.objects, referencedKeys, now, minAgeHours), listing)
  {
    hide Faithful, Having;
    ghost var v := View(store.objects, referencedKeys, now, minAgeHours);
    plan := Plan(bucket, 0, [], [], []);
    EmptyPlanIsFaithful(bucket, v);
    for i := 0 to |listing|
      invariant plan.bucket == bucket
      invariant Faithful(plan, v, listing[..i])
    {
      var key := listing[i];
      assert listing[..i + 1] == listing[..i] + [key];
      FaithfulOneMore(plan, v, listing[..i], key);
      if key in referencedKeys {
        plan := plan.(referenced := plan.referenced + 1);
        continue;
      }
      var head := store.HeadObject(key);
      if head == None {
        continue;
      }
      if head.value.modified == None {
        plan := plan.(unknownAge := plan.unknownAge + [key]);
        continue;
      }
      var ageHours := AgeHours(now, head.value.modified.value);
      if ageHours < minAgeHours {
        plan := plan.(tooYoung := plan.tooYoung + [key]);
        continue;
      }
      plan := plan.(orphans := plan.orphans + [Orphan(key, ageHours, head.value.size)]);
    }
    assert listing[..|listing|] == listing;
  }

  function KeySet(orphans: seq<Orphan>): set<string> {
    set o | o in orphans :: o.key
  }

  /** The only deletion path; it sees nothing but the plan's orphans. */
  method DeleteOrphans(store: Store, plan: Plan) returns (removed: seq<string>)
    modifies store
    ensures removed == Keys(plan.orphans)
    ensures store.objects == old(store.objects) - KeySet(plan.orphans)
    ensures store.clock == old(store.clock)
  {
    removed := [];
    for i := 0 to |plan.orphans|
      invariant removed == Keys(plan.orphans[..i])
      invariant store.objects == old(store.objects) - KeySet(plan.orphans[..i])
      invariant store.clock == old(store.clock)
    {
      var key := plan.orphans[i].key;
      assert plan.orphans[..i + 1] == plan.orphans[..i] + [plan.orphans[i]];
      assert KeySet(plan.orphans[..i + 1]) == KeySet(plan.orphans[..i]) + {key};
      store.DeleteObject(key);
      removed := removed + [key];
    }
    assert plan.orphans[..|plan.orphans|] == plan.orphans;
  }

  /**
   * A plan in terms of the guards: what is referenced is only counted; of the rest, what is still there lands
   * by its date, none, too recent, or old enough, and what has vanished lands nowhere.
   */
  lemma PlanByGuards(plan: Plan, v: View, listing: seq<string>)
    requires Faithful(plan, v, listing)
    ensures plan.referenced == |set i | 0 <= i < |listing| && listing[i] in v.refs|
    ensures forall k :: k in plan.unknownAge <==>
              k in listing && k !in v.refs && k in v.objects && v.objects[k].modified.None?
    ensures forall k :: k in plan.tooYoung <==>
              k in listing && k !in v.refs && k in v.objects && v.objects[k].modified.Some?
              && (v.now - v.objects[k].modified.value) as real < v.minAgeHours * 3_600_000.0
    ensures forall o :: o in plan.orphans ==>
              o.key in v.objects && v.objects[o.key].modified.Some? && o.bytes == |v.objects[o.key].bytes|
              && o.ageHours * 3_600_000.0 == (v.now - v.objects[o.key].modified.value) as real
    ensures forall k :: k in Keys(plan.orphans) <==>
              k in listing && k !in v.refs && k in v.objects && v.objects[k].modified.Some?
              && (v.now - v.objects[k].modified.value) as real >= v.minAgeHours * 3_600_000.0
  {
    ReferencedCounted(v, listing);
    hide Having, Keys;
  }

  lemma {:induction false} ReferencedCounted(v: View, listing: seq<string>)
    ensures |Having(v, listing, Referenced)| == |set i | 0 <= i < |listing| && listing[i] in v.refs|
  {
    if listing != [] {
      var n := |listing| - 1;
      ReferencedCounted(v, listing[..n]);
      PlacesOneMore(v.refs, listing);
    }
  }

  lemma PlacesOneMore(refs: set<string>, listing: seq<string>)
    requires listing != []
    ensures var n := |listing| - 1;
            |set i | 0 <= i < |listing| && listing[i] in refs|
            == |set i | 0 <= i < n && listing[..n][i] in refs| + if listing[n] in refs then 1 else 0
  {
    var n := |listing| - 1;
    var before := set i | 0 <= i < n && listing[..n][i] in refs;
    assert (set i | 0 <= i < |listing| && listing[i] in refs) == before + if listing[n] in refs then {n} else {};
  }

  /** The bucket after a sweep whose listing saw everything. */
  ghost function Swept(v: View): Objects {
    v.objects - set k | k in v.objects && FateOf(v, k) == Orphaned
  }

  ghost predicate Covers(listing: seq<string>, objects: Objects) {
    forall k :: k in objects ==> k in listing
  }

  lemma FaithfulPlanSweeps(plan: Plan, v: View, listing: seq<string>)
    requires Faithful(plan, v, listing) && Covers(listing, v.objects)
    ensures v.objects - KeySet(plan.orphans) == Swept(v)
  {}

  /**
   * The run over both buckets: rows already read, clock already read. Without `--delete` the
   * same plans are made and nothing changes; with it exactly the orphans go.
   */
  method SweepBuckets(assets: Store, snapshots: Store, assetListing: seq<string>, snapshotListing: seq<string>,
                      assetKeys: set<string>, snapshotKeys: set<string>,
                      now: int, minAgeHours: real, doDelete: bool)
    returns (plans: seq<Plan>)
    requires assets != snapshots
    requires Covers(assetListing, assets.objects) && Covers(snapshotListing, snapshots.objects)
    modifies assets, snapshots
    ensures |plans| == 2
    ensures var a := View(old(assets.objects), assetKeys, now, minAgeHours);
            var s := View(old(snapshots.objects), snapshotKeys, now, minAgeHours);
            Faithful(plans[0], a, assetListing) && Faithful(plans[1], s, snapshotListing) &&
            assets.objects == (if doDelete then Swept(a) else a.objects) &&
            snapshots.objects == (if doDelete then Swept(s) else s.objects)
  {
    hide Faithful, Swept;
    var first := PlanSweep(assets, "assets", assetListing, assetKeys, now, minAgeHours);
    if doDelete {
      FaithfulPlanSweeps(first, View(assets.objects, assetKeys, now, minAgeHours), assetListing);
      var _ := DeleteOrphans(assets, first);
    }
    var second := PlanSweep(snapshots, "snapshots", snapshotListing, snapshotKeys, now, minAgeHours);
    if doDelete {
      FaithfulPlanSweeps(second, View(snapshots.objects, snapshotKeys, now, minAgeHours), snapshotListing);
      var _ := DeleteOrphans(snapshots, second);
    }
    plans := [first, second];
  }

  /** The guards: exactly what a sweep leaves, and that it leaves it untouched. */
  lemma SweepLeaves(v: View, key: string)
    requires key in v.objects
    ensures key in Swept(v)
            <==> key in v.refs || v.objects[key].modified.None?
                 || (v.now - v.objects[key].modified.value) as real < v.minAgeHours * 3_600_000.0
    ensures key in Swept(v) ==> Swept(v)[key] == v.objects[key]
  {}
}
