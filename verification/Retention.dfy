/**
 * scripts/backup-common.ts, `pruneList`, and the writing and pruning end of `runDbBackup` in
 * scripts/backup-run.ts: which database backups are left in the bucket.
 */
module Retention {
  import opened Text
  import opened ObjectStore
  import opened Stamps

  const PREFIX := "pg/"

  /** `k.replace(/\.(dump|json)$/, "")`. */
  function Stem(key: string): string {
    if EndsWith(key, ".dump") || EndsWith(key, ".json") then key[..|key| - 5] else key
  }

  lemma StemOfEither(stem: string)
    ensures Stem(stem + ".dump") == stem && Stem(stem + ".json") == stem
  {}

  // ----- the list of what goes -----

  function InsertOnce(x: string, xs: seq<string>): (r: seq<string>)
    requires StrictlySorted(xs)
    ensures StrictlySorted(r)
    ensures forall y :: y in r <==> y == x || y in xs
  {
    hide Less;
    if xs == [] then [x]
    else if x == xs[0] then xs
    else if Less(x, xs[0]) then
      assert forall i :: 0 <= i < |xs| ==> Less(x, xs[i]) by { BelowAll(x, xs); }
      [x] + xs
    else
      var rest := InsertOnce(x, xs[1..]);
      assert forall y :: y in rest ==> Less(xs[0], y) by { AboveHead(x, xs); }
      assert forall i :: 0 <= i < |rest| ==> rest[i] in rest;
      assert xs == [xs[0]] + xs[1..];
      [xs[0]] + rest
  }

  lemma BelowAll(x: string, xs: seq<string>)
    requires StrictlySorted(xs) && xs != [] && Less(x, xs[0])
    ensures forall i :: 0 <= i < |xs| ==> Less(x, xs[i])
  {
    forall i | 0 <= i < |xs| ensures Less(x, xs[i]) {
      if i > 0 { LessTransitive(x, xs[0], xs[i]); }
    }
  }

  lemma AboveHead(x: string, xs: seq<string>)
    requires StrictlySorted(xs) && xs != [] && x != xs[0] && !Less(x, xs[0])
    ensures forall y :: y == x || y in xs[1..] ==> Less(xs[0], y)
  {
    hide Less;
    LessTotal(x, xs[0]);
  }

  /** `[...new Set(keys.map(stem))].sort()`. */
  function Stems(keys: seq<string>): (r: seq<string>)
    ensures StrictlySorted(r)
    ensures forall s :: s in r <==> exists k :: k in keys && Stem(k) == s
  {
    hide Stem, StrictlySorted;
    if keys == [] then
      assert StrictlySorted([]) by { EmptySorted(); }
      []
    else
      assert keys == [keys[0]] + keys[1..];
      InsertOnce(Stem(keys[0]), Stems(keys[1..]))
  }

  lemma EmptySorted()
    ensures StrictlySorted([])
  {}

  function Min(a: int, b: int): int { if a < b then a else b }

  function Max(a: int, b: int): int { if a < b then b else a }

  function DoomedStems(keys: seq<string>, keep: int, protectStem: string): (r: seq<string>)
  {
    var stems := Stems(keys);
    Where(stems[..Min(|stems|, Max(0, |stems| - keep))], s => s != protectStem)
  }

  function Where(xs: seq<string>, ok: string -> bool): (r: seq<string>)
    ensures forall x :: x in r <==> x in xs && ok(x)
  {
    if xs == [] then []
    else
      assert xs == [xs[0]] + xs[1..];
      (if ok(xs[0]) then [xs[0]] else []) + Where(xs[1..], ok)
  }

  function PruneList(keys: seq<string>, keep: int, protectStem: string): seq<string> {
    var doomed := DoomedStems(keys, keep, protectStem);
    Where(keys, k => Stem(k) in doomed)
  }

  // ----- what that list means -----

  ghost function Newer(stems: set<string>, stem: string): set<string> {
    set t | t in stems && Less(stem, t)
  }

  ghost function StemSet(keys: set<string>): set<string> {
    set k | k in keys :: Stem(k)
  }

  ghost function SetOf(xs: seq<string>): set<string> {
    set x | x in xs
  }

  /** Too old to keep: not protected, and at least `keep` newer backups exist. */
  ghost predicate TooOld(stems: set<string>, keep: int, protectStem: string, stem: string) {
    stem != protectStem && |Newer(stems, stem)| >= keep
  }

  /** In a sorted list of stems the newer ones are those after it. */
  lemma {:induction false} Rank(xs: seq<string>, i: nat)
    requires StrictlySorted(xs) && i < |xs|
    ensures |Newer(SetOf(xs), xs[i])| == |xs| - 1 - i
    decreases |xs| - i
  {
    hide Less;
    forall j | 0 <= j <= i ensures !Less(xs[i], xs[j]) { LessTotal(xs[j], xs[i]); }
    if i == |xs| - 1 {
      assert Newer(SetOf(xs), xs[i]) == {};
    } else {
      Rank(xs, i + 1);
      NewerThanTheNext(xs, i);
      LessTotal(xs[i + 1], xs[i + 1]);
    }
  }

  lemma NewerThanTheNext(xs: seq<string>, i: nat)
    requires StrictlySorted(xs) && i + 1 < |xs|
    ensures Newer(SetOf(xs), xs[i]) == Newer(SetOf(xs), xs[i + 1]) + {xs[i + 1]}
  {
    hide Less;
    forall t ensures t in Newer(SetOf(xs), xs[i]) <==> t in Newer(SetOf(xs), xs[i + 1]) + {xs[i + 1]} {
      if t in xs {
        var j :| 0 <= j < |xs| && xs[j] == t;
        LessTotal(xs[i], t);
        LessTotal(xs[i + 1], t);
        SortedAt(xs, i, j);
        SortedAt(xs, i + 1, j);
      }
    }
  }

  lemma SortedAt(xs: seq<string>, i: nat, j: nat)
    requires StrictlySorted(xs) && i < |xs| && j < |xs|
    ensures Less(xs[i], xs[j]) <==> i < j
  {
    hide Less;
    LessTotal(xs[i], xs[j]);
  }

  lemma StemsAreTheSet(keys: seq<string>)
    ensures SetOf(Stems(keys)) == StemSet(SetOf(keys))
  {}

  /** Sorting and slicing pick exactly the unprotected stems with `keep` or more newer ones. */
  lemma DoomedMeaning(keys: seq<string>, keep: int, protectStem: string, stem: string)
    ensures stem in DoomedStems(keys, keep, protectStem)
            <==> stem in StemSet(SetOf(keys)) && TooOld(StemSet(SetOf(keys)), keep, protectStem, stem)
  {
    hide Stem, Less, Newer, StemSet, Stems, SetOf;
    StemsAreTheSet(keys);
    var stems := Stems(keys);
    var n := Min(|stems|, Max(0, |stems| - keep));
    InSet(stems, stem);
    if stem in stems {
      var i :| 0 <= i < |stems| && stems[i] == stem;
      Rank(stems, i);
      InFirst(stems, n, i);
      assert i < n <==> |stems| - 1 - i >= keep;
    } else {
      assert stem !in stems[..n];
    }
  }

  lemma InSet(xs: seq<string>, x: string)
    ensures x in SetOf(xs) <==> x in xs
  {}

  lemma InFirst(xs: seq<string>, n: nat, i: nat)
    requires StrictlySorted(xs) && n <= |xs| && i < |xs|
    ensures xs[i] in xs[..n] <==> i < n
  {
    hide Less;
    if i < n { assert xs[..n][i] == xs[i]; }
    if xs[i] in xs[..n] {
      var j :| 0 <= j < n && xs[..n][j] == xs[i];
      assert xs[j] == xs[i];
      SortedAt(xs, i, j);
      SortedAt(xs, j, i);
    }
  }

  ghost predicate Goes(keys: set<string>, keep: int, protectStem: string, key: string) {
    key in keys && TooOld(StemSet(keys), keep, protectStem, Stem(key))
  }

  lemma PruneMeaning(keys: seq<string>, keep: int, protectStem: string, key: string)
    ensures key in PruneList(keys, keep, protectStem) <==> Goes(SetOf(keys), keep, protectStem, key)
  {
    hide Stem, TooOld, DoomedStems;
    DoomedMeaning(keys, keep, protectStem, Stem(key));
    InSet(keys, key);
    if key in keys { assert Stem(key) in StemSet(SetOf(keys)); }
  }

  /** For any keys and any `keep`: a pair is kept or removed whole, and the new one is kept. */
  lemma PairsStayTogether(keys: seq<string>, keep: int, protectStem: string, stem: string)
    requires stem + ".dump" in keys && stem + ".json" in keys
    ensures stem + ".dump" in PruneList(keys, keep, protectStem)
            <==> stem + ".json" in PruneList(keys, keep, protectStem)
    ensures stem == protectStem ==> stem + ".dump" !in PruneList(keys, keep, protectStem)
  {}

  // ----- one backup run -----

  datatype Backup = Backup(stem: string, dump: Bytes, manifest: Bytes)

  /** How far a run got: to its end, no further than its dump, or into its prune with these keys gone. */
  datatype Cut = Whole | AfterDump | InPrune(gone: set<string>)

  /** A run that uploaded at least its dump. */
  datatype Attempt = Attempt(backup: Backup, cut: Cut)

  ghost function BackupKeys(objects: Objects): set<string> {
    set k | k in objects && StartsWith(k, PREFIX)
  }

  ghost function Written(objects: Objects, clock: Option<int>, a: Attempt): Objects {
    var b := a.backup;
    var dumped := objects[b.stem + ".dump" := Object(b.dump, clock)];
    if a.cut.AfterDump? then dumped else dumped[b.stem + ".json" := Object(b.manifest, clock)]
  }

  ghost function TooOldKeys(objects: Objects, keep: int, protectStem: string): set<string> {
    set k | k in objects && Goes(BackupKeys(objects), keep, protectStem, k)
  }

  /** What the attempt leaves; a prune that was cut short took some of what is too old. */
  ghost function AfterAttempt(objects: Objects, clock: Option<int>, a: Attempt, keep: Option<int>): Objects {
    var written := Written(objects, clock, a);
    if keep.None? then written
    else
      var tooOld := TooOldKeys(written, keep.value, a.backup.stem);
      match a.cut
      case Whole => written - tooOld
      case AfterDump => written
      case InPrune(gone) => written - (gone * tooOld)
  }

  function StemFor(database: string, stamp: string): string {
    PREFIX + database + "-" + stamp
  }

  /** Where the store fails, if anywhere; a put that is not acknowledged was stored all the same. */
  datatype Trouble =
    | Smooth
    | DumpRefused
    | DumpUnheard
    | ManifestRefused
    | ManifestUnheard
    | DeleteFails(after: nat)

  /**
   * Uploads the dump and its manifest, checks the upload, prunes. An empty dump uploads nothing, and an
   * error of the store ends the run where it is.
   */
  method RunDbBackup(store: Store, database: string, stamp: string, dump: Bytes, manifest: Bytes, keep: Option<int>,
                     trouble: Trouble)
    returns (ok: bool, ghost cut: Cut)
    modifies store
    ensures store.clock == old(store.clock)
    ensures ok ==> dump != [] && cut.Whole?
    ensures dump != [] && trouble.Smooth? ==> ok
    ensures ok ==> trouble.Smooth? || trouble.DeleteFails?
    ensures dump != [] && trouble.DeleteFails? ==>
              var stem := StemFor(database, stamp);
              var written := Written(old(store.objects), store.clock, Attempt(Backup(stem, dump, manifest), Whole));
              ok <==> keep.None? || |TooOldKeys(written, keep.value, stem)| <= trouble.after
    ensures trouble.DumpUnheard? || trouble.ManifestRefused? ==> cut.AfterDump?
    ensures trouble.ManifestUnheard? || trouble.DeleteFails? ==> !cut.AfterDump?
    ensures store.objects ==
            if dump == [] || trouble.DumpRefused? then old(store.objects)
            else AfterAttempt(old(store.objects), store.clock,
                              Attempt(Backup(StemFor(database, stamp), dump, manifest), cut), keep)
    ensures keep.None? ==>
              forall k :: k in old(store.objects) && k != "pg/" + database + "-" + stamp + ".dump"
                          && k != "pg/" + database + "-" + stamp + ".json" ==>
                k in store.objects && store.objects[k] == old(store.objects[k])
    ensures ok ==>
              var own := "pg/" + database + "-" + stamp;
              Has(store.objects, own + ".dump", dump) && Has(store.objects, own + ".json", manifest)
  {
    hide Goes, PruneList, StartsWith, Less;
    assert "pg/" + database + "-" + stamp == StemFor(database, stamp);
    ok, cut := false, if trouble.ManifestUnheard? then InPrune({}) else AfterDump;
    if |dump| == 0 || trouble.DumpRefused? {
      if trouble.DeleteFails? { cut := Whole; }
      return;
    }
    var stem := StemFor(database, stamp);
    DifferentKeys(stem);
    var _ := store.PutObject(stem + ".dump", dump, |dump|);
    if trouble.DumpUnheard? || trouble.ManifestRefused? {
      return;
    }
    var _ := store.PutObject(stem + ".json", manifest, |manifest|);
    if trouble.ManifestUnheard? {
      return;
    }
    var head := store.HeadObject(stem + ".dump");
    ok, cut := head.Some? && head.value.size == |dump|, Whole;
    if ok && keep.Some? {
      ghost var gone;
      ok, gone := PruneAfter(store, keep.value, stem, if trouble.DeleteFails? then Some(trouble.after) else None);
      if !ok { cut := InPrune(gone); }
    }
    OwnPairOutlasts(old(store.objects), store.clock, Attempt(Backup(stem, dump, manifest), Whole), keep);
  }

  /** A whole run's own pair is there when it ends, whatever it prunes. */
  lemma OwnPairOutlasts(objects: Objects, clock: Option<int>, a: Attempt, keep: Option<int>)
    requires a.cut.Whole?
    ensures var left := AfterAttempt(objects, clock, a, keep);
            Has(left, a.backup.stem + ".dump", a.backup.dump) && Has(left, a.backup.stem + ".json", a.backup.manifest)
  {
    hide Stem, StemSet, Newer;
    StemOfEither(a.backup.stem);
    DifferentKeys(a.backup.stem);
  }

  lemma DifferentKeys(stem: string)
    ensures stem + ".dump" != stem + ".json"
  {
    assert (stem + ".dump")[|stem| + 1] == 'd' && (stem + ".json")[|stem| + 1] == 'j';
  }

  /** Deletes what is too old, one key after the other, until a deletion fails. */
  method PruneAfter(store: Store, keep: int, protectStem: string, failsAfter: Option<nat>)
    returns (ok: bool, ghost gone: set<string>)
    modifies store
    ensures store.clock == old(store.clock)
    ensures ok <==> failsAfter.None? || |TooOldKeys(old(store.objects), keep, protectStem)| <= failsAfter.value
    ensures store.objects == old(store.objects) - (gone * TooOldKeys(old(store.objects), keep, protectStem))
    ensures ok ==> store.objects == old(store.objects) - TooOldKeys(old(store.objects), keep, protectStem)
  {
    hide Goes, PruneList, Less, StartsWith, TooOldKeys;
    ghost var before := store.objects;
    var existing := SortedListing(set k | k in store.objects && StartsWith(k, PREFIX));
    var doomed := PruneList(existing, keep, protectStem);
    DoomedAreTooOld(before, existing, keep, protectStem);
    var i := 0;
    while i < |doomed| && Some(i) != failsAfter
      invariant 0 <= i <= |doomed| && (failsAfter.Some? ==> i <= failsAfter.value)
      invariant store.clock == old(store.clock)
      invariant store.objects == before - SetOf(doomed[..i])
    {
      store.DeleteObject(doomed[i]);
      assert SetOf(doomed[..i + 1]) == SetOf(doomed[..i]) + {doomed[i]} by {
        assert doomed[..i + 1] == doomed[..i] + [doomed[i]];
      }
      i := i + 1;
    }
    PruneListOnce(existing, keep, protectStem);
    ok, gone := i == |doomed|, SetOf(doomed[..i]);
    assert gone <= SetOf(doomed) by { assert forall k :: k in doomed[..i] ==> k in doomed; }
    assert gone * SetOf(doomed) == gone;
    assert doomed[..|doomed|] == doomed;
  }

  /** A listing without repetition is pruned without repetition. */
  lemma PruneListOnce(keys: seq<string>, keep: int, protectStem: string)
    requires StrictlySorted(keys)
    ensures |SetOf(PruneList(keys, keep, protectStem))| == |PruneList(keys, keep, protectStem)|
  {
    hide Less, DoomedStems, Stem;
    forall i, j | 0 <= i < j < |keys| ensures keys[i] != keys[j] {
      LessTotal(keys[i], keys[j]);
    }
    var doomed := DoomedStems(keys, keep, protectStem);
    WhereOnce(keys, k => Stem(k) in doomed);
  }

  lemma {:induction false} WhereOnce(xs: seq<string>, ok: string -> bool)
    requires forall i, j :: 0 <= i < j < |xs| ==> xs[i] != xs[j]
    ensures |SetOf(Where(xs, ok))| == |Where(xs, ok)|
  {
    if xs != [] {
      var rest := Where(xs[1..], ok);
      WhereOnce(xs[1..], ok);
      assert xs[0] !in xs[1..];
      hide SetOf;
      OneMoreOnce(xs[0], rest);
      assert [] + rest == rest;
    }
  }

  lemma OneMoreOnce(x: string, rest: seq<string>)
    requires x !in rest && |SetOf(rest)| == |rest|
    ensures |SetOf([x] + rest)| == |rest| + 1
  {
    assert SetOf([x] + rest) == {x} + SetOf(rest);
  }

  lemma DoomedAreTooOld(objects: Objects, existing: seq<string>, keep: int, protectStem: string)
    requires forall k :: k in existing <==> k in objects && StartsWith(k, PREFIX)
    ensures SetOf(PruneList(existing, keep, protectStem)) == TooOldKeys(objects, keep, protectStem)
  {
    hide PruneList, StartsWith, TooOld, StemSet;
    assert SetOf(existing) == BackupKeys(objects);
    forall k ensures k in SetOf(PruneList(existing, keep, protectStem))
      <==> k in TooOldKeys(objects, keep, protectStem) {
      PruneMeaning(existing, keep, protectStem, k);
      InSet(PruneList(existing, keep, protectStem), k);
    }
  }

  lemma NewerGrows(small: set<string>, large: set<string>, stem: string)
    requires small <= large
    ensures |Newer(small, stem)| <= |Newer(large, stem)|
  {
    hide Less;
    SubsetSize(Newer(small, stem), Newer(large, stem));
  }

  lemma {:induction false} SubsetSize(a: set<string>, b: set<string>)
    requires a <= b
    ensures |a| <= |b|
  {
    if a != {} {
      var x :| x in a;
      SubsetSize(a - {x}, b - {x});
    }
  }

  // ----- whole histories, with runs that die anywhere -----

  ghost function StemsOf(attempts: seq<Attempt>): (r: seq<string>)
    ensures |r| == |attempts| && forall i :: 0 <= i < |attempts| ==> r[i] == attempts[i].backup.stem
  {
    seq(|attempts|, i requires 0 <= i < |attempts| => attempts[i].backup.stem)
  }

  ghost predicate InOrder(attempts: seq<Attempt>) {
    StrictlySorted(StemsOf(attempts)) && forall i :: 0 <= i < |attempts| ==> StartsWith(attempts[i].backup.stem, PREFIX)
  }

  ghost predicate Has(objects: Objects, key: string, bytes: Bytes) {
    key in objects && objects[key].bytes == bytes
  }

  /** The attempt's dump is there with its bytes, and so is its manifest if the run got that far. */
  ghost predicate Kept(objects: Objects, a: Attempt) {
    && Has(objects, a.backup.stem + ".dump", a.backup.dump)
    && if a.cut.AfterDump? then a.backup.stem + ".json" !in objects
       else Has(objects, a.backup.stem + ".json", a.backup.manifest)
  }

  ghost predicate OfPair(a: Attempt, key: string) {
    key == a.backup.stem + ".dump" || key == a.backup.stem + ".json"
  }

  ghost predicate OfOne(attempts: seq<Attempt>, from: int, key: string) {
    exists i :: 0 <= i < |attempts| && from <= i && OfPair(attempts[i], key)
  }

  ghost predicate OnlyFrom(objects: Objects, attempts: seq<Attempt>, from: int) {
    forall k :: k in objects && StartsWith(k, PREFIX) ==> OfOne(attempts, from, k)
  }

  ghost predicate NewestKept(objects: Objects, attempts: seq<Attempt>, keep: nat) {
    forall i :: 0 <= i < |attempts| <= i + keep ==> Kept(objects, attempts[i])
  }

  ghost function AfterAll(objects: Objects, clock: Option<int>, attempts: seq<Attempt>, keep: int): Objects {
    if attempts == [] then objects
    else
      var init, last := attempts[..|attempts| - 1], attempts[|attempts| - 1];
      AfterAttempt(AfterAll(objects, clock, init, keep), clock, last, Some(keep))
  }

  lemma StemStarts(stem: string)
    requires StartsWith(stem, PREFIX)
    ensures StartsWith(stem + ".dump", PREFIX) && StartsWith(stem + ".json", PREFIX)
  {}

  lemma OtherStem(s: string, t: string)
    requires s != t
    ensures s + ".dump" != t + ".dump" && s + ".json" != t + ".json"
    ensures s + ".dump" != t + ".json" && s + ".json" != t + ".dump"
  {
    hide Stem;
    StemOfEither(s);
    StemOfEither(t);
  }

  lemma StemsDiffer(attempts: seq<Attempt>, i: nat, j: nat)
    requires InOrder(attempts) && i < |attempts| && j < |attempts|
    ensures i != j ==> attempts[i].backup.stem != attempts[j].backup.stem
    ensures Less(attempts[i].backup.stem, attempts[j].backup.stem) <==> i < j
  {
    hide Less;
    SortedAt(StemsOf(attempts), i, j);
    SortedAt(StemsOf(attempts), j, i);
    LessTotal(attempts[i].backup.stem, attempts[j].backup.stem);
  }

  lemma WrittenKeeps(objects: Objects, clock: Option<int>, attempts: seq<Attempt>, a: Attempt, keep: nat)
    requires InOrder(attempts + [a]) && NewestKept(objects, attempts, keep) && OnlyFrom(objects, attempts, 0)
    ensures var now, all := Written(objects, clock, a), attempts + [a];
            NewestKept(now, all, keep) && OnlyFrom(now, all, 0)
  {
    hide StartsWith, Less, StrictlySorted, InOrder;
    var now, all := Written(objects, clock, a), attempts + [a];
    forall i | 0 <= i < |attempts| ensures attempts[i].backup.stem != a.backup.stem {
      StemsDiffer(all, i, |attempts|);
    }
    DifferentKeys(a.backup.stem);
    ManifestIsNew(objects, attempts, a);
    forall i | 0 <= i < |all| <= i + keep ensures Kept(now, all[i]) {
      if i < |attempts| {
        assert Kept(objects, attempts[i]);
        OtherStem(attempts[i].backup.stem, a.backup.stem);
      }
    }
    forall k | k in now && StartsWith(k, PREFIX) ensures OfOne(all, 0, k) {
      if k in objects {
        var i :| 0 <= i < |attempts| && OfPair(attempts[i], k);
        assert OfPair(all[i], k);
      } else {
        assert OfPair(all[|attempts|], k);
      }
    }
  }

  lemma ManifestIsNew(objects: Objects, attempts: seq<Attempt>, a: Attempt)
    requires InOrder(attempts + [a]) && OnlyFrom(objects, attempts, 0)
    ensures a.backup.stem + ".json" !in objects
  {
    hide Less, StrictlySorted, StartsWith;
    var all := attempts + [a];
    assert StartsWith(all[|attempts|].backup.stem, PREFIX);
    StemStarts(a.backup.stem);
    forall i | 0 <= i < |attempts| ensures !OfPair(attempts[i], a.backup.stem + ".json") {
      StemsDiffer(all, i, |attempts|);
      OtherStem(all[i].backup.stem, a.backup.stem);
    }
  }

  lemma StemsBetween(objects: Objects, attempts: seq<Attempt>, keep: nat)
    requires InOrder(attempts) && NewestKept(objects, attempts, keep) && OnlyFrom(objects, attempts, 0)
    ensures var present, stems := StemSet(BackupKeys(objects)), StemsOf(attempts);
            present <= SetOf(stems) && forall i :: 0 <= i < |stems| <= i + keep ==> stems[i] in present
  {
    hide StartsWith, Stem, StrictlySorted;
    var stems := StemsOf(attempts);
    forall s | s in StemSet(BackupKeys(objects)) ensures s in SetOf(stems) {
      var k :| k in BackupKeys(objects) && Stem(k) == s;
      var i :| 0 <= i < |attempts| && OfPair(attempts[i], k);
      StemOfEither(attempts[i].backup.stem);
      assert stems[i] == s;
    }
    forall i | 0 <= i < |stems| <= i + keep ensures stems[i] in StemSet(BackupKeys(objects)) {
      assert Kept(objects, attempts[i]);
      StemOfEither(stems[i]);
      StemStarts(stems[i]);
      assert stems[i] + ".dump" in BackupKeys(objects);
    }
  }

  /** Whatever older remains are about, the last run's prune condemns all but the newest `keep` stems. */
  lemma TooOldByPosition(present: set<string>, stems: seq<string>, keep: nat, i: nat)
    requires StrictlySorted(stems) && keep >= 1 && i < |stems|
    requires present <= SetOf(stems) && forall j :: 0 <= j < |stems| <= j + keep ==> stems[j] in present
    ensures TooOld(present, keep, stems[|stems| - 1], stems[i]) <==> i + keep < |stems|
  {
    hide Less, Newer, SetOf, StrictlySorted;
    var n := |stems|;
    SortedAt(stems, i, n - 1);
    LessTotal(stems[n - 1], stems[n - 1]);
    if i + keep < n {
      Rank(stems, n - keep - 1);
      NewestArePresent(present, stems, keep, i);
    } else {
      Rank(stems, i);
      NewerGrows(present, SetOf(stems), stems[i]);
    }
  }

  lemma NewestArePresent(present: set<string>, stems: seq<string>, keep: nat, i: nat)
    requires StrictlySorted(stems) && i + keep < |stems|
    requires forall j :: 0 <= j < |stems| <= j + keep ==> stems[j] in present
    ensures |Newer(SetOf(stems), stems[|stems| - keep - 1])| <= |Newer(present, stems[i])|
  {
    hide Less, StrictlySorted;
    var from := |stems| - keep - 1;
    forall t | t in Newer(SetOf(stems), stems[from]) ensures t in Newer(present, stems[i]) {
      var j :| 0 <= j < |stems| && stems[j] == t;
      SortedAt(stems, from, j);
      SortedAt(stems, i, j);
    }
    SubsetSize(Newer(SetOf(stems), stems[from]), Newer(present, stems[i]));
  }

  lemma PairByPosition(objects: Objects, attempts: seq<Attempt>, keep: nat, i: nat, key: string)
    requires InOrder(attempts) && NewestKept(objects, attempts, keep) && OnlyFrom(objects, attempts, 0)
    requires keep >= 1 && i < |attempts| && OfPair(attempts[i], key) && key in objects
    ensures key in TooOldKeys(objects, keep, attempts[|attempts| - 1].backup.stem) <==> i + keep < |attempts|
  {
    hide StartsWith, Stem, TooOld, StemSet, StrictlySorted, NewestKept, OnlyFrom;
    StemsBetween(objects, attempts, keep);
    var stem := attempts[i].backup.stem;
    StemOfEither(stem);
    StemStarts(stem);
    TooOldByPosition(StemSet(BackupKeys(objects)), StemsOf(attempts), keep, i);
  }

  /** Deleting some of what is too old loses none of the newest; deleting all of it leaves only them. */
  lemma PruneKeeps(objects: Objects, attempts: seq<Attempt>, keep: nat, gone: set<string>)
    requires InOrder(attempts) && NewestKept(objects, attempts, keep) && OnlyFrom(objects, attempts, 0)
    requires keep >= 1 && attempts != []
    ensures var tooOld := TooOldKeys(objects, keep, attempts[|attempts| - 1].backup.stem);
            && NewestKept(objects - (gone * tooOld), attempts, keep) && OnlyFrom(objects - (gone * tooOld), attempts, 0)
            && NewestKept(objects - tooOld, attempts, keep)
            && OnlyFrom(objects - tooOld, attempts, 0) && OnlyFrom(objects - tooOld, attempts, |attempts| - keep)
  {
    hide TooOldKeys, InOrder, StartsWith;
    var tooOld := TooOldKeys(objects, keep, attempts[|attempts| - 1].backup.stem);
    forall i | 0 <= i < |attempts| <= i + keep ensures Kept(objects - tooOld, attempts[i]) {
      NewestOutlast(objects, attempts, keep, i);
    }
    forall i | 0 <= i < |attempts| <= i + keep ensures Kept(objects - (gone * tooOld), attempts[i]) {
      NewestOutlast(objects, attempts, keep, i);
    }
    forall k | k in objects - tooOld && StartsWith(k, PREFIX) ensures OfOne(attempts, |attempts| - keep, k) {
      assert OfOne(attempts, 0, k);
      var i :| 0 <= i < |attempts| && OfPair(attempts[i], k);
      PairByPosition(objects, attempts, keep, i, k);
      assert |attempts| - keep <= i;
    }
  }

  lemma NewestOutlast(objects: Objects, attempts: seq<Attempt>, keep: nat, i: nat)
    requires InOrder(attempts) && NewestKept(objects, attempts, keep) && OnlyFrom(objects, attempts, 0)
    requires keep >= 1 && 0 <= i < |attempts| <= i + keep
    ensures Kept(objects, attempts[i])
    ensures var tooOld := TooOldKeys(objects, keep, attempts[|attempts| - 1].backup.stem);
            attempts[i].backup.stem + ".dump" !in tooOld && attempts[i].backup.stem + ".json" !in tooOld
  {
    hide InOrder, OnlyFrom, NewestKept, Goes;
    var dump, json := attempts[i].backup.stem + ".dump", attempts[i].backup.stem + ".json";
    if dump in objects { PairByPosition(objects, attempts, keep, i, dump); }
    if json in objects { PairByPosition(objects, attempts, keep, i, json); }
    assert Kept(objects, attempts[i]) by { NewestIsKept(objects, attempts, keep, i); }
  }

  lemma NewestIsKept(objects: Objects, attempts: seq<Attempt>, keep: nat, i: nat)
    requires NewestKept(objects, attempts, keep) && 0 <= i < |attempts| <= i + keep
    ensures Kept(objects, attempts[i])
  {
    hide Kept;
  }

  /**
   * After any number of runs, each whole, dead between its dump and its manifest, or dead inside its prune:
   * the newest min(n, keep) dumps are there with their bytes, each with its manifest exactly if its run
   * wrote one; and if the last run was whole nothing else is.
   */
  lemma {:induction false} NewestRemain(objects: Objects, clock: Option<int>, attempts: seq<Attempt>, keep: nat)
    requires keep >= 1 && InOrder(attempts) && OnlyFrom(objects, [], 0)
    ensures var end := AfterAll(objects, clock, attempts, keep);
            && NewestKept(end, attempts, keep) && OnlyFrom(end, attempts, 0)
            && (attempts != [] && attempts[|attempts| - 1].cut.Whole? ==> OnlyFrom(end, attempts, |attempts| - keep))
  {
    hide NewestKept, OnlyFrom, InOrder, AfterAttempt, AfterAll;
    AfterAllStep(objects, clock, attempts, keep);
    if attempts == [] {
      NoneKept(objects, keep);
    } else {
      var init, last := attempts[..|attempts| - 1], attempts[|attempts| - 1];
      assert attempts == init + [last];
      FirstInOrder(attempts, |init|);
      NewestRemain(objects, clock, init, keep);
      AttemptKeeps(AfterAll(objects, clock, init, keep), clock, init, last, keep);
    }
  }

  lemma AfterAllStep(objects: Objects, clock: Option<int>, attempts: seq<Attempt>, keep: int)
    ensures AfterAll(objects, clock, attempts, keep)
         == if attempts == [] then objects
            else AfterAttempt(AfterAll(objects, clock, attempts[..|attempts| - 1], keep), clock,
                              attempts[|attempts| - 1], Some(keep))
  {
    hide AfterAttempt;
  }

  lemma AttemptKeeps(objects: Objects, clock: Option<int>, init: seq<Attempt>, last: Attempt, keep: nat)
    requires keep >= 1 && InOrder(init + [last]) && NewestKept(objects, init, keep) && OnlyFrom(objects, init, 0)
    ensures var end, attempts := AfterAttempt(objects, clock, last, Some(keep)), init + [last];
            && NewestKept(end, attempts, keep) && OnlyFrom(end, attempts, 0)
            && (last.cut.Whole? ==> OnlyFrom(end, attempts, |attempts| - keep))
  {
    hide NewestKept, OnlyFrom, InOrder, Written, TooOldKeys;
    var attempts := init + [last];
    assert attempts[|attempts| - 1] == last;
    WrittenKeeps(objects, clock, init, last, keep);
    PruneKeeps(Written(objects, clock, last), attempts, keep, if last.cut.InPrune? then last.cut.gone else {});
  }

  lemma NoneKept(objects: Objects, keep: nat)
    ensures NewestKept(objects, [], keep)
  {}

  lemma FirstInOrder(attempts: seq<Attempt>, n: nat)
    requires InOrder(attempts) && n <= |attempts|
    ensures InOrder(attempts[..n])
  {
    hide Less;
    forall i, j | 0 <= i < j < n ensures Less(StemsOf(attempts[..n])[i], StemsOf(attempts[..n])[j]) {
      assert Less(StemsOf(attempts)[i], StemsOf(attempts)[j]);
    }
  }

  // ----- histories without a prune -----

  ghost function AfterAllUnpruned(objects: Objects, clock: Option<int>, attempts: seq<Attempt>): Objects {
    if attempts == [] then objects
    else
      var init, last := attempts[..|attempts| - 1], attempts[|attempts| - 1];
      AfterAttempt(AfterAllUnpruned(objects, clock, init), clock, last, None)
  }

  ghost predicate DistinctStems(attempts: seq<Attempt>) {
    forall i, j :: 0 <= i < j < |attempts| ==> attempts[i].backup.stem != attempts[j].backup.stem
  }

  /** Whatever was in the bucket stays as it was, save a key written anew, and nothing but pairs is added. */
  lemma {:induction false} UnprunedLeavesOthers(objects: Objects, clock: Option<int>, attempts: seq<Attempt>, k: string)
    requires forall i :: 0 <= i < |attempts| ==> !OfPair(attempts[i], k)
    ensures var left := AfterAllUnpruned(objects, clock, attempts);
            (k in left <==> k in objects) && (k in left ==> left[k] == objects[k])
  {
    if attempts != [] {
      UnprunedLeavesOthers(objects, clock, attempts[..|attempts| - 1], k);
    }
  }

  lemma WritesOwnPair(objects: Objects, clock: Option<int>, a: Attempt)
    requires a.cut.AfterDump? ==> a.backup.stem + ".json" !in objects
    ensures Kept(AfterAttempt(objects, clock, a, None), a)
  {
    DifferentKeys(a.backup.stem);
  }

  lemma LeavesOtherPair(objects: Objects, clock: Option<int>, a: Attempt, b: Attempt)
    requires a.backup.stem != b.backup.stem && Kept(objects, b)
    ensures Kept(AfterAttempt(objects, clock, a, None), b)
  {
    OtherStem(a.backup.stem, b.backup.stem);
  }

  /**
   * Without `--prune` nothing is ever lost: after any attempts, dead ones among them, every one's dump is there,
   * with its manifest exactly if its run wrote one.
   */
  lemma {:induction false} UnprunedKeepsAll(objects: Objects, clock: Option<int>, attempts: seq<Attempt>, i: nat)
    requires DistinctStems(attempts) && i < |attempts|
    requires forall j :: 0 <= j < |attempts| ==> attempts[j].backup.stem + ".json" !in objects
    ensures Kept(AfterAllUnpruned(objects, clock, attempts), attempts[i])
  {
    hide Kept, AfterAttempt;
    var init, last := attempts[..|attempts| - 1], attempts[|attempts| - 1];
    if i < |init| {
      UnprunedKeepsAll(objects, clock, init, i);
      LeavesOtherPair(AfterAllUnpruned(objects, clock, init), clock, last, init[i]);
    } else {
      forall j | 0 <= j < |init| ensures !OfPair(init[j], last.backup.stem + ".json") {
        OtherStem(init[j].backup.stem, last.backup.stem);
      }
      UnprunedLeavesOthers(objects, clock, init, last.backup.stem + ".json");
      WritesOwnPair(AfterAllUnpruned(objects, clock, init), clock, last);
    }
  }

  /** Min(n, keep) whole pairs remain exactly if none of the newest runs died between dump and manifest. */
  lemma WholePairsIff(objects: Objects, clock: Option<int>, attempts: seq<Attempt>, keep: nat)
    requires keep >= 1 && InOrder(attempts) && OnlyFrom(objects, [], 0)
    ensures var end := AfterAll(objects, clock, attempts, keep);
            (forall i :: 0 <= i < |attempts| <= i + keep ==>
               attempts[i].backup.stem + ".dump" in end && attempts[i].backup.stem + ".json" in end)
            <==> forall i :: 0 <= i < |attempts| <= i + keep ==> !attempts[i].cut.AfterDump?
  {
    hide AfterAll, InOrder, OnlyFrom;
    NewestRemain(objects, clock, attempts, keep);
    var end := AfterAll(objects, clock, attempts, keep);
    forall i | 0 <= i < |attempts| <= i + keep
      ensures attempts[i].backup.stem + ".dump" in end
      ensures attempts[i].backup.stem + ".json" in end <==> !attempts[i].cut.AfterDump?
    {
      assert Kept(end, attempts[i]);
    }
  }

  // ----- in time -----

  datatype Run = Run(at: Utc, dump: Bytes, manifest: Bytes, cut: Cut)

  ghost function AttemptsOf(database: string, runs: seq<Run>): (r: seq<Attempt>)
    ensures |r| == |runs|
    ensures forall i :: 0 <= i < |runs| ==>
              r[i] == Attempt(Backup(StemFor(database, StampNow(runs[i].at)), runs[i].dump, runs[i].manifest),
                              runs[i].cut)
  {
    seq(|runs|, i requires 0 <= i < |runs| =>
      Attempt(Backup(StemFor(database, StampNow(runs[i].at)), runs[i].dump, runs[i].manifest), runs[i].cut))
  }

  lemma StemOrder(database: string, a: string, b: string)
    ensures Less(StemFor(database, a), StemFor(database, b)) <==> Less(a, b)
    ensures StartsWith(StemFor(database, a), PREFIX)
  {
    hide Less;
    var common := PREFIX + database + "-";
    LessAfterEqualLength(common, common, a, b);
    LessTotal(common, common);
  }

  /** One database, one run a second at most: the backups left are the latest `keep` in time. */
  lemma LatestRunsRemain(objects: Objects, clock: Option<int>, database: string, runs: seq<Run>, keep: nat)
    requires keep >= 1 && OnlyFrom(objects, [], 0)
    requires forall i :: 0 <= i < |runs| ==> Valid(runs[i].at)
    requires forall i, j :: 0 <= i < j < |runs| ==> Second(runs[i].at) < Second(runs[j].at)
    ensures var attempts := AttemptsOf(database, runs);
            var end := AfterAll(objects, clock, attempts, keep);
            && NewestKept(end, attempts, keep)
            && (runs != [] && runs[|runs| - 1].cut.Whole? ==> OnlyFrom(end, attempts, |runs| - keep))
  {
    hide Less, StampNow, Second, Valid, StemFor, OnlyFrom, NewestKept, StartsWith, AfterAll;
    var attempts := AttemptsOf(database, runs);
    forall i | 0 <= i < |runs| ensures StartsWith(attempts[i].backup.stem, PREFIX) {
      StemOrder(database, StampNow(runs[i].at), StampNow(runs[i].at));
    }
    forall i, j | 0 <= i < j < |runs| ensures Less(StemsOf(attempts)[i], StemsOf(attempts)[j]) {
      StampOrderIsTimeOrder(runs[i].at, runs[j].at);
      StemOrder(database, StampNow(runs[i].at), StampNow(runs[j].at));
    }
    NewestRemain(objects, clock, attempts, keep);
  }

  // ----- two databases in one bucket -----

  /**
   * The list does not tell databases apart. A backup that its own database would keep survives
   * exactly when fewer than the remaining places are taken by newer-sorting stems of others.
   */
  lemma OwnBackupSurvivesIff(own: set<string>, others: set<string>, keep: int, protectStem: string, stem: string)
    requires own !! others && stem in own && stem != protectStem
    ensures !TooOld(own + others, keep, protectStem, stem) <==> |Newer(others, stem)| < keep - |Newer(own, stem)|
  {
    hide Less;
    assert Newer(own + others, stem) == Newer(own, stem) + Newer(others, stem);
    assert Newer(own, stem) !! Newer(others, stem);
  }

  /** A newer backup of `app` is removed, both files, because an older one of `web` sorts after it. */
  lemma PruneMixesDatabases()
    ensures var app, web := StemFor("app", "2026-02-01T00-00-00Z"), StemFor("web", "2026-01-01T00-00-00Z");
            var keys := [app + ".dump", app + ".json", web + ".dump", web + ".json"];
            app + ".dump" in PruneList(keys, 1, web) && app + ".json" in PruneList(keys, 1, web)
  {
    hide PruneList, StemSet, Stem, Newer;
    var app, web := StemFor("app", "2026-02-01T00-00-00Z"), StemFor("web", "2026-01-01T00-00-00Z");
    var keys := [app + ".dump", app + ".json", web + ".dump", web + ".json"];
    assert keys[0] in keys && keys[1] in keys && keys[2] in keys;
    AppBeforeWeb();
    StemOfEither(app);
    StemOfEither(web);
    MixedIsTooOld(keys, app, web);
    PairsStayTogether(keys, 1, web, app);
    PruneMeaning(keys, 1, web, app + ".dump");
  }

  lemma MixedIsTooOld(keys: seq<string>, app: string, web: string)
    requires Less(app, web) && app + ".dump" in keys && web + ".dump" in keys
    ensures Goes(SetOf(keys), 1, web, app + ".dump")
  {
    hide Less, Stem;
    StemOfEither(app);
    StemOfEither(web);
    LessTotal(app, web);
    assert web in StemSet(SetOf(keys)) by { assert web + ".dump" in SetOf(keys); }
    assert web in Newer(StemSet(SetOf(keys)), app);
  }

  lemma AppBeforeWeb()
    ensures Less(StemFor("app", "2026-02-01T00-00-00Z"), StemFor("web", "2026-01-01T00-00-00Z"))
  {
    hide Less, StemFor;
    FirstLetterDecides("app", "web", "2026-02-01T00-00-00Z", "2026-01-01T00-00-00Z");
  }

  lemma FirstLetterDecides(one: string, other: string, x: string, y: string)
    requires one != "" && other != "" && one[0] < other[0]
    ensures Less(StemFor(one, x), StemFor(other, y))
  {
    var a, b := one + "-" + x, other + "-" + y;
    assert Less(a, b);
    hide Less;
    LessAfterEqualLength(PREFIX, PREFIX, a, b);
    assert StemFor(one, x) == PREFIX + a && StemFor(other, y) == PREFIX + b;
  }
}
