/**
 * Two databases backed up under the one prefix of scripts/backup-run.ts: what any history of their runs
 * leaves. The prune looks at names only, so the database whose name sorts last takes all the places.
 */
module RetentionShared {
  import opened Text
  import opened ObjectStore
  import opened Retention

  /** The stems of the backups that are in the bucket. */
  ghost function Present(objects: Objects): set<string> {
    StemSet(BackupKeys(objects))
  }

  /** The `keep` newest by name. */
  ghost function Top(stems: set<string>, keep: int): set<string> {
    set t | t in stems && |Newer(stems, t)| < keep
  }

  /** Whatever sorts below a stem of `later` is not in it. */
  ghost predicate Above(later: set<string>, stems: set<string>) {
    forall s, t :: s in stems - later && t in later ==> Less(s, t)
  }

  ghost predicate AllUnderPrefix(attempts: seq<Attempt>) {
    forall i :: 0 <= i < |attempts| ==> StartsWith(attempts[i].backup.stem, PREFIX)
  }

  // ----- one attempt, seen in stems -----

  lemma WrittenAddsStem(objects: Objects, clock: Option<int>, a: Attempt)
    requires StartsWith(a.backup.stem, PREFIX)
    ensures Present(Written(objects, clock, a)) == Present(objects) + {a.backup.stem}
  {
    hide Stem, StartsWith;
    var s := a.backup.stem;
    StemOfEither(s);
    StemStarts(s);
    var before, after := BackupKeys(objects), BackupKeys(Written(objects, clock, a));
    assert s + ".dump" in after && before <= after;
    forall k | k in after ensures k in before || Stem(k) == s {}
  }

  /** A key stays unless its stem is too old, and a prune that was cut short leaves more. */
  lemma PruneByStem(objects: Objects, keep: int, protectStem: string, gone: set<string>)
    ensures var present, left := Present(objects), Present(objects - (gone * TooOldKeys(objects, keep, protectStem)));
            left <= present && forall t :: t in present && !TooOld(present, keep, protectStem, t) ==> t in left
    ensures var present, left := Present(objects), Present(objects - TooOldKeys(objects, keep, protectStem));
            forall t :: t in left <==> t in present && !TooOld(present, keep, protectStem, t)
  {
    hide Stem, StartsWith, TooOld;
    var present, tooOld := Present(objects), TooOldKeys(objects, keep, protectStem);
    var cut, whole := objects - (gone * tooOld), objects - tooOld;
    forall t | t in present && !TooOld(present, keep, protectStem, t) ensures t in Present(cut) && t in Present(whole) {
      var k :| k in BackupKeys(objects) && Stem(k) == t;
      assert k !in tooOld;
      assert k in BackupKeys(cut) && k in BackupKeys(whole);
    }
    forall t | t in Present(whole) ensures t in present && !TooOld(present, keep, protectStem, t) {
      var k :| k in BackupKeys(whole) && Stem(k) == t;
      assert k in BackupKeys(objects) && k !in tooOld;
    }
    forall t | t in Present(cut) ensures t in present {
      var k :| k in BackupKeys(cut) && Stem(k) == t;
      assert k in BackupKeys(objects);
    }
  }

  lemma AttemptByStem(objects: Objects, clock: Option<int>, a: Attempt, keep: int)
    requires StartsWith(a.backup.stem, PREFIX)
    ensures var s := a.backup.stem; var now := Present(objects) + {s};
            var left := Present(AfterAttempt(objects, clock, a, Some(keep)));
            && left <= now && (forall t :: t in now && !TooOld(now, keep, s, t) ==> t in left)
            && (a.cut.Whole? ==> forall t :: t in left <==> t in now && !TooOld(now, keep, s, t))
  {
    hide Present, Written, TooOld, TooOldKeys, StartsWith;
    WrittenAddsStem(objects, clock, a);
    PruneByStem(Written(objects, clock, a), keep, a.backup.stem, if a.cut.InPrune? then a.cut.gone else {});
  }

  // ----- the newest of a set -----

  lemma {:induction false} Lowest(s: set<string>) returns (m: string)
    requires s != {}
    ensures m in s && forall t :: t in s && t != m ==> Less(m, t)
  {
    var x :| x in s;
    if s == {x} {
      m := x;
    } else {
      var y := Lowest(s - {x});
      LessTotal(x, y);
      m := if Less(x, y) then x else y;
      forall t | t in s && t != m ensures Less(m, t) {
        if t != x && t != y && m == x { LessTransitive(x, y, t); }
      }
    }
  }

  /** Of at least `keep` stems the newest `keep` are no fewer. */
  lemma {:induction false} TopIsEnough(s: set<string>, keep: nat)
    requires |s| >= keep
    ensures |Top(s, keep)| >= keep
  {
    hide Less;
    if |s| == keep {
      forall t | t in s ensures |Newer(s, t)| < keep {
        LessTotal(t, t);
        SubsetSize(Newer(s, t), s - {t});
      }
      assert Top(s, keep) == s;
    } else {
      var m := Lowest(s);
      TopIsEnough(s - {m}, keep);
      forall t | t in Top(s - {m}, keep) ensures t in Top(s, keep) {
        LessTotal(m, t);
        assert Newer(s, t) == Newer(s - {m}, t);
      }
      SubsetSize(Top(s - {m}, keep), Top(s, keep));
    }
  }

  // ----- whole histories -----

  ghost function Ever(attempts: seq<Attempt>): set<string> {
    SetOf(StemsOf(attempts))
  }

  lemma EverOneMore(attempts: seq<Attempt>, a: Attempt)
    ensures Ever(attempts + [a]) == Ever(attempts) + {a.backup.stem}
  {
    var now := StemsOf(attempts + [a]);
    assert now == StemsOf(attempts) + [a.backup.stem];
    assert now[|attempts|] in now;
  }

  /** Newer than a stem of the later database are only its own. */
  lemma NewerAreLater(later: set<string>, ever: set<string>, present: set<string>, t: string)
    requires Above(later, ever) && present <= ever && t in later
    ensures Newer(present, t) <= later * ever
    ensures |Newer(present, t)| <= |Newer(later * ever, t)|
  {
    hide Less;
    forall x | x in Newer(present, t) ensures x in later {
      LessTotal(x, t);
    }
    SubsetSize(Newer(present, t), Newer(later * ever, t));
  }

  /** The newest of the later database's backups outlast every run, of either database, dying anywhere. */
  lemma {:induction false} LaterOutlast(objects: Objects, clock: Option<int>, attempts: seq<Attempt>, keep: nat,
                                        later: set<string>)
    requires BackupKeys(objects) == {} && AllUnderPrefix(attempts) && Above(later, Ever(attempts))
    ensures var left := Present(AfterAll(objects, clock, attempts, keep));
            left <= Ever(attempts) && Top(later * Ever(attempts), keep) <= left
  {
    hide Above, Less, AfterAttempt, TooOld;
    if attempts != [] {
      var init, last := attempts[..|attempts| - 1], attempts[|attempts| - 1];
      assert attempts == init + [last];
      EverOneMore(init, last);
      FewerAbove(later, Ever(init), Ever(attempts));
      LaterOutlast(objects, clock, init, keep, later);
      AttemptByStem(AfterAll(objects, clock, init, keep), clock, last, keep);
      KeptByOneMore(later, Ever(init), Present(AfterAll(objects, clock, init, keep)), last.backup.stem, keep);
    }
  }

  lemma FewerAbove(later: set<string>, some: set<string>, all: set<string>)
    requires Above(later, all) && some <= all
    ensures Above(later, some)
  {
    hide Less;
  }

  lemma KeptByOneMore(later: set<string>, ever: set<string>, present: set<string>, s: string, keep: nat)
    requires Above(later, ever + {s}) && present <= ever && Top(later * ever, keep) <= present
    ensures forall t :: t in Top(later * (ever + {s}), keep) ==>
              t in present + {s} && !TooOld(present + {s}, keep, s, t)
  {
    hide Less, Above;
    var now := later * (ever + {s});
    forall t | t in Top(now, keep) ensures t in present + {s} && !TooOld(present + {s}, keep, s, t) {
      NewerAreLater(later, ever + {s}, present + {s}, t);
      if t != s {
        SubsetSize(Newer(later * ever, t), Newer(now, t));
        assert t in Top(later * ever, keep);
      }
    }
  }

  /**
   * Two databases under one prefix, the names of the one sorting after the other's: once `keep` of its backups
   * were ever written, any whole run, of either, leaves its newest `keep` and the backup just written, and
   * nothing else. Of the other database no older backup survives, whatever `keep` says.
   */
  lemma LaterTakesAll(objects: Objects, clock: Option<int>, attempts: seq<Attempt>, keep: nat, later: set<string>)
    requires BackupKeys(objects) == {} && AllUnderPrefix(attempts) && Above(later, Ever(attempts))
    requires attempts != [] && attempts[|attempts| - 1].cut.Whole? && |later * Ever(attempts)| >= keep
    ensures Present(AfterAll(objects, clock, attempts, keep))
            == Top(later * Ever(attempts), keep) + {attempts[|attempts| - 1].backup.stem}
  {
    hide Above, Less, AfterAttempt;
    var init, last := attempts[..|attempts| - 1], attempts[|attempts| - 1];
    assert attempts == init + [last];
    EverOneMore(init, last);
    FewerAbove(later, Ever(init), Ever(attempts));
    LaterOutlast(objects, clock, init, keep, later);
    AttemptByStem(AfterAll(objects, clock, init, keep), clock, last, keep);
    var present := Present(AfterAll(objects, clock, init, keep));
    KeptByOneMore(later, Ever(init), present, last.backup.stem, keep);
    OnlyTopStays(later, Ever(attempts), present + {last.backup.stem}, last.backup.stem, keep);
  }

  lemma OnlyTopStays(later: set<string>, ever: set<string>, now: set<string>, s: string, keep: nat)
    requires Above(later, ever) && now <= ever && Top(later * ever, keep) <= now && |later * ever| >= keep
    ensures forall t :: t in now && !TooOld(now, keep, s, t) ==> t == s || t in Top(later * ever, keep)
  {
    hide Less;
    var top := Top(later * ever, keep);
    TopIsEnough(later * ever, keep);
    forall t | t in now && t != s && t !in top ensures TooOld(now, keep, s, t) {
      forall x | x in top ensures x in Newer(now, t) {
        if t in later { TopIsAbove(later * ever, keep, x, t); }
      }
      SubsetSize(top, Newer(now, t));
    }
  }

  /** What is in the newest `keep` sorts after what is not. */
  lemma TopIsAbove(s: set<string>, keep: nat, x: string, t: string)
    requires x in Top(s, keep) && t in s - Top(s, keep)
    ensures Less(t, x)
  {
    hide Less;
    LessTotal(t, x);
    if Less(x, t) {
      forall y | y in Newer(s, t) ensures y in Newer(s, x) { LessTransitive(x, t, y); }
      SubsetSize(Newer(s, t), Newer(s, x));
    }
  }

  // ----- by the databases' names -----

  lemma {:induction false} LessGoesOn(a: string, b: string, x: string, y: string)
    requires Less(a, b) && !(a <= b)
    ensures Less(a + x, b + y)
  {
    assert a != "" && b != "";
    assert (a + x)[0] == a[0] && (b + y)[0] == b[0];
    if a[0] == b[0] {
      assert (a + x)[1..] == a[1..] + x && (b + y)[1..] == b[1..] + y;
      assert a == [a[0]] + a[1..] && b == [b[0]] + b[1..];
      LessGoesOn(a[1..], b[1..], x, y);
    }
  }

  lemma StemsByName(one: string, other: string, x: string, y: string)
    requires Less(one + "-", other + "-") && !(one + "-" <= other + "-")
    ensures Less(StemFor(one, x), StemFor(other, y))
  {
    hide Less;
    var a, b := PREFIX + one + "-", PREFIX + other + "-";
    PrefixedLess(one + "-", other + "-");
    assert a == PREFIX + (one + "-") && b == PREFIX + (other + "-");
    assert a[3..] == one + "-" && b[3..] == other + "-";
    LessGoesOn(a, b, x, y);
  }

  lemma PrefixedLess(a: string, b: string)
    requires Less(a, b)
    ensures Less(PREFIX + a, PREFIX + b)
  {
    assert (PREFIX + a)[1..] == "g/" + a && (PREFIX + b)[1..] == "g/" + b;
    assert ("g/" + a)[1..] == "/" + a && ("g/" + b)[1..] == "/" + b;
    assert ("/" + a)[1..] == a && ("/" + b)[1..] == b;
  }

  /** The stems of one database among those of the attempts. */
  ghost function OfDatabase(attempts: seq<Attempt>, database: string, stamps: seq<string>): set<string>
    requires |stamps| == |attempts|
  {
    set i | 0 <= i < |attempts| && attempts[i].backup.stem == StemFor(database, stamps[i]) :: attempts[i].backup.stem
  }

  /**
   * In the terms of the operator: runs for `one` and for `other` in any order, dead ones among them. With `keep`
   * backups of `other` ever written, after a whole run for `other` the bucket holds no backup of `one` at all,
   * and after a whole run for `one` the one just written and no earlier.
   */
  lemma EarlierDatabaseLosesAll(objects: Objects, clock: Option<int>, attempts: seq<Attempt>, keep: nat,
                                one: string, other: string, stamps: seq<string>)
    requires BackupKeys(objects) == {} && |stamps| == |attempts|
    requires Less(one + "-", other + "-") && !(one + "-" <= other + "-")
    requires forall i :: 0 <= i < |attempts| ==>
               var stem := attempts[i].backup.stem; stem == StemFor(one, stamps[i]) || stem == StemFor(other, stamps[i])
    requires attempts != [] && attempts[|attempts| - 1].cut.Whole? && |OfDatabase(attempts, other, stamps)| >= keep
    ensures var left := Present(AfterAll(objects, clock, attempts, keep));
            left == Top(OfDatabase(attempts, other, stamps), keep) + {attempts[|attempts| - 1].backup.stem}
  {
    hide Less, StartsWith, AfterAll;
    var later := OfDatabase(attempts, other, stamps);
    forall i | 0 <= i < |attempts| ensures StartsWith(attempts[i].backup.stem, PREFIX) {
      StemOrder(one, stamps[i], stamps[i]);
      StemOrder(other, stamps[i], stamps[i]);
    }
    forall s, t | s in Ever(attempts) - later && t in later ensures Less(s, t) {
      var i :| 0 <= i < |attempts| && attempts[i].backup.stem == s;
      var j :| 0 <= j < |attempts| && attempts[j].backup.stem == t == StemFor(other, stamps[j]);
      StemsByName(one, other, stamps[i], stamps[j]);
    }
    assert later * Ever(attempts) == later by {
      forall t | t in later ensures t in Ever(attempts) {
        var j :| 0 <= j < |attempts| && attempts[j].backup.stem == t;
        assert StemsOf(attempts)[j] in StemsOf(attempts);
      }
    }
    LaterTakesAll(objects, clock, attempts, keep, later);
  }
}
