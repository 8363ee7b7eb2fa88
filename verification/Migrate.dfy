/**
 * scripts/migrate.ts: collecting the migration files, and one run over them: ledger read once,
 * each new file in its own transaction, an edited one refused.
 */
module Migrate {
  import opened Text

  // ----- which files, in which order -----

  datatype Collected = Files(list: seq<(string, nat)>) | DuplicateName(name: string)

  predicate IsSql(name: string) {
    EndsWith(name, ".sql")
  }

  lemma SqlFiles(name: string)
    ensures IsSql(name) <==> exists stem :: name == stem + ".sql"
  {
    if IsSql(name) { assert name == name[..|name| - 4] + ".sql"; }
    if stem :| name == stem + ".sql" { assert name[|name| - 4..] == ".sql"; }
  }

  /** `dirs[d]` lists a directory, None when it does not exist. */
  ghost predicate HasFile(dirs: seq<Option<set<string>>>, d: int, name: string) {
    0 <= d < |dirs| && dirs[d].Some? && name in dirs[d].value && IsSql(name)
  }

  ghost predicate InEarlier(dirs: seq<Option<set<string>>>, upto: int, name: string) {
    exists k :: k < upto && HasFile(dirs, k, name)
  }

  lemma EarlierGrows(dirs: seq<Option<set<string>>>, d: int, name: string)
    ensures InEarlier(dirs, d + 1, name) <==> InEarlier(dirs, d, name) || HasFile(dirs, d, name)
  {}

  /** Directory order first, name order inside a directory. */
  predicate Before(a: (string, nat), b: (string, nat)) {
    a.1 < b.1 || (a.1 == b.1 && Less(a.0, b.0))
  }

  ghost predicate InOrder(list: seq<(string, nat)>) {
    forall i, j :: 0 <= i < j < |list| ==> Before(list[i], list[j])
  }

  lemma OrderIs(list: seq<(string, nat)>)
    requires InOrder(list)
    ensures forall i, j :: 0 <= i < j < |list| ==>
              list[i].1 < list[j].1 || (list[i].1 == list[j].1 && Less(list[i].0, list[j].0))
  {
    hide Less;
    forall i, j | 0 <= i < j < |list|
      ensures list[i].1 < list[j].1 || (list[i].1 == list[j].1 && Less(list[i].0, list[j].0)) {
      assert Before(list[i], list[j]);
    }
  }

  ghost predicate NamesOnce(list: seq<(string, nat)>) {
    forall i, j :: 0 <= i < j < |list| ==> list[i].0 != list[j].0
  }

  ghost predicate Lists(list: seq<(string, nat)>, dirs: seq<Option<set<string>>>, upto: nat) {
    forall name: string, d: nat :: (name, d) in list <==> d < upto && HasFile(dirs, d, name)
  }

  /** The files of all directories, in order; refused exactly when a name is in two of them. */
  method CollectMigrations(dirs: seq<Option<set<string>>>) returns (c: Collected)
    ensures c.Files? ==> InOrder(c.list) && NamesOnce(c.list) && Lists(c.list, dirs, |dirs|)
    ensures c.Files? ==>
              forall i, j :: 0 <= i < j < |c.list| ==>
                c.list[i].1 < c.list[j].1 || (c.list[i].1 == c.list[j].1 && Less(c.list[i].0, c.list[j].0))
    ensures c.DuplicateName? <==> exists name :: InTwo(dirs, name)
    ensures c.DuplicateName? ==> InTwo(dirs, c.name)
  {
    hide IsSql, InOrder, NamesOnce, Lists, InEarlier, InTwo, StrictlySorted;
    EarlierThanNone(dirs);
    var collected: seq<(string, nat)> := [];
    var seen: map<string, nat> := map[];
    for d := 0 to |dirs|
      invariant InOrder(collected) && NamesOnce(collected) && Lists(collected, dirs, d)
      invariant forall name :: name in seen <==> InEarlier(dirs, d, name)
      invariant forall name, k :: 0 <= k < d && InEarlier(dirs, k, name) ==> !HasFile(dirs, k, name)
    {
      forall name ensures InEarlier(dirs, d + 1, name) <==> InEarlier(dirs, d, name) || HasFile(dirs, d, name) {
        EarlierGrows(dirs, d, name);
      }
      if dirs[d] == None {
        ListsNothing(collected, dirs, d);
        continue;
      }
      var names := SortedListing(set f | f in dirs[d].value && IsSql(f));
      SortedIsDistinct(names);
      ghost var before := collected;
      ghost var earlier := seen;
      for i := 0 to |names|
        invariant collected == before + seq(i, k requires 0 <= k < i <= |names| => (names[k], d))
        invariant forall name :: name in seen <==> name in earlier || name in names[..i]
        invariant forall k :: 0 <= k < i ==> names[k] !in earlier
      {
        var name := names[i];
        assert name in names && HasFile(dirs, d, name);
        if name in seen {
          assert name !in names[..i];
          EarlierIsTwice(dirs, d, name);
          return DuplicateName(name);
        }
        seen := seen[name := d];
        collected := collected + [(name, d)];
      }
      forall k | 0 <= k < |names| ensures forall j :: 0 <= j < |before| ==> names[k] != before[j].0 {
        Unlisted(before, dirs, d, names[k]);
      }
      DirectoryAppends(dirs, before, names, d, collected);
      assert names[..|names|] == names;
    }
    NoneTwice(dirs);
    OrderIs(collected);
    c := Files(collected);
  }

  ghost predicate InTwo(dirs: seq<Option<set<string>>>, name: string) {
    exists d, e :: d < e && HasFile(dirs, d, name) && HasFile(dirs, e, name)
  }

  lemma EarlierIsTwice(dirs: seq<Option<set<string>>>, d: nat, name: string)
    requires InEarlier(dirs, d, name) && HasFile(dirs, d, name)
    ensures InTwo(dirs, name)
  {}

  lemma NoneTwice(dirs: seq<Option<set<string>>>)
    requires forall name, k :: 0 <= k < |dirs| && InEarlier(dirs, k, name) ==> !HasFile(dirs, k, name)
    ensures forall name :: !InTwo(dirs, name)
  {
    forall name ensures !InTwo(dirs, name) {
      if d, e :| d < e && HasFile(dirs, d, name) && HasFile(dirs, e, name) {
        assert InEarlier(dirs, e, name);
      }
    }
  }

  lemma Unlisted(list: seq<(string, nat)>, dirs: seq<Option<set<string>>>, d: nat, name: string)
    requires Lists(list, dirs, d) && !InEarlier(dirs, d, name)
    ensures forall j :: 0 <= j < |list| ==> name != list[j].0
  {
    forall j | 0 <= j < |list| ensures name != list[j].0 {
      assert (list[j].0, list[j].1) in list;
    }
  }

  lemma ListsNothing(list: seq<(string, nat)>, dirs: seq<Option<set<string>>>, d: nat)
    requires d < |dirs| && dirs[d].None? && Lists(list, dirs, d)
    ensures Lists(list, dirs, d + 1)
  {}

  lemma EarlierThanNone(dirs: seq<Option<set<string>>>)
    ensures InOrder([]) && NamesOnce([]) && Lists([], dirs, 0)
    ensures forall name :: !InEarlier(dirs, 0, name)
  {}

  lemma SortedIsDistinct(names: seq<string>)
    requires StrictlySorted(names)
    ensures forall i, j :: 0 <= i < j < |names| ==> names[i] != names[j]
  {
    forall i, j | 0 <= i < j < |names| ensures names[i] != names[j] {
      LessTotal(names[i], names[j]);
    }
  }

  lemma AppendedInOrder(dirs: seq<Option<set<string>>>, before: seq<(string, nat)>, names: seq<string>, d: nat,
                        after: seq<(string, nat)>)
    requires InOrder(before) && NamesOnce(before) && Lists(before, dirs, d) && StrictlySorted(names)
    requires after == before + seq(|names|, k requires 0 <= k < |names| => (names[k], d))
    requires forall k, j :: 0 <= k < |names| && 0 <= j < |before| ==> names[k] != before[j].0
    ensures InOrder(after) && NamesOnce(after)
  {
    hide Less, HasFile;
    forall i, j | 0 <= i < j < |after| ensures Before(after[i], after[j]) && after[i].0 != after[j].0 {
      if i < |before| {
        assert before[i] in before && (before[i].0, before[i].1) == before[i];
      }
      LessTotal(after[i].0, after[j].0);
    }
  }

  lemma DirectoryAppends(dirs: seq<Option<set<string>>>, before: seq<(string, nat)>, names: seq<string>, d: nat,
                         after: seq<(string, nat)>)
    requires d < |dirs| && dirs[d].Some? && InOrder(before) && NamesOnce(before) && Lists(before, dirs, d)
    requires StrictlySorted(names) && forall x :: x in names <==> x in dirs[d].value && IsSql(x)
    requires after == before + seq(|names|, k requires 0 <= k < |names| => (names[k], d))
    requires forall k, j :: 0 <= k < |names| && 0 <= j < |before| ==> names[k] != before[j].0
    ensures InOrder(after) && NamesOnce(after) && Lists(after, dirs, d + 1)
  {
    hide Less, IsSql, StrictlySorted;
    AppendedInOrder(dirs, before, names, d, after);
    forall name: string, e: nat ensures (name, e) in after <==> e < d + 1 && HasFile(dirs, e, name) {
      if (name, e) in after {
        var i :| 0 <= i < |after| && after[i] == (name, e);
        if i < |before| { assert before[i] in before; } else { assert names[i - |before|] in names; }
      }
      if e < d && HasFile(dirs, e, name) {
        assert (name, e) in before;
        var i :| 0 <= i < |before| && before[i] == (name, e);
        assert after[i] == (name, e);
      }
      if e == d && HasFile(dirs, e, name) {
        assert name in names;
        var k :| 0 <= k < |names| && names[k] == name;
        assert after[|before| + k] == (name, e);
      }
    }
  }

  // ----- one run -----

  datatype File = File(name: string, sql: string)

  /** A ledger row; `sql` is the text it was written for, which the row's checksum stands for. */
  datatype Row = Row(name: string, checksum: string, sql: string)

  /** `effects`: every piece of SQL that took effect, in order. `ledger`: schema_migrations. */
  datatype Db = Db(effects: seq<string>, ledger: seq<Row>)

  /** `accepts`: whether the database, with that past, runs the SQL without error. */
  datatype Engine = Engine(sha: string -> string, accepts: (seq<string>, string) -> bool)

  datatype Outcome = Done(count: nat) | Edited(name: string) | Failed(name: string)

  function Checksums(ledger: seq<Row>): (m: map<string, string>)
    ensures forall n :: n in m <==> exists i :: 0 <= i < |ledger| && ledger[i].name == n
  {
    if ledger == [] then map[]
    else Checksums(ledger[..|ledger| - 1])[ledger[|ledger| - 1].name := ledger[|ledger| - 1].checksum]
  }

  predicate InLedger(ledger: seq<Row>, name: string) {
    exists i :: 0 <= i < |ledger| && ledger[i].name == name
  }

  /** BEGIN, the SQL, the ledger row, COMMIT; None when any of it fails and is rolled back. */
  function Transaction(engine: Engine, db: Db, f: File): Option<Db> {
    if !engine.accepts(db.effects, f.sql) || InLedger(db.ledger, f.name) then None
    else Some(Db(db.effects + [f.sql], db.ledger + [Row(f.name, engine.sha(f.sql), f.sql)]))
  }

  /** The files from `i` on, against the ledger as it was read. */
  function RunFrom(engine: Engine, files: seq<File>, i: nat, applied: map<string, string>, db: Db, count: nat)
    : (Db, Outcome)
    requires i <= |files|
    decreases |files| - i
  {
    if i == |files| then (db, Done(count))
    else
      var f := files[i];
      if f.name in applied then
        if applied[f.name] != engine.sha(f.sql) then (db, Edited(f.name))
        else RunFrom(engine, files, i + 1, applied, db, count)
      else
        match Transaction(engine, db, f)
        case None => (db, Failed(f.name))
        case Some(next) => RunFrom(engine, files, i + 1, applied, next, count + 1)
  }

  function RunAll(engine: Engine, files: seq<File>, db: Db): (Db, Outcome) {
    RunFrom(engine, files, 0, Checksums(db.ledger), db, 0)
  }

  class Database {
    var db: Db

    method Migrate(engine: Engine, files: seq<File>) returns (outcome: Outcome)
      modifies this
      ensures (db, outcome) == RunAll(engine, files, old(db))
    {
      var applied := Checksums(db.ledger);
      var count := 0;
      var i := 0;
      while i < |files|
        invariant i <= |files|
        invariant RunFrom(engine, files, i, applied, db, count) == RunAll(engine, files, old(db))
      {
        var f := files[i];
        var checksum := engine.sha(f.sql);
        if f.name in applied {
          if applied[f.name] != checksum {
            return Edited(f.name);
          }
          i := i + 1;
          continue;
        }
        var committed := Transaction(engine, db, f);
        if committed == None {
          return Failed(f.name);
        }
        db := committed.value;
        count := count + 1;
        i := i + 1;
      }
      outcome := Done(count);
    }
  }
}
