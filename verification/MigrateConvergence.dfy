/**
 * scripts/migrate.ts, sessions of one deployment: what is applied is always a prefix of the list,
 * and wherever the sessions die, one undisturbed run ends where a first uninterrupted run would.
 */
module MigrateConvergence {
  import opened Text
  import opened Migrate
  import opened MigrateProtocol

  ghost predicate DistinctNames(files: seq<File>) {
    forall i, j :: 0 <= i < j < |files| ==> files[i].name != files[j].name
  }

  function RowsOf(engine: Engine, files: seq<File>): (rows: seq<Row>)
    ensures |rows| == |files|
    ensures forall i :: 0 <= i < |files| ==> rows[i] == Row(files[i].name, engine.sha(files[i].sql), files[i].sql)
  {
    seq(|files|, i requires 0 <= i < |files| => Row(files[i].name, engine.sha(files[i].sql), files[i].sql))
  }

  /** A database over `base` to which exactly the first `n` files were applied. */
  function At(engine: Engine, base: seq<string>, files: seq<File>, n: nat): Db
    requires n <= |files|
  {
    Db(base + Sqls(RowsOf(engine, files[..n])), RowsOf(engine, files[..n]))
  }

  ghost predicate Accepted(engine: Engine, base: seq<string>, files: seq<File>, k: nat)
    requires k < |files|
  {
    engine.accepts(At(engine, base, files, k).effects, files[k].sql)
  }

  lemma LedgerAt(engine: Engine, base: seq<string>, files: seq<File>, n: nat)
    requires n <= |files|
    ensures At(engine, base, files, n).ledger == RowsOf(engine, files[..n])
  {}

  lemma AtNext(engine: Engine, base: seq<string>, files: seq<File>, n: nat)
    requires n < |files| && DistinctNames(files)
    ensures var db := At(engine, base, files, n);
            Transaction(engine, db, files[n])
            == (if Accepted(engine, base, files, n) then Some(At(engine, base, files, n + 1)) else None)
    ensures var db := At(engine, base, files, n); var f := files[n];
            Db(db.effects + [f.sql], db.ledger + [Row(f.name, engine.sha(f.sql), f.sql)])
              == At(engine, base, files, n + 1)
    ensures !InLedger(At(engine, base, files, n).ledger, files[n].name)
  {
    var rows := RowsOf(engine, files[..n]);
    assert files[..n + 1] == files[..n] + [files[n]];
    assert RowsOf(engine, files[..n + 1]) == rows + [Row(files[n].name, engine.sha(files[n].sql), files[n].sql)];
    assert Sqls(RowsOf(engine, files[..n + 1])) == Sqls(rows) + [files[n].sql];
    forall i | 0 <= i < n ensures rows[i].name != files[n].name { assert rows[i].name == files[i].name; }
    assert base + (Sqls(rows) + [files[n].sql]) == (base + Sqls(rows)) + [files[n].sql];
  }

  lemma LastRow(engine: Engine, files: seq<File>, m: nat)
    requires 0 < m <= |files|
    ensures var rows, last := RowsOf(engine, files[..m]), files[m - 1];
            && rows[..m - 1] == RowsOf(engine, files[..m - 1])
            && rows[m - 1] == Row(last.name, engine.sha(last.sql), last.sql)
  {
    assert files[..m][..m - 1] == files[..m - 1];
  }

  /** The ledger as a map: the first `m` files with their checksums. */
  lemma {:induction false} ChecksumsOfPrefix(engine: Engine, files: seq<File>, m: nat, k: nat)
    requires m <= |files| && k < |files| && DistinctNames(files)
    ensures var c := Checksums(RowsOf(engine, files[..m]));
            (files[k].name in c <==> k < m) && (k < m ==> c[files[k].name] == engine.sha(files[k].sql))
  {
    if m > 0 {
      ChecksumsOfPrefix(engine, files, m - 1, k);
      LastRow(engine, files, m);
      hide RowsOf;
    } else {
      assert RowsOf(engine, files[..0]) == [];
    }
  }

  // ----- every reachable state -----

  /** A session's view while it works: it read the ledger when `m` files were in it. */
  ghost predicate Working(engine: Engine, files: seq<File>, n: nat, pc: Pc, m: nat) {
    match pc
    case Running(applied, next, _) =>
      m <= n <= |files| && applied == Checksums(RowsOf(engine, files[..m])) && next <= |files|
      && n == (if m < next then next else m)
    case InTransaction(applied, next, _) =>
      m <= n == next < |files| && applied == Checksums(RowsOf(engine, files[..m]))
    case _ => false
  }

  /** A session that ended well had nothing more to do; one may fail at any file, for a passing reason too. */
  ghost predicate Finished(engine: Engine, base: seq<string>, files: seq<File>, n: nat, o: Outcome) {
    match o
    case Done(_) => n == |files|
    case Failed(_) => true
    case Edited(_) => false
  }

  ghost predicate SessionOk(engine: Engine, base: seq<string>, files: seq<File>, n: nat, w: Runner) {
    w.files == files &&
    match w.pc
    case Running(_, _, _) => exists m :: Working(engine, files, n, w.pc, m)
    case InTransaction(_, _, _) =>
      (exists m :: Working(engine, files, n, w.pc, m)) && n < |files| && Accepted(engine, base, files, n)
    case Ended(o) => Finished(engine, base, files, n, o)
    case _ => true
  }

  ghost predicate Inv(engine: Engine, base: seq<string>, files: seq<File>, n0: nat, s: State) {
    var n := |s.db.ledger|;
    && Exclusive(s)
    && n0 <= n <= |files| && s.db == At(engine, base, files, n)
    && (forall k :: n0 <= k < n ==> Accepted(engine, base, files, k))
    && forall r :: r in s.runners ==> SessionOk(engine, base, files, n, s.runners[r])
  }

  /** Every session of the run works from this list. */
  ghost predicate OneList(files: seq<File>, run: seq<State>) {
    forall i, r :: 0 <= i < |run| && r in run[i].runners ==> run[i].runners[r].files == files
  }

  lemma WorkingNext(engine: Engine, files: seq<File>, n: nat, pc: Pc, m: nat)
    requires DistinctNames(files) && Working(engine, files, n, pc, m) && pc.Running? && pc.next < |files|
    ensures files[pc.next].name in pc.applied <==> pc.next < m
    ensures pc.next < m ==> pc.applied[files[pc.next].name] == engine.sha(files[pc.next].sql)
                            && Working(engine, files, n, Running(pc.applied, pc.next + 1, pc.count), m)
    ensures m <= pc.next ==> n == pc.next && Working(engine, files, n, InTransaction(pc.applied, pc.next, pc.count), m)
  {
    ChecksumsOfPrefix(engine, files, m, pc.next);
  }

  /** The step of a session that is inside, on itself. */
  lemma OwnStep(engine: Engine, base: seq<string>, files: seq<File>, n0: nat, s: State, step: Step, t: State)
    requires DistinctNames(files) && Inv(engine, base, files, n0, s) && Next(engine, s, step, t)
    requires step.Skip? || step.Refuse? || step.Exec? || step.ExecFails? || step.Interrupt? || step.Finish?
    ensures t.db == s.db && SessionOk(engine, base, files, |s.db.ledger|, t.runners[step.r])
    ensures !step.Refuse?
  {
    hide At, Checksums, RowsOf, Exclusive, InLedger, DistinctNames;
    var n, w := |s.db.ledger|, s.runners[step.r];
    assert SessionOk(engine, base, files, n, w);
    var m :| Working(engine, files, n, w.pc, m);
    if w.pc.Running? && w.pc.next < |files| {
      WorkingNext(engine, files, n, w.pc, m);
    }
    if step.Skip? {
      assert Working(engine, files, n, t.runners[step.r].pc, m);
    } else if step.Exec? {
      assert Working(engine, files, n, t.runners[step.r].pc, m);
    }
  }

  lemma ReadingStep(engine: Engine, base: seq<string>, files: seq<File>, n0: nat, s: State, step: Step, t: State)
    requires Inv(engine, base, files, n0, s) && Next(engine, s, step, t) && step.ReadLedger?
    ensures t.db == s.db && SessionOk(engine, base, files, |s.db.ledger|, t.runners[step.r])
  {
    assert SessionOk(engine, base, files, |s.db.ledger|, s.runners[step.r]);
    assert Working(engine, files, |s.db.ledger|, t.runners[step.r].pc, |s.db.ledger|);
  }

  lemma CommitStep(engine: Engine, base: seq<string>, files: seq<File>, n0: nat, s: State, step: Step, t: State)
    requires DistinctNames(files) && Inv(engine, base, files, n0, s) && Next(engine, s, step, t)
    requires step.Commit? || step.CommitFails?
    ensures step.Commit? && Inv(engine, base, files, n0, t)
  {
    hide At, Checksums, RowsOf, InLedger;
    StepKeepsExclusive(engine, s, step, t);
    var n, w := |s.db.ledger|, s.runners[step.r];
    assert SessionOk(engine, base, files, n, w);
    var m :| Working(engine, files, n, w.pc, m);
    AtNext(engine, base, files, n);
    assert step.Commit?;
    assert t.db == At(engine, base, files, n + 1);
    assert Working(engine, files, n + 1, t.runners[step.r].pc, m);
    forall r | r in t.runners ensures SessionOk(engine, base, files, n + 1, t.runners[r]) {
      if r != step.r {
        BystanderAtCommit(engine, base, files, s, step.r, r);
        assert t.runners[r] == s.runners[r];
      }
    }
  }

  /** While one session commits no other is inside, nor has one already finished. */
  lemma BystanderAtCommit(engine: Engine, base: seq<string>, files: seq<File>, s: State, who: nat, r: nat)
    requires Exclusive(s) && who in s.runners && r in s.runners && r != who
    requires |s.db.ledger| < |files| && Critical(s.runners[who].pc)
    requires Accepted(engine, base, files, |s.db.ledger|)
    requires SessionOk(engine, base, files, |s.db.ledger|, s.runners[r])
    ensures SessionOk(engine, base, files, |s.db.ledger| + 1, s.runners[r])
  {}

  lemma StepKeepsInv(engine: Engine, base: seq<string>, files: seq<File>, n0: nat, s: State, step: Step, t: State)
    requires DistinctNames(files) && Inv(engine, base, files, n0, s) && Next(engine, s, step, t)
    requires step.Start? ==> step.files == files
    ensures Inv(engine, base, files, n0, t)
  {
    hide At, Accepted, Working, Finished;
    if step.Commit? || step.CommitFails? {
      CommitStep(engine, base, files, n0, s, step, t);
    } else {
      if step.ReadLedger? {
        ReadingStep(engine, base, files, n0, s, step, t);
      } else if step.Skip? || step.Refuse? || step.Exec? || step.ExecFails? || step.Interrupt? || step.Finish? {
        OwnStep(engine, base, files, n0, s, step, t);
      }
      StepKeepsExclusive(engine, s, step, t);
      OthersKept(engine, base, files, n0, s, step, t);
    }
  }

  lemma OthersKept(engine: Engine, base: seq<string>, files: seq<File>, n0: nat, s: State, step: Step, t: State)
    requires Inv(engine, base, files, n0, s) && Next(engine, s, step, t) && !step.Commit?
    requires step.Start? ==> step.files == files
    requires step.ReadLedger? || step.Skip? || step.Refuse? || step.Exec? || step.ExecFails? || step.Interrupt?
             || step.Finish? || step.CommitFails? ==>
               SessionOk(engine, base, files, |s.db.ledger|, t.runners[step.r])
    ensures t.db == s.db && forall r :: r in t.runners ==> SessionOk(engine, base, files, |s.db.ledger|, t.runners[r])
  {
    hide Exclusive, At, Accepted, Working, Finished, Critical, InLedger, Checksums;
    forall r | r in t.runners ensures SessionOk(engine, base, files, |s.db.ledger|, t.runners[r]) {
      assert r in s.runners ==> SessionOk(engine, base, files, |s.db.ledger|, s.runners[r]);
    }
  }

  lemma {:induction false} RunKeepsInv(engine: Engine, base: seq<string>, files: seq<File>, n0: nat, run: seq<State>,
                                       i: nat)
    requires DistinctNames(files) && n0 <= |files| && OneList(files, run) && i < |run|
    requires IsRun(engine, At(engine, base, files, n0), run)
    ensures Inv(engine, base, files, n0, run[i])
  {
    if i > 0 {
      RunKeepsInv(engine, base, files, n0, run, i - 1);
      assert CanStep(engine, run[i - 1], run[i]);
      var step :| Next(engine, run[i - 1], step, run[i]);
      if step.Start? {
        assert run[i].runners[step.r].files == step.files;
      }
      StepKeepsInv(engine, base, files, n0, run[i - 1], step, run[i]);
    }
  }

  // ----- one undisturbed run -----

  /** Past the files that any earlier ledger held, only the names still to come matter. */
  lemma {:induction false} LaterLedgerSameEnd(engine: Engine, files: seq<File>, i: nat, a: map<string, string>,
                                              b: map<string, string>, db: Db, c: nat, d: nat)
    requires i <= |files| && forall k :: i <= k < |files| ==> files[k].name !in a && files[k].name !in b
    ensures RunFrom(engine, files, i, a, db, c).0 == RunFrom(engine, files, i, b, db, d).0
    decreases |files| - i
  {
    if i < |files| {
      var next := Transaction(engine, db, files[i]);
      if next.Some? { LaterLedgerSameEnd(engine, files, i + 1, a, b, next.value, c + 1, d + 1); }
    }
  }

  /** A run over a database with `m` files skips just those. */
  lemma {:induction false} SkipsApplied(engine: Engine, base: seq<string>, files: seq<File>, m: nat, i: nat, count: nat)
    requires DistinctNames(files) && i <= m <= |files|
    ensures var db := At(engine, base, files, m); var c := Checksums(db.ledger);
            RunFrom(engine, files, i, c, db, count) == RunFrom(engine, files, m, c, db, count)
    decreases m - i
  {
    if i < m {
      ChecksumsOfPrefix(engine, files, m, i);
      SkipsApplied(engine, base, files, m, i + 1, count);
    }
  }

  /** A run that started with `m` files in and meets accepted ones gets to `n`. */
  lemma {:induction false} AppliesAccepted(engine: Engine, base: seq<string>, files: seq<File>, m: nat, i: nat,
                                           n: nat, count: nat)
    requires DistinctNames(files) && m <= i <= n <= |files|
    requires forall k :: i <= k < n ==> Accepted(engine, base, files, k)
    ensures var c := Checksums(At(engine, base, files, m).ledger);
            RunFrom(engine, files, i, c, At(engine, base, files, i), count)
            == RunFrom(engine, files, n, c, At(engine, base, files, n), count + (n - i))
    decreases n - i
  {
    hide At, Checksums, RowsOf, DistinctNames;
    LedgerAt(engine, base, files, m);
    if i < n {
      ChecksumsOfPrefix(engine, files, m, i);
      AtNext(engine, base, files, i);
      AppliesAccepted(engine, base, files, m, i + 1, n, count + 1);
    }
  }

  /** From `m` files in, through accepted ones, a run ends where a run from `n` files in ends. */
  lemma SameEnd(engine: Engine, base: seq<string>, files: seq<File>, m: nat, n: nat)
    requires DistinctNames(files) && m <= n <= |files|
    requires forall k :: m <= k < n ==> Accepted(engine, base, files, k)
    ensures RunAll(engine, files, At(engine, base, files, m)).0 == RunAll(engine, files, At(engine, base, files, n)).0
  {
    hide At, Checksums, RunFrom, Accepted, RowsOf, DistinctNames;
    var a, b := Checksums(At(engine, base, files, m).ledger), Checksums(At(engine, base, files, n).ledger);
    LedgerAt(engine, base, files, m);
    LedgerAt(engine, base, files, n);
    SkipsApplied(engine, base, files, m, 0, 0);
    AppliesAccepted(engine, base, files, m, m, n, 0);
    SkipsApplied(engine, base, files, n, 0, 0);
    forall k | n <= k < |files| ensures files[k].name !in a && files[k].name !in b {
      ChecksumsOfPrefix(engine, files, m, k);
      ChecksumsOfPrefix(engine, files, n, k);
    }
    LaterLedgerSameEnd(engine, files, n, a, b, At(engine, base, files, n), n - m, 0);
  }

  /**
   * In every reachable state the applied files are a prefix of the list, applied in its order;
   * one undisturbed run from there ends in the database a first uninterrupted run would leave;
   * that database is reached exactly when no file is left or the next one is refused for good;
   * and a session that ended well has left it behind.
   */
  lemma Converges(engine: Engine, base: seq<string>, files: seq<File>, n0: nat, run: seq<State>, i: nat)
    requires DistinctNames(files) && n0 <= |files| && OneList(files, run) && i < |run|
    requires IsRun(engine, At(engine, base, files, n0), run)
    ensures var n := |run[i].db.ledger|; n0 <= n <= |files| && run[i].db == At(engine, base, files, n)
    ensures var whole := RunAll(engine, files, At(engine, base, files, n0)).0;
            RunAll(engine, files, run[i].db).0 == whole &&
            var n := |run[i].db.ledger|;
            (run[i].db == whole <==> n == |files| || !Accepted(engine, base, files, n)) &&
            forall r :: r in run[i].runners && run[i].runners[r].pc.Ended? && run[i].runners[r].pc.outcome.Done? ==>
              run[i].db == whole
  {
    hide IsRun, At, RunAll, Accepted, Working, DistinctNames;
    RunKeepsInv(engine, base, files, n0, run, i);
    var n := |run[i].db.ledger|;
    SameEnd(engine, base, files, n0, n);
    FinalIff(engine, base, files, n);
    forall r | r in run[i].runners && run[i].runners[r].pc.Ended? && run[i].runners[r].pc.outcome.Done?
      ensures n == |files|
    {
      assert SessionOk(engine, base, files, n, run[i].runners[r]);
    }
  }

  lemma {:induction false} RunGrows(engine: Engine, files: seq<File>, i: nat, applied: map<string, string>, db: Db,
                                    count: nat)
    requires i <= |files|
    ensures |db.ledger| <= |RunFrom(engine, files, i, applied, db, count).0.ledger|
    decreases |files| - i
  {
    if i < |files| {
      RunGrows(engine, files, i + 1, applied, db, count);
      var next := Transaction(engine, db, files[i]);
      if next.Some? { RunGrows(engine, files, i + 1, applied, next.value, count + 1); }
    }
  }

  /** A run over a database with `n` files in changes nothing exactly when none is left or the next is refused. */
  lemma FinalIff(engine: Engine, base: seq<string>, files: seq<File>, n: nat)
    requires DistinctNames(files) && n <= |files|
    ensures RunAll(engine, files, At(engine, base, files, n)).0 == At(engine, base, files, n)
            <==> n == |files| || !Accepted(engine, base, files, n)
  {
    hide At, Checksums, Accepted, RowsOf, DistinctNames, Transaction;
    LedgerAt(engine, base, files, n);
    SkipsApplied(engine, base, files, n, 0, 0);
    if n < |files| {
      AtNext(engine, base, files, n);
      ChecksumsOfPrefix(engine, files, n, n);
      LedgerAt(engine, base, files, n + 1);
      RunGrows(engine, files, n + 1, Checksums(At(engine, base, files, n).ledger), At(engine, base, files, n + 1), 1);
    }
  }

  /** A killed session never blocks the next: without a live holder the lock is free. */
  lemma LockNeedsALiveHolder(engine: Engine, start: Db, run: seq<State>, i: nat)
    requires IsRun(engine, start, run) && i < |run|
    ensures Exclusive(run[i])
    ensures (forall r :: r in run[i].runners ==> !Critical(run[i].runners[r].pc)) ==> run[i].lock.None?
  {
    if i > 0 {
      LockNeedsALiveHolder(engine, start, run, i - 1);
      assert CanStep(engine, run[i - 1], run[i]);
      var step :| Next(engine, run[i - 1], step, run[i]);
      StepKeepsExclusive(engine, run[i - 1], step, run[i]);
    }
  }
}
