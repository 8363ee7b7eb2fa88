/**
 * scripts/migrate.ts, the steps of one session against the run as a whole: a session that nobody
 * disturbs ends, and ends where the run as one function says, from whatever point it is left alone at.
 */
module MigrateAlone {
  import opened Text
  import opened Migrate
  import opened MigrateProtocol
  import opened MigrateConvergence

  /** The session's own steps but dying, giving up on the lock and failing for a passing reason. */
  ghost predicate Undisturbed(step: Step, r: nat) {
    step.r == r && !(step.Start? || step.Crash? || step.TimeOut? || step.Interrupt?)
  }

  /** Still in its list, and free to go on: a waiting session has the lock to take. */
  ghost predicate MayGoOn(s: State, r: nat) {
    r in s.runners &&
    var files := s.runners[r].files;
    match s.runners[r].pc
    case Waiting => s.lock.None?
    case Locked => true
    case Running(_, next, _) => next <= |files|
    case InTransaction(_, next, _) => next < |files|
    case Ended(_) => true
    case TimedOut => false
  }

  /** Where the session will end if nobody disturbs it, by the run as a function. */
  ghost function Outlook(engine: Engine, s: State, r: nat): (Db, Outcome)
    requires MayGoOn(s, r)
  {
    var files := s.runners[r].files;
    match s.runners[r].pc
    case Ended(o) => (s.db, o)
    case Running(applied, next, count) => RunFrom(engine, files, next, applied, s.db, count)
    case InTransaction(applied, next, count) =>
      var f := files[next];
      if InLedger(s.db.ledger, f.name) then (s.db, Failed(f.name))
      else RunFrom(engine, files, next + 1, applied, Applied(engine, s.db, f), count + 1)
    case _ => RunAll(engine, files, s.db)
  }

  function Applied(engine: Engine, db: Db, f: File): Db {
    Db(db.effects + [f.sql], db.ledger + [Row(f.name, engine.sha(f.sql), f.sql)])
  }

  /** How many steps the session has at most left. */
  ghost function Left(s: State, r: nat): nat
    requires MayGoOn(s, r)
  {
    var n := |s.runners[r].files|;
    match s.runners[r].pc
    case Ended(_) => 0
    case Running(_, next, _) => 2 * (n - next) + 1
    case InTransaction(_, next, _) => 2 * (n - next)
    case Locked => 2 * n + 2
    case _ => 2 * n + 3
  }

  lemma StepKeepsOutlook(engine: Engine, s: State, r: nat, step: Step, t: State)
    requires MayGoOn(s, r) && Undisturbed(step, r) && Next(engine, s, step, t)
    ensures MayGoOn(t, r) && Outlook(engine, t, r) == Outlook(engine, s, r)
    ensures Left(t, r) < Left(s, r)
  {
    hide InLedger, Checksums;
  }

  /** A session that has not ended has a step to take. */
  lemma StepsOn(engine: Engine, s: State, r: nat) returns (step: Step, t: State)
    requires MayGoOn(s, r) && !s.runners[r].pc.Ended?
    ensures Undisturbed(step, r) && Next(engine, s, step, t)
  {
    hide InLedger, Checksums;
    var w := s.runners[r];
    match w.pc
    case Waiting =>
      step, t := Acquire(r), Goes(s, r, Locked).(lock := Some(r));
    case Locked =>
      step, t := ReadLedger(r), Goes(s, r, Running(Checksums(s.db.ledger), 0, 0));
    case Running(applied, next, count) =>
      if next == |w.files| {
        step, t := Finish(r), Ends(s, r, Done(count));
      } else {
        var f := w.files[next];
        if f.name in applied {
          if applied[f.name] == engine.sha(f.sql) {
            step, t := Skip(r), Goes(s, r, Running(applied, next + 1, count));
          } else {
            step, t := Refuse(r), Ends(s, r, Edited(f.name));
          }
        } else if engine.accepts(s.db.effects, f.sql) {
          step, t := Exec(r), Goes(s, r, InTransaction(applied, next, count));
        } else {
          step, t := ExecFails(r), Ends(s, r, Failed(f.name));
        }
      }
    case InTransaction(applied, next, count) =>
      var f := w.files[next];
      if InLedger(s.db.ledger, f.name) {
        step, t := CommitFails(r), Ends(s, r, Failed(f.name));
      } else {
        step := Commit(r);
        t := Goes(s, r, Running(applied, next + 1, count + 1)).(db := Applied(engine, s.db, f));
      }
  }

  /** A stretch of a run in which only this session moves, undisturbed. */
  ghost predicate Alone(engine: Engine, r: nat, tail: seq<State>) {
    tail != [] && forall i :: 0 <= i < |tail| - 1 ==> StepsAlone(engine, r, tail[i], tail[i + 1])
  }

  ghost predicate StepsAlone(engine: Engine, r: nat, s: State, t: State) {
    exists step :: Undisturbed(step, r) && Next(engine, s, step, t)
  }

  ghost predicate EndsAlone(engine: Engine, r: nat, tail: seq<State>) {
    tail != [] && Alone(engine, r, tail) && var last := tail[|tail| - 1]; r in last.runners && last.runners[r].pc.Ended?
  }

  /** The step relation agrees with the function: a session left alone is always on its way to RunAll's end. */
  lemma {:induction false} AloneKeepsOutlook(engine: Engine, r: nat, tail: seq<State>, j: nat)
    requires Alone(engine, r, tail) && MayGoOn(tail[0], r) && j < |tail|
    ensures MayGoOn(tail[j], r) && Outlook(engine, tail[j], r) == Outlook(engine, tail[0], r)
    ensures Left(tail[j], r) + j <= Left(tail[0], r)
  {
    hide Outlook, Next, MayGoOn, Undisturbed, Left;
    if j > 0 {
      AloneKeepsOutlook(engine, r, tail, j - 1);
      assert StepsAlone(engine, r, tail[j - 1], tail[j]);
      var step :| Undisturbed(step, r) && Next(engine, tail[j - 1], step, tail[j]);
      StepKeepsOutlook(engine, tail[j - 1], r, step, tail[j]);
    }
  }

  /** Left alone, a session does end. */
  lemma {:induction false} AloneReachesEnd(engine: Engine, s: State, r: nat) returns (tail: seq<State>)
    requires MayGoOn(s, r)
    ensures EndsAlone(engine, r, tail) && tail[0] == s
    decreases Left(s, r)
  {
    hide Next, Undisturbed, Outlook;
    if s.runners[r].pc.Ended? {
      tail := [s];
    } else {
      var step, t := StepsOn(engine, s, r);
      assert StepsAlone(engine, r, s, t);
      StepKeepsOutlook(engine, s, r, step, t);
      hide StepsAlone, Left, MayGoOn;
      var rest := AloneReachesEnd(engine, t, r);
      tail := [s] + rest;
      forall i | 0 <= i < |tail| - 1 ensures StepsAlone(engine, r, tail[i], tail[i + 1]) {
        if i > 0 { assert StepsAlone(engine, r, rest[i - 1], rest[i]); }
      }
    }
  }

  /** And every way of being left alone till the end gives the function's database and outcome. */
  lemma AloneEndsAsRunAll(engine: Engine, s: State, r: nat, tail: seq<State>)
    requires MayGoOn(s, r) && (s.runners[r].pc.Waiting? || s.runners[r].pc.Locked?)
    requires EndsAlone(engine, r, tail) && tail[0] == s
    ensures var last := tail[|tail| - 1];
            (last.db, last.runners[r].pc.outcome) == RunAll(engine, s.runners[r].files, s.db) && last.lock.None?
    ensures |tail| <= 2 * |s.runners[r].files| + 4
  {
    hide RunAll, Alone;
    AloneKeepsOutlook(engine, r, tail, |tail| - 1);
    LastFreesLock(engine, r, tail);
  }

  lemma LastFreesLock(engine: Engine, r: nat, tail: seq<State>)
    requires EndsAlone(engine, r, tail) && r in tail[0].runners && !tail[0].runners[r].pc.Ended?
    ensures tail[|tail| - 1].lock.None?
  {
    var n := |tail|;
    assert StepsAlone(engine, r, tail[n - 2], tail[n - 1]);
    var step :| Undisturbed(step, r) && Next(engine, tail[n - 2], step, tail[n - 1]);
  }

  // ----- from anywhere -----

  /** A session that is inside has a view from which its run ends as one begun afresh would. */
  lemma InsideSameEnd(engine: Engine, base: seq<string>, files: seq<File>, n0: nat, s: State, r: nat)
    requires DistinctNames(files) && Inv(engine, base, files, n0, s) && r in s.runners
    requires Critical(s.runners[r].pc) || (s.runners[r].pc.Waiting? && s.lock.None?)
    ensures MayGoOn(s, r) && Outlook(engine, s, r).0 == RunAll(engine, files, s.db).0
  {
    hide At, RowsOf, Checksums, RunFrom, Accepted, Exclusive, DistinctNames, InLedger;
    var n, w := |s.db.ledger|, s.runners[r];
    assert SessionOk(engine, base, files, n, w);
    match w.pc
    case Running(applied, next, count) =>
      var m :| Working(engine, files, n, w.pc, m);
      RunningSameEnd(engine, base, files, m, next, count);
    case InTransaction(applied, next, count) =>
      var m :| Working(engine, files, n, w.pc, m);
      AtNext(engine, base, files, n);
      SameEnd(engine, base, files, n, n + 1);
      RunningSameEnd(engine, base, files, m, n + 1, count + 1);
    case _ =>
  }

  lemma RunningSameEnd(engine: Engine, base: seq<string>, files: seq<File>, m: nat, next: nat, count: nat)
    requires DistinctNames(files) && m <= |files| && next <= |files|
    ensures var n := if m < next then next else m; var db := At(engine, base, files, n);
            RunFrom(engine, files, next, Checksums(RowsOf(engine, files[..m])), db, count).0
            == RunAll(engine, files, db).0
  {
    hide At, RowsOf, Checksums, RunFrom, DistinctNames;
    var n := if m < next then next else m;
    var a, b := Checksums(RowsOf(engine, files[..m])), Checksums(RowsOf(engine, files[..n]));
    LedgerAt(engine, base, files, m);
    LedgerAt(engine, base, files, n);
    if m >= next { SkipsApplied(engine, base, files, m, next, count); }
    SkipsApplied(engine, base, files, n, 0, 0);
    forall k | n <= k < |files| ensures files[k].name !in a && files[k].name !in b {
      ChecksumsOfPrefix(engine, files, m, k);
      ChecksumsOfPrefix(engine, files, n, k);
    }
    LaterLedgerSameEnd(engine, files, n, a, b, At(engine, base, files, n), count, 0);
  }

  /**
   * Wherever the sessions of one list are: one of them that is inside, or waits for a free lock, and is then
   * left alone, ends, and the database it leaves is the one a single uninterrupted run would have left.
   */
  lemma LeftAloneConverges(engine: Engine, base: seq<string>, files: seq<File>, n0: nat, run: seq<State>, i: nat,
                           r: nat, tail: seq<State>)
    requires DistinctNames(files) && n0 <= |files| && OneList(files, run) && i < |run|
    requires IsRun(engine, At(engine, base, files, n0), run) && r in run[i].runners
    requires Critical(run[i].runners[r].pc) || (run[i].runners[r].pc.Waiting? && run[i].lock.None?)
    requires EndsAlone(engine, r, tail) && tail[0] == run[i]
    ensures tail[|tail| - 1].db == RunAll(engine, files, At(engine, base, files, n0)).0
    ensures tail[|tail| - 1].lock.None?
  {
    hide IsRun, OneList, At, RunAll, Inv, DistinctNames, Alone;
    RunKeepsInv(engine, base, files, n0, run, i);
    Converges(engine, base, files, n0, run, i);
    InsideSameEnd(engine, base, files, n0, run[i], r);
    AloneKeepsOutlook(engine, r, tail, |tail| - 1);
    LastFreesLock(engine, r, tail);
  }
}
