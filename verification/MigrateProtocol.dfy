/**
 * scripts/migrate.ts run by several sessions at once, each of which may die at any point: the
 * advisory lock, the ledger and one transaction per file make every migration happen once.
 */
module MigrateProtocol {
  import opened Text
  import opened Migrate

  datatype Pc =
    | Waiting
    | Locked
    | Running(applied: map<string, string>, next: nat, count: nat)
    | InTransaction(applied: map<string, string>, next: nat, count: nat)
    | Ended(outcome: Outcome)
    | TimedOut

  datatype Runner = Runner(files: seq<File>, pc: Pc)

  /** `lock` is the session that holds the advisory lock; it goes with the session. */
  datatype State = State(db: Db, lock: Option<nat>, runners: map<nat, Runner>)

  datatype Step =
    | Start(r: nat, files: seq<File>)
    | Acquire(r: nat)
    | TimeOut(r: nat)
    | ReadLedger(r: nat)
    | Skip(r: nat)
    | Refuse(r: nat)
    | Exec(r: nat)
    | ExecFails(r: nat)
    | Commit(r: nat)
    | CommitFails(r: nat)
    | Interrupt(r: nat)
    | Finish(r: nat)
    | Crash(r: nat)

  function Goes(s: State, r: nat, pc: Pc): State
    requires r in s.runners
  {
    s.(runners := s.runners[r := s.runners[r].(pc := pc)])
  }

  function Ends(s: State, r: nat, o: Outcome): State
    requires r in s.runners
  {
    Goes(s, r, Ended(o)).(lock := None)
  }

  /** The file a running session is at. */
  ghost predicate AtFile(s: State, r: nat) {
    r in s.runners && s.runners[r].pc.Running? && s.runners[r].pc.next < |s.runners[r].files|
  }

  /** At a file it has not found in the ledger, before its transaction or inside it. */
  ghost predicate AtNewFile(s: State, r: nat) {
    r in s.runners && match s.runners[r].pc
                      case Running(applied, next, _) =>
                        next < |s.runners[r].files| && s.runners[r].files[next].name !in applied
                      case InTransaction(_, next, _) => next < |s.runners[r].files|
                      case _ => false
  }

  ghost predicate Next(engine: Engine, s: State, step: Step, t: State) {
    match step
    case Start(r, files) => r !in s.runners && t == s.(runners := s.runners[r := Runner(files, Waiting)])
    case Acquire(r) =>
      r in s.runners && s.runners[r].pc.Waiting? && s.lock.None? && t == Goes(s, r, Locked).(lock := Some(r))
    case TimeOut(r) => r in s.runners && s.runners[r].pc.Waiting? && t == Goes(s, r, TimedOut)
    case ReadLedger(r) =>
      r in s.runners && s.runners[r].pc.Locked? && t == Goes(s, r, Running(Checksums(s.db.ledger), 0, 0))
    case Skip(r) =>
      AtFile(s, r) && var pc, f := s.runners[r].pc, s.runners[r].files[s.runners[r].pc.next];
      f.name in pc.applied && pc.applied[f.name] == engine.sha(f.sql)
      && t == Goes(s, r, Running(pc.applied, pc.next + 1, pc.count))
    case Refuse(r) =>
      AtFile(s, r) && var pc, f := s.runners[r].pc, s.runners[r].files[s.runners[r].pc.next];
      f.name in pc.applied && pc.applied[f.name] != engine.sha(f.sql) && t == Ends(s, r, Edited(f.name))
    case Exec(r) =>
      AtFile(s, r) && var pc, f := s.runners[r].pc, s.runners[r].files[s.runners[r].pc.next];
      f.name !in pc.applied && engine.accepts(s.db.effects, f.sql)
      && t == Goes(s, r, InTransaction(pc.applied, pc.next, pc.count))
    case ExecFails(r) =>
      AtFile(s, r) && var pc, f := s.runners[r].pc, s.runners[r].files[s.runners[r].pc.next];
      f.name !in pc.applied && !engine.accepts(s.db.effects, f.sql) && t == Ends(s, r, Failed(f.name))
    case Commit(r) =>
      r in s.runners && s.runners[r].pc.InTransaction? && s.runners[r].pc.next < |s.runners[r].files| &&
      var pc, f := s.runners[r].pc, s.runners[r].files[s.runners[r].pc.next];
      !InLedger(s.db.ledger, f.name) &&
      t == Goes(s, r, Running(pc.applied, pc.next + 1, pc.count + 1)).(
             db := Db(s.db.effects + [f.sql], s.db.ledger + [Row(f.name, engine.sha(f.sql), f.sql)]))
    case CommitFails(r) =>
      r in s.runners && s.runners[r].pc.InTransaction? && s.runners[r].pc.next < |s.runners[r].files| &&
      var f := s.runners[r].files[s.runners[r].pc.next];
      InLedger(s.db.ledger, f.name) && t == Ends(s, r, Failed(f.name))
    case Interrupt(r) =>
      // A statement fails for a passing reason, such as the session's own lock timeout.
      AtNewFile(s, r) && t == Ends(s, r, Failed(s.runners[r].files[s.runners[r].pc.next].name))
    case Finish(r) =>
      r in s.runners && s.runners[r].pc.Running? && s.runners[r].pc.next == |s.runners[r].files|
      && t == Ends(s, r, Done(s.runners[r].pc.count))
    case Crash(r) =>
      r in s.runners
      && t == s.(runners := s.runners - {r}, lock := if s.lock == Some(r) then None else s.lock)
  }

  ghost predicate CanStep(engine: Engine, s: State, t: State) {
    exists step :: Next(engine, s, step, t)
  }

  ghost predicate IsRun(engine: Engine, start: Db, run: seq<State>) {
    run != [] && run[0] == State(start, None, map[]) &&
    forall i :: 0 <= i < |run| - 1 ==> CanStep(engine, run[i], run[i + 1])
  }

  predicate Critical(pc: Pc) {
    pc.Locked? || pc.Running? || pc.InTransaction?
  }

  /** The lock holder is the one session inside. */
  ghost predicate Exclusive(s: State) {
    && (forall r :: r in s.runners && Critical(s.runners[r].pc) ==> s.lock == Some(r))
    && (s.lock.Some? ==> s.lock.value in s.runners && Critical(s.runners[s.lock.value].pc))
  }

  lemma StepKeepsExclusive(engine: Engine, s: State, step: Step, t: State)
    requires Exclusive(s) && Next(engine, s, step, t)
    ensures Exclusive(t)
  {}

  // ----- whatever lists the sessions bring -----

  function Sqls(rows: seq<Row>): (sqls: seq<string>)
    ensures |sqls| == |rows| && forall i :: 0 <= i < |rows| ==> sqls[i] == rows[i].sql
  {
    seq(|rows|, i requires 0 <= i < |rows| => rows[i].sql)
  }

  /** What took effect since `start` is the SQL of the rows added since, once each, no name twice. */
  ghost predicate LedgerIsTruth(engine: Engine, start: Db, db: Db) {
    && |start.ledger| <= |db.ledger| && db.ledger[..|start.ledger|] == start.ledger
    && db.effects == start.effects + Sqls(db.ledger[|start.ledger|..])
    && (forall i :: |start.ledger| <= i < |db.ledger| ==> db.ledger[i].checksum == engine.sha(db.ledger[i].sql))
    && (forall i, j :: 0 <= i < j < |db.ledger| && |start.ledger| <= j ==> db.ledger[i].name != db.ledger[j].name)
  }

  lemma AddingRowKeepsTruth(engine: Engine, start: Db, db: Db, f: File)
    requires LedgerIsTruth(engine, start, db) && !InLedger(db.ledger, f.name)
    ensures LedgerIsTruth(engine, start,
                          Db(db.effects + [f.sql], db.ledger + [Row(f.name, engine.sha(f.sql), f.sql)]))
  {}

  lemma {:induction false} LedgerIsAlwaysTruth(engine: Engine, start: Db, run: seq<State>, i: nat)
    requires IsRun(engine, start, run) && i < |run|
    ensures LedgerIsTruth(engine, start, run[i].db)
  {
    if i == 0 {
      assert start.effects + Sqls(start.ledger[|start.ledger|..]) == start.effects;
    } else {
      LedgerIsAlwaysTruth(engine, start, run, i - 1);
      assert CanStep(engine, run[i - 1], run[i]);
      var step :| Next(engine, run[i - 1], step, run[i]);
      if step.Commit? {
        var w := run[i - 1].runners[step.r];
        AddingRowKeepsTruth(engine, start, run[i - 1].db, w.files[w.pc.next]);
      }
    }
  }

  /** The ledger records this file with this very text's checksum. */
  ghost predicate Recorded(engine: Engine, db: Db, f: File) {
    exists i :: 0 <= i < |db.ledger| && db.ledger[i].name == f.name && db.ledger[i].checksum == engine.sha(f.sql)
  }

  ghost predicate Kept(engine: Engine, s: State, w: Runner) {
    match w.pc
    case Running(applied, next, _) =>
      next <= |w.files| && (forall j :: 0 <= j < next ==> Recorded(engine, s.db, w.files[j])) && Snapshot(s.db, applied)
    case InTransaction(applied, next, _) =>
      next < |w.files| && (forall j :: 0 <= j < next ==> Recorded(engine, s.db, w.files[j])) && Snapshot(s.db, applied)
    case Ended(Done(_)) => forall f :: f in w.files ==> Recorded(engine, s.db, f)
    case _ => true
  }

  ghost predicate Snapshot(db: Db, applied: map<string, string>) {
    forall n :: n in applied ==>
      exists i :: 0 <= i < |db.ledger| && db.ledger[i].name == n && db.ledger[i].checksum == applied[n]
  }

  lemma {:induction false} ChecksumsAreSnapshot(rows: seq<Row>, n: string)
    requires n in Checksums(rows)
    ensures exists i :: 0 <= i < |rows| && rows[i].name == n && rows[i].checksum == Checksums(rows)[n]
  {
    var init, last := rows[..|rows| - 1], rows[|rows| - 1];
    if n != last.name {
      ChecksumsAreSnapshot(init, n);
      var i :| 0 <= i < |init| && init[i].name == n && init[i].checksum == Checksums(init)[n];
      assert rows[i] == init[i];
    }
  }

  /** The ledger only grows, and what is recorded stays recorded. */
  lemma StepKeepsRows(engine: Engine, s: State, step: Step, t: State)
    requires Next(engine, s, step, t)
    ensures s.db.ledger <= t.db.ledger
  {}

  lemma GrowthKeepsKept(engine: Engine, s: State, t: State, w: Runner)
    requires s.db.ledger <= t.db.ledger && Kept(engine, s, w)
    ensures Kept(engine, t, w)
  {}

  lemma StepKeepsOwn(engine: Engine, s: State, step: Step, t: State, r: nat)
    requires Next(engine, s, step, t) && r in s.runners && r in t.runners && step.r == r
    requires Kept(engine, s, s.runners[r])
    ensures Kept(engine, t, t.runners[r])
  {
    var w := s.runners[r];
    match step
    case ReadLedger(_) =>
      forall n | n in Checksums(s.db.ledger)
        ensures exists i :: 0 <= i < |s.db.ledger| && s.db.ledger[i].name == n
                            && s.db.ledger[i].checksum == Checksums(s.db.ledger)[n]
      {
        ChecksumsAreSnapshot(s.db.ledger, n);
      }
    case Skip(_) =>
      var f := w.files[w.pc.next];
      assert f.name in w.pc.applied && Recorded(engine, s.db, f);
    case Commit(_) =>
      var f := w.files[w.pc.next];
      GrowthKeepsKept(engine, s, t, w);
      assert t.db.ledger[|s.db.ledger|].name == f.name;
      assert Recorded(engine, t.db, f);
    case _ =>
  }

  lemma {:induction false} KeptAlways(engine: Engine, start: Db, run: seq<State>, i: nat, r: nat)
    requires IsRun(engine, start, run) && i < |run| && r in run[i].runners
    ensures Kept(engine, run[i], run[i].runners[r])
  {
    if i > 0 {
      assert CanStep(engine, run[i - 1], run[i]);
      var step :| Next(engine, run[i - 1], step, run[i]);
      if r in run[i - 1].runners {
        KeptAlways(engine, start, run, i - 1, r);
        if step.r == r {
          StepKeepsOwn(engine, run[i - 1], step, run[i], r);
        } else {
          StepKeepsRows(engine, run[i - 1], step, run[i]);
          GrowthKeepsKept(engine, run[i - 1], run[i], run[i - 1].runners[r]);
        }
      }
    }
  }

  /**
   * For sessions of any deployments, in any interleaving, dying anywhere: the database is the
   * ledger's SQL in the ledger's order, each once; and a session that ended well leaves every one
   * of its files recorded with the checksum of the text it has now, so an edit cannot pass.
   */
  lemma ExactlyOnce(engine: Engine, start: Db, run: seq<State>, i: nat, r: nat)
    requires IsRun(engine, start, run) && i < |run|
    ensures LedgerIsTruth(engine, start, run[i].db)
    ensures r in run[i].runners && run[i].runners[r].pc.Ended? && run[i].runners[r].pc.outcome.Done? ==>
              forall f :: f in run[i].runners[r].files ==> Recorded(engine, run[i].db, f)
  {
    LedgerIsAlwaysTruth(engine, start, run, i);
    if r in run[i].runners { KeptAlways(engine, start, run, i, r); }
  }
}
