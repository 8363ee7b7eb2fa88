/**
 * The staff flag under concurrent grants, revokes, step-ups, suspensions and requests. A writer
 * holds the user's row from its select to its commit or abort; step-ups are verified by requests
 * that passed `requireStaff` some time before they write.
 */
module StaffProtocol {
  import opened Text
  import opened Staff

  /** A `setStaff` transaction that holds its row and has not ended. */
  datatype Tx = Tx(user: nat, grant: bool)

  datatype State = State(
    users: Users,
    log: seq<Entry>,
    txs: map<nat, Tx>,
    verifying: set<nat>,
    now: int)

  ghost predicate Locked(s: State, user: nat) {
    exists t :: t in s.txs && s.txs[t].user == user
  }

  /** The user's own audit rows. */
  ghost function LogOf(log: seq<Entry>, user: nat): (r: seq<Entry>)
    ensures |r| <= |log|
  {
    if log == [] then []
    else
      var last := log[|log| - 1];
      LogOf(log[..|log| - 1], user) + if last.user == user then [last] else []
  }

  /** Later than the user's latest audit row. */
  ghost predicate Since(log: seq<Entry>, at: int) {
    |log| > 0 ==> at > log[|log| - 1].at
  }

  datatype Event =
    | Begin(tx: nat, user: nat, grant: bool)
    | Commit(tx: nat)
    | Abort(tx: nat)
    | Admit(user: nat)
    | WriteStepUp(user: nat, at: int)
    | Change(user: nat, live: bool, active: bool)
    | Pass(time: int)

  ghost predicate Enabled(s: State, e: Event) {
    match e
    case Begin(t, u, _) => t !in s.txs && u in s.users && s.users[u].live && !Locked(s, u)
    case Commit(t) => t in s.txs && s.txs[t].user in s.users
    case Abort(t) => t in s.txs
    case Admit(u) => ReadStaff(s.users, u).Context?
    case WriteStepUp(u, at) => u in s.verifying && u in s.users && !Locked(s, u) && at <= s.now
    case Change(u, _, _) => u in s.users && !Locked(s, u)
    case Pass(time) => time >= s.now
  }

  /** The stamp is `now()`, the database's reading at the start `at` of the transaction that writes it. */
  ghost function StampOf(s: State, user: nat, at: int, dbClock: int -> int): StepUp
    requires user in s.users
  {
    StepUp(dbClock(at), at, s.users[user].isStaff && Since(LogOf(s.log, user), at))
  }

  ghost function Committed(s: State, t: nat): State
    requires t in s.txs && s.txs[t].user in s.users
  {
    var tx := s.txs[t];
    var rest := s.(txs := s.txs - {t});
    if s.users[tx.user].isStaff == tx.grant then rest
    else rest.(users := s.users[tx.user := Switched(s.users[tx.user], tx.grant)],
               log := s.log + [Entry(tx.user, tx.grant, s.now)])
  }

  ghost function Next(s: State, e: Event, dbClock: int -> int): State
    requires Enabled(s, e)
  {
    match e
    case Begin(t, u, grant) => s.(txs := s.txs[t := Tx(u, grant)])
    case Commit(t) => Committed(s, t)
    case Abort(t) => s.(txs := s.txs - {t})
    case Admit(u) => s.(verifying := s.verifying + {u})
    case WriteStepUp(u, at) =>
      s.(users := s.users[u := s.users[u].(stepUp := Some(StampOf(s, u, at, dbClock)))], verifying := s.verifying - {u})
    case Change(u, live, active) => s.(users := s.users[u := s.users[u].(live := live, active := active)])
    case Pass(time) => s.(now := time)
  }

  ghost predicate Initial(s: State) {
    s.log == [] && s.txs == map[] && s.verifying == {}
    && forall u :: u in s.users ==> !s.users[u].isStaff && s.users[u].stepUp.None?
  }

  /** The events all happen, one after the other. */
  ghost predicate Happens(s: State, events: seq<Event>, dbClock: int -> int)
    decreases events
  {
    events == [] || (Enabled(s, events[0]) && Happens(Next(s, events[0], dbClock), events[1..], dbClock))
  }

  ghost function After(s: State, events: seq<Event>, dbClock: int -> int): State
    requires Happens(s, events, dbClock)
    decreases events
  {
    if events == [] then s else After(Next(s, events[0], dbClock), events[1..], dbClock)
  }

  // ----- what every event keeps -----

  /** Grants and revokes by turns, a grant first. */
  ghost predicate Alternates(log: seq<Entry>) {
    forall i :: 0 <= i < |log| ==> log[i].granted == (i % 2 == 0)
  }

  /** The flag is what the user's last audit row says. */
  ghost predicate FlagIsReplay(user: User, log: seq<Entry>) {
    Alternates(log) && user.isStaff == (|log| > 0 && log[|log| - 1].granted)
  }

  /** A stamp that was current still is, and one that was not has not become so. */
  ghost predicate StampPlaced(user: User, log: seq<Entry>, now: int, dbClock: int -> int) {
    user.stepUp.Some? ==>
      var s := user.stepUp.value;
      && s.stamp == dbClock(s.at) && s.at <= now
      && (s.current <==> user.isStaff && Since(log, s.at))
  }

  ghost predicate UserOk(s: State, u: nat, dbClock: int -> int) {
    u in s.users ==>
      FlagIsReplay(s.users[u], LogOf(s.log, u)) && StampPlaced(s.users[u], LogOf(s.log, u), s.now, dbClock)
  }

  ghost predicate Ok(s: State, dbClock: int -> int) {
    forall u :: UserOk(s, u, dbClock)
  }

  lemma InitialOk(s: State, dbClock: int -> int)
    requires Initial(s)
    ensures Ok(s, dbClock)
  {}

  lemma LogOneMore(log: seq<Entry>, e: Entry, user: nat)
    ensures LogOf(log + [e], user) == LogOf(log, user) + if e.user == user then [e] else []
  {
    assert (log + [e])[..|log|] == log;
  }

  lemma SwitchKeeps(user: User, log: seq<Entry>, e: Entry, dbClock: int -> int)
    requires FlagIsReplay(user, log) && StampPlaced(user, log, e.at, dbClock) && e.granted == !user.isStaff
    ensures FlagIsReplay(Switched(user, e.granted), log + [e])
    ensures StampPlaced(Switched(user, e.granted), log + [e], e.at, dbClock)
  {
    assert user.isStaff <==> |log| % 2 == 1;
  }

  lemma CommitKeeps(s: State, t: nat, u: nat, dbClock: int -> int)
    requires t in s.txs && s.txs[t].user in s.users && UserOk(s, u, dbClock)
    ensures UserOk(Committed(s, t), u, dbClock)
  {
    hide FlagIsReplay, StampPlaced, LogOf;
    var tx := s.txs[t];
    if u in s.users && s.users[tx.user].isStaff != tx.grant {
      var e := Entry(tx.user, tx.grant, s.now);
      LogOneMore(s.log, e, u);
      if u == tx.user {
        SwitchKeeps(s.users[u], LogOf(s.log, u), e, dbClock);
      } else {
        assert LogOf(s.log, u) + [] == LogOf(s.log, u);
      }
    }
  }

  lemma StepUpKeeps(s: State, u: nat, at: int, dbClock: int -> int)
    requires u in s.users && at <= s.now && UserOk(s, u, dbClock)
    ensures var user := s.users[u].(stepUp := Some(StampOf(s, u, at, dbClock)));
            FlagIsReplay(user, LogOf(s.log, u)) && StampPlaced(user, LogOf(s.log, u), s.now, dbClock)
  {
    hide LogOf;
  }

  lemma NextOk(s: State, e: Event, dbClock: int -> int)
    requires Ok(s, dbClock) && Enabled(s, e)
    ensures Ok(Next(s, e, dbClock), dbClock)
  {
    hide LogOf, Committed, StampOf;
    forall u ensures UserOk(Next(s, e, dbClock), u, dbClock) {
      assert UserOk(s, u, dbClock);
      match e
      case Commit(t) => CommitKeeps(s, t, u, dbClock);
      case WriteStepUp(v, at) => if u == v { StepUpKeeps(s, u, at, dbClock); }
      case _ =>
    }
  }

  lemma {:induction false} RunOk(s: State, events: seq<Event>, dbClock: int -> int)
    requires Ok(s, dbClock) && Happens(s, events, dbClock)
    ensures Ok(After(s, events, dbClock), dbClock)
    decreases events
  {
    hide Ok, Next, Enabled;
    if events != [] {
      NextOk(s, events[0], dbClock);
      RunOk(Next(s, events[0], dbClock), events[1..], dbClock);
    }
  }

  /** Over any run: each user's rows alternate from a grant on, and the flag is the last of them. */
  lemma FlagReplaysLog(s: State, events: seq<Event>, dbClock: int -> int, u: nat)
    requires Initial(s) && Happens(s, events, dbClock)
    ensures var end := After(s, events, dbClock);
            u in end.users ==>
              var log := LogOf(end.log, u);
              && (forall i :: 0 <= i < |log| ==> log[i].granted == (i % 2 == 0))
              && end.users[u].isStaff == (|log| % 2 == 1)
  {
    hide Happens, After, LogOf, StampPlaced;
    InitialOk(s, dbClock);
    RunOk(s, events, dbClock);
    var end := After(s, events, dbClock);
    assert UserOk(end, u, dbClock);
  }

  /** An event adds a user's row exactly when it changes his flag; aborts and no-ops add none. */
  lemma RowIffFlagChanges(s: State, e: Event, dbClock: int -> int, u: nat)
    requires Enabled(s, e) && u in s.users
    ensures var end := Next(s, e, dbClock);
            && u in end.users
            && LogOf(end.log, u) == LogOf(s.log, u) + (if end.users[u].isStaff != s.users[u].isStaff
                                                       then [Entry(u, end.users[u].isStaff, s.now)] else [])
  {
    hide LogOf, Locked, StampOf;
    assert LogOf(s.log, u) + [] == LogOf(s.log, u);
    if e.Commit? {
      LogOneMore(s.log, Entry(s.txs[e.tx].user, s.txs[e.tx].grant, s.now), u);
    }
  }

  // ----- what the guards let through -----

  ghost predicate Near(clock: int -> int, skew: int) {
    forall t :: t - skew <= clock(t) <= t + skew
  }

  /** The step-up's time does not lie after the user's latest audit row, which for staff is a grant. */
  ghost predicate OlderThanGrant(s: State, u: nat)
    requires u in s.users && s.users[u].stepUp.Some?
  {
    !Since(LogOf(s.log, u), s.users[u].stepUp.value.at)
  }

  /**
   * The row was read in `end` and the guards decided at true time `t` by the api's clock. They rest on a
   * step-up no later than the latest grant exactly when it was written while the user was not staff, or
   * by a transaction that had begun no later than the grant by which he was.
   */
  lemma StaleIffNotCurrent(s: State, events: seq<Event>, dbClock: int -> int, u: nat, stepUpSeconds: int, nowMs: int)
    requires Initial(s) && Happens(s, events, dbClock)
    requires Guards(After(s, events, dbClock).users, u, stepUpSeconds, nowMs) == Proceed
    ensures OlderThanGrant(After(s, events, dbClock), u) <==> !After(s, events, dbClock).users[u].stepUp.value.current
  {
    hide Happens, After, LogOf, FlagIsReplay, Since;
    InitialOk(s, dbClock);
    RunOk(s, events, dbClock);
    assert UserOk(After(s, events, dbClock), u, dbClock);
  }

  /** Written to a user who is staff at that moment. */
  ghost predicate ForStaff(s: State, e: Event) {
    e.WriteStepUp? ==> e.user in s.users && s.users[e.user].isStaff
  }

  /** And by a transaction that began after his latest grant was committed. */
  ghost predicate ForStaffSinceGrant(s: State, e: Event) {
    ForStaff(s, e) && (e.WriteStepUp? ==> Since(LogOf(s.log, e.user), e.at))
  }

  ghost predicate Throughout(s: State, events: seq<Event>, dbClock: int -> int, rule: (State, Event) -> bool)
    requires Happens(s, events, dbClock)
    decreases events
  {
    events == [] || (rule(s, events[0]) && Throughout(Next(s, events[0], dbClock), events[1..], dbClock, rule))
  }

  ghost predicate StampsCurrent(s: State) {
    forall u :: u in s.users && s.users[u].stepUp.Some? ==> s.users[u].stepUp.value.current
  }

  lemma CurrentKept(s: State, e: Event, dbClock: int -> int)
    requires Enabled(s, e) && StampsCurrent(s) && ForStaffSinceGrant(s, e)
    ensures StampsCurrent(Next(s, e, dbClock))
  {
    hide LogOf, Locked, Since;
  }

  lemma {:induction false} CurrentThroughout(s: State, events: seq<Event>, dbClock: int -> int)
    requires Happens(s, events, dbClock) && Throughout(s, events, dbClock, ForStaffSinceGrant) && StampsCurrent(s)
    ensures StampsCurrent(After(s, events, dbClock))
    decreases events
  {
    hide StampsCurrent, Next;
    if events != [] {
      CurrentKept(s, events[0], dbClock);
      CurrentThroughout(Next(s, events[0], dbClock), events[1..], dbClock);
    }
  }

  /**
   * With step-ups written only to staff, by transactions begun after their latest grant, nobody passes
   * on one that is older than it.
   */
  lemma NoStaleStepUp(s: State, events: seq<Event>, dbClock: int -> int, u: nat, stepUpSeconds: int, nowMs: int)
    requires Initial(s) && Happens(s, events, dbClock) && Throughout(s, events, dbClock, ForStaffSinceGrant)
    requires Guards(After(s, events, dbClock).users, u, stepUpSeconds, nowMs) == Proceed
    ensures !OlderThanGrant(After(s, events, dbClock), u)
  {
    hide Happens, After, OlderThanGrant, Throughout;
    CurrentThroughout(s, events, dbClock);
    StaleIffNotCurrent(s, events, dbClock, u, stepUpSeconds, nowMs);
  }

  /** Nobody passes later than the window and both clocks' errors after the step-up: 4 s when each errs by 2 s. */
  lemma WindowInTrueTime(s: State, events: seq<Event>, dbClock: int -> int, apiClock: int -> int, skew: int,
                         u: nat, stepUpSeconds: int, t: int)
    requires Initial(s) && Happens(s, events, dbClock) && Near(dbClock, skew) && Near(apiClock, skew)
    requires Guards(After(s, events, dbClock).users, u, stepUpSeconds, apiClock(t)) == Proceed
    ensures t - After(s, events, dbClock).users[u].stepUp.value.at <= stepUpSeconds * 1000 + 2 * skew
  {
    hide Happens, After, LogOf, FlagIsReplay;
    InitialOk(s, dbClock);
    RunOk(s, events, dbClock);
    assert UserOk(After(s, events, dbClock), u, dbClock);
    var at := After(s, events, dbClock).users[u].stepUp.value.at;
    assert at - skew <= dbClock(at) && apiClock(t) >= t - skew;
  }

  /** And clocks within the tolerance of each other never turn a fresh step-up away. */
  lemma FreshIsAccepted(stamp: int, dbClock: int -> int, apiClock: int -> int, at: int, t: int, stepUpSeconds: int)
    requires forall x :: -TOLERANCE_MS <= apiClock(x) - dbClock(x) <= TOLERANCE_MS
    requires forall x, y :: x <= y ==> dbClock(x) <= dbClock(y) <= dbClock(x) + (y - x)
    requires stamp == dbClock(at) && at <= t <= at + stepUpSeconds * 1000 - TOLERANCE_MS
    ensures StepUpFresh(Some(stamp), stepUpSeconds, apiClock(t))
  {}

  // ----- runs that the code allows -----

  function Exact(t: int): int { t }

  ghost predicate Leads(s: State, e: Event, t: State) {
    Enabled(s, e) && Next(s, e, Exact) == t
  }

  ghost predicate Path(states: seq<State>, events: seq<Event>) {
    |states| == |events| + 1 && forall i :: 0 <= i < |events| ==> Leads(states[i], events[i], states[i + 1])
  }

  lemma {:induction false} PathHappens(states: seq<State>, events: seq<Event>)
    requires Path(states, events)
    ensures Happens(states[0], events, Exact) && After(states[0], events, Exact) == states[|events|]
    ensures (forall i :: 0 <= i < |events| ==> ForStaff(states[i], events[i])) ==>
              Throughout(states[0], events, Exact, ForStaff)
    decreases events
  {
    hide Enabled, Next, ForStaff;
    if events != [] {
      assert Leads(states[0], events[0], states[1]);
      forall i | 0 <= i < |events| - 1 ensures Leads(states[1..][i], events[1..][i], states[1..][i + 1]) {
        assert Leads(states[i + 1], events[i + 1], states[i + 2]);
      }
      PathHappens(states[1..], events[1..]);
      assert forall i :: 0 <= i < |events| - 1 ==> states[1..][i] == states[i + 1] && events[1..][i] == events[i + 1];
    }
  }

  function Person(isStaff: bool, stepUp: Option<StepUp>): User { User("09120000001", true, true, isStaff, stepUp) }

  function World(isStaff: bool, stepUp: Option<StepUp>, log: seq<Entry>, txs: map<nat, Tx>, verifying: set<nat>,
                 now: int): State {
    State(map[1 := Person(isStaff, stepUp)], log, txs, verifying, now)
  }

  /** Strictly before the latest audit row, which no tie in time explains. */
  ghost predicate BeforeGrant(s: State, u: nat)
    requires u in s.users && s.users[u].stepUp.Some?
  {
    var log := LogOf(s.log, u);
    log != [] && s.users[u].stepUp.value.at < log[|log| - 1].at
  }

  const GRANTED := Entry(1, true, 0)
  const REVOKED := Entry(1, false, 0)

  /** A grant, a verify request admitted, a revoke: where both runs begin. */
  function FirstEvents(): seq<Event> {
    [Begin(1, 1, true), Commit(1), Admit(1), Begin(2, 1, false), Commit(2)]
  }

  function FirstStates(): seq<State> {
    [World(false, None, [], map[], {}, 0),
     World(false, None, [], map[1 := Tx(1, true)], {}, 0),
     World(true, None, [GRANTED], map[], {}, 0),
     World(true, None, [GRANTED], map[], {1}, 0),
     World(true, None, [GRANTED], map[2 := Tx(1, false)], {1}, 0),
     World(false, None, [GRANTED, REVOKED], map[], {1}, 0)]
  }

  lemma BeginLeads(s: State, t: nat, grant: bool)
    requires 1 in s.users && s.users[1].live && s.txs == map[]
    ensures Leads(s, Begin(t, 1, grant), s.(txs := map[t := Tx(1, grant)]))
  {
    hide LogOf, StampOf;
  }

  lemma CommitLeads(s: State, t: nat, grant: bool)
    requires s.txs == map[t := Tx(1, grant)] && 1 in s.users && s.users == map[1 := s.users[1]]
    requires s.users[1].isStaff != grant
    ensures Leads(s, Commit(t), s.(users := map[1 := Switched(s.users[1], grant)], txs := map[],
                                   log := s.log + [Entry(1, grant, s.now)]))
  {
    hide LogOf, StampOf, Locked;
    assert s.txs - {t} == map[];
    assert s.users[1 := Switched(s.users[1], grant)] == map[1 := Switched(s.users[1], grant)];
  }

  lemma WriteLeads(s: State, at: int)
    requires s.txs == map[] && 1 in s.users && s.users == map[1 := s.users[1]] && s.verifying == {1} && at <= s.now
    ensures var current := s.users[1].isStaff && Since(LogOf(s.log, 1), at);
            Leads(s, WriteStepUp(1, at),
                  s.(users := map[1 := s.users[1].(stepUp := Some(StepUp(at, at, current)))], verifying := {}))
  {
    hide LogOf, Since;
    assert s.verifying - {1} == {};
    var user := s.users[1].(stepUp := Some(StampOf(s, 1, at, Exact)));
    assert s.users[1 := user] == map[1 := user];
  }

  lemma FirstPath()
    ensures Path(FirstStates(), FirstEvents())
  {
    hide Leads;
    var r: seq<State> := FirstStates();
    BeginLeads(r[0], 1, true);
    CommitLeads(r[1], 1, true);
    assert [] + [GRANTED] == [GRANTED];
    FirstAdmits();
    BeginLeads(r[3], 2, false);
    CommitLeads(r[4], 2, false);
    assert [GRANTED] + [REVOKED] == [GRANTED, REVOKED];
  }

  lemma FirstAdmits()
    ensures Leads(FirstStates()[2], Admit(1), FirstStates()[3])
  {
    assert {} + {1} == {1};
  }

  lemma {:induction false} PathThen(states: seq<State>, events: seq<Event>, e: Event, t: State)
    requires Path(states, events) && Leads(states[|events|], e, t)
    ensures Path(states + [t], events + [e])
  {
    hide Leads;
  }

  /** The request writes after the revoke; the next grant, later, keeps the stamp. */
  function StaleRun(): seq<Event> {
    FirstEvents() + [WriteStepUp(1, 0)] + [Pass(10)] + [Begin(3, 1, true)] + [Commit(3)]
  }

  /** So the code as written does let a step-up strictly older than the latest grant through. */
  lemma StaleStepUpPasses()
    ensures var s := FirstStates()[0];
            Initial(s) && Happens(s, StaleRun(), Exact) &&
            var end := After(s, StaleRun(), Exact);
            Guards(end.users, 1, 300, 10) == Proceed && OlderThanGrant(end, 1) && BeforeGrant(end, 1)
  {
    hide Leads, Path, Happens, After, LogOf;
    var log, again := [GRANTED, REVOKED], Entry(1, true, 10);
    var stamp := Some(StepUp(0, 0, false));
    var s5, s6 := World(false, None, log, map[], {1}, 0), World(false, stamp, log, map[], {}, 0);
    var s7 := World(false, stamp, log, map[], {}, 10);
    var s8 := World(false, stamp, log, map[3 := Tx(1, true)], {}, 10);
    var s9 := World(true, stamp, log + [again], map[], {}, 10);
    FirstPath();
    WriteLeads(s5, 0);
    PassLeads(s6, 10);
    BeginLeads(s7, 3, true);
    CommitLeads(s8, 3, true);
    var states, events := FirstStates(), FirstEvents();
    PathThen(states, events, WriteStepUp(1, 0), s6);
    PathThen(states + [s6], events + [WriteStepUp(1, 0)], Pass(10), s7);
    PathThen(states + [s6] + [s7], events + [WriteStepUp(1, 0)] + [Pass(10)], Begin(3, 1, true), s8);
    PathThen(states + [s6] + [s7] + [s8], events + [WriteStepUp(1, 0)] + [Pass(10)] + [Begin(3, 1, true)],
             Commit(3), s9);
    PathHappens(states + [s6] + [s7] + [s8] + [s9], StaleRun());
    LogOneMore(log, again, 1);
  }

  /** The request's transaction begins at 10, waits for a grant that is committed at 20, and writes. */
  function WaitingRun(): seq<Event> {
    FirstEvents() + [Begin(3, 1, true)] + [Pass(20)] + [Commit(3)] + [WriteStepUp(1, 10)]
  }

  /** Writing to staff only is not enough: a stamp taken before the latest grant passes. */
  lemma WaitingStampPasses()
    ensures var s := FirstStates()[0];
            Initial(s) && Happens(s, WaitingRun(), Exact) && Throughout(s, WaitingRun(), Exact, ForStaff) &&
            var end := After(s, WaitingRun(), Exact);
            Guards(end.users, 1, 300, 20) == Proceed && OlderThanGrant(end, 1) && BeforeGrant(end, 1)
  {
    hide Leads, Path, Happens, After, LogOf, Throughout;
    var log, again := [GRANTED, REVOKED], Entry(1, true, 20);
    var stamp := Some(StepUp(10, 10, false));
    var s6 := World(false, None, log, map[3 := Tx(1, true)], {1}, 0);
    var s7 := World(false, None, log, map[3 := Tx(1, true)], {1}, 20);
    var s8 := World(true, None, log + [again], map[], {1}, 20);
    var s9 := World(true, stamp, log + [again], map[], {}, 20);
    FirstPath();
    BeginLeads(FirstStates()[5], 3, true);
    PassLeads(s6, 20);
    CommitLeads(s7, 3, true);
    LogOneMore(log, again, 1);
    WriteLeads(s8, 10);
    var states, events := FirstStates(), FirstEvents();
    PathThen(states, events, Begin(3, 1, true), s6);
    PathThen(states + [s6], events + [Begin(3, 1, true)], Pass(20), s7);
    PathThen(states + [s6] + [s7], events + [Begin(3, 1, true)] + [Pass(20)], Commit(3), s8);
    PathThen(states + [s6] + [s7] + [s8], events + [Begin(3, 1, true)] + [Pass(20)] + [Commit(3)],
             WriteStepUp(1, 10), s9);
    PathHappens(states + [s6] + [s7] + [s8] + [s9], WaitingRun());
  }

  lemma PassLeads(s: State, time: int)
    requires time >= s.now
    ensures Leads(s, Pass(time), s.(now := time))
  {}
}
