/**
 * scripts/admin-grant-staff.ts and apps/api/src/admin-guard.ts: the staff flag, its audit rows and
 * the step-up stamp, written in one transaction, and the guards that read them.
 */
module Staff {
  import opened Text

  /**
   * A step-up stamp: the database clock's reading, and for the proofs the true time of that reading and
   * whether, when the stamp was written, the user was staff by a grant committed before that time.
   */
  datatype StepUp = StepUp(stamp: int, at: int, current: bool)

  datatype User = User(phone: string, live: bool, active: bool, isStaff: bool, stepUp: Option<StepUp>)

  /** `staff.grant` or `staff.revoke`, whom it is about, and the true time at which it was committed. */
  datatype Entry = Entry(user: nat, granted: bool, at: int)

  datatype StaffChange = NotFound | Unchanged | Granted | Revoked | Failed

  type Users = map<nat, User>

  /** The update: a revoke also clears the step-up, a grant keeps it. */
  function Switched(user: User, grant: bool): User {
    user.(isStaff := grant, stepUp := if grant then user.stepUp else None)
  }

  predicate Named(user: User, phone: string) {
    user.live && user.phone == phone
  }

  /** `users_phone_uq`. */
  ghost predicate PhonesUnique(users: Users) {
    forall a, b :: a in users && b in users && users[a].live && users[b].live && users[a].phone == users[b].phone
      ==> a == b
  }

  class Database {
    var users: Users
    var audit: seq<Entry>

    constructor (users: Users)
      ensures this.users == users && audit == []
    {
      this.users := users;
      audit := [];
    }

    /**
     * Select for update, update, insert the audit row; `auditFits` is whether the insert is
     * accepted. A refused insert rolls the flag back.
     */
    method SetStaff(phone: string, grant: bool, auditFits: bool, now: int) returns (change: StaffChange)
      requires PhonesUnique(users)
      modifies this
      ensures PhonesUnique(users)
      ensures change == NotFound
              <==> forall id :: id in old(users) && old(users)[id].live ==> old(users)[id].phone != phone
      ensures change.NotFound? || change.Unchanged? || change.Failed? ==> users == old(users) && audit == old(audit)
      ensures forall id :: id in old(users) && old(users)[id].live && old(users)[id].phone == phone ==>
                if old(users)[id].isStaff == grant then change == Unchanged
                else if !auditFits then change == Failed
                else change == (if grant then Granted else Revoked)
                     && users == old(users)[id := old(users)[id].(isStaff := grant, stepUp :=
                                              if grant then old(users)[id].stepUp else None)]
                     && audit == old(audit) + [Entry(id, grant, now)]
    {
      if !exists id :: id in users && Named(users[id], phone) {
        change := NotFound;
        return;
      }
      var id :| id in users && Named(users[id], phone);
      assert forall other :: other in users && Named(users[other], phone) ==> other == id;
      if users[id].isStaff == grant {
        change := Unchanged;
        return;
      }
      var begun := users;
      users := users[id := Switched(users[id], grant)];
      if auditFits {
        audit := audit + [Entry(id, grant, now)];
        change := if grant then Granted else Revoked;
      } else {
        users := begun;
        change := Failed;
      }
    }
  }

  // ----- the guards -----

  const TOLERANCE_MS := 2_000

  function StepUpFresh(stamp: Option<int>, stepUpSeconds: int, nowMs: int): bool {
    stamp.Some? && -TOLERANCE_MS <= nowMs - stamp.value <= stepUpSeconds * 1000
  }

  datatype Denial = NotFoundUser | NotStaff | NotActive

  datatype Reading = Context(stepUpVerifiedAt: Option<int>) | Denied(reason: Denial)

  function ReadStaff(users: Users, id: nat): Reading {
    if id !in users || !users[id].live then Denied(NotFoundUser)
    else if !users[id].isStaff then Denied(NotStaff)
    else if !users[id].active then Denied(NotActive)
    else Context(match users[id].stepUp case None => None case Some(s) => Some(s.stamp))
  }

  datatype Answer = Proceed | Forbidden403 | StepUpRequired428

  /** `requireStaff` on what it read, then `requireStepUp` on the same row by the api's clock. */
  function Guards(users: Users, id: nat, stepUpSeconds: int, nowMs: int): Answer {
    match ReadStaff(users, id)
    case Denied(_) => Forbidden403
    case Context(stamp) => if StepUpFresh(stamp, stepUpSeconds, nowMs) then Proceed else StepUpRequired428
  }

  /** Who gets past both guards. */
  lemma ProceedIff(users: Users, id: nat, stepUpSeconds: int, nowMs: int)
    ensures Guards(users, id, stepUpSeconds, nowMs) == Proceed
            <==> id in users && users[id].live && users[id].active && users[id].isStaff && users[id].stepUp.Some?
                 && users[id].stepUp.value.stamp - TOLERANCE_MS <= nowMs
                 && nowMs <= users[id].stepUp.value.stamp + stepUpSeconds * 1000
  {}

  /** Whom a new step-up would help, and whom nothing would. */
  lemma RefusedIff(users: Users, id: nat, stepUpSeconds: int, nowMs: int)
    ensures Guards(users, id, stepUpSeconds, nowMs) == StepUpRequired428
            <==> id in users && users[id].live && users[id].active && users[id].isStaff
                 && (users[id].stepUp.None? || nowMs < users[id].stepUp.value.stamp - 2_000
                     || nowMs > users[id].stepUp.value.stamp + stepUpSeconds * 1000)
    ensures Guards(users, id, stepUpSeconds, nowMs) == Forbidden403
            <==> !(id in users && users[id].live && users[id].active && users[id].isStaff)
  {}
}
