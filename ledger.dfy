/**
  The two tables as one value, the state transitions of the quota logic as
  functions over it, the invariants those transitions keep, and what follows
  for sequences of code redemptions.
 */
module Ledger {
  import opened Entitlements

  /** Users keyed by Telegram id, activation codes keyed by the code string. */
  datatype Db = Db(users: map<int, User>, codes: map<string, CodeRow>)

  /** What activate_code reports: the plan now in force, or why the code was refused. */
  datatype Redemption =
    | PlanActivated(remaining: int, totalInPlan: int, expiresAt: Time)
    | AlreadyActivatedByYou
    | InvalidOrUsedByAnother

  /** The users table once the given user has a row (created lazily with defaults). */
  function WithUser(users: map<int, User>, id: int, now: Time): map<int, User>
  {
    if id in users then users else users[id := NewUser(now)]
  }

  /** One consumed request on a row. */
  function WithRequest(u: User, now: Time): User
  {
    u.(usedInPlan := u.usedInPlan + 1, totalAllTime := u.totalAllTime + 1,
       lastRequestAt := Some(now), updatedAt := now)
  }

  /** One plan activation on a row: more requests, and the expiry reset to now plus the plan period. */
  function WithPlan(u: User, now: Time): User
  {
    u.(totalInPlan := u.totalInPlan + PlanRequests, expiresAt := Some(now + PlanSeconds),
       lastActivationAt := Some(now), updatedAt := now)
  }

  function ConsumeIn(users: map<int, User>, id: int, now: Time): map<int, User>
  {
    var us := WithUser(users, id, now);
    us[id := WithRequest(us[id], now)]
  }

  function ActivateIn(users: map<int, User>, id: int, now: Time): map<int, User>
  {
    var us := WithUser(users, id, now);
    us[id := WithPlan(us[id], now)]
  }

  predicate Claimable(codes: map<string, CodeRow>, code: string)
  {
    code !in codes || codes[code].owner.None?
  }

  /** The code row after the given user claims it at time now. */
  function Claimed(codes: map<string, CodeRow>, code: string, id: int, now: Time): CodeRow
  {
    if code in codes then codes[code].(owner := Some(id), usedAt := Some(now))
    else CodeRow(Some(id), now, Some(now))
  }

  /** The report of a successful activation, read from the activated row. */
  function Report(u: User): Redemption
    requires u.expiresAt.Some?
  {
    PlanActivated(Remaining(u), u.totalInPlan, u.expiresAt.value)
  }

  /** activate_code: claim an unknown or unowned code and activate one plan, or refuse. */
  function Redeem(db: Db, id: int, code: string, now: Time): (r: (Db, Redemption))
    ensures r.1.PlanActivated? <==> Claimable(db.codes, code)
    ensures !r.1.PlanActivated? ==> r.0 == db
    ensures r.1 == AlreadyActivatedByYou <==> code in db.codes && db.codes[code].owner == Some(id)
    ensures r.1.PlanActivated? ==>
      && r.0.codes.Keys == db.codes.Keys + {code}
      && r.0.codes[code].owner == Some(id)
      && (forall c :: c in db.codes && c != code ==> r.0.codes[c] == db.codes[c])
      && r.0.users.Keys == db.users.Keys + {id}
      && r.0.users[id].totalInPlan == WithUser(db.users, id, now)[id].totalInPlan + PlanRequests
      && r.0.users[id].expiresAt == Some(now + PlanSeconds)
      && (forall x :: x in db.users && x != id ==> r.0.users[x] == db.users[x])
  {
    if Claimable(db.codes, code) then
      var users := ActivateIn(db.users, id, now);
      (Db(users, db.codes[code := Claimed(db.codes, code, id, now)]), Report(users[id]))
    else if db.codes[code].owner.value == id then (db, AlreadyActivatedByYou)
    else (db, InvalidOrUsedByAnother)
  }

  /** The stored counters every reachable row satisfies. */
  predicate RowValid(u: User)
  {
    && 0 <= u.usedInPlan <= u.totalAllTime
    && 0 <= u.totalInPlan
    && u.totalInPlan % PlanRequests == 0
    && (u.totalInPlan == 0 <==> u.expiresAt.None?)
  }

  ghost predicate RowsValid(users: map<int, User>)
  {
    forall id :: id in users ==> RowValid(users[id])
  }

  ghost function OwnedBy(codes: map<string, CodeRow>, id: int): set<string>
  {
    set c | c in codes && codes[c].owner == Some(id)
  }

  /**
    Every owner of a code has a row, and every user's package is exactly one
    plan per code that user owns.
   */
  ghost predicate Accounted(db: Db)
  {
    && (forall c :: c in db.codes && db.codes[c].owner.Some? ==> db.codes[c].owner.value in db.users)
    && (forall id :: id in db.users ==> db.users[id].totalInPlan == PlanRequests * |OwnedBy(db.codes, id)|)
  }

  lemma RowOperationsKeepValid(u: User, now: Time)
    requires RowValid(u)
    ensures RowValid(NewUser(now))
    ensures RowValid(WithRequest(u, now))
    ensures RowValid(WithPlan(u, now))
    ensures WithPlan(u, now).totalInPlan > 0
  {
  }

  lemma WithUserKeepsValid(users: map<int, User>, id: int, now: Time)
    requires RowsValid(users)
    ensures RowsValid(WithUser(users, id, now))
  {
  }

  lemma ConsumeKeepsValid(users: map<int, User>, id: int, now: Time)
    requires RowsValid(users)
    ensures RowsValid(ConsumeIn(users, id, now))
  {
  }

  lemma ActivateKeepsValid(users: map<int, User>, id: int, now: Time)
    requires RowsValid(users)
    ensures RowsValid(ActivateIn(users, id, now))
  {
  }

  lemma RedeemKeepsValid(db: Db, id: int, code: string, now: Time)
    requires RowsValid(db.users)
    ensures RowsValid(Redeem(db, id, code, now).0.users)
  {
  }

  /** A user without a row owns no code. */
  lemma RowlessOwnsNothing(db: Db, id: int)
    requires Accounted(db)
    requires id !in db.users
    ensures OwnedBy(db.codes, id) == {}
  {
  }

  /** Claiming a code adds it to the claimer's codes and changes nobody else's. */
  lemma OwnedAfterClaim(codes: map<string, CodeRow>, code: string, id: int, now: Time, x: int)
    requires Claimable(codes, code)
    ensures code !in OwnedBy(codes, x)
    ensures x == id ==> OwnedBy(codes[code := Claimed(codes, code, id, now)], x) == OwnedBy(codes, x) + {code}
    ensures x != id ==> OwnedBy(codes[code := Claimed(codes, code, id, now)], x) == OwnedBy(codes, x)
  {
  }

  lemma WithUserKeepsAccounted(db: Db, id: int, now: Time)
    requires Accounted(db)
    ensures Accounted(Db(WithUser(db.users, id, now), db.codes))
  {
  }

  lemma ConsumeKeepsAccounted(db: Db, id: int, now: Time)
    requires Accounted(db)
    ensures Accounted(Db(ConsumeIn(db.users, id, now), db.codes))
  {
  }

  /** A successful redemption credits exactly the one plan that the newly owned code accounts for. */
  lemma RedeemKeepsAccounted(db: Db, id: int, code: string, now: Time)
    requires Accounted(db)
    ensures Accounted(Redeem(db, id, code, now).0)
  {
    if Claimable(db.codes, code) {
      var db1 := Db(WithUser(db.users, id, now), db.codes);
      WithUserKeepsAccounted(db, id, now);
      var db' := Redeem(db, id, code, now).0;
      forall x | x in db'.users
        ensures db'.users[x].totalInPlan == PlanRequests * |OwnedBy(db'.codes, x)|
      {
        OwnedAfterClaim(db.codes, code, id, now, x);
        assert x in db1.users;
        if x == id {
          assert |OwnedBy(db'.codes, x)| == |OwnedBy(db.codes, x)| + 1;
        }
      }
    }
  }

  /** A sequence of activate_code calls: who calls, with which code, at what time. */
  datatype Attempt = Attempt(id: int, code: string, now: Time)

  function RunAttempts(db: Db, attempts: seq<Attempt>): Db
    decreases |attempts|
  {
    if attempts == [] then db
    else
      var a := attempts[0];
      RunAttempts(Redeem(db, a.id, a.code, a.now).0, attempts[1..])
  }

  /** Once a code has an owner, no later redemption attempt by anyone changes that owner. */
  lemma {:induction false} OwnerIsPermanent(db: Db, attempts: seq<Attempt>, code: string, owner: int)
    requires code in db.codes && db.codes[code].owner == Some(owner)
    ensures code in RunAttempts(db, attempts).codes
    ensures RunAttempts(db, attempts).codes[code].owner == Some(owner)
    decreases |attempts|
  {
    if attempts != [] {
      var a := attempts[0];
      var db' := Redeem(db, a.id, a.code, a.now).0;
      assert code in db'.codes && db'.codes[code].owner == Some(owner);
      OwnerIsPermanent(db', attempts[1..], code, owner);
    }
  }

  /** Attempts that all name one already-owned code change nothing at all. */
  lemma {:induction false} OwnedCodeAttemptsChangeNothing(db: Db, attempts: seq<Attempt>, code: string)
    requires code in db.codes && db.codes[code].owner.Some?
    requires forall k :: 0 <= k < |attempts| ==> attempts[k].code == code
    ensures RunAttempts(db, attempts) == db
    decreases |attempts|
  {
    if attempts != [] {
      var a := attempts[0];
      assert Redeem(db, a.id, a.code, a.now).0 == db;
      OwnedCodeAttemptsChangeNothing(db, attempts[1..], code);
    }
  }

  /**
    Redeeming a claimable code and then retrying that code any number of times,
    by the same user or others, credits exactly one plan.
   */
  lemma {:induction false} RedeemCreditsOnce(db: Db, id: int, code: string, now: Time, retries: seq<Attempt>)
    requires Claimable(db.codes, code)
    requires forall k :: 0 <= k < |retries| ==> retries[k].code == code
    ensures var db' := RunAttempts(db, [Attempt(id, code, now)] + retries);
      && id in db'.users
      && db'.users[id].totalInPlan == WithUser(db.users, id, now)[id].totalInPlan + PlanRequests
      && code in db'.codes && db'.codes[code].owner == Some(id)
  {
    var attempts := [Attempt(id, code, now)] + retries;
    var db1 := Redeem(db, id, code, now).0;
    assert attempts[0] == Attempt(id, code, now) && attempts[1..] == retries;
    assert RunAttempts(db, attempts) == RunAttempts(db1, retries);
    OwnedCodeAttemptsChangeNothing(db1, retries, code);
  }
}
