/**
  The persisted store: the users table and the activation-code ledger as
  mutable maps, with the operations that read and update them in place.
 */
module Quota {
  import opened Entitlements
  import opened Evaluator
  import opened Ledger

  class Store {
    var users: map<int, User>
    var codes: map<string, CodeRow>

    ghost function State(): Db
      reads this
    {
      Db(users, codes)
    }

    /** Every stored row has consistent counters. */
    ghost predicate Valid()
      reads this
    {
      RowsValid(users)
    }

    /** Every package is backed by the codes its user redeemed. */
    ghost predicate Ledgered()
      reads this
    {
      Accounted(State())
    }

    constructor ()
      ensures users == map[] && codes == map[]
      ensures Valid() && Ledgered()
    {
      users := map[];
      codes := map[];
    }

    /** get_or_create_user: the user's row, created with zero counters and no expiry when missing. */
    method GetOrCreateUser(id: int, now: Time) returns (u: User)
      modifies this
      ensures users == WithUser(old(users), id, now) && codes == old(codes)
      ensures id in users && u == users[id]
      ensures id in old(users) ==> u == old(users)[id]
      ensures id !in old(users) ==>
        u.totalInPlan == 0 && u.usedInPlan == 0 && u.totalAllTime == 0 && u.expiresAt == None
      ensures old(Valid()) ==> Valid()
      ensures old(Ledgered()) ==> Ledgered()
    {
      if id !in users {
        users := users[id := NewUser(now)];
      }
      u := users[id];
      if old(Valid()) {
        WithUserKeepsValid(old(users), id, now);
      }
      if old(Ledgered()) {
        WithUserKeepsAccounted(old(State()), id, now);
      }
    }

    /** check_access: evaluate the user's row; the only write is creating a missing row. */
    method CheckAccess(id: int, now: Time) returns (s: AccessStatus)
      modifies this
      ensures users == WithUser(old(users), id, now) && codes == old(codes)
      ensures id in old(users) ==> users == old(users)
      ensures s == Evaluate(users[id], now)
      ensures old(Valid()) ==> Valid()
      ensures old(Ledgered()) ==> Ledgered()
      ensures Valid() ==> (s.denial.None? <==> s.hasAccess)
    {
      var u := GetOrCreateUser(id, now);
      s := CheckUser(u, now);
      DenialPriority(u, now);
    }

    /** consume_request: charge one request, without checking access first, then re-evaluate. */
    method ConsumeRequest(id: int, now: Time) returns (s: AccessStatus)
      modifies this
      ensures users == ConsumeIn(old(users), id, now) && codes == old(codes)
      ensures var before := WithUser(old(users), id, now)[id];
        && users[id].usedInPlan == before.usedInPlan + 1
        && users[id].totalAllTime == before.totalAllTime + 1
        && users[id].totalInPlan == before.totalInPlan
        && users[id].expiresAt == before.expiresAt
      ensures forall x :: x in old(users) && x != id ==> x in users && users[x] == old(users)[x]
      ensures s == Evaluate(users[id], now)
      ensures old(Valid()) ==> Valid()
      ensures old(Ledgered()) ==> Ledgered()
    {
      var u := GetOrCreateUser(id, now);
      users := users[id := WithRequest(u, now)];
      if old(Valid()) {
        ConsumeKeepsValid(old(users), id, now);
      }
      if old(Ledgered()) {
        ConsumeKeepsAccounted(old(State()), id, now);
      }
      s := CheckAccess(id, now);
    }

    /**
      activate_or_extend_plan: add one plan's requests and reset the expiry to
      now plus the plan period, whatever the previous expiry; always succeeds.
     */
    method ActivateOrExtendPlan(id: int, now: Time) returns (ok: bool, report: Redemption)
      modifies this
      ensures users == ActivateIn(old(users), id, now) && codes == old(codes)
      ensures var before := WithUser(old(users), id, now)[id];
        && users[id].totalInPlan == before.totalInPlan + PlanRequests
        && users[id].expiresAt == Some(now + PlanSeconds)
        && users[id].usedInPlan == before.usedInPlan
        && users[id].totalAllTime == before.totalAllTime
      ensures forall x :: x in old(users) && x != id ==> x in users && users[x] == old(users)[x]
      ensures ok
      ensures report == PlanActivated(Remaining(users[id]), users[id].totalInPlan, now + PlanSeconds)
      ensures old(Valid()) ==> Valid()
    {
      var u := GetOrCreateUser(id, now);
      u := WithPlan(u, now);
      users := users[id := u];
      if old(Valid()) {
        ActivateKeepsValid(old(users), id, now);
      }
      ok, report := true, PlanActivated(u.totalInPlan - u.usedInPlan, u.totalInPlan, u.expiresAt.value);
    }

    /**
      activate_code: an unknown code is registered to the caller, an unowned one
      is bound to the caller, and either way one plan is activated; a code that
      already has an owner is refused and nothing changes.
     */
    method ActivateCode(id: int, code: string, now: Time) returns (ok: bool, result: Redemption)
      modifies this
      ensures (State(), result) == Redeem(old(State()), id, code, now)
      ensures ok <==> Claimable(old(codes), code)
      ensures ok ==> code in codes && codes[code].owner == Some(id)
      ensures ok ==> users[id].totalInPlan == WithUser(old(users), id, now)[id].totalInPlan + PlanRequests
      ensures ok ==> users[id].expiresAt == Some(now + PlanSeconds)
      ensures !ok ==> users == old(users) && codes == old(codes)
      ensures !ok ==> (result == AlreadyActivatedByYou <==> old(codes)[code].owner == Some(id))
      ensures !ok ==> (result == InvalidOrUsedByAnother <==> old(codes)[code].owner != Some(id))
      ensures old(Valid()) ==> Valid()
      ensures old(Ledgered()) ==> Ledgered()
    {
      if Valid() {
        RedeemKeepsValid(State(), id, code, now);
      }
      if Ledgered() {
        RedeemKeepsAccounted(State(), id, code, now);
      }
      if code !in codes {
        codes := codes[code := CodeRow(Some(id), now, Some(now))];
        ok, result := ActivateOrExtendPlan(id, now);
        return;
      }
      if codes[code].owner.None? {
        codes := codes[code := codes[code].(owner := Some(id), usedAt := Some(now))];
        ok, result := ActivateOrExtendPlan(id, now);
        return;
      }
      if codes[code].owner.value == id {
        ok, result := false, AlreadyActivatedByYou;
      } else {
        ok, result := false, InvalidOrUsedByAnother;
      }
    }

    /** The condition under which format_profile appends the tariff offer. */
    method ProfileOffersTariff(id: int, now: Time) returns (offer: bool)
      modifies this
      ensures users == WithUser(old(users), id, now) && codes == old(codes)
      ensures offer == OffersTariff(users[id], now)
      ensures offer <==> !Admits(users[id], now) || Remaining(users[id]) < 20
    {
      var u := GetOrCreateUser(id, now);
      var status := CheckAccess(id, now);
      offer := !status.hasAccess || u.totalInPlan - u.usedInPlan < OfferBelowRemaining;
    }
  }

  /**
    A new user is denied for lack of a package, redeems a fresh code, gets one
    plan valid for 30 days, makes one request and sees no warning.
   */
  method NewUserScenario(id: int, now: Time)
  {
    var store := new Store();
    var s := store.CheckAccess(id, now);
    assert !s.hasAccess && s.denial == Some(NoPackage);

    var ok, result := store.ActivateCode(id, "ABC123", now);
    assert ok;
    assert store.users[id].totalInPlan == 100;
    assert store.users[id].expiresAt == Some(now + 30 * SecondsPerDay);

    s := store.CheckAccess(id, now);
    assert s.hasAccess;
    s := store.ConsumeRequest(id, now);
    assert store.users[id].usedInPlan == 1 && store.users[id].totalAllTime == 1;
    assert s.hasAccess && s.remaining == 99;
    assert s.warning == None;

    var ok2, again := store.ActivateCode(id, "ABC123", now + 60);
    assert !ok2 && again == AlreadyActivatedByYou;
    assert store.users[id].totalInPlan == 100;

    var ok3, other := store.ActivateCode(id + 1, "ABC123", now + 120);
    assert !ok3 && other == InvalidOrUsedByAnother;
    assert store.users[id].totalInPlan == 100;
  }
}
