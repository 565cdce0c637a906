/**
  Access evaluation: from one user row and the current time, whether the user
  may make a request, the single reason when not, and at most one warning when
  the quota or the validity period runs low.
 */
module Evaluator {
  import opened Entitlements

  /** Why access is denied; only the first applicable reason is reported. */
  datatype Denial = NoPackage | Expired(on: Time) | Exhausted

  /** A low-quota warning: requests left out of the plan, or whole days left before expiry. */
  datatype Warning = RequestsLeft(left: int, outOf: int) | DaysLeft(days: int, until: Time)

  datatype AccessStatus = AccessStatus(
    hasAccess: bool,
    remaining: int,
    totalInPlan: int,
    usedInPlan: int,
    totalAllTime: int,
    expiresAt: Option<Time>,
    warning: Option<Warning>,
    denial: Option<Denial>)

  predicate IsExpired(u: User, now: Time)
  {
    u.expiresAt.Some? && now >= u.expiresAt.value
  }

  predicate IsExhausted(u: User)
  {
    Remaining(u) <= 0
  }

  predicate Admits(u: User, now: Time)
  {
    !IsExpired(u, now) && !IsExhausted(u) && u.totalInPlan > 0
  }

  /** Whole days of the interval from now until the given time, rounded down. */
  function WholeDaysLeft(until: Time, now: Time): (d: int)
    ensures d * SecondsPerDay <= until - now < (d + 1) * SecondsPerDay
  {
    (until - now) / SecondsPerDay
  }

  /** The first threshold equal to the value, scanning in list order. */
  function FirstMatch(thresholds: seq<int>, value: int): (r: Option<int>)
    ensures r.Some? <==> value in thresholds
    ensures r.Some? ==> r.value == value
  {
    if thresholds == [] then None
    else if thresholds[0] == value then Some(thresholds[0])
    else FirstMatch(thresholds[1..], value)
  }

  function DenialFor(u: User, now: Time): Option<Denial>
  {
    if Admits(u, now) then None
    else if u.totalInPlan == 0 then Some(NoPackage)
    else if IsExpired(u, now) then Some(Expired(u.expiresAt.value))
    else if IsExhausted(u) then Some(Exhausted)
    else None
  }

  function WarningFor(u: User, now: Time): Option<Warning>
  {
    if !Admits(u, now) then None
    else if FirstMatch(RequestWarningThresholds, Remaining(u)).Some? then
      Some(RequestsLeft(Remaining(u), u.totalInPlan))
    else if u.expiresAt.None? then None
    else
      var days := WholeDaysLeft(u.expiresAt.value, now);
      if FirstMatch(DayWarningThresholds, days).Some? then Some(DaysLeft(days, u.expiresAt.value))
      else None
  }

  /** The status check_access reports for a user row at time now. */
  function Evaluate(u: User, now: Time): AccessStatus
  {
    AccessStatus(
      Admits(u, now), Remaining(u), u.totalInPlan, u.usedInPlan, u.totalAllTime,
      u.expiresAt, WarningFor(u, now), DenialFor(u, now))
  }

  /** The evaluation step by step, with the two first-match threshold scans as loops. */
  method CheckUser(u: User, now: Time) returns (s: AccessStatus)
    ensures s == Evaluate(u, now)
  {
    var remaining := u.totalInPlan - u.usedInPlan;
    var expired := false;
    if u.expiresAt.Some? {
      if now >= u.expiresAt.value {
        expired := true;
      }
    }
    var exhausted := remaining <= 0;
    var hasAccess := !expired && !exhausted && u.totalInPlan > 0;

    var denial: Option<Denial> := None;
    if !hasAccess {
      if u.totalInPlan == 0 {
        denial := Some(NoPackage);
      } else if expired {
        denial := Some(Expired(u.expiresAt.value));
      } else if exhausted {
        denial := Some(Exhausted);
      }
    }

    var warning: Option<Warning> := None;
    if hasAccess {
      var i := 0;
      while i < |RequestWarningThresholds|
        invariant 0 <= i <= |RequestWarningThresholds|
        invariant remaining !in RequestWarningThresholds[..i]
        invariant warning == None
      {
        if remaining == RequestWarningThresholds[i] {
          warning := Some(RequestsLeft(remaining, u.totalInPlan));
          break;
        }
        i := i + 1;
      }
      assert warning.None? ==> RequestWarningThresholds[..i] == RequestWarningThresholds;

      if u.expiresAt.Some? && warning.None? {
        var days := (u.expiresAt.value - now) / SecondsPerDay;
        var j := 0;
        while j < |DayWarningThresholds|
          invariant 0 <= j <= |DayWarningThresholds|
          invariant days !in DayWarningThresholds[..j]
          invariant warning == None
        {
          if days == DayWarningThresholds[j] {
            warning := Some(DaysLeft(days, u.expiresAt.value));
            break;
          }
          j := j + 1;
        }
        assert warning.None? ==> DayWarningThresholds[..j] == DayWarningThresholds;
      }
    }

    s := AccessStatus(hasAccess, remaining, u.totalInPlan, u.usedInPlan, u.totalAllTime,
                      u.expiresAt, warning, denial);
  }

  /** Access holds exactly when there is a package, requests remain and the expiry has not passed. */
  lemma AccessCriterion(u: User, now: Time)
    ensures Evaluate(u, now).remaining == u.totalInPlan - u.usedInPlan
    ensures Evaluate(u, now).hasAccess <==>
      u.totalInPlan > 0 && u.totalInPlan - u.usedInPlan > 0
      && !(u.expiresAt.Some? && now >= u.expiresAt.value)
    ensures u.totalInPlan == 0 ==> !Evaluate(u, now).hasAccess
  {
  }

  /** Evaluation reports the row's counters and expiry unchanged. */
  lemma EvaluateReportsRow(u: User, now: Time)
    ensures Evaluate(u, now).totalInPlan == u.totalInPlan
    ensures Evaluate(u, now).usedInPlan == u.usedInPlan
    ensures Evaluate(u, now).totalAllTime == u.totalAllTime
    ensures Evaluate(u, now).expiresAt == u.expiresAt
  {
  }

  /**
    A reason is reported only on denial, and on denial of a row whose package
    is not negative exactly one reason is reported, chosen by priority:
    no package, then expired, then exhausted.
   */
  lemma DenialPriority(u: User, now: Time)
    ensures Evaluate(u, now).hasAccess ==> Evaluate(u, now).denial.None?
    ensures u.totalInPlan >= 0 ==> (Evaluate(u, now).denial.None? <==> Evaluate(u, now).hasAccess)
    ensures u.totalInPlan == 0 ==> Evaluate(u, now).denial == Some(NoPackage)
    ensures u.totalInPlan != 0 && IsExpired(u, now) ==>
      Evaluate(u, now).denial == Some(Expired(u.expiresAt.value))
    ensures u.totalInPlan != 0 && !IsExpired(u, now) && IsExhausted(u) ==>
      Evaluate(u, now).denial == Some(Exhausted)
  {
  }

  /** A row with a negative package and positive remaining quota is denied without a reason. */
  lemma NegativePackageHasNoReason(now: Time)
    ensures var u := User(-1, -5, 0, None, None, None, now, now);
      !Evaluate(u, now).hasAccess && Evaluate(u, now).denial.None?
  {
  }

  /**
    Warnings come only with access. A request warning is given exactly when the
    remaining count equals a threshold; otherwise a day warning is given exactly
    when there is an expiry and the whole days left equal a day threshold.
   */
  lemma WarningRules(u: User, now: Time)
    ensures Evaluate(u, now).warning.Some? ==> Evaluate(u, now).hasAccess
    ensures Evaluate(u, now).warning == Some(RequestsLeft(Remaining(u), u.totalInPlan)) <==>
      Admits(u, now) && Remaining(u) in RequestWarningThresholds
    ensures (Evaluate(u, now).warning.Some? && Evaluate(u, now).warning.value.DaysLeft?) <==>
      Admits(u, now) && Remaining(u) !in RequestWarningThresholds && u.expiresAt.Some?
      && WholeDaysLeft(u.expiresAt.value, now) in DayWarningThresholds
    ensures Evaluate(u, now).warning.Some? && Evaluate(u, now).warning.value.DaysLeft? ==>
      Evaluate(u, now).warning == Some(DaysLeft(WholeDaysLeft(u.expiresAt.value, now), u.expiresAt.value))
  {
  }

  /**
    Thresholds are matched exactly: 10 requests left warns and 9 does not; a
    request warning takes precedence over a day warning; 3 days and some hours
    left warns about 3 days.
   */
  lemma ThresholdExamples(now: Time)
    ensures Evaluate(User(100, 90, 90, None, None, None, now, now), now).warning
      == Some(RequestsLeft(10, 100))
    ensures Evaluate(User(100, 91, 91, None, None, None, now, now), now).warning == None
    ensures var until := now + 7 * SecondsPerDay + 60;
      Evaluate(User(100, 90, 90, Some(until), None, None, now, now), now).warning
        == Some(RequestsLeft(10, 100))
    ensures var until := now + 3 * SecondsPerDay + 5 * 3600;
      Evaluate(User(100, 50, 50, Some(until), None, None, now, now), now).warning
        == Some(DaysLeft(3, until))
    ensures var until := now + 2 * SecondsPerDay;
      Evaluate(User(100, 50, 50, Some(until), None, None, now, now), now).warning == None
  {
  }

  /** The profile offers the tariff when access is denied or fewer than 20 requests remain. */
  function OffersTariff(u: User, now: Time): bool
  {
    !Evaluate(u, now).hasAccess || Remaining(u) < OfferBelowRemaining
  }

  /**
    Every denied user sees the offer; a user with access sees it exactly when
    fewer than 20 requests remain, so it accompanies the warnings at 10 and 3
    requests but not the one at 30.
   */
  lemma OfferRules(u: User, now: Time)
    ensures !Admits(u, now) ==> OffersTariff(u, now)
    ensures Admits(u, now) ==> (OffersTariff(u, now) <==> Remaining(u) < 20)
    ensures Evaluate(u, now).warning == Some(RequestsLeft(10, u.totalInPlan)) ==> OffersTariff(u, now)
    ensures Evaluate(u, now).warning == Some(RequestsLeft(3, u.totalInPlan)) ==> OffersTariff(u, now)
    ensures Evaluate(u, now).warning == Some(RequestsLeft(30, u.totalInPlan)) ==> !OffersTariff(u, now)
  {
  }
}
