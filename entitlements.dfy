/**
  Rows of the two tables the quota logic works on (users and activation codes),
  the tariff constants and the warning thresholds.
  Timestamps are whole seconds on one absolute (UTC) clock.
 */
module Entitlements {

  datatype Option<T> = None | Some(value: T)

  type Time = int

  const SecondsPerDay: int := 86400

  /** Requests granted by one plan activation. */
  const PlanRequests: int := 100

  /** Validity of one plan activation, in days and in seconds. */
  const PlanDays: int := 30
  const PlanSeconds: int := PlanDays * SecondsPerDay

  /** Remaining-request counts that trigger a warning, checked in this order. */
  const RequestWarningThresholds: seq<int> := [30, 10, 3]

  /** Whole days before expiry that trigger a warning, checked in this order. */
  const DayWarningThresholds: seq<int> := [7, 3, 1]

  /** Remaining requests below which the profile offers the tariff. */
  const OfferBelowRemaining: int := 20

  /** One row of the users table, keyed by the Telegram id. */
  datatype User = User(
    totalInPlan: int,
    usedInPlan: int,
    totalAllTime: int,
    expiresAt: Option<Time>,
    lastActivationAt: Option<Time>,
    lastRequestAt: Option<Time>,
    createdAt: Time,
    updatedAt: Time)

  /** One row of the activation_codes table, keyed by the code string. */
  datatype CodeRow = CodeRow(owner: Option<int>, createdAt: Time, usedAt: Option<Time>)

  /** The row a user gets on first contact: column defaults, no expiry. */
  function NewUser(now: Time): User
  {
    User(0, 0, 0, None, None, None, now, now)
  }

  function Remaining(u: User): int
  {
    u.totalInPlan - u.usedInPlan
  }
}
