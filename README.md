# Access and quota logic of the navigator Telegram bot, in Dafny

The bot relays user messages to a remote backend and meters them with a prepaid
quota: a plan grants 100 requests valid for 30 days, activated by redeeming an
activation code. This project models the access and quota logic of
`telegram_bot/access.py`:

- **Access evaluation** (`check_access`). From one user row and the current time it
  computes the remaining requests (`total - used`, possibly negative), whether
  access is granted, the single denial reason by priority (no package, then
  expired, then exhausted) and at most one warning (exact match of the remaining
  requests against 30, 10, 3, else of the whole days left against 7, 3, 1).
- **Lazy user creation** (`get_or_create_user`) with the column defaults of the
  users table: zero counters and no expiry.
- **Consumption** (`consume_request`). It adds one request to the plan counter and
  to the lifetime counter, with no access check of its own, then re-evaluates.
- **Plan activation** (`activate_or_extend_plan`). It adds 100 requests and resets
  the expiry to now plus 30 days, whatever the previous expiry was.
- **Code redemption** (`activate_code`). An unknown code is registered to the
  caller and an unowned code is bound to the caller; either way one plan is
  activated. A code owned by the caller, or by someone else, is refused with two
  distinct messages, and nothing changes.
- **The tariff offer in the profile** (`format_profile`). It is shown when access
  is denied or fewer than 20 requests remain.

Layout:

- `entitlements.dfy`, module `Entitlements`: the rows of the two tables (`User`,
  `CodeRow`) and the tariff constants and thresholds.
- `evaluator.dfy`, module `Evaluator`: the evaluation as a function (`Evaluate`).
  The method `CheckUser` performs it step by step with the source's first-match
  loops and is proved equal to `Evaluate`. The module also holds the lemmas on
  access, denial and warnings.
- `ledger.dfy`, module `Ledger`: both tables as one value (`Db`), the transitions
  as functions over it, and the invariants they keep. `RowsValid` says counters
  are non-negative, lifetime ≥ used, the package is a multiple of 100, and the
  package is 0 exactly when there is no expiry. `Accounted` says every package is
  exactly 100 requests per code its user owns. The module also has lemmas on
  sequences of redemption attempts.
- `store.dfy`, module `Quota`: the class `Store`, whose fields `users` and `codes`
  are the two tables as mutable maps. Its methods update the maps in place, as the
  source updates its rows. Each method's `ensures` ties the new tables to the
  `Ledger` functions of the old ones and says that `Valid()` (and, except for a
  bare plan activation, `Ledgered()`) is kept. `NewUserScenario` is a client that
  walks a new user through denial, redemption, one request and two refused
  re-redemptions, using the contracts alone.

Time is whole seconds on one UTC clock, passed in as `now`. One day is 86400
seconds, so `(expires_at - now).days` is floor division by 86400.

The docstring of `activate_or_extend_plan` (telegram_bot/access.py:146-152) speaks
of extending the plan. The code at telegram_bot/access.py:164 resets the expiry to
now plus 30 days, and the model follows the code. The paid-code redemption with
renewal-from-expiry semantics and the code-issuance operation are described for
the system but are absent from `access.py`. `payment_api.py` imports a
`create_paid_activation_code` that `access.py` does not define. Neither is
modelled.

## Model

| member | source | states |
|---|---|---|
| `Evaluator.WholeDaysLeft` | telegram_bot/access.py:104 | the whole days left are the floor of the interval over one day: `d` days cover at most the interval, `d + 1` days exceed it |
| `Evaluator.FirstMatch` | telegram_bot/access.py:97-100 | the first-match scan over a threshold list finds a threshold iff the value is in the list, and the match equals the value |
| `Evaluator.CheckUser` | telegram_bot/access.py:66-120 | the step-by-step evaluation, including both `for … break` threshold scans, yields exactly the status `Evaluate` specifies |
| `Evaluator.AccessCriterion` | telegram_bot/access.py:69-81 | access holds iff package > 0, `total - used > 0` and not (expiry set and `now >= expiry`); remaining is reported as `total - used`; a zero package never has access |
| `Evaluator.EvaluateReportsRow` | telegram_bot/access.py:111-120 | the status reports the row's package, used, lifetime counters and expiry as stored |
| `Evaluator.DenialPriority` | telegram_bot/access.py:84-91 | no reason is given with access; for a non-negative package a reason is given iff access is denied; a zero package gives "no package" whatever the expiry and usage; otherwise expired gives "expired on <expiry>"; otherwise exhausted gives "exhausted" |
| `Evaluator.NegativePackageHasNoReason` | telegram_bot/access.py:81-91 | a row with a negative package and positive remaining quota is denied with no reason, so the iff above needs a non-negative package |
| `Evaluator.WarningRules` | telegram_bot/access.py:94-109 | a warning only with access; the request warning iff access and remaining ∈ {30,10,3}; the day warning iff access, no request warning, expiry set and the floor of the days left ∈ {7,3,1}; it carries that day count |
| `Evaluator.ThresholdExamples` | telegram_bot/access.py:94-109 | 10 left of 100 warns "10 of 100" and 9 left gives no warning; a request warning wins over a day warning; 3 days 5 hours left warns "3 days"; 2 days left gives no warning |
| `Evaluator.OfferRules` | telegram_bot/access.py:253 | the tariff offer is shown to every denied user; with access it is shown iff fewer than 20 requests remain, so it accompanies the 10 and 3 request warnings but not the 30 one |
| `Ledger.Redeem` | telegram_bot/access.py:188-220 | redemption succeeds iff the code is unknown or unowned; success makes the caller the owner, adds one plan (+100, expiry now + 30 days) to the caller's row and leaves other codes and users as they were; failure changes nothing; "already activated by you" iff the code's owner is the caller |
| `Ledger.RowOperationsKeepValid` | telegram_bot/access.py:123-166 | creation, consumption and plan activation keep the row consistent: 0 ≤ used ≤ lifetime, package ≥ 0 and a multiple of 100, package = 0 iff no expiry |
| `Ledger.RedeemKeepsValid` | telegram_bot/access.py:181-220 | every redemption outcome keeps all rows consistent |
| `Ledger.OwnedAfterClaim` | telegram_bot/access.py:190-210 | claiming an unknown or unowned code adds exactly that code to the claimer's codes and leaves every other user's codes unchanged |
| `Ledger.WithUserKeepsAccounted` | telegram_bot/access.py:46-56 | creating a missing user keeps every package equal to 100 per owned code, because a user without a row owns no code |
| `Ledger.ConsumeKeepsAccounted` | telegram_bot/access.py:128-134 | consumption keeps every package equal to 100 per owned code |
| `Ledger.RedeemKeepsAccounted` | telegram_bot/access.py:188-220 | redemption keeps every package equal to 100 per owned code and keeps every code owner a stored user |
| `Ledger.OwnerIsPermanent` | telegram_bot/access.py:206-220 | once a code has an owner, no sequence of later redemption attempts, by anyone, changes that owner |
| `Ledger.OwnedCodeAttemptsChangeNothing` | telegram_bot/access.py:216-220 | any sequence of attempts on one already-owned code leaves both tables exactly as they were |
| `Ledger.RedeemCreditsOnce` | telegram_bot/access.py:188-220 | redeeming a claimable code and then retrying it any number of times credits the caller's package exactly once (+100) and leaves the caller as owner |
| `Quota.Store.GetOrCreateUser` | telegram_bot/access.py:46-56 | returns the stored row if present, else inserts and returns a row with zero counters and no expiry; the code ledger is untouched; both invariants are kept |
| `Quota.Store.CheckAccess` | telegram_bot/access.py:59-120 | the status is `Evaluate` of the user's row; the only write is creating a missing row; on consistent tables a reason is given iff access is denied |
| `Quota.Store.ConsumeRequest` | telegram_bot/access.py:123-139 | used and lifetime counters each rise by exactly 1; package and expiry are unchanged; other users are unchanged; no access check; the returned status re-evaluates the new row |
| `Quota.Store.ActivateOrExtendPlan` | telegram_bot/access.py:142-178 | package rises by 100 and the expiry becomes now + 30 days whatever it was; used and lifetime counters and other users are unchanged; always succeeds, reporting remaining, package and new expiry |
| `Quota.Store.ActivateCode` | telegram_bot/access.py:181-220 | the new tables and the message are those of `Ledger.Redeem`: success iff the code is unknown or unowned, then the caller owns it and gets one plan; on refusal nothing changes and the message tells "already activated by you" from "invalid or used by another user" |
| `Quota.Store.ProfileOffersTariff` | telegram_bot/access.py:227-253 | the profile offers the tariff iff access is denied or fewer than 20 requests remain (creating the row if missing) |

## Left out

- Text formatting: the denial, warning, activation and profile messages are tags carrying their numbers and dates. The Russian texts, `strftime` dates, day-word forms, emoji and `PAYMENT_LINK` (`format_denial_message`, the rest of `format_profile`) are not modelled.
- Clock: `datetime.now(timezone.utc)` becomes a `now` parameter in whole seconds. The source reads the clock several times in one operation; the model uses one `now` per operation and drops sub-second precision.
- Audit timestamps (`last_activation_at`, `last_request_at`, `updated_at`, `used_at`, `created_at`) are stamped as in the source, but no property is stated about them.
- Integer width: the counter columns are 32-bit SQL integers; the model uses unbounded integers and does not model overflow.
- Transactions and concurrency: commit/refresh, the intermediate commit in `activate_code` before the plan is activated, and over-admission by concurrent messages from one user are not modelled. Operations are sequential and atomic.
- Null counters: the model assumes the column defaults are always applied, so counters are never null.
- Quota.Store.ActivateOrExtendPlan: does not promise to keep `Ledgered()` (package = 100 per owned code), because a direct call adds a plan without a code. In the shown repository only `activate_code` calls it.
- The paid-code redemption path, its renewal-from-expiry rule, and code issuance are not modelled because they do not exist in `access.py`. `create_paid_activation_code`, imported by `payment_api.py`, is not part of this model.
- Transport, backend HTTP client and payment endpoint (`bot.py`, `navigator.py`, `payment_api.py`, `telegram_bot.py`) and the database setup in `models.py` are I/O glue outside the quota logic.
