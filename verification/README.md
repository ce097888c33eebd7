# Membership lifecycle of a fitness-club back end, in Dafny

This project models the membership engine of a fitness-club back end: a small
state machine over membership records that are ACTIVE, FROZEN or EXPIRED. It is
driven by four member actions and three daily sweeps. The actions are purchase,
freeze, resume and upgrade. The sweeps expire, remind and auto-renew.

Conventions:

- Dates are whole day numbers (`Common.Day`): the proleptic Gregorian
  ordinal, with 0001-01-01 as day 1. The last representable date,
  9999-12-31, is `MaxDay`. An action whose date arithmetic would pass it
  fails with `DateOverflow` and saves nothing, as Python's `date` raises
  `OverflowError` there.
- Money is whole cents (`Common.Cents`). The two-decimal columns of the
  Django models become integers. Their `max_digits` become explicit bounds:
  `PriceLimit` is 10^8 cents for plan prices and purchase prices, and
  `MoneyLimit` is 10^10 cents for payment amounts. `duration_days` is a
  32-bit `integer` column on the PostgreSQL back end the settings name.
- The database is an immutable `Database.Store`. It holds the plan catalog,
  the memberships, the payments, and the next primary key of the membership
  and payment tables.
- Every action is a pure function returning `Result<Store>`. An `Err` leaves
  the store as it was. An `Ok` carries every write of the action. So an
  action's writes (a membership and its payment, say) happen together or not
  at all, as the source's `transaction.atomic()` blocks intend.

Modules, following the source's layout:

| module | file | models |
|---|---|---|
| `Common` | common.dfy | day/cent/id types, `Option`, `Result`, the error kinds |
| `Plans` | plans.dfy | `MembershipPlan`: tiers, positivity checks, unique code, ordering by price, lookup |
| `Payments` | payments.dfy | `Payment`: status and type enums, PENDING default, unique `session_id`, failure recording |
| `Memberships` | memberships.dfy | `Membership`: status enum, defaults, optional freeze dates, the live-membership notions |
| `Database` | database.dfy | the store, its integrity invariant, and the `PROTECT` foreign key from memberships to plans |
| `Validation` | validation.dfy | the purchase guard and the freeze-window validator |
| `Lifecycle` | lifecycle.dfy | the purchase, freeze, resume and upgrade actions, and which records a requester sees |
| `LifecycleLemmas` | lifecycle_lemmas.dfy | invariants the actions keep, and freeze-then-resume |
| `Sweeps` | sweeps.dfy | `mark_expired_memberships`, `send_expiration_reminders`, `auto_renew_memberships` |
| `SweepLemmas` | sweep_lemmas.dfy | idempotence and invariants of auto-renew, and a counterexample |

The model follows the code where a tidier design would differ:

- Upgrade charges the plain price difference. There is no day-prorated credit.
- Upgrade does not look at the membership's status, so an EXPIRED or FROZEN
  membership can be upgraded.
- Expiry also expires FROZEN memberships and leaves their freeze dates in place.
- Plan tiers are labels with no order between them.
- Auto-renew does not re-check the "one ACTIVE or FROZEN membership per member"
  rule that purchase enforces. `SweepLemmas.AutoRenewCanBreakOneLive` exhibits
  a store where the sweep breaks the rule.
  `SweepLemmas.AutoRenewPreservesOneLive` proves that the rule survives under
  an explicit guard, `SweepLemmas.RenewalGuard`.

## Model

| member | source | states |
|---|---|---|
| Plans.FindPlan | src/apps/membership/views.py:96-99 | Lookup by id returns a catalog plan carrying that id, and returns nothing exactly when no plan has that id |
| Plans.FindPlanUnique | src/apps/plans/models.py:4-11 | With unique ids, looking up any catalog plan's id returns that very plan |
| Plans.AddPlan | src/apps/plans/models.py:10-27 | A value that does not fit its column (name over 100 or code over 50 characters, duration outside the 32-bit integer range, price of 10^8 cents or more in size) is a data error; otherwise the row is stored iff duration > 0, price > 0 and its code and id are fresh, and is refused as an integrity error if not; a valid catalog stays valid |
| Plans.InsertByPrice | src/apps/plans/models.py:16-17 | Inserting into a price-ordered list keeps it ordered and adds exactly that one plan |
| Plans.OrderByPrice | src/apps/plans/models.py:16-17 | The default listing is in ascending price and is a permutation of the catalog |
| Payments.AttachSession | src/apps/payments/models.py:44-55 | Attaching a session succeeds iff the payment exists and no other payment carries that session id; the payment afterwards is the old record with only its session id and URL replaced, every other payment is unchanged, and unique session ids and payment ids stay unique |
| Payments.RecordFailure | src/apps/payments/models.py:37-42 | Marking a payment failed makes it the old record with only status FAILED and the error text replaced; other payments and unknown ids are untouched, and unique session ids and payment ids stay unique |
| Database.DeletePlan | src/apps/membership/models.py:18-22 | A plan is deleted iff it exists and no membership refers to it (else not-found or protected); the remaining plans are exactly the old ones with another id, nothing else in the store (memberships, payments, next ids) changes, and store consistency is kept |
| Validation.ValidatePurchase | src/apps/membership/serializers.py:39-48 | A purchase is refused iff the member already has a membership with status ACTIVE or FROZEN |
| Validation.ExpiredNeverBlocks | src/apps/membership/serializers.py:41-44 | A member whose own memberships are all EXPIRED may always purchase |
| Validation.ValidateFreezeWindow | src/apps/membership/serializers.py:55-60 | A window is refused for order when from >= to (checked first) and for lying in the past when from < today; it is accepted iff today <= from < to, and then lasts at least one day |
| Lifecycle.Locate | src/apps/membership/views.py:28-32 | A detail action finds the first record with that id that the requester may see (staff see all, others their own), and finds none exactly when no such record exists |
| Lifecycle.Purchase | src/apps/membership/views.py:39-58 | Refused for an unknown plan, then for a member with a live membership, then for an end date past 9999-12-31, and succeeds otherwise; on success it appends one ACTIVE membership (start today, end today + duration, plan price, auto-renew only if asked, no freeze dates) and one PENDING purchase payment of the plan price for that membership with no error message and no checkout session yet, and nothing else changes |
| Lifecycle.Freeze | src/apps/membership/views.py:60-77 | Refused for an unseen membership, then a non-ACTIVE one, then with exactly the validator's error for a rejected window, then for an end date moved past 9999-12-31; on success only that membership changes: FROZEN, window stored, end moved later by exactly to - from days; id, member, plan, price, start and flag kept |
| Lifecycle.Resume | src/apps/membership/views.py:79-89 | Refused unless the membership is seen and FROZEN; on success it is ACTIVE with no freeze dates and the same (extended) end date; nothing else changes |
| Lifecycle.Upgrade | src/apps/membership/views.py:91-121 | Refused for an unseen membership, a missing or unknown plan, a plan not dearer than the price paid, or a recomputed end past 9999-12-31; on success the membership takes the new plan and price with end = start + new duration, status and dates kept, and one PENDING upgrade-fee payment of the (positive) price difference, with no error message and no checkout session yet, is appended |
| LifecycleLemmas.PurchasePreservesConsistent | src/apps/membership/views.py:39-58 | A successful purchase keeps the store consistent: unique ids below the counters, well-formed memberships, resolvable plan references, unique session ids |
| LifecycleLemmas.PurchasePreservesOneLive | src/apps/membership/serializers.py:39-48 | Because of the purchase guard, a purchase keeps at most one ACTIVE-or-FROZEN membership per member |
| LifecycleLemmas.SecondPurchaseRefused | src/apps/membership/serializers.py:41-47 | Right after a successful purchase, any further purchase by the same member of an existing plan is refused |
| LifecycleLemmas.FreezePreservesConsistent | src/apps/membership/views.py:67-75 | A successful freeze keeps the store consistent |
| LifecycleLemmas.FreezePreservesOneLive | src/apps/membership/views.py:67-75 | A freeze keeps at most one live membership per member |
| LifecycleLemmas.ResumePreservesConsistent | src/apps/membership/views.py:85-88 | A successful resume keeps the store consistent |
| LifecycleLemmas.ResumePreservesOneLive | src/apps/membership/views.py:85-88 | A resume keeps at most one live membership per member |
| LifecycleLemmas.UpgradePreservesConsistent | src/apps/membership/views.py:106-119 | A successful upgrade keeps the store consistent, including the new payment |
| LifecycleLemmas.UpgradePreservesOneLive | src/apps/membership/views.py:108-112 | An upgrade keeps at most one live membership per member |
| LifecycleLemmas.FreezeThenResume | src/apps/membership/views.py:60-89 | Resuming a membership just frozen succeeds and gives back the original record, ACTIVE, with its end date longer by exactly the window |
| Sweeps.ExpireAll | src/apps/membership/tasks.py:14-21 | Exactly the ACTIVE or FROZEN records with end < today become EXPIRED, and no other field of any record changes |
| Sweeps.MarkExpiredMemberships | src/apps/membership/tasks.py:11-32 | The loop over the store produces the expired store and sends one notice per record it expired |
| Sweeps.ExpireIdempotent | src/apps/membership/tasks.py:14-17 | A second expiry run the same day changes nothing |
| Sweeps.ExpirePreservesConsistent | src/apps/membership/tasks.py:19-21 | Expiry keeps the store consistent |
| Sweeps.ExpirePreservesOneLive | src/apps/membership/tasks.py:14-21 | Expiry keeps at most one live membership per member |
| Sweeps.ReminderTargets | src/apps/membership/tasks.py:37-42 | A membership is reminded iff it is in the store, ACTIVE, and ends exactly days_before days from today, and it is reminded as many times as it occurs in the store, so each selected row gets one reminder |
| Sweeps.SendExpirationReminders | src/apps/membership/tasks.py:35-57 | The sweep reads the memberships only, defaults days_before to 7, and returns the number of selected memberships |
| Sweeps.PendingMembers | src/apps/membership/tasks.py:72-75 | A member is in the set iff some payment of theirs is PENDING |
| Sweeps.ClearRenewed | src/apps/membership/tasks.py:90-91 | An old record loses its auto-renew flag iff the sweep renews it; every other field and every other record is kept |
| Sweeps.RenewFrom | src/apps/membership/tasks.py:70-102 | The renewals come one per renewable record (auto-renew, EXPIRED, end < today, member without PENDING payment), in store order with consecutive new ids, each ACTIVE from today for the plan's current duration and price |
| Sweeps.AutoRenewMemberships | src/apps/membership/tasks.py:60-104 | Plans and payments unchanged; the count equals the number of renewable records and of new memberships; old records only lose their flag when renewed; the new records are exactly the renewals of the renewable records, one each and in store order, each renewing its own lapsed record |
| Sweeps.AutoRenewSettles | src/apps/membership/tasks.py:64-91 | After the sweep every record names an existing plan and none is renewable any more |
| SweepLemmas.AutoRenewSecondRunIdle | src/apps/membership/tasks.py:64-91 | A second auto-renew run on the same day returns the store unchanged and a count of zero |
| SweepLemmas.AutoRenewPreservesConsistent | src/apps/membership/tasks.py:80-91 | Auto-renew keeps the store consistent |
| SweepLemmas.TwoLapsedRenewalsSound | src/apps/membership/serializers.py:41-47 | The counterexample store is consistent and satisfies the one-live rule before the sweep |
| SweepLemmas.AutoRenewCanBreakOneLive | src/apps/membership/tasks.py:71-88 | On that store the sweep leaves one member with two ACTIVE memberships |
| SweepLemmas.AutoRenewPreservesOneLive | src/apps/membership/tasks.py:71-88 | When each member has at most one renewable record and no live membership beside it, the sweep keeps at most one live membership per member |

## Left out

- Notifications (Telegram messages from the sweeps and the `notify_*` tasks) are external I/O. The sweeps return only how many they would send.
- Sweeps.MarkExpiredMemberships: every expiry notice is taken to be sent. `send_telegram_notification` (src/apps/bot/utils.py:6-8) can raise, and a raise ends `mark_expired_memberships` right after the record it has just saved, with no transaction around the loop (src/apps/membership/tasks.py:19-30); the model has no such partial run.
- Sweeps.AutoRenewMemberships: every renewal notice is taken to be sent. A raise from `send_telegram_notification` ends `auto_renew_memberships` right after the renewal it has just created and the flag it has just cleared, with no transaction around the loop (src/apps/membership/tasks.py:80-101); the model has no such partial run.
- Sweeps.SendExpirationReminders: every reminder is taken to be sent. A raise from `send_telegram_notification` ends `send_expiration_reminders` without a count (src/apps/membership/tasks.py:54); nothing is saved there, so no store is left half-changed.
- Stripe checkout, customers and the webhook are a foreign API. Only their effect on a payment row is modelled (`Payments.AttachSession`, `Payments.RecordFailure`).
- The clock (`date.today()`, `timezone.now()`) is the `today` parameter.
- Database transactions and concurrent requests are out of scope. Each action and sweep is one atomic step on the store.
- The `Payment.objects.create` calls in views.py use keyword names the `Payment` model does not define. The model writes what they evidently mean: a PENDING payment of that type and amount whose `membership_id` is the membership's id.
- `Payment` has no `user` field in src/apps/payments/models.py, yet the auto-renew sweep filters payments by `user`. The model gives each payment the paying member: the requester for a purchase, the membership's member for an upgrade.
- Parse errors for missing or malformed dates or ids in requests are framework behaviour. A freeze receives both dates already parsed, and an upgrade's plan id is present or absent.
- Sweeps.AutoRenewMemberships: does not model the date overflow of tasks.py:84. A renewal whose end would pass 9999-12-31 raises there and aborts the sweep midway: earlier renewals stay saved, later records are not visited. The model renews every renewable record regardless.
- Sweeps.SendExpirationReminders: does not model the overflow of `today + days_before` past 9999-12-31 (tasks.py:37); no target date exists then.
- Sweeps.AutoRenewMemberships: requires that every membership's plan exists, which the database's foreign key guarantees. It does not model a sweep over a store that violates it.
- The order in which the database yields rows in the sweeps is taken to be store order. Renewal ids follow it.
- Field-length limits on the payment and membership columns (`max_length` on `type`, `status`, URLs, session ids) and the nested `StripeCustomer` class are storage details; the plan's `name` and `code` lengths are modelled in `Plans.FitsColumns`.
- A day-prorated upgrade credit and a checkout-session reuse window are not in the code and are not modelled.
- Timestamps (`created_at`, `updated_at`) and the `-created_at` ordering of payments are not modelled.
