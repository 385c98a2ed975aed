# Stripe checkout and webhook reconciliation, modelled in Dafny

This project models the payment path of a Laravel course shop that sells
through Stripe Checkout:

- the `Enrollment` Eloquent model: its `$fillable` attributes, the column
  defaults of the `enrollments` table, the lookup of an enrollment by
  Stripe session id (`where(...)->first()`) and the "is this session paid"
  query (`where(...)->where(...)->exists()`);
- `StripeCheckoutController::create`, which opens a Stripe session for a
  course and records a pending enrollment for it, and `isPaymentSuccess`;
- `StripeWebhookController::handle`, the reconciliation state machine: it
  keeps only `checkout.session.completed` events, takes the cache lock
  `stripe-webhook-<session id>` without waiting, retrieves the session from
  Stripe (`getPaymentStatus`), looks the enrollment up, overwrites its
  `payment_status` with Stripe's, and releases the lock in `finally`.

The table is a sequence of rows in store order (`EnrollmentModel`). The
shared state that the controllers reach through Laravel's `DB` and `Cache`
facades is the class `Storage.Database`: the rows, the auto-increment
counter and the set of held lock keys. Its invariant `Valid()` says that
primary keys are distinct. `Handle` and `Create` are methods on that state.
Each one is tied to a function of the old state (`Reconcile`, `Checkout`),
and the lemmas beside those functions state what the controllers promise.
Stripe is a parameter: `retrieve` answers a session lookup or fails, and
`created` is the session that `Session::create` returned, or its failure.

The handler has a `try`/`finally` without a `catch`. When the Stripe
retrieval throws, the lock is released and the exception escapes, so the
answer is an error and not "Payment Completed". The model's answer in that
case is `Failed`.

## Model

| member | source | states |
|---|---|---|
| `EnrollmentModel.Fill` | app/Models/Enrollment.php:9-14 | mass assignment never changes the primary key |
| `EnrollmentModel.FillUsesOnlyFillable` | app/Models/Enrollment.php:9-14 | only `user_id`, `course_id`, `stripe_session_id` and `payment_status` are assignable: filling with any attributes equals filling with their fillable part, and `id` is kept |
| `EnrollmentModel.FillStatusOnly` | app/Http/Controllers/StripeWebhookController.php:43-45 | `update(['payment_status' => s])` changes the status column and no other column |
| `EnrollmentModel.NewRow` | database/migrations/2026_01_12_084246_create_enrollments_table.php:15-19 | an insert succeeds iff `user_id` and `course_id` are given; the row gets the given ids, a NULL session id when none is given, and status `pending` when none is given |
| `EnrollmentModel.FirstMatch` | app/Models/Enrollment.php:16-19 | the lookup finds nothing iff no row has session id `s`; otherwise it finds a matching row with no matching row before it |
| `EnrollmentModel.GetEnrollmentBySessionId` | app/Models/Enrollment.php:16-19 | returns none iff no row has session id `s`, otherwise the first matching row in store order |
| `EnrollmentModel.IsStripePaymentStatusPaid` | app/Models/Enrollment.php:21-26 | true iff some row has session id `s` and status exactly `paid` |
| `EnrollmentModel.NullSessionNeverFound` | app/Models/Enrollment.php:18 | a row whose session id is NULL is never the row a lookup by a string returns |
| `EnrollmentModel.PaidImpliesFound` | app/Models/Enrollment.php:16-26 | if the session is paid, the lookup for it finds a row |
| `EnrollmentModel.PaidRowNeedNotBeFoundRow` | app/Models/Enrollment.php:16-26 | with two rows sharing a session id, the session can be paid while the row the lookup returns is pending |
| `EnrollmentModel.SaveById` | app/Http/Controllers/StripeWebhookController.php:43-45 | saving by primary key fills exactly the rows with that key and keeps the length and every other row |
| `EnrollmentModel.SaveStatusOverwritesOneRow` | app/Http/Controllers/StripeWebhookController.php:42-45 | with distinct keys, a status update of row `k` is `rows[k := rows[k] with the new status]`, whatever the old status was |
| `Storage.Database.constructor` | database/migrations/2026_01_12_084246_create_enrollments_table.php:14-24 | a new store is empty, holds no lock and satisfies the key invariant |
| `Storage.Database.TryLock` | app/Http/Controllers/StripeWebhookController.php:27-34 | the lock is taken iff its key was free; it never waits; afterwards the key is held |
| `Storage.Database.Release` | app/Http/Controllers/StripeWebhookController.php:47-49 | removes exactly that key from the held set |
| `Storage.Database.Insert` | app/Http/Controllers/StripeCheckoutController.php:42-46 | appends the new row under the next key, or appends nothing when the insert fails; key invariant kept |
| `Storage.Database.Update` | app/Http/Controllers/StripeWebhookController.php:43-45 | the table becomes `SaveById` of the old one; key invariant kept |
| `WebhookController.GetPaymentStatus` | app/Http/Controllers/StripeWebhookController.php:56-70 | fails iff the retrieval fails; otherwise the status, id, currency and payment id are those of the retrieved session |
| `WebhookController.LockKey` | app/Http/Controllers/StripeWebhookController.php:27-30 | the key is the prefix `stripe-webhook-` followed by the session id |
| `WebhookController.LockKeyInjective` | app/Http/Controllers/StripeWebhookController.php:27-30 | two session ids share a lock key iff they are equal, so different sessions never contend |
| `WebhookController.Handle` | app/Http/Controllers/StripeWebhookController.php:17-52 | on every modelled path the held lock set ends as it began; a non-completion event is `Ignored` and a held key gives `AlreadyProcessing`, both with the table unchanged; the answer is `Failed` iff the retrieval failed after the lock was taken, and then the table is unchanged; an unknown session leaves the table unchanged; the new table is `Reconcile` of the old |
| `WebhookController.CompletionOverwritesFirstMatch` | app/Http/Controllers/StripeWebhookController.php:38-45 | when the lock is free and retrieval succeeds, the first matching row's status becomes Stripe's `payment_status`, and no other row or column changes |
| `WebhookController.UnknownSessionIsNoOp` | app/Http/Controllers/StripeWebhookController.php:40-51 | a completion for a session with no enrollment answers `PaymentCompleted` and leaves the table unchanged |
| `WebhookController.OtherLocksIrrelevant` | app/Http/Controllers/StripeWebhookController.php:27-34 | keys held for other sessions do not change what a delivery does |
| `WebhookController.ReconcileIdempotent` | app/Http/Controllers/StripeWebhookController.php:40-45 | delivering the same event a second time, with the same Stripe answer, leaves the table as the first delivery left it |
| `WebhookController.PendingBecomesPaid` | app/Http/Controllers/StripeWebhookController.php:21-51 | a pending enrollment for `cs_test_1` becomes `paid` when Stripe reports it paid |
| `CheckoutController.CheckoutAppendsPendingRow` | app/Http/Controllers/StripeCheckoutController.php:17-46 | a checkout for an existing course appends exactly one row (user 1, the course, the Stripe session id, status `pending`) and keeps the earlier rows; an unknown course or a failed session creation appends nothing |
| `CheckoutController.RepeatedCheckoutDuplicates` | app/Http/Controllers/StripeCheckoutController.php:42-46 | there is no uniqueness check: two checkouts of one course add two rows for the same user and course |
| `CheckoutController.Create` | app/Http/Controllers/StripeCheckoutController.php:15-51 | answers with the session url iff the course exists and the session was created, and then the table gains exactly the pending row and the key counter advances by one; otherwise the table and counter are unchanged; the new table is `Checkout` of the old |
| `CheckoutController.IsPaymentSuccess` | app/Http/Controllers/StripeCheckoutController.php:53-57 | true iff some row has the session id and status `paid`; changes nothing |

## Left out

- Stripe SDK calls (`Stripe::setApiKey`, `Session::create`, `Session::retrieve`) are network calls. Retrieval is the parameter `retrieve` and creation the parameter `created`; the request body of `Session::create` (price, title, metadata, redirect urls) is not modelled.
- The cache lock's ten-second expiry, its owner token and the atomicity of acquire are not modelled: a lock is a key in a set, and only whole `handle` calls one after another are modelled, not parallel deliveries.
- Money arithmetic (`amount_total / 100`, `price * 100`) is floating point and nothing in the model reads it; `ProviderSession` and `PaymentInfo` have no amount.
- JSON decoding of the request body is not modelled: the event arrives decoded, and a malformed payload (where PHP would read null properties) is out of scope.
- HTTP plumbing, response objects and configuration lookups are not modelled; `Course::findOrFail` is only "the id is in the set of existing courses". The route at routes/api.php:15 names a `getPaymentStatus` method that the checkout controller does not have; that route is not modelled.
- Session ids and payment statuses are matched with exact, binary string equality. The queries use SQL `=`, whose result follows the column's collation (a case-insensitive collation would also ignore case and trailing spaces); the database in use is not fixed by the code, so collation is not modelled.
- Failures of the database and of the cache backend are not modelled: the lookup or the `update` throwing inside the webhook's `try`, `$lock->get()` throwing, and `Enrollment::create` throwing after the Stripe session was created. The only failure `handle` models is a failed Stripe retrieval, and the only failures `create` models are an unknown course and a failed session creation.
- Schema creation, dropping and timestamps are not modelled; only the `pending` default, the nullable session column and the absent `(user_id, course_id)` unique constraint are.
- EnrollmentModel.Fill: a value whose shape the column cannot hold (a string for `user_id`, say) is discarded; the database's own casting or rejection of such values is not modelled. The controllers never pass one.
- The `!empty($stripePaymentInfo)` test in `handle` is not a separate branch, because a successful retrieval always yields a five-entry array.
- The lookup query has no `orderBy`, so "first" is the order the database returns; the model takes store order.
