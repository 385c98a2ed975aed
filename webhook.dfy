/** `StripeWebhookController` (app/Http/Controllers/StripeWebhookController.php):
    the reconciliation of a delivered Stripe event with the enrollments
    table, under a per-session cache lock. The Stripe retrieval call is the
    parameter `retrieve`; the event arrives already decoded. */
module WebhookController {
  import opened Wrappers
  import opened EnrollmentModel
  import opened Storage

  const CompletedEventType: string := "checkout.session.completed"
  const LockPrefix: string := "stripe-webhook-"

  /** A decoded Stripe event: its `type` and `data.object.id`. */
  datatype Event = Event(eventType: string, sessionId: string)

  /** The checkout session object Stripe returns for a retrieval. The
      amount is left out: nothing downstream reads it. */
  datatype ProviderSession = ProviderSession(
    id: string,
    paymentStatus: string,
    currency: string,
    paymentIntent: Option<string>)

  /** Outcome of `Session::retrieve`: the session, or a thrown exception. */
  datatype Retrieval = Retrieved(session: ProviderSession) | RetrieveFailed

  /** The array `getPaymentStatus` builds from the retrieved session. */
  datatype PaymentInfo = PaymentInfo(id: string, status: string, currency: string, paymentId: Option<string>)

  /** What `handle` answers: the three 200 bodies, or the retrieval
      exception escaping after the lock is released. */
  datatype Response = Ignored | AlreadyProcessing | PaymentCompleted | Failed

  /** The state `handle` leaves the table in, with its answer. */
  datatype Outcome = Outcome(response: Response, rows: seq<Enrollment>)

  /** `getPaymentStatus`: retrieves the session and maps its fields; a failed
      retrieval propagates as None. */
  function GetPaymentStatus(retrieve: string -> Retrieval, sessionId: string): (r: Option<PaymentInfo>)
    ensures r.None? <==> retrieve(sessionId).RetrieveFailed?
    ensures r.Some? ==> r.value.status == retrieve(sessionId).session.paymentStatus &&
                        r.value.id == retrieve(sessionId).session.id &&
                        r.value.currency == retrieve(sessionId).session.currency &&
                        r.value.paymentId == retrieve(sessionId).session.paymentIntent
  {
    match retrieve(sessionId)
    case RetrieveFailed => None
    case Retrieved(s) => Some(PaymentInfo(s.id, s.paymentStatus, s.currency, s.paymentIntent))
  }

  /** The cache key that serialises deliveries for one session. */
  function LockKey(sessionId: string): (k: string)
    ensures |k| == |LockPrefix| + |sessionId| && k[..|LockPrefix|] == LockPrefix && k[|LockPrefix|..] == sessionId
  {
    LockPrefix + sessionId
  }

  /** Distinct sessions get distinct lock keys, so they never contend. */
  lemma LockKeyInjective(a: string, b: string)
    ensures LockKey(a) == LockKey(b) <==> a == b
  {
    if LockKey(a) == LockKey(b) {
      assert a == LockKey(a)[|LockPrefix|..];
      assert b == LockKey(b)[|LockPrefix|..];
    }
  }

  /** The effect of one whole `handle` call on the table, given the lock
      keys held when it starts. */
  function Reconcile(rows: seq<Enrollment>, locks: set<string>, ev: Event,
                     retrieve: string -> Retrieval): Outcome
  {
    if ev.eventType != CompletedEventType then Outcome(Ignored, rows)
    else if LockKey(ev.sessionId) in locks then Outcome(AlreadyProcessing, rows)
    else match GetPaymentStatus(retrieve, ev.sessionId)
      case None => Outcome(Failed, rows)
      case Some(info) =>
        match GetEnrollmentBySessionId(rows, ev.sessionId)
        case None => Outcome(PaymentCompleted, rows)
        case Some(e) => Outcome(PaymentCompleted, SaveById(rows, e.id, map["payment_status" := StrV(info.status)]))
  }

  /** `handle`: filter the event type, try the session's lock, retrieve the
      authoritative status, look the enrollment up, overwrite its status,
      and release the lock on every path after it was taken. */
  method Handle(db: Database, ev: Event, retrieve: string -> Retrieval) returns (resp: Response)
    requires db.Valid()
    modifies db`locks, db`rows
    ensures db.Valid()
    ensures db.locks == old(db.locks)
    ensures Outcome(resp, db.rows) == Reconcile(old(db.rows), old(db.locks), ev, retrieve)
    ensures ev.eventType != CompletedEventType ==> resp == Ignored && db.rows == old(db.rows)
    ensures ev.eventType == CompletedEventType && LockKey(ev.sessionId) in old(db.locks) ==>
              resp == AlreadyProcessing && db.rows == old(db.rows)
    ensures resp == Failed <==>
              (ev.eventType == CompletedEventType && LockKey(ev.sessionId) !in old(db.locks) &&
               retrieve(ev.sessionId).RetrieveFailed?)
    ensures resp == Failed ==> db.rows == old(db.rows)
    ensures FirstMatch(old(db.rows), ev.sessionId).None? ==> db.rows == old(db.rows)
  {
    if ev.eventType != CompletedEventType {
      return Ignored;
    }
    var key := LockKey(ev.sessionId);
    var acquired := db.TryLock(key);
    if !acquired {
      return AlreadyProcessing;
    }
    // try
    var info := GetPaymentStatus(retrieve, ev.sessionId);
    if info.None? {
      // finally: the exception leaves only after the lock is released
      db.Release(key);
      return Failed;
    }
    var enrollment := GetEnrollmentBySessionId(db.rows, ev.sessionId);
    if enrollment.Some? {
      db.Update(enrollment.value.id, map["payment_status" := StrV(info.value.status)]);
    }
    // finally
    db.Release(key);
    resp := PaymentCompleted;
  }

  /** A completion event for a session with an enrollment, whose lock is
      free and whose retrieval succeeds, sets the first matching row's status
      to the provider's `payment_status`, whatever it was, and changes no
      other row or column. */
  lemma CompletionOverwritesFirstMatch(rows: seq<Enrollment>, locks: set<string>, ev: Event,
                                       retrieve: string -> Retrieval, k: nat)
    requires UniqueIds(rows)
    requires ev.eventType == CompletedEventType && LockKey(ev.sessionId) !in locks
    requires retrieve(ev.sessionId).Retrieved?
    requires FirstMatch(rows, ev.sessionId) == Some(k)
    ensures Reconcile(rows, locks, ev, retrieve) ==
            Outcome(PaymentCompleted, rows[k := rows[k].(paymentStatus := retrieve(ev.sessionId).session.paymentStatus)])
  {
    SaveStatusOverwritesOneRow(rows, k, retrieve(ev.sessionId).session.paymentStatus);
  }

  /** A session with no enrollment is a no-op that still answers
      "Payment Completed" once the status was retrieved. */
  lemma UnknownSessionIsNoOp(rows: seq<Enrollment>, locks: set<string>, ev: Event,
                             retrieve: string -> Retrieval)
    requires ev.eventType == CompletedEventType && LockKey(ev.sessionId) !in locks
    requires retrieve(ev.sessionId).Retrieved?
    requires forall i :: 0 <= i < |rows| ==> !HasSession(rows[i], ev.sessionId)
    ensures Reconcile(rows, locks, ev, retrieve) == Outcome(PaymentCompleted, rows)
  {
  }

  /** Keys held for other sessions do not influence a delivery. */
  lemma OtherLocksIrrelevant(rows: seq<Enrollment>, locks: set<string>, ev: Event,
                             retrieve: string -> Retrieval)
    requires LockKey(ev.sessionId) !in locks
    ensures Reconcile(rows, locks, ev, retrieve) == Reconcile(rows, {}, ev, retrieve)
  {
  }

  /** Tables with the same session column in every position give the same
      first match. */
  lemma {:induction false} FirstMatchOnSessions(a: seq<Enrollment>, b: seq<Enrollment>, s: string)
    requires |a| == |b|
    requires forall i :: 0 <= i < |a| ==> a[i].sessionId == b[i].sessionId
    ensures FirstMatch(a, s) == FirstMatch(b, s)
  {
    if |a| > 0 && !HasSession(a[0], s) {
      FirstMatchOnSessions(a[1..], b[1..], s);
    }
  }

  /** Redelivery: handling the same event again, with the same answer from
      Stripe and the same lock keys held, leaves the table as the first
      delivery left it. */
  lemma {:induction false} ReconcileIdempotent(rows: seq<Enrollment>, locks: set<string>, ev: Event,
                                               retrieve: string -> Retrieval)
    ensures var once := Reconcile(rows, locks, ev, retrieve).rows;
            Reconcile(once, locks, ev, retrieve).rows == once
  {
    var once := Reconcile(rows, locks, ev, retrieve).rows;
    if ev.eventType == CompletedEventType && LockKey(ev.sessionId) !in locks &&
       retrieve(ev.sessionId).Retrieved? && FirstMatch(rows, ev.sessionId).Some? {
      var status := retrieve(ev.sessionId).session.paymentStatus;
      var attrs := map["payment_status" := StrV(status)];
      var k := FirstMatch(rows, ev.sessionId).value;
      forall i | 0 <= i < |rows|
        ensures once[i].sessionId == rows[i].sessionId
        ensures once[i].id == rows[i].id
        ensures rows[i].id == rows[k].id ==> once[i] == Fill(once[i], attrs)
      {
        FillStatusOnly(rows[i], status);
        FillStatusOnly(once[i], status);
      }
      FirstMatchOnSessions(rows, once, ev.sessionId);
      assert once == SaveById(rows, rows[k].id, attrs);
      assert SaveById(once, once[k].id, attrs) == once;
    }
  }

  /** The scenario of a first delivery: session `cs_test_1` has a pending
      enrollment and Stripe reports it paid; the row becomes paid. */
  lemma PendingBecomesPaid(retrieve: string -> Retrieval)
    requires retrieve("cs_test_1") == Retrieved(ProviderSession("cs_test_1", PaidStatus, "usd", Some("pi_1")))
    ensures Reconcile([Enrollment(1, 1, 7, Some("cs_test_1"), PendingStatus)], {},
                      Event(CompletedEventType, "cs_test_1"), retrieve) ==
            Outcome(PaymentCompleted, [Enrollment(1, 1, 7, Some("cs_test_1"), PaidStatus)])
  {
    var rows := [Enrollment(1, 1, 7, Some("cs_test_1"), PendingStatus)];
    assert HasSession(rows[0], "cs_test_1");
    FillStatusOnly(rows[0], PaidStatus);
  }
}
