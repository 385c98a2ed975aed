/** `StripeCheckoutController` (app/Http/Controllers/StripeCheckoutController.php):
    checkout creation, which records a pending enrollment for the Stripe
    session it opens, and the paid-status query. The Stripe session
    creation call is the parameter `created`; courses are the set of
    existing course ids. */
module CheckoutController {
  import opened Wrappers
  import opened EnrollmentModel
  import opened Storage

  /** The user every checkout is recorded for. */
  const CheckoutUserId: int := 1

  /** Outcome of `Session::create`: the new session's id and hosted-page url,
      or a thrown exception. */
  datatype SessionCreation = Created(id: string, url: string) | CreateFailed

  /** What `create` answers: the JSON body carrying the hosted-page url,
      the 404 of `findOrFail`, or the escaping Stripe exception. */
  datatype CheckoutResponse = CheckoutUrl(url: string) | CourseNotFound | ProviderError

  datatype CheckoutOutcome = CheckoutOutcome(response: CheckoutResponse, rows: seq<Enrollment>)

  /** The attributes `create` passes to `Enrollment::create`. */
  function CheckoutAttrs(courseId: int, sessionId: string): map<string, Value>
  {
    map["user_id" := IntV(CheckoutUserId), "course_id" := IntV(courseId), "stripe_session_id" := StrV(sessionId)]
  }

  /** The effect of one `create` call on the table, whose next primary key is
      `nextId`. */
  function Checkout(rows: seq<Enrollment>, nextId: nat, courses: set<int>, courseId: int,
                    created: SessionCreation): CheckoutOutcome
  {
    if courseId !in courses then CheckoutOutcome(CourseNotFound, rows)
    else match created
      case CreateFailed => CheckoutOutcome(ProviderError, rows)
      case Created(sid, url) =>
        CheckoutOutcome(CheckoutUrl(url), rows + [NewRow(nextId, CheckoutAttrs(courseId, sid)).value])
  }

  /** A successful checkout appends exactly one row, for user 1, the course,
      and the Stripe session, whose status is the column default `pending`;
      the earlier rows are kept. An unknown course or a failed session
      creation appends nothing. */
  lemma CheckoutAppendsPendingRow(rows: seq<Enrollment>, nextId: nat, courses: set<int>, courseId: int,
                                  created: SessionCreation)
    ensures var out := Checkout(rows, nextId, courses, courseId, created);
            if courseId in courses && created.Created? then
              out == CheckoutOutcome(CheckoutUrl(created.url),
                       rows + [Enrollment(nextId, CheckoutUserId, courseId, Some(created.id), PendingStatus)])
            else
              out.rows == rows && !out.response.CheckoutUrl?
  {
    if courseId in courses && created.Created? {
      var attrs := CheckoutAttrs(courseId, created.id);
      assert "payment_status" !in attrs;
    }
  }

  /** No uniqueness check: two checkouts of the same course add two rows for
      the same user and course. */
  lemma {:induction false} RepeatedCheckoutDuplicates(rows: seq<Enrollment>, nextId: nat, courses: set<int>,
                                                      courseId: int, first: SessionCreation, second: SessionCreation)
    requires courseId in courses && first.Created? && second.Created?
    ensures var once := Checkout(rows, nextId, courses, courseId, first).rows;
            var twice := Checkout(once, nextId + 1, courses, courseId, second).rows;
            |twice| == |rows| + 2 && twice[..|rows|] == rows &&
            twice[|rows|].userId == twice[|rows| + 1].userId == CheckoutUserId &&
            twice[|rows|].courseId == twice[|rows| + 1].courseId == courseId
  {
    CheckoutAppendsPendingRow(rows, nextId, courses, courseId, first);
    var once := Checkout(rows, nextId, courses, courseId, first).rows;
    CheckoutAppendsPendingRow(once, nextId + 1, courses, courseId, second);
    var twice := Checkout(once, nextId + 1, courses, courseId, second).rows;
    assert twice[..|rows|] == once[..|rows|];
  }

  /** `create`: find the course or fail, open the Stripe session, insert the
      pending enrollment, answer with the session's url as JSON. */
  method Create(db: Database, courses: set<int>, courseId: int, created: SessionCreation)
    returns (resp: CheckoutResponse)
    requires db.Valid()
    modifies db`rows, db`nextId
    ensures db.Valid()
    ensures CheckoutOutcome(resp, db.rows) == Checkout(old(db.rows), old(db.nextId), courses, courseId, created)
    ensures resp.CheckoutUrl? <==> courseId in courses && created.Created?
    ensures resp.CheckoutUrl? ==>
              (db.rows == old(db.rows) + [Enrollment(old(db.nextId), CheckoutUserId, courseId, Some(created.id), PendingStatus)] &&
               resp.url == created.url)
    ensures db.nextId == if resp.CheckoutUrl? then old(db.nextId) + 1 else old(db.nextId)
    ensures courseId !in courses ==> resp == CourseNotFound && db.rows == old(db.rows)
    ensures created.CreateFailed? ==> !resp.CheckoutUrl? && db.rows == old(db.rows)
  {
    CheckoutAppendsPendingRow(db.rows, db.nextId, courses, courseId, created);
    if courseId !in courses {
      return CourseNotFound;
    }
    if created.CreateFailed? {
      return ProviderError;
    }
    var row := db.Insert(CheckoutAttrs(courseId, created.id));
    resp := CheckoutUrl(created.url);
  }

  /** `isPaymentSuccess`: whether some enrollment for the session is paid;
      reads the table and changes nothing. */
  method IsPaymentSuccess(db: Database, sessionId: string) returns (paid: bool)
    ensures paid <==> exists i :: 0 <= i < |db.rows| && db.rows[i].sessionId == Some(sessionId) &&
                                  db.rows[i].paymentStatus == PaidStatus
  {
    var isStatusPaid := IsStripePaymentStatusPaid(db.rows, sessionId);
    paid := if isStatusPaid then true else false;
  }
}
