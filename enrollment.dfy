/** The `Enrollment` Eloquent model (app/Models/Enrollment.php) and the
    `enrollments` table it is stored in. The table is a sequence of rows in
    store order; the two static queries are read-only functions over it. */
module EnrollmentModel {
  import opened Wrappers

  /** One row of the `enrollments` table. `sessionId` is the nullable
      `stripe_session_id` column; timestamps are not modelled. */
  datatype Enrollment = Enrollment(
    id: nat,
    userId: int,
    courseId: int,
    sessionId: Option<string>,
    paymentStatus: string)

  /** The value of one attribute handed to `create` or `update`. */
  datatype Value = IntV(i: int) | StrV(s: string) | NullV

  const PaidStatus: string := "paid"

  /** Default of the `payment_status` column. */
  const PendingStatus: string := "pending"

  /** The model's `$fillable` list: the only attribute names that mass
      assignment copies into a row. */
  const Fillable: set<string> := {"user_id", "course_id", "stripe_session_id", "payment_status"}

  /** Mass assignment: copies each fillable attribute present in `attrs` into
      `e`; every other key, `id` included, is discarded. A value of a shape
      the column cannot hold is discarded as well. */
  function Fill(e: Enrollment, attrs: map<string, Value>): (r: Enrollment)
    ensures r.id == e.id
  {
    var e1 := if "user_id" in attrs && attrs["user_id"].IntV? then e.(userId := attrs["user_id"].i) else e;
    var e2 := if "course_id" in attrs && attrs["course_id"].IntV? then e1.(courseId := attrs["course_id"].i) else e1;
    var e3 := if "stripe_session_id" in attrs && attrs["stripe_session_id"].StrV? then e2.(sessionId := Some(attrs["stripe_session_id"].s))
              else if "stripe_session_id" in attrs && attrs["stripe_session_id"].NullV? then e2.(sessionId := None)
              else e2;
    if "payment_status" in attrs && attrs["payment_status"].StrV? then e3.(paymentStatus := attrs["payment_status"].s) else e3
  }

  /** The attributes of `attrs` that mass assignment may use. */
  function Guarded(attrs: map<string, Value>): (r: map<string, Value>)
    ensures r.Keys == attrs.Keys * Fillable
    ensures forall k :: k in r ==> r[k] == attrs[k]
  {
    map k | k in attrs && k in Fillable :: attrs[k]
  }

  /** Keys outside `$fillable` never reach the row: filling with `attrs` is
      filling with its fillable part alone, and the primary key is kept. */
  lemma FillUsesOnlyFillable(e: Enrollment, attrs: map<string, Value>)
    ensures Fill(e, attrs) == Fill(e, Guarded(attrs))
    ensures Fill(e, attrs).id == e.id
  {
  }

  /** `update(['payment_status' => s])` changes the status column and no
      other column of the row. */
  lemma FillStatusOnly(e: Enrollment, status: string)
    ensures Fill(e, map["payment_status" := StrV(status)]) == e.(paymentStatus := status)
  {
  }

  /** `Enrollment::create(attrs)`: the row the insert stores under primary key
      `id`. `user_id` and `course_id` are NOT NULL columns without a default,
      so the insert fails (None) when they are not supplied; a missing
      `stripe_session_id` is NULL and a missing `payment_status` is
      `pending`. */
  function NewRow(id: nat, attrs: map<string, Value>): (r: Option<Enrollment>)
    ensures r.Some? <==> ("user_id" in attrs && attrs["user_id"].IntV? &&
                          "course_id" in attrs && attrs["course_id"].IntV?)
    ensures r.Some? ==> r.value.id == id && r.value.userId == attrs["user_id"].i &&
                        r.value.courseId == attrs["course_id"].i
    ensures r.Some? && "payment_status" !in attrs ==> r.value.paymentStatus == PendingStatus
    ensures r.Some? && "stripe_session_id" !in attrs ==> r.value.sessionId == None
  {
    if "user_id" in attrs && attrs["user_id"].IntV? && "course_id" in attrs && attrs["course_id"].IntV? then
      Some(Fill(Enrollment(id, 0, 0, None, PendingStatus), attrs))
    else
      None
  }

  /** Whether a row's `stripe_session_id` equals the string `s`. A NULL
      column never equals a string. */
  predicate HasSession(e: Enrollment, s: string)
  {
    e.sessionId == Some(s)
  }

  /** Position of the row `where('stripe_session_id', s)->first()` returns:
      the first matching row in store order, or None when no row matches. */
  function FirstMatch(rows: seq<Enrollment>, s: string): (r: Option<nat>)
    ensures r.None? <==> forall i :: 0 <= i < |rows| ==> !HasSession(rows[i], s)
    ensures r.Some? ==> r.value < |rows| && HasSession(rows[r.value], s) &&
                        forall j :: 0 <= j < r.value ==> !HasSession(rows[j], s)
  {
    if |rows| == 0 then None
    else if HasSession(rows[0], s) then Some(0)
    else match FirstMatch(rows[1..], s)
      case None => None
      case Some(k) => Some(k + 1)
  }

  /** `getEnrollmentByStripeSessionId`: the first row whose session id is
      `s`, or None. */
  function GetEnrollmentBySessionId(rows: seq<Enrollment>, s: string): (r: Option<Enrollment>)
    ensures r.None? <==> forall i :: 0 <= i < |rows| ==> !HasSession(rows[i], s)
    ensures r.Some? ==> exists i :: 0 <= i < |rows| && rows[i] == r.value && HasSession(rows[i], s) &&
                                    forall j :: 0 <= j < i ==> !HasSession(rows[j], s)
  {
    match FirstMatch(rows, s)
    case None => None
    case Some(k) => Some(rows[k])
  }

  /** `isStripePaymentStatusPaid`: `where(...)->where('payment_status',
      'paid')->exists()`, a scan for a row carrying both conditions. */
  function IsStripePaymentStatusPaid(rows: seq<Enrollment>, s: string): (b: bool)
    ensures b <==> exists i :: 0 <= i < |rows| && HasSession(rows[i], s) && rows[i].paymentStatus == PaidStatus
  {
    if |rows| == 0 then false
    else (HasSession(rows[0], s) && rows[0].paymentStatus == PaidStatus) ||
         IsStripePaymentStatusPaid(rows[1..], s)
  }

  /** A row whose session column is NULL is never returned by the lookup. */
  lemma NullSessionNeverFound(rows: seq<Enrollment>, s: string, i: nat)
    requires i < |rows| && rows[i].sessionId.None?
    ensures FirstMatch(rows, s) != Some(i)
  {
  }

  /** A paid row for `s` implies that the lookup for `s` finds a row. */
  lemma PaidImpliesFound(rows: seq<Enrollment>, s: string)
    requires IsStripePaymentStatusPaid(rows, s)
    ensures GetEnrollmentBySessionId(rows, s).Some?
  {
  }

  /** With duplicate session ids the row the lookup returns need not be the
      paid one: here the first row is pending and a later one is paid. */
  lemma PaidRowNeedNotBeFoundRow()
    ensures var rows := [Enrollment(1, 1, 7, Some("cs_dup"), PendingStatus),
                         Enrollment(2, 1, 7, Some("cs_dup"), PaidStatus)];
            IsStripePaymentStatusPaid(rows, "cs_dup") &&
            GetEnrollmentBySessionId(rows, "cs_dup") == Some(rows[0]) &&
            rows[0].paymentStatus != PaidStatus
  {
    var rows := [Enrollment(1, 1, 7, Some("cs_dup"), PendingStatus),
                 Enrollment(2, 1, 7, Some("cs_dup"), PaidStatus)];
    assert HasSession(rows[1], "cs_dup") && rows[1].paymentStatus == PaidStatus;
  }

  /** Primary keys are distinct. */
  ghost predicate UniqueIds(rows: seq<Enrollment>)
  {
    forall i, j :: 0 <= i < |rows| && 0 <= j < |rows| && rows[i].id == rows[j].id ==> i == j
  }

  /** `$model->update(attrs)` saved by primary key: every row whose `id` is
      `id` is filled with `attrs`; all other rows are kept. */
  function SaveById(rows: seq<Enrollment>, id: nat, attrs: map<string, Value>): (r: seq<Enrollment>)
    ensures |r| == |rows|
    ensures forall i :: 0 <= i < |rows| && rows[i].id != id ==> r[i] == rows[i]
    ensures forall i :: 0 <= i < |rows| && rows[i].id == id ==> r[i] == Fill(rows[i], attrs)
  {
    seq(|rows|, i requires 0 <= i < |rows| => if rows[i].id == id then Fill(rows[i], attrs) else rows[i])
  }

  /** Setting the status of row `k` by its primary key, in a table whose keys
      are distinct, overwrites that row's status whatever it was and changes
      nothing else. */
  lemma SaveStatusOverwritesOneRow(rows: seq<Enrollment>, k: nat, status: string)
    requires UniqueIds(rows) && k < |rows|
    ensures SaveById(rows, rows[k].id, map["payment_status" := StrV(status)]) ==
            rows[k := rows[k].(paymentStatus := status)]
  {
    var attrs := map["payment_status" := StrV(status)];
    var r := SaveById(rows, rows[k].id, attrs);
    forall i | 0 <= i < |rows|
      ensures r[i] == rows[k := rows[k].(paymentStatus := status)][i]
    {
      FillStatusOnly(rows[i], status);
    }
  }
}
