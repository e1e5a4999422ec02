/** Vocabulary shared by the hostel-management handlers: optional request
    fields with JavaScript truthiness, the abstract outcome of a handler, and
    billing periods ordered by (year, month). */
module Common {

  datatype Option<T> = None | Some(value: T)

  /** The HTTP status class a failed handler answers with (400, 404, 500). */
  datatype Status = BadRequest | NotFound | ServerError

  /** Why a handler failed. */
  datatype Cause =
    | MissingField    // a required request field is absent or falsy
    | UnknownRecord   // no row has the requested id
    | UnknownStudent  // the referenced student row does not exist
    | UnknownRoom     // the referenced room does not exist
    | UploadFailed    // the image store rejected an upload
    | QueryRejected   // the database refused the statement (negative LIMIT / OFFSET)

  datatype Result<T> = Ok(value: T) | Err(status: Status, cause: Cause)

  /** A numeric request field that JavaScript treats as truthy: present and not 0. */
  predicate Given(field: Option<int>) {
    field.Some? && field.value != 0
  }

  /** A text request field that JavaScript treats as truthy: present and not "". */
  predicate GivenText(field: Option<string>) {
    field.Some? && field.value != ""
  }

  /** A billing period: the (Year, RentPaidMonth) pair of a rent row, or the
      (YEAR(expDate), MONTH(expDate)) pair of an expense. */
  datatype Period = Period(year: int, month: int)

  /** Lexicographic order on (year, month), the order of `ORDER BY Year, RentPaidMonth`. */
  predicate PeriodLe(a: Period, b: Period) {
    a.year < b.year || (a.year == b.year && a.month <= b.month)
  }

  predicate PeriodLt(a: Period, b: Period) {
    PeriodLe(a, b) && a != b
  }

  /** A calendar month as the clock reports it. */
  predicate ValidMonth(p: Period) {
    1 <= p.month <= 12
  }

  /** Months counted from January of year 0; consecutive months differ by one. */
  function MonthIndex(p: Period): int {
    p.year * 12 + p.month - 1
  }

  function NextMonth(p: Period): Period {
    if p.month == 12 then Period(p.year + 1, 1) else Period(p.year, p.month + 1)
  }

  function PrevMonth(p: Period): Period {
    if p.month == 1 then Period(p.year - 1, 12) else Period(p.year, p.month - 1)
  }

  lemma PrevThenNext(p: Period)
    requires ValidMonth(p)
    ensures ValidMonth(PrevMonth(p))
    ensures NextMonth(PrevMonth(p)) == p
    ensures MonthIndex(PrevMonth(p)) == MonthIndex(p) - 1
  {
  }

  /** On calendar months the month index orders exactly as (year, month) does. */
  lemma {:induction false} MonthIndexMonotone(a: Period, b: Period)
    requires ValidMonth(a) && ValidMonth(b)
    ensures PeriodLe(a, b) <==> MonthIndex(a) <= MonthIndex(b)
  {
    if a.year < b.year {
      assert MonthIndex(a) <= a.year * 12 + 11;
      assert (a.year + 1) * 12 <= b.year * 12;
    } else if a.year > b.year {
      assert MonthIndex(b) <= b.year * 12 + 11;
      assert (b.year + 1) * 12 <= a.year * 12;
    }
  }
}
