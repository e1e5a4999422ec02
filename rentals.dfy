/** The rent ledger (`tbl_rent`): one row per payment event, each carrying
    the dues still owed after it. Creating a row charges the student's basic
    rent on top of the dues of the student's latest row; updating a row
    charges the basic rent on top of that same row's stored dues; deleting a
    row recomputes nothing. */
module Rentals {
  import opened Common
  import Pagination
  import Students

  datatype RentStatus = Paid | PartiallyPaid

  /** One row of `tbl_rent`. `basicRent` is the student's basic rent when the
      row was created. */
  datatype RentRecord = RentRecord(
    rentId: int,
    stdId: int,
    month: int,
    year: int,
    status: RentStatus,
    rentType: Option<string>,
    basicRent: int,
    paidAmount: int,
    dues: int)

  function PeriodOf(r: RentRecord): Period {
    Period(r.year, r.month)
  }

  /** The body of the create handler. `status` is what the client sends; it is never stored. */
  datatype CreateRequest = CreateRequest(
    stdId: Option<int>,
    month: Option<int>,
    year: Option<int>,
    status: Option<string>,
    rentType: Option<string>,
    paidAmount: Option<int>)

  /** The body of the update handler. */
  datatype UpdateRequest = UpdateRequest(
    rentId: Option<int>,
    month: Option<int>,
    year: Option<int>,
    status: Option<string>,
    rentType: Option<string>,
    paidAmount: Option<int>)

  /** What the read handler returns for one rent row. */
  datatype RentalDetails = RentalDetails(
    rental: RentRecord,
    totalPayments: int,
    totalDues: int,
    currentMonthDues: int,
    securityFee: int,
    basicRent: int,
    history: seq<RentRecord>)

  datatype Settlement = Settlement(dues: int, status: RentStatus)

  /** Dues and status after paying `paid` against `basicRent` plus the dues
      carried in: the shortfall, never below zero, and Paid exactly when
      nothing is left to pay. A payment above what is owed is accepted and
      the excess is dropped. */
  function Settle(basicRent: int, carried: int, paid: int): (s: Settlement)
    ensures s.dues >= 0 && s.dues >= basicRent + carried - paid
    ensures s.dues == 0 || s.dues == basicRent + carried - paid
    ensures s.status == Paid <==> basicRent + carried - paid <= 0
    ensures s.status == Paid <==> s.dues == 0
  {
    var newDues := basicRent + carried - paid;
    if newDues > 0 then Settlement(newDues, PartiallyPaid) else Settlement(0, Paid)
  }

  /** A payment event of the student with the greatest (Year, RentPaidMonth);
      `ORDER BY Year DESC, RentPaidMonth DESC LIMIT 1` leaves ties open. */
  ghost predicate IsLatestOf(rows: seq<RentRecord>, stdId: int, r: RentRecord) {
    && r in rows && r.stdId == stdId
    && forall i :: 0 <= i < |rows| && rows[i].stdId == stdId ==> PeriodLe(PeriodOf(rows[i]), PeriodOf(r))
  }

  function Latest(rows: seq<RentRecord>, stdId: int): (r: Option<RentRecord>)
    ensures r.None? <==> forall i :: 0 <= i < |rows| ==> rows[i].stdId != stdId
    ensures r.Some? ==> IsLatestOf(rows, stdId, r.value)
  {
    if rows == [] then None
    else
      var rest := Latest(rows[1..], stdId);
      if rows[0].stdId != stdId then
        assert forall i :: 1 <= i < |rows| ==> rows[i] == rows[1..][i - 1];
        rest
      else if rest.Some? && PeriodLe(PeriodOf(rows[0]), PeriodOf(rest.value)) then
        assert forall i :: 1 <= i < |rows| ==> rows[i] == rows[1..][i - 1];
        rest
      else
        assert forall i :: 1 <= i < |rows| ==> rows[i] == rows[1..][i - 1];
        Some(rows[0])
  }

  /** The dues carried into a new payment: those of the student's latest row, 0 without one. */
  function PreviousDues(rows: seq<RentRecord>, stdId: int): (d: int)
    ensures (forall i :: 0 <= i < |rows| ==> rows[i].stdId != stdId) ==> d == 0
    ensures (exists i :: 0 <= i < |rows| && rows[i].stdId == stdId) ==>
              exists r :: IsLatestOf(rows, stdId, r) && r.dues == d
  {
    match Latest(rows, stdId)
    case None => 0
    case Some(r) => r.dues
  }

  /** A later payment event becomes the one the next create carries dues from. */
  lemma {:induction false} AppendedLatestIsCarried(rows: seq<RentRecord>, r: RentRecord)
    requires forall i :: 0 <= i < |rows| && rows[i].stdId == r.stdId ==> PeriodLt(PeriodOf(rows[i]), PeriodOf(r))
    ensures Latest(rows + [r], r.stdId) == Some(r)
    ensures PreviousDues(rows + [r], r.stdId) == r.dues
  {
    if rows != [] {
      assert (rows + [r])[1..] == rows[1..] + [r];
      AppendedLatestIsCarried(rows[1..], r);
    }
  }

  predicate CreateFieldsGiven(req: CreateRequest) {
    Given(req.stdId) && Given(req.month) && Given(req.year) && Given(req.paidAmount)
  }

  predicate UpdateFieldsGiven(req: UpdateRequest) {
    Given(req.month) && Given(req.year) && Given(req.paidAmount)
  }

  /** `createRental` on the table `rows`, with `id` the next auto-increment value. */
  function CreateOutcome(rows: seq<RentRecord>, students: seq<Students.Student>, req: CreateRequest, id: int): (r: Result<RentRecord>)
    ensures !CreateFieldsGiven(req) ==> r == Err(BadRequest, MissingField)
    ensures CreateFieldsGiven(req) && Students.Lookup(students, req.stdId.value).None? ==> r == Err(ServerError, UnknownStudent)
    ensures r.Ok? <==> CreateFieldsGiven(req) && Students.Lookup(students, req.stdId.value).Some?
    ensures r.Ok? ==>
      var v := r.value;
      var basic := Students.Lookup(students, req.stdId.value).value.basicRent;
      var carried := PreviousDues(rows, req.stdId.value);
      && v.rentId == id && v.stdId == req.stdId.value
      && v.month == req.month.value && v.year == req.year.value
      && v.rentType == req.rentType && v.paidAmount == req.paidAmount.value
      && v.basicRent == basic
      && v.dues >= 0 && v.dues >= basic + carried - v.paidAmount
      && (v.dues == 0 || v.dues == basic + carried - v.paidAmount)
      && (v.status == Paid <==> basic + carried - v.paidAmount <= 0)
  {
    if !CreateFieldsGiven(req) then Err(BadRequest, MissingField)
    else match Students.Lookup(students, req.stdId.value)
      case None => Err(ServerError, UnknownStudent)
      case Some(student) =>
        var s := Settle(student.basicRent, PreviousDues(rows, req.stdId.value), req.paidAmount.value);
        Ok(RentRecord(id, req.stdId.value, req.month.value, req.year.value, s.status,
          req.rentType, student.basicRent, req.paidAmount.value, s.dues))
  }

  /** The status the client sends has no effect on what create stores. */
  lemma ClientStatusIgnored(rows: seq<RentRecord>, students: seq<Students.Student>, req: CreateRequest, id: int, sent: Option<string>)
    ensures CreateOutcome(rows, students, req.(status := sent), id) == CreateOutcome(rows, students, req, id)
  {
  }

  /** Position of the row with the given RentID, if any. */
  function IndexOf(rows: seq<RentRecord>, rentId: int): (r: Option<nat>)
    ensures r.None? <==> forall i :: 0 <= i < |rows| ==> rows[i].rentId != rentId
    ensures r.Some? ==> r.value < |rows| && rows[r.value].rentId == rentId
  {
    if rows == [] then None
    else if rows[0].rentId == rentId then Some(0)
    else match IndexOf(rows[1..], rentId)
      case None => None
      case Some(k) => Some(k + 1)
  }

  /** `updateRental`: the index of the row it rewrites and the row it writes there. */
  function UpdateOutcome(rows: seq<RentRecord>, students: seq<Students.Student>, req: UpdateRequest): (r: Result<(nat, RentRecord)>)
    ensures !Given(req.rentId) ==> r == Err(BadRequest, MissingField)
    ensures Given(req.rentId) && !UpdateFieldsGiven(req) ==> r == Err(BadRequest, MissingField)
    ensures Given(req.rentId) && UpdateFieldsGiven(req) && IndexOf(rows, req.rentId.value).None? ==> r == Err(ServerError, UnknownRecord)
    ensures r.Ok? <==> Given(req.rentId) && UpdateFieldsGiven(req) && IndexOf(rows, req.rentId.value).Some?
                       && Students.Lookup(students, rows[IndexOf(rows, req.rentId.value).value].stdId).Some?
    ensures Given(req.rentId) && UpdateFieldsGiven(req) && IndexOf(rows, req.rentId.value).Some?
            && Students.Lookup(students, rows[IndexOf(rows, req.rentId.value).value].stdId).None?
            ==> r == Err(ServerError, UnknownStudent)
    ensures r.Ok? ==> r.value.0 == IndexOf(rows, req.rentId.value).value
    ensures r.Ok? ==>
      var (k, v) := r.value;
      var old_ := rows[k];
      var basic := Students.Lookup(students, old_.stdId).value.basicRent;
      && v.rentId == old_.rentId && v.stdId == old_.stdId && v.basicRent == old_.basicRent
      && v.month == req.month.value && v.year == req.year.value
      && v.rentType == req.rentType && v.paidAmount == req.paidAmount.value
      && v.dues >= 0 && v.dues >= basic + old_.dues - v.paidAmount
      && (v.dues == 0 || v.dues == basic + old_.dues - v.paidAmount)
      && (v.status == Paid <==> basic + old_.dues - v.paidAmount <= 0)
  {
    if !Given(req.rentId) || !UpdateFieldsGiven(req) then Err(BadRequest, MissingField)
    else match IndexOf(rows, req.rentId.value)
      case None => Err(ServerError, UnknownRecord)
      case Some(k) =>
        var existing := rows[k];
        match Students.Lookup(students, existing.stdId)
        case None => Err(ServerError, UnknownStudent)
        case Some(student) =>
          var s := Settle(student.basicRent, existing.dues, req.paidAmount.value);
          Ok((k, existing.(month := req.month.value, year := req.year.value, status := s.status,
            rentType := req.rentType, paidAmount := req.paidAmount.value, dues := s.dues)))
  }

  /** Updating a row twice with the same body is not idempotent: the second
      update charges the basic rent again on top of the dues the first one
      stored. */
  lemma {:induction false} RepeatedUpdateCompounds(rows: seq<RentRecord>, students: seq<Students.Student>, req: UpdateRequest)
    requires UpdateOutcome(rows, students, req).Ok?
    ensures var (k, v) := UpdateOutcome(rows, students, req).value;
      var again := UpdateOutcome(rows[k := v], students, req);
      var basic := Students.Lookup(students, v.stdId).value.basicRent;
      && again.Ok? && again.value.0 == k
      && again.value.1.dues == Settle(basic, v.dues, req.paidAmount.value).dues
  {
    var (k, v) := UpdateOutcome(rows, students, req).value;
    IndexOfUnique(rows, k, v);
  }

  /** Rewriting row k with a row of the same RentID leaves every lookup by
      that id pointing at k, provided the ids were unique. */
  lemma IndexOfUnique(rows: seq<RentRecord>, k: nat, v: RentRecord)
    requires k < |rows| && v.rentId == rows[k].rentId
    requires IndexOf(rows, rows[k].rentId) == Some(k)
    ensures IndexOf(rows[k := v], v.rentId) == Some(k)
  {
    if k > 0 {
      assert rows[k := v][1..] == rows[1..][k - 1 := v];
      IndexOfUnique(rows[1..], k - 1, v);
    }
  }

  /** `DELETE FROM tbl_rent WHERE RentID = ?`. */
  function Without(rows: seq<RentRecord>, rentId: int): (r: seq<RentRecord>)
    ensures forall x :: x in r <==> x in rows && x.rentId != rentId
    ensures |r| <= |rows|
  {
    if rows == [] then []
    else if rows[0].rentId == rentId then Without(rows[1..], rentId)
    else [rows[0]] + Without(rows[1..], rentId)
  }

  /** When no other row has its RentID, the delete removes exactly that row
      and keeps the others in order; unique ids give this for every row. */
  lemma {:induction false} WithoutIsRemoveAt(rows: seq<RentRecord>, k: nat)
    requires k < |rows|
    requires forall i :: 0 <= i < |rows| && i != k ==> rows[i].rentId != rows[k].rentId
    ensures Without(rows, rows[k].rentId) == rows[..k] + rows[k + 1..]
  {
    var tail := rows[1..];
    if k == 0 {
      forall i | 0 <= i < |tail|
        ensures tail[i].rentId != rows[0].rentId
      {
        assert tail[i] == rows[i + 1];
      }
      WithoutAbsent(tail, rows[0].rentId);
    } else {
      assert tail[k - 1] == rows[k];
      forall i | 0 <= i < |tail| && i != k - 1
        ensures tail[i].rentId != tail[k - 1].rentId
      {
        assert tail[i] == rows[i + 1];
      }
      WithoutIsRemoveAt(tail, k - 1);
      assert Without(rows, rows[k].rentId) == [rows[0]] + Without(tail, rows[k].rentId);
      SkipInTail(rows, k);
    }
  }

  lemma SkipInTail(rows: seq<RentRecord>, k: nat)
    requires 0 < k < |rows|
    ensures rows[..k] + rows[k + 1..] == [rows[0]] + (rows[1..][..k - 1] + rows[1..][k..])
  {
    assert rows[..k] == [rows[0]] + rows[1..][..k - 1];
    assert rows[k + 1..] == rows[1..][k..];
  }

  lemma OnlyRowWithId(rows: seq<RentRecord>, k: nat)
    requires k < |rows|
    requires forall i, j :: 0 <= i < j < |rows| ==> rows[i].rentId != rows[j].rentId
    ensures forall i :: 0 <= i < |rows| && i != k ==> rows[i].rentId != rows[k].rentId
  {
    forall i | 0 <= i < |rows| && i != k
      ensures rows[i].rentId != rows[k].rentId
    {
      if i > k {
        assert rows[k].rentId != rows[i].rentId;
      }
    }
  }

  /** Removing one row keeps the RentIDs in range and unique and the dues non-negative. */
  lemma RemovalKeepsLedger(rows: seq<RentRecord>, k: nat, nextId: int)
    requires k < |rows|
    requires forall i :: 0 <= i < |rows| ==> 1 <= rows[i].rentId < nextId && rows[i].dues >= 0
    requires forall i, j :: 0 <= i < j < |rows| ==> rows[i].rentId != rows[j].rentId
    ensures var rest := rows[..k] + rows[k + 1..];
      && (forall i :: 0 <= i < |rest| ==> 1 <= rest[i].rentId < nextId && rest[i].dues >= 0)
      && (forall i, j :: 0 <= i < j < |rest| ==> rest[i].rentId != rest[j].rentId)
  {
    var rest := rows[..k] + rows[k + 1..];
    assert forall i :: 0 <= i < |rest| ==> rest[i] == rows[if i < k then i else i + 1];
  }

  lemma {:induction false} WithoutAbsent(rows: seq<RentRecord>, rentId: int)
    requires forall i :: 0 <= i < |rows| ==> rows[i].rentId != rentId
    ensures Without(rows, rentId) == rows
  {
    if rows != [] {
      WithoutAbsent(rows[1..], rentId);
    }
  }

  function Total(rows: seq<RentRecord>, f: RentRecord -> int): int {
    if rows == [] then 0 else f(rows[0]) + Total(rows[1..], f)
  }

  function PaidOf(r: RentRecord): int { r.paidAmount }

  function DuesOf(r: RentRecord): int { r.dues }

  lemma {:induction false} TotalAppend(rows: seq<RentRecord>, x: RentRecord, f: RentRecord -> int)
    ensures Total(rows + [x], f) == Total(rows, f) + f(x)
  {
    if rows != [] {
      assert (rows + [x])[1..] == rows[1..] + [x];
      TotalAppend(rows[1..], x, f);
    }
  }

  /** The student's rows in table order (`WHERE stdID = ?`). */
  function OfStudent(rows: seq<RentRecord>, stdId: int): (r: seq<RentRecord>)
    ensures forall x :: x in r <==> x in rows && x.stdId == stdId
    ensures forall x :: multiset(r)[x] == if x.stdId == stdId then multiset(rows)[x] else 0
  {
    if rows == [] then []
    else
      assert rows == [rows[0]] + rows[1..];
      if rows[0].stdId == stdId then [rows[0]] + OfStudent(rows[1..], stdId)
      else OfStudent(rows[1..], stdId)
  }

  predicate SortedByPeriod(rows: seq<RentRecord>) {
    forall i, j :: 0 <= i < j < |rows| ==> PeriodLe(PeriodOf(rows[i]), PeriodOf(rows[j]))
  }

  /** Insertion of one row into a period-sorted sequence. */
  function Insert(x: RentRecord, rows: seq<RentRecord>): (r: seq<RentRecord>)
    requires SortedByPeriod(rows)
    ensures SortedByPeriod(r)
    ensures multiset(r) == multiset(rows) + multiset{x}
    ensures forall y :: y in r ==> y == x || y in rows
  {
    if rows == [] then [x]
    else if PeriodLe(PeriodOf(x), PeriodOf(rows[0])) then
      assert forall j :: 0 <= j < |rows| ==> PeriodLe(PeriodOf(rows[0]), PeriodOf(rows[j]));
      SortedCons(x, rows);
      [x] + rows
    else
      var tail := Insert(x, rows[1..]);
      assert forall y :: y in rows[1..] ==> PeriodLe(PeriodOf(rows[0]), PeriodOf(y));
      assert forall y :: y in tail ==> PeriodLe(PeriodOf(rows[0]), PeriodOf(y));
      SortedCons(rows[0], tail);
      assert rows == [rows[0]] + rows[1..];
      [rows[0]] + tail
  }

  /** A row no later than every row of a sorted sequence can go in front of it. */
  lemma SortedCons(x: RentRecord, rows: seq<RentRecord>)
    requires SortedByPeriod(rows)
    requires forall i :: 0 <= i < |rows| ==> PeriodLe(PeriodOf(x), PeriodOf(rows[i]))
    ensures SortedByPeriod([x] + rows)
  {
    var r := [x] + rows;
    forall i, j | 0 <= i < j < |r|
      ensures PeriodLe(PeriodOf(r[i]), PeriodOf(r[j]))
    {
      assert r[j] == rows[j - 1];
      if i > 0 {
        assert r[i] == rows[i - 1];
      }
    }
  }

  /** `ORDER BY Year, RentPaidMonth`: the rows ordered ascending by
      period, a permutation of the input. */
  function SortByPeriod(rows: seq<RentRecord>): (r: seq<RentRecord>)
    ensures SortedByPeriod(r)
    ensures multiset(r) == multiset(rows)
  {
    if rows == [] then []
    else
      assert rows == [rows[0]] + rows[1..];
      Insert(rows[0], SortByPeriod(rows[1..]))
  }

  lemma {:induction false} InsertTotal(x: RentRecord, rows: seq<RentRecord>, f: RentRecord -> int)
    requires SortedByPeriod(rows)
    ensures Total(Insert(x, rows), f) == f(x) + Total(rows, f)
  {
    if rows != [] && !PeriodLe(PeriodOf(x), PeriodOf(rows[0])) {
      InsertTotal(x, rows[1..], f);
      assert ([rows[0]] + Insert(x, rows[1..]))[1..] == Insert(x, rows[1..]);
    }
  }

  /** Ordering the history changes neither total. */
  lemma {:induction false} SortTotal(rows: seq<RentRecord>, f: RentRecord -> int)
    ensures Total(SortByPeriod(rows), f) == Total(rows, f)
  {
    if rows != [] {
      SortTotal(rows[1..], f);
      InsertTotal(rows[0], SortByPeriod(rows[1..]), f);
    }
  }

  /** `Array.prototype.find` for the given month and year. */
  function FindInPeriod(rows: seq<RentRecord>, month: int, year: int): (r: Option<RentRecord>)
    ensures r.None? <==> forall i :: 0 <= i < |rows| ==> !(rows[i].month == month && rows[i].year == year)
    ensures r.Some? ==> exists k :: 0 <= k < |rows| && rows[k] == r.value && r.value.month == month && r.value.year == year
                          && forall i :: 0 <= i < k ==> !(rows[i].month == month && rows[i].year == year)
  {
    if rows == [] then None
    else if rows[0].month == month && rows[0].year == year then Some(rows[0])
    else
      var rest := FindInPeriod(rows[1..], month, year);
      assert forall i :: 1 <= i < |rows| ==> rows[i] == rows[1..][i - 1];
      if rest.Some? then
        var k :| 0 <= k < |rows[1..]| && rows[1..][k] == rest.value && rest.value.month == month && rest.value.year == year
                 && forall i :: 0 <= i < k ==> !(rows[1..][i].month == month && rows[1..][i].year == year);
        assert rows[k + 1] == rest.value;
        rest
      else rest
  }

  /** The loop of `getRentalById` that adds up paid amounts and dues. */
  method SumHistory(history: seq<RentRecord>) returns (totalPayments: int, totalDues: int)
    ensures totalPayments == Total(history, PaidOf)
    ensures totalDues == Total(history, DuesOf)
  {
    totalPayments, totalDues := 0, 0;
    for i := 0 to |history|
      invariant totalPayments == Total(history[..i], PaidOf)
      invariant totalDues == Total(history[..i], DuesOf)
    {
      TotalAppend(history[..i], history[i], PaidOf);
      TotalAppend(history[..i], history[i], DuesOf);
      assert history[..i + 1] == history[..i] + [history[i]];
      totalPayments := totalPayments + history[i].paidAmount;
      totalDues := totalDues + history[i].dues;
    }
    assert history[..|history|] == history;
  }

  /** The auto-increment table `tbl_rent`. */
  class RentLedger {
    var rows: seq<RentRecord>
    var nextId: int

    /** RentIDs are positive, unique and below the next auto-increment value;
        stored dues are never negative. */
    ghost predicate Valid()
      reads this
    {
      && nextId >= 1
      && (forall i :: 0 <= i < |rows| ==> 1 <= rows[i].rentId < nextId && rows[i].dues >= 0)
      && (forall i, j :: 0 <= i < j < |rows| ==> rows[i].rentId != rows[j].rentId)
    }

    constructor ()
      ensures Valid() && rows == [] && nextId == 1
    {
      rows := [];
      nextId := 1;
    }

    /** `getAllRentals`: one page of the table. */
    method GetAllRentals(page: Option<int>, pageSize: Option<int>) returns (r: Result<Pagination.Listing<RentRecord>>)
      ensures r == Pagination.List(rows, page, pageSize)
    {
      r := Pagination.List(rows, page, pageSize);
    }

    /** `createRental`: append one payment event; nothing else changes. */
    method CreateRental(students: seq<Students.Student>, req: CreateRequest) returns (r: Result<RentRecord>)
      requires Valid()
      modifies this
      ensures Valid()
      ensures r == CreateOutcome(old(rows), students, req, old(nextId))
      ensures r.Ok? ==> rows == old(rows) + [r.value] && nextId == old(nextId) + 1
      ensures r.Err? ==> rows == old(rows) && nextId == old(nextId)
    {
      r := CreateOutcome(rows, students, req, nextId);
      if r.Ok? {
        rows := rows + [r.value];
        nextId := nextId + 1;
      }
    }

    /** `updateRental`: rewrite the one row with the given RentID in place. */
    method UpdateRental(students: seq<Students.Student>, req: UpdateRequest) returns (r: Result<RentRecord>)
      requires Valid()
      modifies this
      ensures Valid() && nextId == old(nextId)
      ensures var u := UpdateOutcome(old(rows), students, req);
        && (u.Err? ==> r == Err(u.status, u.cause) && rows == old(rows))
        && (u.Ok? ==> r == Ok(u.value.1) && rows == old(rows)[u.value.0 := u.value.1])
    {
      var u := UpdateOutcome(rows, students, req);
      if u.Err? {
        return Err(u.status, u.cause);
      }
      var (k, v) := u.value;
      rows := rows[k := v];
      r := Ok(v);
    }

    /** `deleteRental`: remove the row with the given RentID; the dues stored
        in the student's other rows are left as they are. */
    method DeleteRental(rentId: Option<int>) returns (r: Result<int>)
      requires Valid()
      modifies this
      ensures Valid() && nextId == old(nextId)
      ensures !Given(rentId) ==> r == Err(NotFound, MissingField) && rows == old(rows)
      ensures Given(rentId) && IndexOf(old(rows), rentId.value).None? ==> r == Err(ServerError, UnknownRecord) && rows == old(rows)
      ensures Given(rentId) && IndexOf(old(rows), rentId.value).Some? ==>
        var k := IndexOf(old(rows), rentId.value).value;
        r == Ok(rentId.value) && rows == old(rows)[..k] + old(rows)[k + 1..]
    {
      if !Given(rentId) {
        return Err(NotFound, MissingField);
      }
      var at := IndexOf(rows, rentId.value);
      if at.None? {
        return Err(ServerError, UnknownRecord);
      }
      var k := at.value;
      OnlyRowWithId(rows, k);
      WithoutIsRemoveAt(rows, k);
      RemovalKeepsLedger(rows, k, nextId);
      rows := Without(rows, rentId.value);
      r := Ok(rentId.value);
    }

    /** `getRentalById`: the row, the student's whole history ordered by
        period, the sums of paid amounts and dues over it, and the dues of the
        first history row in the given current month. */
    method GetRentalById(students: seq<Students.Student>, rentId: Option<int>, currentMonth: int, currentYear: int)
      returns (r: Result<RentalDetails>)
      ensures !Given(rentId) ==> r == Err(BadRequest, MissingField)
      ensures Given(rentId) && IndexOf(rows, rentId.value).None? ==> r == Err(NotFound, UnknownRecord)
      ensures r.Ok? <==> Given(rentId) && IndexOf(rows, rentId.value).Some?
                         && Students.Lookup(students, rows[IndexOf(rows, rentId.value).value].stdId).Some?
      ensures Given(rentId) && IndexOf(rows, rentId.value).Some?
              && Students.Lookup(students, rows[IndexOf(rows, rentId.value).value].stdId).None?
              ==> r == Err(NotFound, UnknownStudent)
      ensures r.Ok? ==> r.value.rental == rows[IndexOf(rows, rentId.value).value]
      ensures r.Ok? ==>
        var d := r.value;
        var student := Students.Lookup(students, d.rental.stdId).value;
        && SortedByPeriod(d.history)
        && multiset(d.history) == multiset(OfStudent(rows, d.rental.stdId))
        && d.totalPayments == Total(OfStudent(rows, d.rental.stdId), PaidOf)
        && d.totalDues == Total(OfStudent(rows, d.rental.stdId), DuesOf)
        && d.currentMonthDues == (match FindInPeriod(d.history, currentMonth, currentYear)
                                  case None => 0 case Some(c) => c.dues)
        && d.basicRent == student.basicRent
        && d.securityFee == (if Given(student.securityFee) then student.securityFee.value else 0)
    {
      if !Given(rentId) {
        return Err(BadRequest, MissingField);
      }
      var at := IndexOf(rows, rentId.value);
      if at.None? {
        return Err(NotFound, UnknownRecord);
      }
      var rental := rows[at.value];
      var history := SortByPeriod(OfStudent(rows, rental.stdId));
      var totalPayments, totalDues := SumHistory(history);
      SortTotal(OfStudent(rows, rental.stdId), PaidOf);
      SortTotal(OfStudent(rows, rental.stdId), DuesOf);
      var found := Students.Lookup(students, rental.stdId);
      if found.None? {
        return Err(NotFound, UnknownStudent);
      }
      var student := found.value;
      var current := FindInPeriod(history, currentMonth, currentYear);
      var currentMonthDues := if current.Some? then current.value.dues else 0;
      var securityFee := if Given(student.securityFee) then student.securityFee.value else 0;
      r := Ok(RentalDetails(rental, totalPayments, totalDues, currentMonthDues, securityFee, student.basicRent, history));
    }
  }

  /** A student's next payment is charged the full basic rent on top of the
      dues of the student's only earlier row, whatever that row's period:
      a payment for a month that already has a row is charged again. */
  lemma NextPaymentCarriesOnlyRow(rows: seq<RentRecord>, row: RentRecord, students: seq<Students.Student>, req: CreateRequest, id: int)
    requires row in rows
    requires forall i :: 0 <= i < |rows| && rows[i].stdId == row.stdId ==> rows[i] == row
    requires CreateFieldsGiven(req) && req.stdId.value == row.stdId
    requires Students.Lookup(students, row.stdId).Some?
    ensures var r := CreateOutcome(rows, students, req, id);
      var s := Settle(Students.Lookup(students, row.stdId).value.basicRent, row.dues, req.paidAmount.value);
      && r.Ok? && r.value.dues == s.dues && r.value.status == s.status
  {
    assert exists i :: 0 <= i < |rows| && rows[i].stdId == row.stdId;
  }

  /** A second payment for the same month is charged the basic rent again:
      a student with basic rent 5000 and no rows who pays 2000 and then 3000
      for 3/2024 owes 3000 after the first payment and 5000 after the second. */
  lemma SamePeriodPaymentsChargeRentTwice(s: Students.Student, rentType: Option<string>)
    requires s.id == 7 && s.basicRent == 5000
    ensures var students := [s];
      var first := CreateOutcome([], students, CreateRequest(Some(7), Some(3), Some(2024), None, rentType, Some(2000)), 1);
      && first.Ok? && first.value.dues == 3000 && first.value.status == PartiallyPaid
      && var second := CreateOutcome([first.value], students, CreateRequest(Some(7), Some(3), Some(2024), None, rentType, Some(3000)), 2);
         && second.Ok? && second.value.dues == 5000 && second.value.status == PartiallyPaid
  {
    var students := [s];
    var first := CreateOutcome([], students, CreateRequest(Some(7), Some(3), Some(2024), None, rentType, Some(2000)), 1);
    assert Latest([first.value], 7) == Some(first.value);
  }

}
