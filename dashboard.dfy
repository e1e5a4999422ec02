/** The financial dashboard: read-only roll-ups over the rent ledger and the
    expense table. The summary counts only rows whose status is Paid; the
    six-month chart counts Paid and Partially Paid rows alike. SQL grouping,
    ordering and limits are written as functions over the row sequences. */
module Dashboard {
  import opened Common
  import Rentals

  /** One row of `tbl_expense`; its `expDate` enters only through its year and month. */
  datatype Expense = Expense(year: int, month: int, name: string, amount: int)

  /** An amount booked in a period: the input of every `GROUP BY` period. */
  datatype Entry = Entry(period: Period, amount: int)

  /** The entry a rent row books: its paid amount in its (Year, RentPaidMonth). */
  function EntryOf(r: Rentals.RentRecord): Entry {
    Entry(Rentals.PeriodOf(r), r.paidAmount)
  }

  /** The dashboard summary counts Paid rows only. */
  const SummaryStatuses: set<Rentals.RentStatus> := {Rentals.Paid}

  /** The chart counts Paid and Partially Paid rows. A rent row has no
      other status, so the chart counts every row. */
  const ChartStatuses: set<Rentals.RentStatus> := {Rentals.Paid, Rentals.PartiallyPaid}

  /** `WHERE RentStatus IN (counted)`, as (Year, RentPaidMonth, PaidAmount)
      in table order. */
  function Income(rents: seq<Rentals.RentRecord>, counted: set<Rentals.RentStatus>): (r: seq<Entry>)
    ensures |r| <= |rents|
    ensures (forall i :: 0 <= i < |rents| ==> rents[i].status in counted) ==> |r| == |rents|
  {
    if rents == [] then []
    else
      var init := rents[..|rents| - 1];
      var last := rents[|rents| - 1];
      Income(init, counted) + (if last.status in counted then [EntryOf(last)] else [])
  }

  /** The filter keeps exactly the entries of the counted rows. */
  lemma {:induction false} IncomeMembers(rents: seq<Rentals.RentRecord>, counted: set<Rentals.RentStatus>)
    ensures forall e :: e in Income(rents, counted) ==>
      exists i :: 0 <= i < |rents| && rents[i].status in counted && e == EntryOf(rents[i])
    ensures forall i :: 0 <= i < |rents| && rents[i].status in counted ==> EntryOf(rents[i]) in Income(rents, counted)
  {
    if rents != [] {
      var init := rents[..|rents| - 1];
      var last := rents[|rents| - 1];
      IncomeMembers(init, counted);
      assert forall i :: 0 <= i < |init| ==> init[i] == rents[i];
      var r := Income(rents, counted);
      assert r == Income(init, counted) + (if last.status in counted then [EntryOf(last)] else []);
      forall e | e in r
        ensures exists i :: 0 <= i < |rents| && rents[i].status in counted && e == EntryOf(rents[i])
      {
        if e !in Income(init, counted) {
          assert e == EntryOf(rents[|rents| - 1]) && last.status in counted;
        }
      }
      forall i | 0 <= i < |rents| && rents[i].status in counted
        ensures EntryOf(rents[i]) in r
      {
        if i < |init| {
          assert EntryOf(init[i]) in Income(init, counted);
        }
      }
    }
  }

  /** Every expense as (YEAR(expDate), MONTH(expDate), expAmount), in table order. */
  function Spent(exps: seq<Expense>): (r: seq<Entry>)
    ensures |r| == |exps|
  {
    if exps == [] then []
    else
      var last := exps[|exps| - 1];
      Spent(exps[..|exps| - 1]) + [Entry(Period(last.year, last.month), last.amount)]
  }

  /** The i-th entry of `Spent` is the i-th expense's amount in its month. */
  lemma {:induction false} SpentAt(exps: seq<Expense>, i: nat)
    requires i < |exps|
    ensures Spent(exps)[i] == Entry(Period(exps[i].year, exps[i].month), exps[i].amount)
  {
    if i < |exps| - 1 {
      SpentAt(exps[..|exps| - 1], i);
    }
  }

  /** `SUM(...)`; the `|| 0` of the handler turns the NULL of an empty sum into 0. */
  function Sum(entries: seq<Entry>): (r: int)
    ensures entries == [] ==> r == 0
    ensures (forall i :: 0 <= i < |entries| ==> entries[i].amount >= 0) ==> r >= 0
  {
    if entries == [] then 0 else Sum(entries[..|entries| - 1]) + entries[|entries| - 1].amount
  }

  /** The sum of one `GROUP BY` period. */
  function SumAt(entries: seq<Entry>, p: Period): (r: int)
    ensures (forall i :: 0 <= i < |entries| ==> entries[i].period == p) ==> r == Sum(entries)
    ensures (forall i :: 0 <= i < |entries| ==> entries[i].amount >= 0) ==> 0 <= r <= Sum(entries)
  {
    if entries == [] then 0
    else SumAt(entries[..|entries| - 1], p) + (if entries[|entries| - 1].period == p then entries[|entries| - 1].amount else 0)
  }

  predicate HasPeriod(entries: seq<Entry>, p: Period) {
    exists i :: 0 <= i < |entries| && entries[i].period == p
  }

  /** What a row adds to the total income: its payment when Paid, else nothing. */
  function PaidShare(r: Rentals.RentRecord): int {
    if r.status == Rentals.Paid then r.paidAmount else 0
  }

  /** Total income: `SUM(PaidAmount) ... WHERE RentStatus = 'Paid'`, which is
      the sum of every row's paid share. */
  function TotalIncome(rents: seq<Rentals.RentRecord>): (r: int)
    ensures r == Rentals.Total(rents, PaidShare)
  {
    PaidSumIsTotal(rents);
    Sum(Income(rents, SummaryStatuses))
  }

  lemma {:induction false} PaidSumIsTotal(rents: seq<Rentals.RentRecord>)
    ensures Sum(Income(rents, SummaryStatuses)) == Rentals.Total(rents, PaidShare)
  {
    if rents != [] {
      var init := rents[..|rents| - 1];
      var last := rents[|rents| - 1];
      PaidSumIsTotal(init);
      assert rents == init + [last];
      Rentals.TotalAppend(init, last, PaidShare);
      var es := Income(init, SummaryStatuses);
      if last.status == Rentals.Paid {
        assert (es + [EntryOf(last)])[..|es|] == es;
      } else {
        assert es + [] == es;
      }
    }
  }

  /** A new Paid row adds its paid amount to the total income; a Partially
      Paid row adds nothing, however much was paid. */
  lemma {:induction false} TotalIncomeCountsOnlyPaid(rents: seq<Rentals.RentRecord>, r: Rentals.RentRecord)
    ensures TotalIncome(rents + [r]) == TotalIncome(rents) + (if r.status == Rentals.Paid then r.paidAmount else 0)
  {
    assert (rents + [r])[..|rents + [r]| - 1] == rents;
    var es := Income(rents, SummaryStatuses);
    if r.status == Rentals.Paid {
      assert (es + [EntryOf(r)])[..|es|] == es;
    } else {
      assert es + [] == es;
    }
  }

  /** The chart income of a period is its dashboard income plus the payments
      of its Partially Paid rows. */
  lemma {:induction false} ChartIncomeSplits(rents: seq<Rentals.RentRecord>, p: Period)
    ensures SumAt(Income(rents, ChartStatuses), p)
      == SumAt(Income(rents, SummaryStatuses), p) + SumAt(Income(rents, {Rentals.PartiallyPaid}), p)
  {
    if rents != [] {
      ChartIncomeSplits(rents[..|rents| - 1], p);
      var status := rents[|rents| - 1].status;
      assert status in ChartStatuses by {
        assert status == Rentals.Paid || status == Rentals.PartiallyPaid;
      }
      assert status in SummaryStatuses <==> status !in {Rentals.PartiallyPaid};
      IncomeSumAtStep(rents, ChartStatuses, p);
      IncomeSumAtStep(rents, SummaryStatuses, p);
      IncomeSumAtStep(rents, {Rentals.PartiallyPaid}, p);
    }
  }

  /** The last row adds its payment to its own period's filtered sum when its status is counted. */
  lemma IncomeSumAtStep(rents: seq<Rentals.RentRecord>, counted: set<Rentals.RentStatus>, p: Period)
    requires rents != []
    ensures var last := rents[|rents| - 1];
      SumAt(Income(rents, counted), p) == SumAt(Income(rents[..|rents| - 1], counted), p)
        + (if last.status in counted && Rentals.PeriodOf(last) == p then last.paidAmount else 0)
  {
    var init := Income(rents[..|rents| - 1], counted);
    var last := rents[|rents| - 1];
    if last.status in counted {
      AppendSumAt(init, EntryOf(last), p);
    } else {
      assert init + [] == init;
    }
  }

  lemma AppendSumAt(entries: seq<Entry>, e: Entry, p: Period)
    ensures SumAt(entries + [e], p) == SumAt(entries, p) + (if e.period == p then e.amount else 0)
  {
    assert (entries + [e])[..|entries|] == entries;
  }

  /** Among the periods present in `entries` strictly below `below` (all of
      them when `below` is None), the greatest: the next group of
      `ORDER BY year DESC, month DESC`. */
  function Greatest(entries: seq<Entry>, below: Option<Period>): (r: Option<Period>)
    ensures r.None? <==> forall i :: 0 <= i < |entries| ==> !(below.None? || PeriodLt(entries[i].period, below.value))
    ensures r.Some? ==> HasPeriod(entries, r.value) && (below.None? || PeriodLt(r.value, below.value))
    ensures r.Some? ==> forall i :: 0 <= i < |entries| && (below.None? || PeriodLt(entries[i].period, below.value))
                                    ==> PeriodLe(entries[i].period, r.value)
  {
    if entries == [] then None
    else
      var init := entries[..|entries| - 1];
      var last := entries[|entries| - 1];
      var rest := Greatest(init, below);
      assert forall i :: 0 <= i < |init| ==> init[i] == entries[i];
      if !(below.None? || PeriodLt(last.period, below.value)) then
        rest
      else if rest.Some? && PeriodLe(last.period, rest.value) then
        rest
      else
        assert entries[|entries| - 1].period == last.period;
        Some(last.period)
  }

  /** The first two rows of `GROUP BY period ORDER BY period DESC LIMIT 2`:
      the totals of the latest period present and of the latest period
      before it, each 0 when that group is missing. */
  function RecentTotals(entries: seq<Entry>): (r: (int, int))
    ensures Greatest(entries, None).None? ==> r == (0, 0)
    ensures Greatest(entries, None).Some? ==>
      var top := Greatest(entries, None).value;
      && r.0 == SumAt(entries, top)
      && r.1 == (match Greatest(entries, Some(top)) case None => 0 case Some(next) => SumAt(entries, next))
  {
    match Greatest(entries, None)
    case None => (0, 0)
    case Some(top) =>
      match Greatest(entries, Some(top))
      case None => (SumAt(entries, top), 0)
      case Some(next) => (SumAt(entries, top), SumAt(entries, next))
  }

  /** The previous value is the group just before the current one among the
      periods that have rows, not necessarily the previous calendar month. */
  lemma NoGroupBetweenRecentPeriods(entries: seq<Entry>, q: Period)
    requires Greatest(entries, None).Some? && Greatest(entries, Some(Greatest(entries, None).value)).Some?
    requires HasPeriod(entries, q)
    ensures var top := Greatest(entries, None).value;
      var next := Greatest(entries, Some(top)).value;
      PeriodLt(next, top) && PeriodLe(q, top) && !(PeriodLt(next, q) && PeriodLt(q, top))
  {
    var i :| 0 <= i < |entries| && entries[i].period == q;
  }

  /** `calculatePercentageChange`: the change from `previous` to `current` in
      percent of `previous`; when `previous` is 0 it is 0 for no change and 100 otherwise. */
  function PercentageChange(current: real, previous: real): (r: real)
    ensures previous == 0.0 ==> r == (if current == 0.0 then 0.0 else 100.0)
    ensures previous != 0.0 ==> r * previous == (current - previous) * 100.0
  {
    if previous == 0.0 then (if current == 0.0 then 0.0 else 100.0)
    else (current - previous) / previous * 100.0
  }

  /** Applying the reported change to the previous value gives back the current one. */
  lemma ChangeRoundTrip(current: real, previous: real)
    requires previous != 0.0
    ensures previous + previous * PercentageChange(current, previous) / 100.0 == current
  {
    var r := PercentageChange(current, previous);
    assert r * previous == (current - previous) * 100.0;
    assert previous * r / 100.0 == current - previous;
  }

  /** Against a positive previous value the change is positive exactly when the value grew. */
  lemma ChangeSign(current: real, previous: real)
    requires previous > 0.0
    ensures PercentageChange(current, previous) > 0.0 <==> current > previous
    ensures PercentageChange(current, previous) == 0.0 <==> current == previous
  {
    var r := PercentageChange(current, previous);
    assert r * previous == (current - previous) * 100.0;
    if r > 0.0 { assert r * previous > 0.0; }
    if current > previous { assert r * previous > 0.0; }
    if r == 0.0 { assert (current - previous) * 100.0 == 0.0; }
  }

  /** `SUM(expAmount) ... GROUP BY expName`. */
  function NameTotal(exps: seq<Expense>, name: string): (r: int)
    ensures (forall i :: 0 <= i < |exps| ==> exps[i].name != name) ==> r == 0
  {
    if exps == [] then 0
    else
      var init := exps[..|exps| - 1];
      var last := exps[|exps| - 1];
      assert forall i :: 0 <= i < |init| ==> init[i] == exps[i];
      NameTotal(init, name) + (if last.name == name then last.amount else 0)
  }

  /** When every expense carries the same name, its group is the whole expense total. */
  lemma {:induction false} SingleNameTotal(exps: seq<Expense>, name: string)
    requires forall i :: 0 <= i < |exps| ==> exps[i].name == name
    ensures NameTotal(exps, name) == Sum(Spent(exps))
  {
    if exps != [] {
      var init := exps[..|exps| - 1];
      assert forall i :: 0 <= i < |init| ==> init[i] == exps[i];
      SingleNameTotal(init, name);
      assert Spent(exps)[..|init|] == Spent(init);
    }
  }

  /** Index, from `i` on, of an expense whose name has the greatest total. */
  function BestFrom(exps: seq<Expense>, i: nat): (k: nat)
    requires i < |exps|
    ensures i <= k < |exps|
    ensures forall j :: i <= j < |exps| ==> NameTotal(exps, exps[j].name) <= NameTotal(exps, exps[k].name)
    decreases |exps| - i
  {
    if i == |exps| - 1 then i
    else
      var k := BestFrom(exps, i + 1);
      if NameTotal(exps, exps[i].name) >= NameTotal(exps, exps[k].name) then i else k
  }

  datatype Spending = Spending(expName: Option<string>, totalSpent: int)

  /** `calculateMostSpending`: the name with the greatest summed amount (ties
      unspecified), or `{expName: null, totalSpent: 0}` without expenses. */
  function MostSpending(exps: seq<Expense>): (r: Spending)
    ensures exps == [] ==> r == Spending(None, 0)
    ensures exps != [] ==>
      && r.expName.Some?
      && (exists i :: 0 <= i < |exps| && exps[i].name == r.expName.value)
      && r.totalSpent == NameTotal(exps, r.expName.value)
      && forall i :: 0 <= i < |exps| ==> NameTotal(exps, exps[i].name) <= r.totalSpent
  {
    if exps == [] then Spending(None, 0)
    else
      var k := BestFrom(exps, 0);
      Spending(Some(exps[k].name), NameTotal(exps, exps[k].name))
  }

  /** The response of `getDashboardData`, before the changes are formatted with two decimals. */
  datatype Summary = Summary(
    totalIncome: int,
    incomeChange: real,
    totalExpense: int,
    expenseChange: real,
    totalSavings: int,
    savingsChange: real,
    mostSpending: Spending)

  /** The three changes of the summary, from the (current, previous) group
      sums of income and of expense. Savings compare current income minus
      current expense with previous income minus previous expense. */
  datatype Changes = Changes(income: real, expense: real, savings: real)

  function ChangesOf(income: (int, int), expense: (int, int)): (c: Changes)
    ensures c.income == PercentageChange(income.0 as real, income.1 as real)
    ensures c.expense == PercentageChange(expense.0 as real, expense.1 as real)
    ensures c.savings == PercentageChange((income.0 - expense.0) as real, (income.1 - expense.1) as real)
  {
    Changes(
      PercentageChange(income.0 as real, income.1 as real),
      PercentageChange(expense.0 as real, expense.1 as real),
      PercentageChange((income.0 - expense.0) as real, (income.1 - expense.1) as real))
  }

  /** `getDashboardData`. Income and expense take their current and previous
      values from their own latest groups, which need not be the same months. */
  function DashboardData(rents: seq<Rentals.RentRecord>, exps: seq<Expense>): (s: Summary)
    ensures s.totalIncome == TotalIncome(rents) && s.totalExpense == Sum(Spent(exps))
    ensures s.totalSavings == s.totalIncome - s.totalExpense
    ensures Changes(s.incomeChange, s.expenseChange, s.savingsChange)
      == ChangesOf(RecentTotals(Income(rents, SummaryStatuses)), RecentTotals(Spent(exps)))
    ensures s.mostSpending == MostSpending(exps)
  {
    var totalIncome := TotalIncome(rents);
    var totalExpense := Sum(Spent(exps));
    var c := ChangesOf(RecentTotals(Income(rents, SummaryStatuses)), RecentTotals(Spent(exps)));
    Summary(totalIncome, c.income, totalExpense, c.expense, totalIncome - totalExpense, c.savings, MostSpending(exps))
  }

  /** `getPreviousSixMonths`: push the current month and step one month back,
      six times, then reverse. The window ends at the current month and each
      month follows its predecessor. */
  method PreviousSixMonths(today: Period) returns (months: seq<Period>)
    requires ValidMonth(today)
    ensures |months| == 6 && months[5] == today
    ensures forall i :: 0 <= i < 6 ==> ValidMonth(months[i]) && MonthIndex(months[i]) == MonthIndex(today) - (5 - i)
    ensures forall i :: 0 <= i < 5 ==> months[i + 1] == NextMonth(months[i])
  {
    var pushed: seq<Period> := [];
    var current := today;
    for i := 0 to 6
      invariant |pushed| == i
      invariant ValidMonth(current) && MonthIndex(current) == MonthIndex(today) - i
      invariant i > 0 ==> pushed[0] == today && NextMonth(current) == pushed[i - 1]
      invariant forall k :: 0 <= k < i ==> ValidMonth(pushed[k]) && MonthIndex(pushed[k]) == MonthIndex(today) - k
      invariant forall k :: 0 < k < i ==> NextMonth(pushed[k]) == pushed[k - 1]
    {
      pushed := pushed + [current];
      PrevThenNext(current);
      current := PrevMonth(current);
    }
    months := seq(6, j requires 0 <= j < 6 => pushed[5 - j]);
  }

  /** One group of `GROUP BY year, month` with its sum. */
  datatype Group = Group(period: Period, total: int)

  predicate HasGroup(groups: seq<Group>, p: Period) {
    exists i :: 0 <= i < |groups| && groups[i].period == p
  }

  /** `Array.prototype.find` on the groups by period. */
  function FindGroup(groups: seq<Group>, p: Period): (r: Option<Group>)
    ensures r.Some? ==> r.value.period == p
    ensures r.None? <==> !HasGroup(groups, p)
  {
    if groups == [] then None
    else if groups[0].period == p then Some(groups[0])
    else FindGroup(groups[1..], p)
  }

  /** `find` returns the first group with the period: every group before it
      has another period. */
  lemma {:induction false} FindGroupIsFirst(groups: seq<Group>, p: Period)
    ensures FindGroup(groups, p).Some? ==>
      exists k :: 0 <= k < |groups| && groups[k] == FindGroup(groups, p).value && forall i :: 0 <= i < k ==> groups[i].period != p
  {
    if groups != [] && groups[0].period != p && FindGroup(groups, p).Some? {
      FindGroupIsFirst(groups[1..], p);
      var k :| 0 <= k < |groups[1..]| && groups[1..][k] == FindGroup(groups, p).value
        && forall i :: 0 <= i < k ==> groups[1..][i].period != p;
      assert groups[k + 1] == FindGroup(groups, p).value;
      assert forall i :: 0 <= i < k + 1 ==> groups[i].period != p by {
        forall i | 0 <= i < k + 1
          ensures groups[i].period != p
        {
          if i > 0 {
            assert groups[i] == groups[1..][i - 1];
          }
        }
      }
    } else if groups != [] && groups[0].period == p {
      assert groups[0] == FindGroup(groups, p).value;
    }
  }

  /** At most one group per period. */
  predicate DistinctPeriods(groups: seq<Group>) {
    forall i, j :: 0 <= i < j < |groups| ==> groups[i].period != groups[j].period
  }

  /** Adds one entry to the group of its period, opening a group at the end
      only when the period has none yet. */
  function AddTo(groups: seq<Group>, e: Entry): (r: seq<Group>)
    ensures FindGroup(groups, e.period).Some? ==> |r| == |groups|
    ensures FindGroup(groups, e.period).None? ==> r == groups + [Group(e.period, e.amount)]
  {
    if groups == [] then [Group(e.period, e.amount)]
    else if groups[0].period == e.period then [groups[0].(total := groups[0].total + e.amount)] + groups[1..]
    else
      assert groups == [groups[0]] + groups[1..];
      [groups[0]] + AddTo(groups[1..], e)
  }

  /** `GROUP BY year, month` with `SUM(amount)`. */
  function GroupByPeriod(entries: seq<Entry>): (r: seq<Group>)
    ensures |r| <= |entries|
  {
    if entries == [] then [] else AddTo(GroupByPeriod(entries[..|entries| - 1]), entries[|entries| - 1])
  }

  /** Every group AddTo leaves is for the entry's period or for a period that already had one. */
  lemma {:induction false} AddToPeriods(groups: seq<Group>, e: Entry)
    ensures forall k :: 0 <= k < |AddTo(groups, e)| ==>
      AddTo(groups, e)[k].period == e.period || exists j :: 0 <= j < |groups| && groups[j].period == AddTo(groups, e)[k].period
  {
    if groups != [] && groups[0].period != e.period {
      AddToPeriods(groups[1..], e);
      var r := AddTo(groups, e);
      forall k | 0 <= k < |r| && r[k].period != e.period
        ensures exists j :: 0 <= j < |groups| && groups[j].period == r[k].period
      {
        if k == 0 {
          assert groups[0].period == r[k].period;
        } else {
          var j :| 0 <= j < |groups[1..]| && groups[1..][j].period == r[k].period;
          assert groups[j + 1].period == r[k].period;
        }
      }
    } else if groups != [] {
      var r := AddTo(groups, e);
      assert forall k :: 1 <= k < |r| ==> r[k] == groups[k];
    }
  }

  lemma {:induction false} AddToKeepsDistinct(groups: seq<Group>, e: Entry)
    requires DistinctPeriods(groups)
    ensures DistinctPeriods(AddTo(groups, e))
  {
    if groups != [] && groups[0].period != e.period {
      var tail := groups[1..];
      assert DistinctPeriods(tail) by {
        assert forall i :: 0 <= i < |tail| ==> tail[i] == groups[i + 1];
      }
      AddToKeepsDistinct(tail, e);
      AddToPeriods(tail, e);
      var t := AddTo(tail, e);
      var r := AddTo(groups, e);
      assert r == [groups[0]] + t;
      forall i, j | 0 <= i < j < |r|
        ensures r[i].period != r[j].period
      {
        assert r[j] == t[j - 1];
        if i == 0 {
          if t[j - 1].period != e.period {
            var m :| 0 <= m < |tail| && tail[m].period == t[j - 1].period;
            assert groups[m + 1] == tail[m];
          }
        } else {
          assert r[i] == t[i - 1];
        }
      }
    } else if groups != [] {
      var r := AddTo(groups, e);
      assert forall k :: 0 <= k < |r| ==> r[k].period == groups[k].period;
    }
  }

  /** `GROUP BY` yields at most one group per period. */
  lemma {:induction false} GroupsAreDistinct(entries: seq<Entry>)
    ensures DistinctPeriods(GroupByPeriod(entries))
  {
    if entries != [] {
      GroupsAreDistinct(entries[..|entries| - 1]);
      AddToKeepsDistinct(GroupByPeriod(entries[..|entries| - 1]), entries[|entries| - 1]);
    }
  }

  lemma {:induction false} FindAddTo(groups: seq<Group>, e: Entry, p: Period)
    ensures FindGroup(AddTo(groups, e), p) ==
      if p != e.period then FindGroup(groups, p)
      else Some(Group(p, (match FindGroup(groups, p) case None => 0 case Some(g) => g.total) + e.amount))
  {
    if groups != [] {
      var tail := groups[1..];
      assert groups == [groups[0]] + tail;
      if groups[0].period != e.period {
        assert AddTo(groups, e) == [groups[0]] + AddTo(tail, e);
        FindAddTo(tail, e, p);
        FindGroupCons(groups[0], AddTo(tail, e), p);
      } else {
        assert AddTo(groups, e) == [groups[0].(total := groups[0].total + e.amount)] + tail;
        FindGroupCons(groups[0].(total := groups[0].total + e.amount), tail, p);
      }
      FindGroupCons(groups[0], tail, p);
    }
  }

  lemma FindGroupCons(g: Group, groups: seq<Group>, p: Period)
    ensures FindGroup([g] + groups, p) == if g.period == p then Some(g) else FindGroup(groups, p)
  {
    assert ([g] + groups)[1..] == groups;
  }

  /** The group `find` locates for a period holds exactly that period's sum,
      and there is one exactly when some row falls in the period. */
  lemma {:induction false} FindGroupIsSum(entries: seq<Entry>, p: Period)
    ensures FindGroup(GroupByPeriod(entries), p).None? <==> !HasPeriod(entries, p)
    ensures FindGroup(GroupByPeriod(entries), p).Some? ==> FindGroup(GroupByPeriod(entries), p).value.total == SumAt(entries, p)
  {
    if entries != [] {
      var init := entries[..|entries| - 1];
      var e := entries[|entries| - 1];
      FindGroupIsSum(init, p);
      FindAddTo(GroupByPeriod(init), e, p);
      NoRowsNoSum(init, p);
      HasPeriodSnoc(entries, p);
    }
  }

  lemma HasPeriodSnoc(entries: seq<Entry>, p: Period)
    requires entries != []
    ensures HasPeriod(entries, p) <==> HasPeriod(entries[..|entries| - 1], p) || entries[|entries| - 1].period == p
  {
    var init := entries[..|entries| - 1];
    if HasPeriod(init, p) {
      var i :| 0 <= i < |init| && init[i].period == p;
      assert entries[i] == init[i];
    }
  }

  /** One month of the chart. */
  datatype ChartPoint = ChartPoint(year: int, month: int, income: int, expense: int, savings: int)

  /** The `months.map` of `getMonthlyChartData`: each window month joined with
      its income and expense groups, 0 when a group is missing. */
  function Chart(window: seq<Period>, incomeGroups: seq<Group>, expenseGroups: seq<Group>): (r: seq<ChartPoint>)
    ensures |r| == |window|
    ensures forall i :: 0 <= i < |window| ==> r[i].year == window[i].year && r[i].month == window[i].month
    ensures forall i :: 0 <= i < |window| ==> r[i].savings == r[i].income - r[i].expense
  {
    seq(|window|, i requires 0 <= i < |window| =>
      var p := window[i];
      var income := match FindGroup(incomeGroups, p) case None => 0 case Some(g) => g.total;
      var expense := match FindGroup(expenseGroups, p) case None => 0 case Some(g) => g.total;
      ChartPoint(p.year, p.month, income, expense, income - expense))
  }

  /** `getMonthlyChartData` for the clock's current month: six points ending
      now, each with the month's income (Paid and Partially Paid rows), its
      expenses and their difference. */
  method MonthlyChartData(today: Period, rents: seq<Rentals.RentRecord>, exps: seq<Expense>) returns (chart: seq<ChartPoint>)
    requires ValidMonth(today)
    ensures |chart| == 6
    ensures chart[5].year == today.year && chart[5].month == today.month
    ensures forall i :: 0 <= i < 6 ==> ValidMonth(Period(chart[i].year, chart[i].month))
    ensures forall i :: 0 <= i < 6 ==> MonthIndex(Period(chart[i].year, chart[i].month)) == MonthIndex(today) - (5 - i)
    ensures forall i :: 0 <= i < 6 ==>
      var p := Period(chart[i].year, chart[i].month);
      && chart[i].income == SumAt(Income(rents, ChartStatuses), p)
      && chart[i].expense == SumAt(Spent(exps), p)
      && chart[i].savings == chart[i].income - chart[i].expense
  {
    var months := PreviousSixMonths(today);
    var incomeGroups := GroupByPeriod(Income(rents, ChartStatuses));
    var expenseGroups := GroupByPeriod(Spent(exps));
    chart := Chart(months, incomeGroups, expenseGroups);
    forall i | 0 <= i < 6
      ensures chart[i].income == SumAt(Income(rents, ChartStatuses), months[i])
      ensures chart[i].expense == SumAt(Spent(exps), months[i])
    {
      FindGroupIsSum(Income(rents, ChartStatuses), months[i]);
      FindGroupIsSum(Spent(exps), months[i]);
      NoRowsNoSum(Income(rents, ChartStatuses), months[i]);
      NoRowsNoSum(Spent(exps), months[i]);
    }
  }

  lemma {:induction false} NoRowsNoSum(entries: seq<Entry>, p: Period)
    ensures !HasPeriod(entries, p) ==> SumAt(entries, p) == 0
  {
    if entries != [] && !HasPeriod(entries, p) {
      var init := entries[..|entries| - 1];
      NoRowsNoSum(init, p);
    }
  }
}
