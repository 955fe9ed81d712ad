/** The operator's monthly statement: a fee per month, each truncated by itself. */
module Statement {
  import opened Money
  import opened Tally

  /** A confirmed payment. */
  datatype Sale = Sale(month: nat, amount: int, mobile: bool)

  /** One row of the monthly query. */
  datatype Month = Month(month: nat, mobileMoney: int, cash: int, payments: int, payoutsPaid: int)

  datatype MonthRow = MonthRow(
    month: nat, mobileMoney: int, platformFee: int, netEarned: int, cash: int, payments: int, payoutsPaid: int)

  const MAX_MONTHS := 12

  function SumTakings(rows: seq<MonthRow>): int {
    if rows == [] then 0 else SumTakings(rows[..|rows| - 1]) + rows[|rows| - 1].mobileMoney
  }

  function SumFees(rows: seq<MonthRow>): int {
    if rows == [] then 0 else SumFees(rows[..|rows| - 1]) + rows[|rows| - 1].platformFee
  }

  function SumNet(rows: seq<MonthRow>): int {
    if rows == [] then 0 else SumNet(rows[..|rows| - 1]) + rows[|rows| - 1].netEarned
  }

  function Mobile(sales: seq<Sale>): (entries: seq<Entry>)
    ensures |entries| == |sales|
  {
    seq(|sales|, i requires 0 <= i < |sales| => Entry(sales[i].month, if sales[i].mobile then sales[i].amount else 0))
  }

  function Cash(sales: seq<Sale>): (entries: seq<Entry>)
    ensures |entries| == |sales|
  {
    seq(|sales|, i requires 0 <= i < |sales| => Entry(sales[i].month, if sales[i].mobile then 0 else sales[i].amount))
  }

  function Ones(sales: seq<Sale>): (entries: seq<Entry>)
    ensures |entries| == |sales|
  {
    seq(|sales|, i requires 0 <= i < |sales| => Entry(sales[i].month, 1))
  }

  /** What the query yields for one month; `payouts` are the paid ones by month. */
  function Group(sales: seq<Sale>, payouts: seq<Entry>, month: nat): Month {
    Month(month, Of(Mobile(sales), month), Of(Cash(sales), month), Of(Ones(sales), month), Of(payouts, month))
  }

  /** One more confirmed payment counts in its own month only: as one payment, and its amount as
      mobile money or as cash. */
  lemma GroupAfterSale(sales: seq<Sale>, sale: Sale, payouts: seq<Entry>, month: nat)
    ensures var before, after := Group(sales, payouts, month), Group(sales + [sale], payouts, month);
            after == if sale.month != month then before
                     else if sale.mobile then
                       before.(mobileMoney := before.mobileMoney + sale.amount, payments := before.payments + 1)
                     else before.(cash := before.cash + sale.amount, payments := before.payments + 1)
    ensures Group([], [], month) == Month(month, 0, 0, 0, 0)
  {
    var all := sales + [sale];
    assert Mobile(all) == Mobile(sales) + [Mobile(all)[|sales|]];
    assert Cash(all) == Cash(sales) + [Cash(all)[|sales|]];
    assert Ones(all) == Ones(sales) + [Ones(all)[|sales|]];
    Append(Mobile(sales), Mobile(all)[|sales|]);
    Append(Cash(sales), Cash(all)[|sales|]);
    Append(Ones(sales), Ones(all)[|sales|]);
  }

  /** The rows the query groups the payments and payouts into, one per listed month. */
  function Grouped(sales: seq<Sale>, payouts: seq<Entry>, months: seq<nat>): (rows: seq<Month>)
    ensures |rows| == |months|
  {
    seq(|months|, i requires 0 <= i < |months| => Group(sales, payouts, months[i]))
  }

  /** ORDER BY month DESC. */
  predicate LatestFirst(months: seq<nat>) {
    forall i, j :: 0 <= i < j < |months| ==> months[i] > months[j]
  }

  /** A row charges the whole-UGX floor of its month's share and keeps the rest. */
  predicate Fair(row: MonthRow, month: Month, rate: real) {
    && row.month == month.month
    && row.mobileMoney == month.mobileMoney
    && row.platformFee == PlatformCommission(month.mobileMoney, rate)
    && row.netEarned + row.platformFee == month.mobileMoney
    && row.cash == month.cash && row.payments == month.payments && row.payoutsPaid == month.payoutsPaid
  }

  /** Fees charged month by month against the fee on everything at once. */
  predicate WithinTruncation(rows: seq<MonthRow>, rate: real) {
    var whole := PlatformCommission(SumTakings(rows), rate);
    SumFees(rows) <= whole <= SumFees(rows) + if |rows| == 0 then 0 else |rows| - 1
  }

  lemma FairRowKeepsBounds(rows: seq<MonthRow>, row: MonthRow, month: Month, rate: real)
    requires LegalRate(rate) && 0 <= month.mobileMoney && Fair(row, month, rate)
    requires 0 <= SumTakings(rows) && SumNet(rows) + SumFees(rows) == SumTakings(rows) && WithinTruncation(rows, rate)
    ensures var rows' := rows + [row];
            && 0 <= SumTakings(rows') && SumNet(rows') + SumFees(rows') == SumTakings(rows')
            && WithinTruncation(rows', rate)
  {
    CommissionSplit(SumTakings(rows), month.mobileMoney, rate);
    if rows == [] {
      CommissionIsFloor(0, rate);
    }
  }

  /** The statement's loop. The monthly fees never exceed the fee on the sum of the
      listed months and fall short of it by less than one UGX per month. */
  method MonthlyRows(months: seq<Month>, rate: real) returns (rows: seq<MonthRow>)
    requires LegalRate(rate)
    requires forall i :: 0 <= i < |months| ==> 0 <= months[i].mobileMoney
    ensures |rows| == |months|
    ensures forall i :: 0 <= i < |rows| ==> Fair(rows[i], months[i], rate)
    ensures SumNet(rows) + SumFees(rows) == SumTakings(rows)
    ensures WithinTruncation(rows, rate)
  {
    rows := [];
    CommissionIsFloor(0, rate);
    var i := 0;
    while i < |months|
      invariant 0 <= i <= |months| && |rows| == i
      invariant forall j :: 0 <= j < i ==> Fair(rows[j], months[j], rate)
      invariant 0 <= SumTakings(rows) && SumNet(rows) + SumFees(rows) == SumTakings(rows)
      invariant WithinTruncation(rows, rate)
    {
      var m := months[i];
      var fee := PlatformCommission(m.mobileMoney, rate);
      var row := MonthRow(m.month, m.mobileMoney, fee, m.mobileMoney - fee, m.cash, m.payments, m.payoutsPaid);
      FairRowKeepsBounds(rows, row, m, rate);
      rows := rows + [row];
      i := i + 1;
    }
  }

  lemma {:induction false} GroupedSum(payments: seq<Entry>, months: seq<nat>, rows: seq<MonthRow>)
    requires |rows| == |months|
    requires forall i :: 0 <= i < |rows| ==> rows[i].mobileMoney == Of(payments, months[i])
    ensures SumTakings(rows) == OverGroups(payments, months)
  {
    if rows != [] {
      GroupedSum(payments, months[..|months| - 1], rows[..|rows| - 1]);
    }
  }

  lemma {:induction false} GroupsJoin(payments: seq<Entry>, a: seq<nat>, b: seq<nat>)
    ensures OverGroups(payments, a + b) == OverGroups(payments, a) + OverGroups(payments, b)
  {
    if b == [] {
      assert a + b == a;
    } else {
      assert (a + b)[..|a + b| - 1] == a + b[..|b| - 1];
      GroupsJoin(payments, a, b[..|b| - 1]);
    }
  }

  /** The whole statement: the query lists at most twelve months, latest first, each with the
      sums over its own month. What it shows and what it cuts off add up to every confirmed
      shilling of mobile money, and what it cuts off is older than anything it shows. */
  method OperatorStatement(sales: seq<Sale>, payouts: seq<Entry>, months: seq<nat>, rate: real)
    returns (rows: seq<MonthRow>)
    requires LegalRate(rate)
    requires forall i :: 0 <= i < |sales| ==> 0 <= sales[i].amount
    requires NoDuplicates(months) && Covers(months, Mobile(sales)) && Covers(months, payouts)
    ensures |rows| == if |months| <= 12 then |months| else 12
    ensures forall i :: 0 <= i < |rows| ==> Fair(rows[i], Group(sales, payouts, months[i]), rate)
    ensures LatestFirst(months) ==>
              forall i, k :: 0 <= i < |rows| <= k < |months| ==> months[k] < rows[i].month
    ensures SumNet(rows) + SumFees(rows) + OverGroups(Mobile(sales), months[|rows|..]) == Total(Mobile(sales))
    ensures |months| <= MAX_MONTHS ==> SumNet(rows) + SumFees(rows) == Total(Mobile(sales))
    ensures WithinTruncation(rows, rate)
  {
    var listed := if |months| <= MAX_MONTHS then months else months[..MAX_MONTHS];
    forall k: nat ensures 0 <= Of(Mobile(sales), k) {
      NonNegative(Mobile(sales), k);
    }
    rows := MonthlyRows(Grouped(sales, payouts, listed), rate);
    GroupedSum(Mobile(sales), listed, rows);
    GroupsAddUp(Mobile(sales), months);
    GroupsJoin(Mobile(sales), listed, months[|rows|..]);
    assert months == listed + months[|rows|..];
  }
}
