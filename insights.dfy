/**
 * The "Key Insights" tab and the latest-period comparison of the "Cash on
 * Hand Trends" tab: select the latest report period (the period of the
 * first row), keep the current officials' rows, total the money columns,
 * rank the top fundraisers and war chests, and flag deficit spenders.
 */
module Insights {
  import opened Wrappers
  import opened Records
  import opened Seqs
  import opened Roster
  import opened Ranking

  /** The period of the first row; `None` for an empty table, where the lookup raises. */
  function LatestPeriod(finance: seq<FinanceRecord>): Option<string>
  {
    if finance == [] then None else Some(finance[0].reportPeriod)
  }

  /** The rows reported for `period`, in table order. */
  function InPeriod(rows: seq<FinanceRecord>, period: string): seq<FinanceRecord>
  {
    Filter(rows, (r: FinanceRecord) => r.reportPeriod == period)
  }

  /** The rows whose name is one of `names`, in table order. */
  function OnRoster(rows: seq<FinanceRecord>, names: seq<string>): seq<FinanceRecord>
  {
    Filter(rows, (r: FinanceRecord) => r.name in names)
  }

  /** The rows of the latest period; never empty when the table is not. */
  function LatestRows(finance: seq<FinanceRecord>): (r: Option<seq<FinanceRecord>>)
    ensures r.Some? <==> finance != []
    ensures r.Some? ==> finance[0] in r.value
  {
    match LatestPeriod(finance)
    case None => None
    case Some(period) =>
      FilterCount(finance, (x: FinanceRecord) => x.reportPeriod == period, finance[0]);
      Some(InPeriod(finance, period))
  }

  /** The latest-period rows of the officials named in `names` (Key Insights, two steps). */
  function LatestCurrent(finance: seq<FinanceRecord>, names: seq<string>): (r: Option<seq<FinanceRecord>>)
    ensures r.Some? <==> finance != []
  {
    match LatestRows(finance)
    case None => None
    case Some(latest) => Some(OnRoster(latest, names))
  }

  /** The same selection as one combined mask over the whole table (Cash on Hand Trends). */
  function LatestCurrentCombined(finance: seq<FinanceRecord>, names: seq<string>): Option<seq<FinanceRecord>>
  {
    if finance == [] then None
    else
      var period := finance[0].reportPeriod;
      Some(Filter(finance, (r: FinanceRecord) => r.reportPeriod == period && r.name in names))
  }

  /**
   * The latest rows are exactly the rows, in table order, whose period is
   * that of the first row.
   */
  lemma LatestRowsExact(finance: seq<FinanceRecord>)
    requires finance != []
    ensures LatestPeriod(finance) == Some(finance[0].reportPeriod)
    ensures IsSubsequence(LatestRows(finance).value, finance)
    ensures forall x :: x in LatestRows(finance).value <==>
      x in finance && x.reportPeriod == finance[0].reportPeriod
    ensures forall x :: multiset(LatestRows(finance).value)[x] ==
                        (if x.reportPeriod == finance[0].reportPeriod then multiset(finance)[x] else 0)
  {
    FilterExact(finance, (r: FinanceRecord) => r.reportPeriod == finance[0].reportPeriod);
  }

  /**
   * The latest roster rows are an order-preserving subsequence of the latest
   * rows holding exactly those whose name is on the roster.
   */
  lemma LatestCurrentExact(finance: seq<FinanceRecord>, names: seq<string>)
    requires finance != []
    ensures IsSubsequence(LatestCurrent(finance, names).value, LatestRows(finance).value)
    ensures forall x :: x in LatestCurrent(finance, names).value <==>
      x in LatestRows(finance).value && x.name in names
    ensures forall x :: multiset(LatestCurrent(finance, names).value)[x] ==
                        (if x.name in names then multiset(LatestRows(finance).value)[x] else 0)
  {
    FilterExact(LatestRows(finance).value, (r: FinanceRecord) => r.name in names);
  }

  /** Both tabs select the same latest roster rows, in the same order. */
  lemma LatestCurrentTabsAgree(finance: seq<FinanceRecord>, names: seq<string>)
    ensures LatestCurrentCombined(finance, names) == LatestCurrent(finance, names)
  {
    if finance != [] {
      var period := finance[0].reportPeriod;
      FilterFusion(finance,
        (r: FinanceRecord) => r.reportPeriod == period,
        (r: FinanceRecord) => r.name in names,
        (r: FinanceRecord) => r.reportPeriod == period && r.name in names);
    }
  }

  // ---- Totals ----

  /** A column's sum: missing values are skipped and an empty sum is 0. */
  function Total(rows: seq<FinanceRecord>, field: FinanceRecord -> Option<int>): int
  {
    if rows == [] then 0 else field(rows[0]).GetOr(0) + Total(rows[1..], field)
  }

  lemma {:induction false} TotalAppend(a: seq<FinanceRecord>, b: seq<FinanceRecord>, field: FinanceRecord -> Option<int>)
    ensures Total(a + b, field) == Total(a, field) + Total(b, field)
  {
    if a == [] {
      assert a + b == b;
    } else {
      TotalAppend(a[1..], b, field);
      assert (a + b)[1..] == a[1..] + b;
    }
  }

  /** Taking row `j` out of `b` takes its value out of the total. */
  lemma {:induction false} TotalRemove(b: seq<FinanceRecord>, j: nat, field: FinanceRecord -> Option<int>)
    requires j < |b|
    ensures Total(b, field) == field(b[j]).GetOr(0) + Total(b[..j] + b[j + 1..], field)
  {
    var tail := [b[j]] + b[j + 1..];
    assert b == b[..j] + tail;
    assert tail[1..] == b[j + 1..];
    assert Total(tail, field) == field(b[j]).GetOr(0) + Total(b[j + 1..], field);
    TotalAppend(b[..j], tail, field);
    TotalAppend(b[..j], b[j + 1..], field);
  }

  lemma {:induction false} MultisetRemove(a: seq<FinanceRecord>, b: seq<FinanceRecord>, j: nat)
    requires a != [] && j < |b| && b[j] == a[0]
    requires multiset(a) == multiset(b)
    ensures multiset(a[1..]) == multiset(b[..j] + b[j + 1..])
  {
    var rest := b[..j] + b[j + 1..];
    assert a == [a[0]] + a[1..];
    assert b == b[..j] + [b[j]] + b[j + 1..];
    assert multiset(b) == multiset(rest) + multiset{a[0]};
    assert multiset(a) == multiset(a[1..]) + multiset{a[0]};
    assert multiset(rest) == multiset(b) - multiset{a[0]};
    assert multiset(a[1..]) == multiset(a) - multiset{a[0]};
  }

  /** A total does not depend on the order of the rows. */
  lemma {:induction false} TotalPermutation(a: seq<FinanceRecord>, b: seq<FinanceRecord>, field: FinanceRecord -> Option<int>)
    requires multiset(a) == multiset(b)
    ensures Total(a, field) == Total(b, field)
    decreases |a|
  {
    if a == [] {
      assert |multiset(b)| == 0;
    } else {
      assert a[0] in multiset(b);
      var j :| 0 <= j < |b| && b[j] == a[0];
      TotalRemove(b, j, field);
      MultisetRemove(a, b, j);
      TotalPermutation(a[1..], b[..j] + b[j + 1..], field);
    }
  }

  /** Missing values contribute nothing: the total over the rows that have a value is the same. */
  lemma {:induction false} TotalSkipsMissing(rows: seq<FinanceRecord>, field: FinanceRecord -> Option<int>)
    ensures Total(rows, field) == Total(Filter(rows, (r: FinanceRecord) => field(r).Some?), field)
  {
    if rows != [] {
      TotalSkipsMissing(rows[1..], field);
      var head := if field(rows[0]).Some? then [rows[0]] else [];
      TotalAppend(head, Filter(rows[1..], (r: FinanceRecord) => field(r).Some?), field);
    }
  }

  /** The three summary metrics of the Key Insights tab. */
  datatype Totals = Totals(raised: int, spent: int, cashOnHand: int)

  function SummaryTotals(rows: seq<FinanceRecord>): Totals
  {
    Totals(Total(rows, Raised), Total(rows, Spent), Total(rows, CashOnHand))
  }

  // ---- Deficit spenders ----

  /** `Spent > Raised`; a comparison with a missing value is false. */
  predicate IsDeficitSpender(r: FinanceRecord)
  {
    r.spent.Some? && r.raised.Some? && r.spent.value > r.raised.value
  }

  datatype DeficitEntry = DeficitEntry(row: FinanceRecord, deficit: int)

  /** The flagged rows, in order, each with its deficit `Spent - Raised`. */
  function DeficitSpenders(rows: seq<FinanceRecord>): (r: seq<DeficitEntry>)
    ensures |r| == |Filter(rows, IsDeficitSpender)|
    ensures forall i :: 0 <= i < |r| ==>
      r[i].row == Filter(rows, IsDeficitSpender)[i] &&
      r[i].row.spent.Some? && r[i].row.raised.Some? &&
      r[i].deficit == r[i].row.spent.value - r[i].row.raised.value &&
      r[i].deficit > 0
  {
    var flagged := Filter(rows, IsDeficitSpender);
    seq(|flagged|, i requires 0 <= i < |flagged| =>
      DeficitEntry(flagged[i], flagged[i].spent.value - flagged[i].raised.value))
  }

  /**
   * A row is flagged exactly when it is one of `rows` and spent more than it
   * raised; so a row with either value missing is never flagged.
   */
  lemma DeficitSpendersExact(rows: seq<FinanceRecord>, row: FinanceRecord)
    ensures (exists i :: 0 <= i < |DeficitSpenders(rows)| && DeficitSpenders(rows)[i].row == row) <==>
      row in rows && row.spent.Some? && row.raised.Some? && row.spent.value > row.raised.value
  {
    var flagged := Filter(rows, IsDeficitSpender);
    FilterExact(rows, IsDeficitSpender);
    if row in flagged {
      var i :| 0 <= i < |flagged| && flagged[i] == row;
      assert DeficitSpenders(rows)[i].row == row;
    }
  }

  // ---- The tab as a whole ----

  /** Number of rows shown in each top list. */
  const TopCount: nat := 5

  datatype KeyInsights = KeyInsights(
    latestPeriod: string,
    latestCurrent: seq<FinanceRecord>,
    totals: Totals,
    officialsTracked: nat,
    topFundraisers: seq<FinanceRecord>,
    largestWarChests: seq<FinanceRecord>,
    deficitSpenders: seq<DeficitEntry>)

  /**
   * Everything the Key Insights tab computes; `None` when the finance table
   * is empty. The top lists are the five best-ranked latest roster rows,
   * largest first.
   */
  function ComputeKeyInsights(finance: seq<FinanceRecord>, roster: RosterMap): (r: Option<KeyInsights>)
    ensures r.Some? <==> finance != []
    ensures r.Some? ==>
      r.value.latestPeriod == finance[0].reportPeriod &&
      r.value.latestCurrent == LatestCurrent(finance, Flatten(roster)).value &&
      r.value.officialsTracked == |Flatten(roster)| &&
      r.value.totals == SummaryTotals(r.value.latestCurrent) &&
      r.value.topFundraisers == NLargest(r.value.latestCurrent, TopCount, Raised) &&
      r.value.largestWarChests == NLargest(r.value.latestCurrent, TopCount, CashOnHand) &&
      r.value.deficitSpenders == DeficitSpenders(r.value.latestCurrent)
    ensures r.Some? ==>
      |r.value.topFundraisers| <= TopCount && |r.value.largestWarChests| <= TopCount &&
      multiset(r.value.topFundraisers) <= multiset(r.value.latestCurrent) &&
      multiset(r.value.largestWarChests) <= multiset(r.value.latestCurrent) &&
      SortedDesc(r.value.topFundraisers, Raised) && SortedDesc(r.value.largestWarChests, CashOnHand) &&
      |r.value.deficitSpenders| <= |r.value.latestCurrent| <= |finance|
  {
    var names := Flatten(roster);
    match LatestCurrent(finance, names)
    case None => None
    case Some(current) =>
      NLargestSpec(current, TopCount, Raised);
      NLargestSpec(current, TopCount, CashOnHand);
      Some(KeyInsights(
        finance[0].reportPeriod,
        current,
        SummaryTotals(current),
        |names|,
        NLargest(current, TopCount, Raised),
        NLargest(current, TopCount, CashOnHand),
        DeficitSpenders(current)))
  }
}
