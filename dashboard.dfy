/** The data behind the analytics dashboard
    (client/src/components/DashboardGrid.tsx): a fixed year of monthly
    figures and the timeframe selector that picks the months the charts draw. */
module Dashboard {
  /** One month of the revenue chart. */
  datatype MonthRow = MonthRow(name: string, revenue: int, expenses: int, profit: int)

  const MonthlyData: seq<MonthRow> := [
    MonthRow("Jan", 4000, 2400, 1600),
    MonthRow("Feb", 3000, 1398, 1602),
    MonthRow("Mar", 2000, 9800, -7800),
    MonthRow("Apr", 2780, 3908, -1128),
    MonthRow("May", 1890, 4800, -2910),
    MonthRow("Jun", 2390, 3800, -1410),
    MonthRow("Jul", 3490, 4300, -810),
    MonthRow("Aug", 5490, 3300, 2190),
    MonthRow("Sep", 4490, 2300, 2190),
    MonthRow("Oct", 6490, 3300, 3190),
    MonthRow("Nov", 7490, 4300, 3190),
    MonthRow("Dec", 8490, 5300, 3190)
  ]

  /** `s.slice(start)` with a single argument (ECMA-262, section 23.1.3.28):
      a negative start counts from the end and is clamped to 0, a start past
      the end gives the empty array. The result is always the suffix of `s`
      that starts at the clamped position. */
  function SliceFrom<T>(s: seq<T>, start: int): (r: seq<T>)
    ensures |r| <= |s| && r == s[|s| - |r|..]
    ensures start < 0 ==> |r| == if -start < |s| then -start else |s|
    ensures 0 <= start ==> |r| == if start < |s| then |s| - start else 0
  {
    var from := if start < 0 then (if |s| + start < 0 then 0 else |s| + start)
                else (if start < |s| then start else |s|);
    s[from..]
  }

  /** `getFilteredData` for the selected `timeframe`. */
  function FilteredData(timeframe: string): (r: seq<MonthRow>)
    ensures |r| == (if timeframe == "quarter" then 3 else if timeframe == "halfYear" then 6 else 12)
    ensures r == MonthlyData[|MonthlyData| - |r|..]
  {
    if timeframe == "quarter" then SliceFrom(MonthlyData, -3)
    else if timeframe == "halfYear" then SliceFrom(MonthlyData, -6)
    else MonthlyData
  }

  function Names(rows: seq<MonthRow>): (r: seq<string>)
    ensures |r| == |rows| && forall i :: 0 <= i < |rows| ==> r[i] == rows[i].name
  {
    if rows == [] then [] else [rows[0].name] + Names(rows[1..])
  }

  /** The quarter view is the last three months, in calendar order. */
  lemma QuarterIsLastThree()
    ensures FilteredData("quarter") == MonthlyData[9..]
    ensures Names(FilteredData("quarter")) == ["Oct", "Nov", "Dec"]
  {
  }

  /** The half-year view is July to December, in calendar order. */
  lemma HalfYearIsLastSix()
    ensures FilteredData("halfYear") == MonthlyData[6..]
    ensures Names(FilteredData("halfYear")) == ["Jul", "Aug", "Sep", "Oct", "Nov", "Dec"]
  {
  }

  /** Any other selection, the default "year" among them, shows every month. */
  lemma OtherTimeframesShowAll(timeframe: string)
    requires timeframe != "quarter" && timeframe != "halfYear"
    ensures FilteredData(timeframe) == MonthlyData
  {
  }

  /** Each month's profit is its revenue less its expenses. */
  lemma ProfitIsRevenueLessExpenses()
    ensures forall i :: 0 <= i < |MonthlyData| ==>
              MonthlyData[i].profit == MonthlyData[i].revenue - MonthlyData[i].expenses
  {
  }

  /** So every view the selector offers keeps that relation. */
  lemma FilteredProfitConsistent(timeframe: string)
    ensures forall i :: 0 <= i < |FilteredData(timeframe)| ==>
              FilteredData(timeframe)[i].profit
                == FilteredData(timeframe)[i].revenue - FilteredData(timeframe)[i].expenses
  {
    ProfitIsRevenueLessExpenses();
    var r := FilteredData(timeframe);
    forall i | 0 <= i < |r|
      ensures r[i].profit == r[i].revenue - r[i].expenses
    {
      assert r[i] == MonthlyData[|MonthlyData| - |r| + i];
    }
  }
}
