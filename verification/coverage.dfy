/** Month coverage for the calendar chart: each stage is mapped to the month
    numbers from its start date's month to its end date's month, inclusive.
    Month numbers carry no year, so a stage whose end month is numerically
    smaller than its start month (one crossing a new year) covers no month
    at all. */
module Coverage {
  import opened Calendar
  import opened Timeline

  /** `range(startMonth, endMonth + 1)`, as the set of numbers it yields. */
  function MonthRange(startMonth: int, endMonth: int): (months: set<int>)
    ensures forall m :: m in months <==> startMonth <= m <= endMonth
    ensures months == {} <==> endMonth < startMonth
    ensures startMonth <= endMonth ==> |months| == endMonth - startMonth + 1
    decreases endMonth - startMonth
  {
    if endMonth < startMonth then {}
    else MonthRange(startMonth, endMonth - 1) + {endMonth}
  }

  /** The months a stage record is plotted at. */
  function StageMonths(rec: StageRecord): (months: set<int>)
    ensures forall m :: m in months ==> 1 <= m <= 12
    ensures MonthOf(rec.start) in months <==> MonthOf(rec.start) <= MonthOf(rec.end)
  {
    MonthRange(MonthOf(rec.start), MonthOf(rec.end))
  }

  /** `{stage['Stage Name']: (start month, end month) for stage in timeline}`,
      with each pair expanded to its month range: a later record with the
      same name replaces an earlier one. */
  function MonthCoverage(t: seq<StageRecord>): (coverage: map<string, set<int>>)
    ensures coverage.Keys == set i | 0 <= i < |t| :: t[i].name
    ensures forall name, m :: name in coverage && m in coverage[name] ==> 1 <= m <= 12
    decreases |t|
  {
    if |t| == 0 then map[]
    else
      var front := t[..|t| - 1];
      var last := t[|t| - 1];
      assert (set i | 0 <= i < |t| :: t[i].name) == (set i | 0 <= i < |front| :: front[i].name) + {last.name} by {
        assert forall i :: 0 <= i < |front| ==> front[i] == t[i];
      }
      MonthCoverage(front)[last.name := StageMonths(last)]
  }

  /** Record `i` decides the months of its name unless a later record has
      the same name. */
  lemma {:induction false} CoverageOfLastOccurrence(t: seq<StageRecord>, i: int)
    requires 0 <= i < |t|
    requires forall j :: i < j < |t| ==> t[j].name != t[i].name
    ensures MonthCoverage(t)[t[i].name] == StageMonths(t[i])
    decreases |t|
  {
    var front := t[..|t| - 1];
    var last := t[|t| - 1];
    assert MonthCoverage(t) == MonthCoverage(front)[last.name := StageMonths(last)];
    if i < |t| - 1 {
      assert front[i] == t[i] && last.name != t[i].name;
      CoverageOfLastOccurrence(front, i);
    }
  }

  /** With distinct stage names, as in both catalogs, every stage is mapped
      to the month range of its own dates. */
  lemma CoverageOfDistinctNames(t: seq<StageRecord>)
    requires forall i, j :: 0 <= i < j < |t| ==> t[i].name != t[j].name
    ensures forall i :: 0 <= i < |t| ==> MonthCoverage(t)[t[i].name] == StageMonths(t[i])
  {
    forall i | 0 <= i < |t|
      ensures MonthCoverage(t)[t[i].name] == StageMonths(t[i])
    {
      CoverageOfLastOccurrence(t, i);
    }
  }

  /** The months whose days a stage from `s` to `e` actually touches. */
  ghost function TouchedMonths(s: Date, e: Date): set<int> {
    set d: int | s <= d <= e :: MonthOf(d)
  }

  /** Within one year the plotted range is exactly the set of months the
      stage touches. */
  lemma SameYearCoverageExact(s: Date, e: Date)
    requires s <= e && YearOf(s) == YearOf(e)
    ensures MonthRange(MonthOf(s), MonthOf(e)) == TouchedMonths(s, e)
  {
    var y := YearOf(s);
    forall d: int | s <= d <= e
      ensures MonthOf(s) <= MonthOf(d) <= MonthOf(e)
    {
      FromOrdinalMonotone(s, d);
      FromOrdinalMonotone(d, e);
    }
    forall m | MonthOf(s) <= m <= MonthOf(e)
      ensures m in TouchedMonths(s, e)
    {
      if m == MonthOf(s) {
        assert MonthOf(s) in TouchedMonths(s, e);
      } else {
        var c := Civil(y, m, 1);
        OrdinalOrder(FromOrdinal(s), c);
        OrdinalOrder(FromOrdinal(e), c);
        OrdinalRoundTrip(c);
        var d := ToOrdinal(c);
        assert s < d <= e;
        assert MonthOf(d) == m;
      }
    }
  }

  /** Across a new year the plotted range misses months the stage touches:
      when the end month is numerically before the start month nothing is
      plotted, although the stage touches at least its start month. */
  lemma YearCrossingCoverageEmpty(s: Date, e: Date)
    requires s <= e && MonthOf(e) < MonthOf(s)
    ensures MonthRange(MonthOf(s), MonthOf(e)) == {}
    ensures MonthOf(s) in TouchedMonths(s, e) && MonthOf(e) in TouchedMonths(s, e)
    ensures YearOf(s) < YearOf(e)
  {
    FromOrdinalMonotone(s, e);
  }

  /** A five-week stage from 2024-12-02 to 2025-01-06 is plotted at no
      month. */
  lemma DecemberToJanuaryExample()
    ensures var s := ToOrdinal(Civil(2024, 12, 2));
            var e := ToOrdinal(Civil(2025, 1, 6));
            && 1 <= s <= e <= MaxOrdinal
            && e == s + DaysPerWeek * 5
            && MonthOf(s) == 12 && MonthOf(e) == 1
            && MonthRange(MonthOf(s), MonthOf(e)) == {}
  {
    var cs, ce := Civil(2024, 12, 2), Civil(2025, 1, 6);
    DaysBeforeYearClosedForm(2024);
    YearStep(2024);
    OrdinalRoundTrip(cs);
    OrdinalRoundTrip(ce);
  }
}
