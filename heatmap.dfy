/**
 * The HeatMap component: the colour class of a calendar cell and the day
 * selected by a click.
 *
 * A cell's colour index is `min(floor(count / maxDailyValue * 4) + 1, 5)`:
 * the count's share of the maximum, in quarters, counted from 1 and capped
 * at 5.
 */
module HeatMap {
  import opened Activities
  import opened DataVis

  /** `"color-empty"` or `"color-filled color-scale-<scale>"`. */
  datatype CellClass = ColorEmpty | ColorFilled(scale: int)

  /**
   * The colour index. It never exceeds 5; a non-negative count gets at
   * least 1, a zero count exactly 1 and a count at or above the maximum
   * exactly 5, and 5 only there; below 5, index `n` covers counts from
   * `(n - 1)` quarters of the maximum up to, not including, `n` quarters.
   */
  function ScaleIndex(count: real, maxDailyValue: real): (n: int)
    requires 0.0 < maxDailyValue
    ensures n <= 5
    ensures 0.0 <= count ==> 1 <= n
    ensures count == 0.0 ==> n == 1
    ensures maxDailyValue <= count ==> n == 5
    ensures n == 5 ==> maxDailyValue <= count
    ensures n < 5 ==> (n - 1) as real * maxDailyValue <= 4.0 * count < n as real * maxDailyValue
  {
    var x := count / maxDailyValue * 4.0;
    assert x * maxDailyValue == 4.0 * count;
    var n := x.Floor + 1;
    assert (n - 1) as real <= x < n as real;
    QuarterBounds(x, maxDailyValue, n);
    ScaleByPositive(0.0, n as real, maxDailyValue);
    ScaleByPositive(4.0, n as real, maxDailyValue);
    assert x * maxDailyValue < n as real * maxDailyValue;
    assert 4.0 * count < n as real * maxDailyValue;
    assert maxDailyValue <= count ==> 4.0 * maxDailyValue < n as real * maxDailyValue;
    assert 5 <= n ==> 4.0 <= x;
    ScaleByPositive(x, 4.0, maxDailyValue);
    if n < 5 then n else 5
  }

  lemma QuarterBounds(x: real, m: real, n: int)
    requires 0.0 < m && (n - 1) as real <= x < n as real
    ensures (n - 1) as real * m <= x * m < n as real * m
  {
  }

  lemma ScaleByPositive(a: real, b: real, m: real)
    requires 0.0 < m
    ensures a * m < b * m <==> a < b
  {
  }

  /** For a fixed maximum, a larger count never gets a smaller index. */
  lemma ScaleIndexMonotone(count: real, count': real, maxDailyValue: real)
    requires 0.0 < maxDailyValue && count <= count'
    ensures ScaleIndex(count, maxDailyValue) <= ScaleIndex(count', maxDailyValue)
  {
    var x, x' := count / maxDailyValue * 4.0, count' / maxDailyValue * 4.0;
    assert x * maxDailyValue == 4.0 * count && x' * maxDailyValue == 4.0 * count';
    ScaleByPositive(x', x, maxDailyValue);
    assert x.Floor <= x'.Floor;
  }

  /** `classForValue`: no value gives the empty class, a value its colour index. */
  function ClassForValue(value: Option<HeatmapValue>, maxDailyValue: real): (c: CellClass)
    requires 0.0 < maxDailyValue
    ensures c.ColorEmpty? <==> value.None?
    ensures c.ColorFilled? ==> c.scale <= 5 && (0.0 <= value.value.count ==> 1 <= c.scale)
    ensures value.Some? ==> c == ColorFilled(ScaleIndex(value.value.count, maxDailyValue))
  {
    match value
    case None => ColorEmpty
    case Some(v) => ColorFilled(ScaleIndex(v.count, maxDailyValue))
  }

  /**
   * The day a click selects: none for a click without a value; otherwise
   * the first entry whose date is the clicked date, or none if no entry
   * has that date.
   */
  function SelectDay(heatmapData: seq<HeatmapValue>, clicked: Option<string>): (r: Option<HeatmapValue>)
    ensures clicked.None? ==> r.None?
    ensures clicked.Some? && r.Some? ==>
      exists i :: 0 <= i < |heatmapData| && heatmapData[i] == r.value && r.value.date == clicked.value &&
        forall j :: 0 <= j < i ==> heatmapData[j].date != clicked.value
    ensures clicked.Some? && r.None? ==> forall i :: 0 <= i < |heatmapData| ==> heatmapData[i].date != clicked.value
  {
    match clicked
    case None => None
    case Some(d) =>
      match FindIndex(heatmapData, (item: HeatmapValue) => item.date == d)
      case None => None
      case Some(i) => Some(heatmapData[i])
  }

  /**
   * On the heatmap DataVis builds, clicking a date shows that day's entry:
   * its summed value and exactly its activities, in input order; a date
   * without activities shows nothing.
   */
  lemma ClickShowsThatDay(acts: seq<Activity>, dayKey: string -> string, d: string)
    ensures SelectDay(DayBreakdown(acts, dayKey), Some(d)) ==
      if Occurs(acts, DayOf(dayKey), d)
      then Some(HeatmapValue(d, Total(Where(acts, DayOf(dayKey), d)), Where(acts, DayOf(dayKey), d)))
      else None
  {
    DayBreakdownDates(acts, dayKey);
    DayBreakdownContents(acts, dayKey);
  }

  /**
   * With the maximum DataVis computes, every entry's index is at most 5, at
   * least 1 when its count is non-negative, and exactly 5 for the entries
   * whose count is the maximum.
   */
  lemma HeatmapScalesInRange(acts: seq<Activity>, dayKey: string -> string)
    ensures var hd := DayBreakdown(acts, dayKey);
      var m := MaxDailyValue(hd);
      forall i :: 0 <= i < |hd| ==>
        && ScaleIndex(hd[i].count, m) <= 5
        && (0.0 <= hd[i].count ==> 1 <= ScaleIndex(hd[i].count, m))
        && (hd[i].count == m ==> ScaleIndex(hd[i].count, m) == 5)
  {
  }

  /** The component: its two props and the selected-day state. */
  class HeatMapView {
    const heatmapData: seq<HeatmapValue>
    const maxDailyValue: real
    var selectedDay: Option<HeatmapValue>

    constructor (heatmapData: seq<HeatmapValue>, maxDailyValue: real)
      ensures this.heatmapData == heatmapData && this.maxDailyValue == maxDailyValue
      ensures selectedDay == None
    {
      this.heatmapData := heatmapData;
      this.maxDailyValue := maxDailyValue;
      selectedDay := None;
    }

    /** `handleDayClick`: select the clicked day's entry, or clear the selection. */
    method HandleDayClick(value: Option<string>)
      modifies this
      ensures selectedDay == SelectDay(heatmapData, value)
      ensures value.None? ==> selectedDay == None
    {
      if value.None? {
        selectedDay := None;
        return;
      }
      var fullData := FindIndex(heatmapData, (item: HeatmapValue) => item.date == value.value);
      selectedDay := if fullData.Some? then Some(heatmapData[fullData.value]) else None;
    }

    /** The popup's Close button clears the selection. */
    method Close()
      modifies this
      ensures selectedDay == None
    {
      selectedDay := None;
    }
  }
}
