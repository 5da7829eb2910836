/**
 * The Summary component's line-chart data: activities grouped by their
 * display label `moment(d).format("MMM D")` (the parameter `dateLabel`),
 * summed, in the order in which each label is first seen. The label has
 * no year, and the points are not re-sorted by date.
 */
module Summary {
  import opened Activities

  /** One point of the line chart. */
  datatype LinePoint = LinePoint(date: string, carbonValue: real)

  function LabelOf(dateLabel: string -> string): Activity -> string
  {
    (a: Activity) => dateLabel(a.date)
  }

  function LinesOf(gs: seq<Group>): seq<LinePoint>
  {
    seq(|gs|, i requires 0 <= i < |gs| => LinePoint(gs[i].key, gs[i].total))
  }

  /** The intended line data: the grouping by display label. */
  function LineSeries(acts: seq<Activity>, dateLabel: string -> string): seq<LinePoint>
  {
    LinesOf(GroupBy(acts, LabelOf(dateLabel)))
  }

  function LineTotal(ps: seq<LinePoint>): real
  {
    if ps == [] then 0.0 else LineTotal(ps[..|ps| - 1]) + ps[|ps| - 1].carbonValue
  }

  lemma {:induction false} LineTotalOf(gs: seq<Group>)
    ensures LineTotal(LinesOf(gs)) == SumTotals(gs)
  {
    if gs != [] {
      var n := |gs| - 1;
      assert LinesOf(gs)[..n] == LinesOf(gs[..n]);
      LineTotalOf(gs[..n]);
    }
  }

  /** Adding an activity whose label already has a point adds its value to that point. */
  lemma LineSeriesSnocExisting(acts: seq<Activity>, dateLabel: string -> string, a: Activity, j: nat)
    requires j < |LineSeries(acts, dateLabel)| && LineSeries(acts, dateLabel)[j].date == dateLabel(a.date)
    ensures var ls := LineSeries(acts, dateLabel);
      LineSeries(acts + [a], dateLabel) == ls[j := LinePoint(ls[j].date, ls[j].carbonValue + a.carbonValue)]
  {
    var gs := GroupBy(acts, LabelOf(dateLabel));
    assert gs[j].key == Keys(acts, LabelOf(dateLabel))[j] == LabelOf(dateLabel)(a);
    GroupBySnocExisting(acts, LabelOf(dateLabel), a, j);
    assert LinesOf(gs[j := Extend(gs[j], a)]) == LinesOf(gs)[j := LinePoint(gs[j].key, gs[j].total + a.carbonValue)];
  }

  /** Adding an activity with a new label appends a point for it. */
  lemma LineSeriesSnocNew(acts: seq<Activity>, dateLabel: string -> string, a: Activity)
    requires forall j :: 0 <= j < |LineSeries(acts, dateLabel)| ==> LineSeries(acts, dateLabel)[j].date != dateLabel(a.date)
    ensures LineSeries(acts + [a], dateLabel) == LineSeries(acts, dateLabel) + [LinePoint(dateLabel(a.date), a.carbonValue)]
  {
    var gs := GroupBy(acts, LabelOf(dateLabel));
    var ks := Keys(acts, LabelOf(dateLabel));
    forall j | 0 <= j < |ks| ensures ks[j] != LabelOf(dateLabel)(a) {
      assert LineSeries(acts, dateLabel)[j].date == gs[j].key;
    }
    GroupBySnocNew(acts, LabelOf(dateLabel), a);
    var g := Group(LabelOf(dateLabel)(a), a.carbonValue, [a]);
    assert LinesOf(gs + [g]) == LinesOf(gs) + [LinePoint(g.key, g.total)];
  }

  /**
   * The `lineData` reduce's callback on one activity: find the point with
   * its label and add to its value, or push a new point. Applied to the
   * series of the activities seen so far, it yields the series of those
   * activities followed by this one.
   */
  method AddToLine(acc: seq<LinePoint>, activity: Activity, dateLabel: string -> string, ghost seen: seq<Activity>)
    returns (acc': seq<LinePoint>)
    requires acc == LineSeries(seen, dateLabel)
    ensures acc' == LineSeries(seen + [activity], dateLabel)
  {
    var date := dateLabel(activity.date);
    var existing := FindIndex(acc, (item: LinePoint) => item.date == date);
    if existing.Some? {
      var j := existing.value;
      LineSeriesSnocExisting(seen, dateLabel, activity, j);
      acc' := acc[j := LinePoint(acc[j].date, acc[j].carbonValue + activity.carbonValue)];
    } else {
      LineSeriesSnocNew(seen, dateLabel, activity);
      acc' := acc + [LinePoint(date, activity.carbonValue)];
    }
  }

  /** The `lineData` reduce over all the activities. The result is the line series. */
  method LineData(activities: seq<Activity>, dateLabel: string -> string) returns (acc: seq<LinePoint>)
    ensures acc == LineSeries(activities, dateLabel)
  {
    acc := [];
    for i := 0 to |activities|
      invariant acc == LineSeries(activities[..i], dateLabel)
    {
      acc := AddToLine(acc, activities[i], dateLabel, activities[..i]);
      assert activities[..i + 1] == activities[..i] + [activities[i]];
    }
    assert activities[..|activities|] == activities;
  }

  /**
   * The labels of the line series: one point per distinct label and no two
   * points with the same label, in the order in which each label is first
   * seen (not by date).
   */
  lemma LineSeriesLabels(acts: seq<Activity>, dateLabel: string -> string)
    ensures var ls := LineSeries(acts, dateLabel);
      && (forall i, j :: 0 <= i < j < |ls| ==> ls[i].date != ls[j].date)
      && (forall d :: (exists i :: 0 <= i < |ls| && ls[i].date == d) <==> Occurs(acts, LabelOf(dateLabel), d))
      && (forall i :: 0 <= i < |ls| ==> Occurs(acts, LabelOf(dateLabel), ls[i].date))
      && (forall i, j :: 0 <= i < j < |ls| ==>
            FirstIndex(acts, LabelOf(dateLabel), ls[i].date) < FirstIndex(acts, LabelOf(dateLabel), ls[j].date))
  {
    var gs, ls := GroupBy(acts, LabelOf(dateLabel)), LineSeries(acts, dateLabel);
    GroupBySpec(acts, LabelOf(dateLabel));
    forall i | 0 <= i < |ls| ensures ls[i].date == gs[i].key {
    }
    forall d ensures (exists i :: 0 <= i < |ls| && ls[i].date == d) <==> Occurs(acts, LabelOf(dateLabel), d) {
      if Occurs(acts, LabelOf(dateLabel), d) {
        var i :| 0 <= i < |gs| && gs[i].key == d;
        assert ls[i].date == d;
      }
    }
  }

  /**
   * The values of the line series: each point's value is the sum over its
   * label, the values add up to the input's total, and no activities give
   * no points.
   */
  lemma LineSeriesValues(acts: seq<Activity>, dateLabel: string -> string)
    ensures var ls := LineSeries(acts, dateLabel);
      && (forall i :: 0 <= i < |ls| ==> ls[i].carbonValue == Total(Where(acts, LabelOf(dateLabel), ls[i].date)))
      && LineTotal(ls) == Total(acts)
      && (acts == [] ==> ls == [])
  {
    var gs, ls := GroupBy(acts, LabelOf(dateLabel)), LineSeries(acts, dateLabel);
    GroupBySpec(acts, LabelOf(dateLabel));
    forall i | 0 <= i < |ls| ensures ls[i].date == gs[i].key && ls[i].carbonValue == gs[i].total {
    }
    GroupByConservesTotal(acts, LabelOf(dateLabel));
    LineTotalOf(gs);
  }

  /**
   * The series sees a date only through its label: replacing each
   * activity's date by any date with the same label (the same month and
   * day in another year, say) leaves the series unchanged, so activities
   * from different years on the same month and day are summed into one
   * point.
   */
  lemma LineSeriesIgnoresYear(acts: seq<Activity>, acts': seq<Activity>, dateLabel: string -> string)
    requires |acts| == |acts'|
    requires forall p :: 0 <= p < |acts| ==>
      dateLabel(acts[p].date) == dateLabel(acts'[p].date) && acts[p].carbonValue == acts'[p].carbonValue
    ensures LineSeries(acts, dateLabel) == LineSeries(acts', dateLabel)
  {
    GroupTotalsDependOnKeysAndValues(acts, LabelOf(dateLabel), acts', LabelOf(dateLabel));
  }
}
