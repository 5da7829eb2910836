/**
 * The DataVis component: the pie-chart data ("today" and "all time"
 * breakdowns by category) and the calendar-heatmap data (one entry per
 * day, with its summed value and its activities, plus the maximum daily
 * value used for colour scaling).
 *
 * The day key `moment(d).format("YYYY-MM-DD")` and today's key
 * `moment().format("YYYY-MM-DD")` are parameters: `dayKey` and `today`.
 */
module DataVis {
  import opened Activities

  /** One pie sector: a category and its summed value. */
  datatype ChartData = ChartData(name: string, value: real)

  /** One heatmap entry: a day key, the day's summed value and its activities. */
  datatype HeatmapValue = HeatmapValue(date: string, count: real, activities: seq<Activity>)

  /** The value kept per day key in the record the heatmap reduce builds. */
  datatype DayTotals = DayTotals(count: real, activities: seq<Activity>)

  function CategoryOf(a: Activity): string
  {
    a.category
  }

  function DayOf(dayKey: string -> string): Activity -> string
  {
    (a: Activity) => dayKey(a.date)
  }

  // ---------------------------------------------------------------------
  // Category breakdown (pie chart)
  // ---------------------------------------------------------------------

  function ChartsOf(gs: seq<Group>): seq<ChartData>
  {
    seq(|gs|, i requires 0 <= i < |gs| => ChartData(gs[i].key, gs[i].total))
  }

  /** The intended category breakdown: the category grouping, as pie sectors. */
  function CategoryBreakdown(acts: seq<Activity>): seq<ChartData>
  {
    ChartsOf(GroupBy(acts, CategoryOf))
  }

  /** Sum of the sector values. */
  function ChartTotal(cs: seq<ChartData>): real
  {
    if cs == [] then 0.0 else ChartTotal(cs[..|cs| - 1]) + cs[|cs| - 1].value
  }

  lemma {:induction false} ChartTotalOf(gs: seq<Group>)
    ensures ChartTotal(ChartsOf(gs)) == SumTotals(gs)
  {
    if gs != [] {
      var n := |gs| - 1;
      assert ChartsOf(gs)[..n] == ChartsOf(gs[..n]);
      ChartTotalOf(gs[..n]);
    }
  }

  /** Adding an activity whose category already has a sector adds its value to that sector. */
  lemma CategoryBreakdownSnocExisting(acts: seq<Activity>, a: Activity, j: nat)
    requires j < |CategoryBreakdown(acts)| && CategoryBreakdown(acts)[j].name == a.category
    ensures var cb := CategoryBreakdown(acts);
      CategoryBreakdown(acts + [a]) == cb[j := ChartData(cb[j].name, cb[j].value + a.carbonValue)]
  {
    var gs := GroupBy(acts, CategoryOf);
    assert gs[j].key == Keys(acts, CategoryOf)[j] == CategoryOf(a);
    GroupBySnocExisting(acts, CategoryOf, a, j);
    assert ChartsOf(gs[j := Extend(gs[j], a)]) == ChartsOf(gs)[j := ChartData(gs[j].key, gs[j].total + a.carbonValue)];
  }

  /** Adding an activity with a new category appends a sector for it. */
  lemma CategoryBreakdownSnocNew(acts: seq<Activity>, a: Activity)
    requires forall j :: 0 <= j < |CategoryBreakdown(acts)| ==> CategoryBreakdown(acts)[j].name != a.category
    ensures CategoryBreakdown(acts + [a]) == CategoryBreakdown(acts) + [ChartData(a.category, a.carbonValue)]
  {
    var gs := GroupBy(acts, CategoryOf);
    var ks := Keys(acts, CategoryOf);
    forall j | 0 <= j < |ks| ensures ks[j] != CategoryOf(a) {
      assert CategoryBreakdown(acts)[j].name == gs[j].key;
    }
    GroupBySnocNew(acts, CategoryOf, a);
    var g := Group(CategoryOf(a), a.carbonValue, [a]);
    assert ChartsOf(gs + [g]) == ChartsOf(gs) + [ChartData(g.key, g.total)];
  }

  /**
   * The category reduce's callback on one activity: find the sector named
   * by its category and add to its value, or push a new sector. Applied to
   * the breakdown of the activities seen so far, it yields the breakdown of
   * those activities followed by this one.
   */
  method AddToBreakdown(acc: seq<ChartData>, activity: Activity, ghost seen: seq<Activity>) returns (acc': seq<ChartData>)
    requires acc == CategoryBreakdown(seen)
    ensures acc' == CategoryBreakdown(seen + [activity])
  {
    var existing := FindIndex(acc, (item: ChartData) => item.name == activity.category);
    if existing.Some? {
      var j := existing.value;
      CategoryBreakdownSnocExisting(seen, activity, j);
      acc' := acc[j := ChartData(acc[j].name, acc[j].value + activity.carbonValue)];
    } else {
      CategoryBreakdownSnocNew(seen, activity);
      acc' := acc + [ChartData(activity.category, activity.carbonValue)];
    }
  }

  /** The category reduce over all the activities. The result is their category breakdown. */
  method GroupByCategory(activities: seq<Activity>) returns (acc: seq<ChartData>)
    ensures acc == CategoryBreakdown(activities)
  {
    acc := [];
    for i := 0 to |activities|
      invariant acc == CategoryBreakdown(activities[..i])
    {
      acc := AddToBreakdown(acc, activities[i], activities[..i]);
      assert activities[..i + 1] == activities[..i] + [activities[i]];
    }
    assert activities[..|activities|] == activities;
  }

  /**
   * The sectors of the category breakdown: one per category present and no
   * two with the same name, in the order in which each category is first
   * seen.
   */
  lemma CategoryBreakdownNames(acts: seq<Activity>)
    ensures var cb := CategoryBreakdown(acts);
      && (forall i, j :: 0 <= i < j < |cb| ==> cb[i].name != cb[j].name)
      && (forall c :: (exists i :: 0 <= i < |cb| && cb[i].name == c) <==> Occurs(acts, CategoryOf, c))
      && (forall i :: 0 <= i < |cb| ==> Occurs(acts, CategoryOf, cb[i].name))
      && (forall i, j :: 0 <= i < j < |cb| ==>
            FirstIndex(acts, CategoryOf, cb[i].name) < FirstIndex(acts, CategoryOf, cb[j].name))
  {
    var gs, cb := GroupBy(acts, CategoryOf), CategoryBreakdown(acts);
    GroupBySpec(acts, CategoryOf);
    forall i | 0 <= i < |cb| ensures cb[i].name == gs[i].key {
    }
    forall c ensures (exists i :: 0 <= i < |cb| && cb[i].name == c) <==> Occurs(acts, CategoryOf, c) {
      if Occurs(acts, CategoryOf, c) {
        var i :| 0 <= i < |gs| && gs[i].key == c;
        assert cb[i].name == c;
      }
    }
  }

  /**
   * The values of the category breakdown: each sector's value is the sum
   * over its category, the values add up to the input's total, and no
   * activities give no sectors.
   */
  lemma CategoryBreakdownValues(acts: seq<Activity>)
    ensures var cb := CategoryBreakdown(acts);
      && (forall i :: 0 <= i < |cb| ==> cb[i].value == Total(Where(acts, CategoryOf, cb[i].name)))
      && ChartTotal(cb) == Total(acts)
      && (acts == [] ==> cb == [])
  {
    var gs, cb := GroupBy(acts, CategoryOf), CategoryBreakdown(acts);
    GroupBySpec(acts, CategoryOf);
    forall i | 0 <= i < |cb| ensures cb[i].name == gs[i].key && cb[i].value == gs[i].total {
    }
    GroupByConservesTotal(acts, CategoryOf);
    ChartTotalOf(gs);
  }

  /**
   * The "today" breakdown is the category breakdown of exactly the
   * activities whose day key is today's: its values add up to their total,
   * and every category it shows also appears in the all-time breakdown.
   */
  lemma TodayWithinAllTime(acts: seq<Activity>, dayKey: string -> string, today: string)
    ensures var todays := Where(acts, DayOf(dayKey), today);
      && (forall x :: x in todays <==> x in acts && dayKey(x.date) == today)
      && ChartTotal(CategoryBreakdown(todays)) == Total(todays)
      && forall i :: 0 <= i < |CategoryBreakdown(todays)| ==>
           HasSector(CategoryBreakdown(acts), CategoryBreakdown(todays)[i].name)
  {
    var todays := Where(acts, DayOf(dayKey), today);
    WhereCounts(acts, DayOf(dayKey), today);
    CategoryBreakdownValues(todays);
    TodayCategoriesAppearAllTime(acts, todays);
  }

  /** Some sector of the chart data is named `c`. */
  predicate HasSector(cs: seq<ChartData>, c: string)
  {
    exists j :: 0 <= j < |cs| && cs[j].name == c
  }

  /** Every category of a sub-collection of the activities is a category of all of them. */
  lemma TodayCategoriesAppearAllTime(acts: seq<Activity>, todays: seq<Activity>)
    requires forall x :: x in todays ==> x in acts
    ensures forall i :: 0 <= i < |CategoryBreakdown(todays)| ==>
      HasSector(CategoryBreakdown(acts), CategoryBreakdown(todays)[i].name)
  {
    CategoryBreakdownNames(todays);
    CategoryBreakdownNames(acts);
    forall i | 0 <= i < |CategoryBreakdown(todays)|
      ensures HasSector(CategoryBreakdown(acts), CategoryBreakdown(todays)[i].name)
    {
      var c := CategoryBreakdown(todays)[i].name;
      var p :| 0 <= p < |todays| && CategoryOf(todays[p]) == c;
      assert todays[p] in todays;
      var q :| 0 <= q < |acts| && acts[q] == todays[p];
      assert Occurs(acts, CategoryOf, c);
    }
  }

  // ---------------------------------------------------------------------
  // Daily breakdown (calendar heatmap)
  // ---------------------------------------------------------------------

  function HeatmapOf(gs: seq<Group>): seq<HeatmapValue>
  {
    seq(|gs|, i requires 0 <= i < |gs| => HeatmapValue(gs[i].key, gs[i].total, gs[i].members))
  }

  /** The intended heatmap data: the grouping by day key. */
  function DayBreakdown(acts: seq<Activity>, dayKey: string -> string): seq<HeatmapValue>
  {
    HeatmapOf(GroupBy(acts, DayOf(dayKey)))
  }

  function CountTotal(vs: seq<HeatmapValue>): real
  {
    if vs == [] then 0.0 else CountTotal(vs[..|vs| - 1]) + vs[|vs| - 1].count
  }

  /** The activities of all entries, entry after entry. */
  function AllActivities(vs: seq<HeatmapValue>): seq<Activity>
  {
    if vs == [] then [] else AllActivities(vs[..|vs| - 1]) + vs[|vs| - 1].activities
  }

  lemma {:induction false} HeatmapTotalsOf(gs: seq<Group>)
    ensures CountTotal(HeatmapOf(gs)) == SumTotals(gs)
    ensures AllActivities(HeatmapOf(gs)) == Flatten(gs)
  {
    if gs != [] {
      var n := |gs| - 1;
      assert HeatmapOf(gs)[..n] == HeatmapOf(gs[..n]);
      HeatmapTotalsOf(gs[..n]);
    }
  }

  /**
   * `Object.entries` of the record, in key-insertion order, as heatmap
   * entries. The record is a map with its keys listed once each in
   * insertion order; the result has one entry per key of the map, in that
   * order, no two with the same date, each carrying that key's count and
   * activities.
   */
  function Entries(order: seq<string>, groups: map<string, DayTotals>): (vs: seq<HeatmapValue>)
    requires NoDup(order) && forall d :: d in groups <==> d in order
    ensures |vs| == |groups| == |order| && forall i :: 0 <= i < |vs| ==> vs[i].date == order[i]
    ensures forall i, j :: 0 <= i < j < |vs| ==> vs[i].date != vs[j].date
    ensures forall d :: d in groups <==> exists i :: 0 <= i < |vs| && vs[i].date == d
    ensures forall i :: 0 <= i < |vs| ==>
      vs[i].date in groups && DayTotals(vs[i].count, vs[i].activities) == groups[vs[i].date]
  {
    var vs := seq(|order|, i requires 0 <= i < |order| =>
      HeatmapValue(order[i], groups[order[i]].count, groups[order[i]].activities));
    EntriesListRecord(order, groups, vs);
    vs
  }

  lemma EntriesListRecord(order: seq<string>, groups: map<string, DayTotals>, vs: seq<HeatmapValue>)
    requires NoDup(order) && forall d :: d in groups <==> d in order
    requires |vs| == |order| && forall i :: 0 <= i < |vs| ==>
      vs[i] == HeatmapValue(order[i], groups[order[i]].count, groups[order[i]].activities)
    ensures |vs| == |groups|
    ensures forall d :: d in groups ==> exists i :: 0 <= i < |vs| && vs[i].date == d
  {
    RecordSize(order, groups);
    forall d | d in groups ensures exists i :: 0 <= i < |vs| && vs[i].date == d {
      var i :| 0 <= i < |order| && order[i] == d;
      assert vs[i].date == d;
    }
  }

  /** A record whose keys are listed once each has as many keys as the list. */
  lemma RecordSize(order: seq<string>, groups: map<string, DayTotals>)
    requires NoDup(order) && forall d :: d in groups <==> d in order
    ensures |groups| == |order|
  {
    assert groups.Keys == set d | d in order;
    DistinctCount(order);
  }

  /** A list without duplicates has as many distinct elements as positions. */
  lemma {:induction false} DistinctCount(order: seq<string>)
    requires NoDup(order)
    ensures |set d | d in order| == |order|
  {
    if order != [] {
      var n := |order| - 1;
      var prefix := order[..n];
      assert NoDup(prefix) by {
        forall i, j | 0 <= i < j < n ensures prefix[i] != prefix[j] {
          assert prefix[i] == order[i] && prefix[j] == order[j];
        }
      }
      DistinctCount(prefix);
      assert order == prefix + [order[n]];
      assert (set d | d in order) == (set d | d in prefix) + {order[n]};
      assert order[n] !in prefix by {
        forall k | 0 <= k < n ensures prefix[k] != order[n] {
          assert prefix[k] == order[k];
        }
      }
    }
  }

  /**
   * The record the heatmap reduce builds, one activity at a time: the
   * activity's day key gets an empty entry if it has none, then the
   * activity's value is added to the entry's count and the activity is
   * appended to the entry's list.
   */
  function DayRecord(acts: seq<Activity>, key: Activity -> string): map<string, DayTotals>
  {
    if acts == [] then map[]
    else
      var n := |acts| - 1;
      var r := DayRecord(acts[..n], key);
      var k := key(acts[n]);
      var entry := if k in r then r[k] else DayTotals(0.0, []);
      r[k := DayTotals(entry.count + acts[n].carbonValue, entry.activities + [acts[n]])]
  }

  lemma DayRecordSnoc(acts: seq<Activity>, key: Activity -> string, a: Activity)
    ensures var r := DayRecord(acts, key);
      var entry := if key(a) in r then r[key(a)] else DayTotals(0.0, []);
      DayRecord(acts + [a], key) == r[key(a) := DayTotals(entry.count + a.carbonValue, entry.activities + [a])]
  {
    assert (acts + [a])[..|acts|] == acts;
  }

  /** The record holds an entry for exactly the listed day keys. */
  lemma {:induction false} DayRecordHas(acts: seq<Activity>, key: Activity -> string, d: string)
    ensures d in DayRecord(acts, key) <==> d in Keys(acts, key)
  {
    if acts != [] {
      var n := |acts| - 1;
      assert acts == acts[..n] + [acts[n]];
      DayRecordHas(acts[..n], key, d);
      KeysSnoc(acts[..n], key, acts[n]);
      DayRecordSnoc(acts[..n], key, acts[n]);
    }
  }

  /** An entry of the record holds that day's activities, in input order, and their sum. */
  lemma {:induction false} DayRecordAt(acts: seq<Activity>, key: Activity -> string, d: string)
    requires d in DayRecord(acts, key)
    ensures DayRecord(acts, key)[d] == DayTotals(Total(Where(acts, key, d)), Where(acts, key, d))
  {
    var n := |acts| - 1;
    var prefix, a := acts[..n], acts[n];
    assert acts == prefix + [a];
    var r := DayRecord(prefix, key);
    DayRecordSnoc(prefix, key, a);
    WhereSnoc(prefix, key, a, d);
    if d == key(a) {
      TotalSnoc(Where(prefix, key, d), a);
      if d in r {
        DayRecordAt(prefix, key, d);
      } else {
        DayRecordHas(prefix, key, d);
        KeysOccur(prefix, key);
        WhereAbsent(prefix, key, d);
      }
    } else {
      DayRecordAt(prefix, key, d);
    }
  }

  /**
   * One step of the heatmap reduce: the record and its key order after one
   * more activity. A new day key is appended to the order and its entry
   * starts empty; either way the activity is added to its day's entry.
   */
  lemma DayRecordStep(prefix: seq<Activity>, key: Activity -> string, a: Activity, order: seq<string>, groups: map<string, DayTotals>)
    requires order == Keys(prefix, key) && groups == DayRecord(prefix, key)
    ensures var entry := if key(a) in groups then groups[key(a)] else DayTotals(0.0, []);
      && Keys(prefix + [a], key) == (if key(a) in groups then order else order + [key(a)])
      && DayRecord(prefix + [a], key) == groups[key(a) := DayTotals(entry.count + a.carbonValue, entry.activities + [a])]
  {
    KeysSnoc(prefix, key, a);
    DayRecordSnoc(prefix, key, a);
    DayRecordHas(prefix, key, key(a));
  }

  /**
   * Listing the record the reduce has built over all the activities, in
   * key-insertion order, gives the daily breakdown.
   */
  lemma RecordEntries(acts: seq<Activity>, dayKey: string -> string, order: seq<string>, groups: map<string, DayTotals>)
    requires order == Keys(acts, DayOf(dayKey)) && groups == DayRecord(acts, DayOf(dayKey))
    ensures NoDup(order) && forall d :: d in groups <==> d in order
    ensures Entries(order, groups) == DayBreakdown(acts, dayKey)
  {
    var key := DayOf(dayKey);
    forall d ensures d in groups <==> d in order {
      DayRecordHas(acts, key, d);
    }
    var es, hs := Entries(order, groups), HeatmapOf(GroupBy(acts, key));
    forall i | 0 <= i < |order| ensures es[i] == hs[i] {
      DayRecordAt(acts, key, order[i]);
    }
  }

  /**
   * The heatmap reduce's callback on one activity: open an empty entry for
   * its day key if the record has none (appending the key to the record's
   * insertion order), then add the activity's value to the entry's count
   * and push the activity onto the entry's list. Applied to the record of
   * the activities seen so far, it yields the record of those activities
   * followed by this one.
   */
  method AddToDayRecord(order: seq<string>, groups: map<string, DayTotals>, activity: Activity, dayKey: string -> string, ghost seen: seq<Activity>)
    returns (order': seq<string>, groups': map<string, DayTotals>)
    requires order == Keys(seen, DayOf(dayKey)) && groups == DayRecord(seen, DayOf(dayKey))
    ensures order' == Keys(seen + [activity], DayOf(dayKey))
    ensures groups' == DayRecord(seen + [activity], DayOf(dayKey))
  {
    var date := dayKey(activity.date);
    assert DayOf(dayKey)(activity) == date;
    DayRecordStep(seen, DayOf(dayKey), activity, order, groups);
    order', groups' := order, groups;
    if date !in groups' {
      groups' := groups'[date := DayTotals(0.0, [])];
      order' := order' + [date];
    }
    groups' := groups'[date := DayTotals(groups'[date].count + activity.carbonValue, groups'[date].activities + [activity])];
  }

  /**
   * The heatmap reduce over all the activities, followed by the listing of
   * the record's entries in insertion order. The result is the daily
   * breakdown.
   */
  method GroupByDay(activities: seq<Activity>, dayKey: string -> string) returns (values: seq<HeatmapValue>)
    ensures values == DayBreakdown(activities, dayKey)
  {
    var order: seq<string> := [];
    var groups: map<string, DayTotals> := map[];
    for i := 0 to |activities|
      invariant order == Keys(activities[..i], DayOf(dayKey))
      invariant groups == DayRecord(activities[..i], DayOf(dayKey))
    {
      order, groups := AddToDayRecord(order, groups, activities[i], dayKey, activities[..i]);
      assert activities[..i + 1] == activities[..i] + [activities[i]];
    }
    assert activities[..|activities|] == activities;
    RecordEntries(activities, dayKey, order, groups);
    values := Entries(order, groups);
  }

  /**
   * `Math.max(...counts, 1)`: at least 1 and at least every count, and
   * either 1 or one of the counts; 1 when there are no entries.
   */
  function MaxDailyValue(values: seq<HeatmapValue>): (m: real)
    ensures 1.0 <= m
    ensures forall i :: 0 <= i < |values| ==> values[i].count <= m
    ensures m == 1.0 || exists i :: 0 <= i < |values| && values[i].count == m
  {
    if values == [] then 1.0
    else
      var n := |values| - 1;
      var m := MaxDailyValue(values[..n]);
      assert forall i :: 0 <= i < n ==> values[..n][i] == values[i];
      if m < values[n].count then values[n].count else m
  }

  /**
   * The dates of the daily breakdown: one entry per distinct day key and no
   * two entries with the same date, in the order in which each day is
   * first seen.
   */
  lemma DayBreakdownDates(acts: seq<Activity>, dayKey: string -> string)
    ensures var hd := DayBreakdown(acts, dayKey);
      && (forall i, j :: 0 <= i < j < |hd| ==> hd[i].date != hd[j].date)
      && (forall d :: (exists i :: 0 <= i < |hd| && hd[i].date == d) <==> Occurs(acts, DayOf(dayKey), d))
      && (forall i :: 0 <= i < |hd| ==> Occurs(acts, DayOf(dayKey), hd[i].date))
      && (forall i, j :: 0 <= i < j < |hd| ==>
            FirstIndex(acts, DayOf(dayKey), hd[i].date) < FirstIndex(acts, DayOf(dayKey), hd[j].date))
  {
    var key := DayOf(dayKey);
    var ks, hd := Keys(acts, key), DayBreakdown(acts, dayKey);
    DayDatesAreKeys(acts, dayKey);
    KeysOccur(acts, key);
    KeysFirstSeen(acts, key);
    forall d ensures (exists i :: 0 <= i < |hd| && hd[i].date == d) <==> Occurs(acts, key, d) {
      if Occurs(acts, key, d) {
        var i :| 0 <= i < |ks| && ks[i] == d;
        assert hd[i].date == d;
      }
    }
  }

  /** The daily breakdown's dates are the day keys, in the same order. */
  lemma DayDatesAreKeys(acts: seq<Activity>, dayKey: string -> string)
    ensures var ks, hd := Keys(acts, DayOf(dayKey)), DayBreakdown(acts, dayKey);
      |hd| == |ks| && forall i :: 0 <= i < |hd| ==> hd[i].date == ks[i]
  {
    GroupByAt(acts, DayOf(dayKey));
  }

  /**
   * The contents of the daily breakdown: each entry's activities are that
   * day's activities in input order and its count is their sum; the counts
   * add up to the input's total and the activity lists together are a
   * permutation of the input; no input, no entries and a maximum of 1.
   */
  lemma DayBreakdownContents(acts: seq<Activity>, dayKey: string -> string)
    ensures var hd := DayBreakdown(acts, dayKey);
      && (forall i :: 0 <= i < |hd| ==>
            hd[i].activities == Where(acts, DayOf(dayKey), hd[i].date) && hd[i].count == Total(hd[i].activities))
      && CountTotal(hd) == Total(acts)
      && multiset(AllActivities(hd)) == multiset(acts)
      && (acts == [] ==> hd == [] && MaxDailyValue(hd) == 1.0)
  {
    var gs, hd := GroupBy(acts, DayOf(dayKey)), DayBreakdown(acts, dayKey);
    GroupBySpec(acts, DayOf(dayKey));
    forall i | 0 <= i < |hd| ensures hd[i].date == gs[i].key && hd[i].count == gs[i].total && hd[i].activities == gs[i].members {
    }
    GroupByConservesTotal(acts, DayOf(dayKey));
    GroupByPermutes(acts, DayOf(dayKey));
    HeatmapTotalsOf(gs);
  }

  /**
   * Three activities on two days (3 and 2 kg on the first, 1 kg on the
   * second) give two entries, 5 and 1, and a maximum of 5.
   */
  lemma DayBreakdownExample(dayKey: string -> string, d1: string, d2: string)
    requires dayKey(d1) != dayKey(d2)
    ensures var acts := [Activity("a", "Food", 3.0, d1), Activity("b", "Food", 2.0, d1), Activity("c", "Energy", 1.0, d2)];
      var hd := DayBreakdown(acts, dayKey);
      && |hd| == 2
      && hd[0].date == dayKey(d1) && hd[0].count == 5.0
      && hd[1].date == dayKey(d2) && hd[1].count == 1.0
      && MaxDailyValue(hd) == 5.0
  {
    var a0, a1, a2 := Activity("a", "Food", 3.0, d1), Activity("b", "Food", 2.0, d1), Activity("c", "Energy", 1.0, d2);
    ExampleGroups(dayKey, a0, a1, a2);
    var h0, h1 := HeatmapValue(dayKey(d1), 5.0, [a0, a1]), HeatmapValue(dayKey(d2), 1.0, [a2]);
    var hd := DayBreakdown([a0, a1, a2], dayKey);
    assert hd == [h0, h1];
    assert [h0] == [] + [h0];
    MaxDailyValueSnoc([], h0);
    assert hd == [h0] + [h1];
    MaxDailyValueSnoc([h0], h1);
  }

  /** The grouping behind the example: two activities on one day, then one on another. */
  lemma ExampleGroups(dayKey: string -> string, a0: Activity, a1: Activity, a2: Activity)
    requires dayKey(a0.date) == dayKey(a1.date) != dayKey(a2.date)
    ensures GroupBy([a0, a1, a2], DayOf(dayKey)) ==
      [Group(dayKey(a0.date), a0.carbonValue + a1.carbonValue, [a0, a1]), Group(dayKey(a2.date), a2.carbonValue, [a2])]
  {
    var key := DayOf(dayKey);
    assert key(a2) == dayKey(a2.date);
    ExampleFirstDay(dayKey, a0, a1);
    assert [a0, a1, a2] == [a0, a1] + [a2];
    GroupBySnocNew([a0, a1], key, a2);
  }

  /** Two activities on the same day form one group. */
  lemma ExampleFirstDay(dayKey: string -> string, a0: Activity, a1: Activity)
    requires dayKey(a0.date) == dayKey(a1.date)
    ensures Keys([a0, a1], DayOf(dayKey)) == [dayKey(a0.date)]
    ensures GroupBy([a0, a1], DayOf(dayKey)) == [Group(dayKey(a0.date), a0.carbonValue + a1.carbonValue, [a0, a1])]
  {
    var key := DayOf(dayKey);
    var k := dayKey(a0.date);
    assert key(a0) == k && key(a1) == k;
    var g0 := Group(k, a0.carbonValue, [a0]);
    GroupByOne(a0, key);
    assert Keys([a0], key) == [k] && GroupBy([a0], key) == [g0];
    assert [a0, a1] == [a0] + [a1];
    KeysSnoc([a0], key, a1);
    GroupBySnocExisting([a0], key, a1, 0);
    assert GroupBy([a0, a1], key) == [g0][0 := Extend(g0, a1)];
    assert Extend(g0, a1) == Group(k, a0.carbonValue + a1.carbonValue, [a0, a1]);
  }

  lemma MaxDailyValueSnoc(values: seq<HeatmapValue>, v: HeatmapValue)
    ensures MaxDailyValue(values + [v]) ==
      if MaxDailyValue(values) < v.count then v.count else MaxDailyValue(values)
  {
    assert (values + [v])[..|values|] == values;
  }

  /**
   * The component's state: the two pie-chart series, the heatmap entries
   * and the maximum daily value, as the component's `useState` hooks hold
   * them.
   */
  class DataVisState {
    var todayData: seq<ChartData>
    var allTimeData: seq<ChartData>
    var heatmapData: seq<HeatmapValue>
    var maxDailyValue: real

    constructor ()
      ensures todayData == [] && allTimeData == [] && heatmapData == [] && maxDailyValue == 1.0
    {
      todayData, allTimeData, heatmapData, maxDailyValue := [], [], [], 1.0;
    }

    /** `updateChartData`: the today filter, then the category reduce twice. */
    method UpdateChartData(activities: seq<Activity>, dayKey: string -> string, today: string)
      modifies this
      ensures todayData == CategoryBreakdown(Where(activities, DayOf(dayKey), today))
      ensures allTimeData == CategoryBreakdown(activities)
      ensures heatmapData == old(heatmapData) && maxDailyValue == old(maxDailyValue)
    {
      var todayActivities := Where(activities, DayOf(dayKey), today);
      todayData := GroupByCategory(todayActivities);
      allTimeData := GroupByCategory(activities);
    }

    /** `updateHeatmapData`: the day reduce, then the maximum for colour scaling. */
    method UpdateHeatmapData(activities: seq<Activity>, dayKey: string -> string)
      modifies this
      ensures heatmapData == DayBreakdown(activities, dayKey)
      ensures maxDailyValue == MaxDailyValue(heatmapData)
      ensures 1.0 <= maxDailyValue
      ensures todayData == old(todayData) && allTimeData == old(allTimeData)
    {
      var heatmapValues := GroupByDay(activities, dayKey);
      maxDailyValue := MaxDailyValue(heatmapValues);
      heatmapData := heatmapValues;
    }

    /**
     * `loadActivities`: the stored list (none stored reads as empty), then
     * both updates.
     */
    method LoadActivities(stored: Option<seq<Activity>>, dayKey: string -> string, today: string)
      modifies this
      ensures var activities := if stored.Some? then stored.value else [];
        && todayData == CategoryBreakdown(Where(activities, DayOf(dayKey), today))
        && allTimeData == CategoryBreakdown(activities)
        && heatmapData == DayBreakdown(activities, dayKey)
        && maxDailyValue == MaxDailyValue(heatmapData)
    {
      var activities := if stored.Some? then stored.value else [];
      UpdateChartData(activities, dayKey, today);
      UpdateHeatmapData(activities, dayKey);
    }
  }
}
