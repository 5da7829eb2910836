/**
 * The activity record shared by every component of the tracker, and the
 * specification of "group by a key and sum" that all three charts use.
 *
 * The store is an insertion-ordered list of activities. A grouping is given
 * by a key function (the category, the "YYYY-MM-DD" day key, the "MMM D"
 * label). The reference grouping `GroupBy` is defined WITHOUT an
 * accumulator: one group per distinct key, in the order in which each key
 * first occurs, holding the sub-list of activities with that key and their
 * summed carbon value. The imperative reduces in DataVis and Summary are
 * proved equal to views of it; the lemmas here state what it promises.
 */
module Activities {

  datatype Option<T> = None | Some(value: T)

  /** One logged activity (the `Activity` interface): carbon values are kg of CO2. */
  datatype Activity = Activity(name: string, category: string, carbonValue: real, date: string)

  predicate NoDup<T(==)>(s: seq<T>)
  {
    forall i, j :: 0 <= i < j < |s| ==> s[i] != s[j]
  }

  /** Sum of `carbonValue` over a list of activities. */
  function Total(acts: seq<Activity>): real
  {
    if acts == [] then 0.0 else Total(acts[..|acts| - 1]) + acts[|acts| - 1].carbonValue
  }

  lemma TotalSnoc(acts: seq<Activity>, a: Activity)
    ensures Total(acts + [a]) == Total(acts) + a.carbonValue
  {
    assert (acts + [a])[..|acts|] == acts;
  }

  /** Some activity of the list has key `k`. */
  predicate Occurs(acts: seq<Activity>, key: Activity -> string, k: string)
  {
    exists p :: 0 <= p < |acts| && key(acts[p]) == k
  }

  lemma OccursSplit(acts: seq<Activity>, key: Activity -> string)
    requires acts != []
    ensures forall k :: Occurs(acts, key, k) <==>
      Occurs(acts[..|acts| - 1], key, k) || key(acts[|acts| - 1]) == k
  {
    var n := |acts| - 1;
    forall k ensures Occurs(acts, key, k) <==> Occurs(acts[..n], key, k) || key(acts[n]) == k {
      if Occurs(acts, key, k) {
        var p :| 0 <= p < |acts| && key(acts[p]) == k;
        if p < n {
          assert acts[..n][p] == acts[p];
        }
      }
      if Occurs(acts[..n], key, k) {
        var p :| 0 <= p < n && key(acts[..n][p]) == k;
        assert acts[p] == acts[..n][p];
      }
    }
  }

  /**
   * The activities whose key is `k`, in input order (`Array.prototype.filter`).
   * Every activity keeps its multiplicity when its key is `k` and is dropped
   * otherwise.
   */
  function Where(acts: seq<Activity>, key: Activity -> string, k: string): seq<Activity>
  {
    if acts == [] then []
    else
      var n := |acts| - 1;
      var w := Where(acts[..n], key, k);
      if key(acts[n]) == k then w + [acts[n]] else w
  }

  /** `Where` is a filter: it keeps exactly the activities with key `k`, each with its multiplicity. */
  lemma {:induction false} WhereCounts(acts: seq<Activity>, key: Activity -> string, k: string)
    ensures forall x :: multiset(Where(acts, key, k))[x] == if key(x) == k then multiset(acts)[x] else 0
    ensures forall x :: x in Where(acts, key, k) <==> x in acts && key(x) == k
  {
    if acts != [] {
      var n := |acts| - 1;
      WhereCounts(acts[..n], key, k);
      assert acts == acts[..n] + [acts[n]];
    }
  }

  lemma WhereSnoc(acts: seq<Activity>, key: Activity -> string, a: Activity, k: string)
    ensures Where(acts + [a], key, k) == if key(a) == k then Where(acts, key, k) + [a] else Where(acts, key, k)
  {
    assert (acts + [a])[..|acts|] == acts;
  }

  lemma WhereAbsent(acts: seq<Activity>, key: Activity -> string, k: string)
    requires !Occurs(acts, key, k)
    ensures Where(acts, key, k) == []
  {
    WhereCounts(acts, key, k);
  }

  /**
   * The distinct keys of the list, each placed where it first occurs.
   * No key appears twice, and exactly the keys that occur appear.
   */
  function Keys(acts: seq<Activity>, key: Activity -> string): (ks: seq<string>)
    ensures NoDup(ks)
  {
    if acts == [] then []
    else
      var n := |acts| - 1;
      var ks := Keys(acts[..n], key);
      if key(acts[n]) in ks then ks else ks + [key(acts[n])]
  }

  /** Exactly the keys that occur in the input are listed. */
  lemma {:induction false} KeysOccur(acts: seq<Activity>, key: Activity -> string)
    ensures forall k :: k in Keys(acts, key) <==> Occurs(acts, key, k)
  {
    if acts != [] {
      KeysOccur(acts[..|acts| - 1], key);
      OccursSplit(acts, key);
    }
  }

  lemma KeysSnoc(acts: seq<Activity>, key: Activity -> string, a: Activity)
    ensures Keys(acts + [a], key) ==
      if key(a) in Keys(acts, key) then Keys(acts, key) else Keys(acts, key) + [key(a)]
  {
    assert (acts + [a])[..|acts|] == acts;
  }

  /** Position of the first activity whose key is `k`. */
  function FirstIndex(acts: seq<Activity>, key: Activity -> string, k: string): (p: nat)
    requires Occurs(acts, key, k)
    ensures p < |acts| && key(acts[p]) == k
    ensures forall q :: 0 <= q < p ==> key(acts[q]) != k
  {
    var n := |acts| - 1;
    OccursSplit(acts, key);
    if Occurs(acts[..n], key, k) then
      var p := FirstIndex(acts[..n], key, k);
      assert acts[..n][p] == acts[p];
      assert forall q :: 0 <= q < p ==> acts[..n][q] == acts[q];
      p
    else
      assert forall q :: 0 <= q < n ==> acts[..n][q] == acts[q];
      n
  }

  /**
   * Keys are listed in first-seen order: a key listed earlier first occurs
   * earlier in the input. The grouping is stable, not sorted.
   */
  lemma {:induction false} KeysFirstSeen(acts: seq<Activity>, key: Activity -> string)
    ensures forall k :: k in Keys(acts, key) ==> Occurs(acts, key, k)
    ensures forall i, j :: 0 <= i < j < |Keys(acts, key)| ==>
      FirstIndex(acts, key, Keys(acts, key)[i]) < FirstIndex(acts, key, Keys(acts, key)[j])
  {
    if acts != [] {
      var n := |acts| - 1;
      var prefix := acts[..n];
      KeysFirstSeen(prefix, key);
      KeysOccur(prefix, key);
      KeysOccur(acts, key);
      OccursSplit(acts, key);
      var ks := Keys(acts, key);
      var kp := Keys(prefix, key);
      forall i, j | 0 <= i < j < |ks|
        ensures FirstIndex(acts, key, ks[i]) < FirstIndex(acts, key, ks[j])
      {
        assert ks[i] == kp[i] && Occurs(prefix, key, ks[i]);
        if j < |kp| {
          assert ks[j] == kp[j] && Occurs(prefix, key, ks[j]);
        } else {
          assert !Occurs(prefix, key, ks[j]);
        }
      }
    }
  }

  /** One group: its key, the summed carbon value and the contributing activities. */
  datatype Group = Group(key: string, total: real, members: seq<Activity>)

  function GroupOf(acts: seq<Activity>, key: Activity -> string, k: string): Group
  {
    Group(k, Total(Where(acts, key, k)), Where(acts, key, k))
  }

  /** The reference grouping: one group per distinct key, in first-seen key order. */
  function GroupBy(acts: seq<Activity>, key: Activity -> string): seq<Group>
  {
    var ks := Keys(acts, key);
    seq(|ks|, i requires 0 <= i < |ks| => GroupOf(acts, key, ks[i]))
  }

  /** Group `i` is the group of the `i`-th key. */
  lemma GroupByAt(acts: seq<Activity>, key: Activity -> string)
    ensures |GroupBy(acts, key)| == |Keys(acts, key)|
    ensures forall i :: 0 <= i < |GroupBy(acts, key)| ==> GroupBy(acts, key)[i] == GroupOf(acts, key, Keys(acts, key)[i])
  {
  }

  /** A key has a group exactly when some activity has that key. */
  lemma GroupByCovers(acts: seq<Activity>, key: Activity -> string)
    ensures var gs := GroupBy(acts, key);
      forall k :: (exists i :: 0 <= i < |gs| && gs[i].key == k) <==> Occurs(acts, key, k)
  {
    var ks, gs := Keys(acts, key), GroupBy(acts, key);
    GroupByAt(acts, key);
    KeysOccur(acts, key);
    forall k | Occurs(acts, key, k) ensures exists i :: 0 <= i < |gs| && gs[i].key == k {
      var i :| 0 <= i < |ks| && ks[i] == k;
      assert gs[i].key == k;
    }
    forall k | exists i :: 0 <= i < |gs| && gs[i].key == k ensures Occurs(acts, key, k) {
      var i :| 0 <= i < |gs| && gs[i].key == k;
      assert ks[i] in ks;
    }
  }

  /**
   * What the grouping promises about its keys and groups: no key is listed
   * twice; a key has a group exactly when some activity has it; groups are
   * in first-seen order; each group holds exactly its key's activities, in
   * input order, and their sum; no activities, no groups.
   */
  lemma GroupBySpec(acts: seq<Activity>, key: Activity -> string)
    ensures var gs := GroupBy(acts, key);
      && (forall i, j :: 0 <= i < j < |gs| ==> gs[i].key != gs[j].key)
      && (forall k :: (exists i :: 0 <= i < |gs| && gs[i].key == k) <==> Occurs(acts, key, k))
      && (forall i :: 0 <= i < |gs| ==> Occurs(acts, key, gs[i].key))
      && (forall i, j :: 0 <= i < j < |gs| ==>
            FirstIndex(acts, key, gs[i].key) < FirstIndex(acts, key, gs[j].key))
      && (forall i :: 0 <= i < |gs| ==>
            gs[i].members == Where(acts, key, gs[i].key) && gs[i].total == Total(gs[i].members))
      && (acts == [] ==> gs == [])
  {
    var ks, gs := Keys(acts, key), GroupBy(acts, key);
    GroupByAt(acts, key);
    assert forall i :: 0 <= i < |gs| ==> gs[i].key == ks[i];
    GroupByCovers(acts, key);
    KeysFirstSeen(acts, key);
  }

  /** The effect of adding one more activity to an existing group. */
  function Extend(g: Group, a: Activity): Group
  {
    Group(g.key, g.total + a.carbonValue, g.members + [a])
  }

  lemma GroupOfSnoc(acts: seq<Activity>, key: Activity -> string, a: Activity, k: string)
    ensures GroupOf(acts + [a], key, k) ==
      if key(a) == k then Extend(GroupOf(acts, key, k), a) else GroupOf(acts, key, k)
  {
    WhereSnoc(acts, key, a, k);
    TotalSnoc(Where(acts, key, k), a);
  }

  /** A single activity forms a single group. */
  lemma GroupByOne(a: Activity, key: Activity -> string)
    ensures Keys([a], key) == [key(a)]
    ensures GroupBy([a], key) == [Group(key(a), a.carbonValue, [a])]
  {
    assert [a] == [] + [a];
    KeysSnoc([], key, a);
    GroupBySnocNew([], key, a);
  }

  /** An activity whose key already has a group is added to that group, in place. */
  lemma GroupBySnocExisting(acts: seq<Activity>, key: Activity -> string, a: Activity, j: nat)
    requires j < |Keys(acts, key)| && Keys(acts, key)[j] == key(a)
    ensures GroupBy(acts + [a], key) == GroupBy(acts, key)[j := Extend(GroupBy(acts, key)[j], a)]
  {
    KeysSnoc(acts, key, a);
    var ks := Keys(acts, key);
    var gs, gs' := GroupBy(acts, key), GroupBy(acts + [a], key);
    var rhs := gs[j := Extend(gs[j], a)];
    assert |gs'| == |ks| == |rhs|;
    forall i | 0 <= i < |ks| ensures gs'[i] == rhs[i] {
      GroupOfSnoc(acts, key, a, ks[i]);
      assert gs'[i] == GroupOf(acts + [a], key, ks[i]) && gs[i] == GroupOf(acts, key, ks[i]);
      if i != j {
        assert ks[i] != key(a);
      }
    }
  }

  /** An activity with a new key opens a new group at the end. */
  lemma GroupBySnocNew(acts: seq<Activity>, key: Activity -> string, a: Activity)
    requires key(a) !in Keys(acts, key)
    ensures GroupBy(acts + [a], key) == GroupBy(acts, key) + [Group(key(a), a.carbonValue, [a])]
  {
    KeysSnoc(acts, key, a);
    var ks := Keys(acts, key);
    var gs, gs' := GroupBy(acts, key), GroupBy(acts + [a], key);
    var rhs := gs + [Group(key(a), a.carbonValue, [a])];
    assert |gs'| == |ks| + 1 == |rhs|;
    forall i | 0 <= i < |ks| ensures gs'[i] == rhs[i] {
      GroupOfSnoc(acts, key, a, ks[i]);
      assert gs'[i] == GroupOf(acts + [a], key, ks[i]) && gs[i] == GroupOf(acts, key, ks[i]);
    }
    GroupOfSnoc(acts, key, a, key(a));
    KeysOccur(acts, key);
    WhereAbsent(acts, key, key(a));
    assert gs'[|ks|] == rhs[|ks|];
  }

  function SumTotals(gs: seq<Group>): real
  {
    if gs == [] then 0.0 else SumTotals(gs[..|gs| - 1]) + gs[|gs| - 1].total
  }

  /** All members of all groups, group after group. */
  function Flatten(gs: seq<Group>): seq<Activity>
  {
    if gs == [] then [] else Flatten(gs[..|gs| - 1]) + gs[|gs| - 1].members
  }

  lemma {:induction false} SumTotalsUpdate(gs: seq<Group>, j: nat, g: Group)
    requires j < |gs|
    ensures SumTotals(gs[j := g]) == SumTotals(gs) - gs[j].total + g.total
  {
    var n := |gs| - 1;
    if j == n {
      assert gs[j := g][..n] == gs[..n];
    } else {
      assert gs[j := g][..n] == gs[..n][j := g];
      SumTotalsUpdate(gs[..n], j, g);
    }
  }

  lemma {:induction false} FlattenExtend(gs: seq<Group>, j: nat, a: Activity)
    requires j < |gs|
    ensures multiset(Flatten(gs[j := Extend(gs[j], a)])) == multiset(Flatten(gs)) + multiset{a}
  {
    var n := |gs| - 1;
    var gs' := gs[j := Extend(gs[j], a)];
    assert Flatten(gs') == Flatten(gs'[..n]) + gs'[n].members;
    assert Flatten(gs) == Flatten(gs[..n]) + gs[n].members;
    if j == n {
      assert gs'[..n] == gs[..n];
      assert gs'[n].members == gs[n].members + [a];
    } else {
      assert gs[..n][j] == gs[j];
      assert gs'[..n] == gs[..n][j := Extend(gs[..n][j], a)];
      assert gs'[n] == gs[n];
      FlattenExtend(gs[..n], j, a);
    }
  }

  lemma SumTotalsSnoc(gs: seq<Group>, g: Group)
    ensures SumTotals(gs + [g]) == SumTotals(gs) + g.total
    ensures Flatten(gs + [g]) == Flatten(gs) + g.members
  {
    assert (gs + [g])[..|gs|] == gs;
  }

  /** Summing the group totals gives the total of the input: nothing is lost or counted twice. */
  lemma {:induction false} GroupByConservesTotal(acts: seq<Activity>, key: Activity -> string)
    ensures SumTotals(GroupBy(acts, key)) == Total(acts)
  {
    if acts != [] {
      var n := |acts| - 1;
      var prefix, a := acts[..n], acts[n];
      assert acts == prefix + [a];
      GroupByConservesTotal(prefix, key);
      TotalSnoc(prefix, a);
      var gs := GroupBy(prefix, key);
      if key(a) in Keys(prefix, key) {
        var j :| 0 <= j < |Keys(prefix, key)| && Keys(prefix, key)[j] == key(a);
        GroupBySnocExisting(prefix, key, a, j);
        SumTotalsUpdate(gs, j, Extend(gs[j], a));
      } else {
        GroupBySnocNew(prefix, key, a);
        SumTotalsSnoc(gs, Group(key(a), a.carbonValue, [a]));
      }
    }
  }

  /** The members of all groups together are a permutation of the input. */
  lemma {:induction false} GroupByPermutes(acts: seq<Activity>, key: Activity -> string)
    ensures multiset(Flatten(GroupBy(acts, key))) == multiset(acts)
  {
    if acts != [] {
      var n := |acts| - 1;
      var prefix, a := acts[..n], acts[n];
      assert acts == prefix + [a];
      GroupByPermutes(prefix, key);
      FlattenSnoc(prefix, key, a);
    }
  }

  lemma FlattenSnoc(acts: seq<Activity>, key: Activity -> string, a: Activity)
    ensures multiset(Flatten(GroupBy(acts + [a], key))) == multiset(Flatten(GroupBy(acts, key))) + multiset{a}
  {
    var gs := GroupBy(acts, key);
    if key(a) in Keys(acts, key) {
      var j :| 0 <= j < |Keys(acts, key)| && Keys(acts, key)[j] == key(a);
      GroupBySnocExisting(acts, key, a, j);
      FlattenExtend(gs, j, a);
    } else {
      GroupBySnocNew(acts, key, a);
      SumTotalsSnoc(gs, Group(key(a), a.carbonValue, [a]));
    }
  }

  /**
   * The keys and per-key totals depend only on each activity's key and
   * value: two lists that agree on those, position by position, have the
   * same keys in the same order and the same totals.
   */
  lemma {:induction false} GroupTotalsDependOnKeysAndValues(
    acts: seq<Activity>, key: Activity -> string, acts': seq<Activity>, key': Activity -> string)
    requires |acts| == |acts'|
    requires forall p :: 0 <= p < |acts| ==>
      key(acts[p]) == key'(acts'[p]) && acts[p].carbonValue == acts'[p].carbonValue
    ensures Keys(acts, key) == Keys(acts', key')
    ensures forall k :: Total(Where(acts, key, k)) == Total(Where(acts', key', k))
  {
    KeysDependOnKeys(acts, key, acts', key');
    forall k ensures Total(Where(acts, key, k)) == Total(Where(acts', key', k)) {
      TotalDependsOnKeysAndValues(acts, key, acts', key', k);
    }
  }

  lemma {:induction false} KeysDependOnKeys(
    acts: seq<Activity>, key: Activity -> string, acts': seq<Activity>, key': Activity -> string)
    requires |acts| == |acts'|
    requires forall p :: 0 <= p < |acts| ==> key(acts[p]) == key'(acts'[p])
    ensures Keys(acts, key) == Keys(acts', key')
  {
    if acts != [] {
      var n := |acts| - 1;
      var prefix, prefix' := acts[..n], acts'[..n];
      forall p | 0 <= p < n ensures key(prefix[p]) == key'(prefix'[p]) {
        assert prefix[p] == acts[p] && prefix'[p] == acts'[p];
      }
      KeysDependOnKeys(prefix, key, prefix', key');
      assert key(acts[n]) == key'(acts'[n]);
    }
  }

  lemma {:induction false} TotalDependsOnKeysAndValues(
    acts: seq<Activity>, key: Activity -> string, acts': seq<Activity>, key': Activity -> string, k: string)
    requires |acts| == |acts'|
    requires forall p :: 0 <= p < |acts| ==>
      key(acts[p]) == key'(acts'[p]) && acts[p].carbonValue == acts'[p].carbonValue
    ensures Total(Where(acts, key, k)) == Total(Where(acts', key', k))
  {
    if acts != [] {
      var n := |acts| - 1;
      var prefix, a, prefix', a' := acts[..n], acts[n], acts'[..n], acts'[n];
      assert acts == prefix + [a] && acts' == prefix' + [a'];
      forall p | 0 <= p < n
        ensures key(prefix[p]) == key'(prefix'[p]) && prefix[p].carbonValue == prefix'[p].carbonValue
      {
        assert prefix[p] == acts[p] && prefix'[p] == acts'[p];
      }
      TotalDependsOnKeysAndValues(prefix, key, prefix', key', k);
      WhereSnoc(prefix, key, a, k);
      WhereSnoc(prefix', key', a', k);
      TotalSnoc(Where(prefix, key, k), a);
      TotalSnoc(Where(prefix', key', k), a');
    }
  }

  /** First position of `s` whose element satisfies `p` (`Array.prototype.find`/`findIndex`). */
  function FindIndex<T>(s: seq<T>, p: T -> bool): (r: Option<nat>)
    ensures r.None? <==> forall i :: 0 <= i < |s| ==> !p(s[i])
    ensures r.Some? ==> r.value < |s| && p(s[r.value]) && forall i :: 0 <= i < r.value ==> !p(s[i])
  {
    if s == [] then None
    else if p(s[0]) then Some(0)
    else
      match FindIndex(s[1..], p)
      case None => None
      case Some(i) => Some(i + 1)
  }
}
