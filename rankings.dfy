/** The distributor rankings of the dashboard (`topDistributors` and
    `bottomDistributors` in components/EVPMDashboard.tsx): the joined rows grouped
    by distributor, an empty distributor counted as "Unknown", with the
    achievement of the selected KPI summed per group; the five largest sums, and
    the five smallest positive sums. */
module Rankings {
  import opened Basics
  import opened Records

  /** The distributor a row is ranked under; rows without one go to "Unknown". */
  function DistKey(row: KpiRow): string {
    if row.plan.distName == "" then "Unknown" else row.plan.distName
  }

  /** The summed achievement of one distributor over the rows. */
  function DistTotal(rows: seq<KpiRow>, name: string, k: Kpi): int {
    SumSeq(rows, (row: KpiRow) => if DistKey(row) == name then Amount(row, Achieved, k) else 0)
  }

  /** The distributors present among the rows. */
  ghost function DistKeys(rows: seq<KpiRow>): set<string> {
    set i | 0 <= i < |rows| :: DistKey(rows[i])
  }

  /** One group of the reduce: `{name, Value}`. */
  datatype DistGroup = DistGroup(name: string, value: int)

  function Names(s: seq<DistGroup>): (r: seq<string>)
    ensures |r| == |s| && forall i :: 0 <= i < |s| ==> r[i] == s[i].name
  {
    seq(|s|, i requires 0 <= i < |s| => s[i].name)
  }

  lemma DistKeysSnoc(rows: seq<KpiRow>, i: nat)
    requires i < |rows|
    ensures DistKeys(rows[..i + 1]) == DistKeys(rows[..i]) + {DistKey(rows[i])}
  {
    var pre, ext := rows[..i], rows[..i + 1];
    assert ext[i] == rows[i];
    forall d | d in DistKeys(ext) ensures d in DistKeys(pre) + {DistKey(rows[i])} {
      var j :| 0 <= j < |ext| && DistKey(ext[j]) == d;
      if j < i {
        assert pre[j] == ext[j];
      }
    }
    forall d | d in DistKeys(pre) ensures d in DistKeys(ext) {
      var j :| 0 <= j < |pre| && DistKey(pre[j]) == d;
      assert ext[j] == pre[j];
    }
  }

  lemma DistTotalSnoc(rows: seq<KpiRow>, i: nat, k: Kpi)
    requires i < |rows|
    ensures forall d :: DistTotal(rows[..i + 1], d, k)
              == DistTotal(rows[..i], d, k) + (if DistKey(rows[i]) == d then Amount(rows[i], Achieved, k) else 0)
  {
    forall d ensures DistTotal(rows[..i + 1], d, k)
                       == DistTotal(rows[..i], d, k) + (if DistKey(rows[i]) == d then Amount(rows[i], Achieved, k) else 0) {
      SumSeqSnoc(rows, i, (row: KpiRow) => if DistKey(row) == d then Amount(row, Achieved, k) else 0);
    }
  }

  /** A distributor with no rows sums to zero. */
  lemma {:induction false} DistTotalAbsent(rows: seq<KpiRow>, d: string, k: Kpi)
    requires d !in DistKeys(rows)
    ensures DistTotal(rows, d, k) == 0
  {
    if rows != [] {
      var pre := rows[..|rows| - 1];
      assert DistKeys(pre) <= DistKeys(rows) by {
        forall x | x in DistKeys(pre) ensures x in DistKeys(rows) {
          var j :| 0 <= j < |pre| && DistKey(pre[j]) == x;
          assert rows[j] == pre[j];
        }
      }
      assert DistKey(rows[|rows| - 1]) in DistKeys(rows);
      DistTotalAbsent(pre, d, k);
    }
  }

  /** The distributor's group, or a new one at zero, with the row's achievement added. */
  function AddToGroup(acc: map<string, DistGroup>, row: KpiRow, k: Kpi): DistGroup {
    var d := DistKey(row);
    var base := if d in acc then acc[d] else DistGroup(d, 0);
    DistGroup(d, base.value + Amount(row, Achieved, k))
  }

  /** The state of the reduce after the first `i` rows: one group per distributor
      seen so far, each holding its distributor's sum. */
  ghost predicate DistAccs(rows: seq<KpiRow>, i: nat, k: Kpi, keys: seq<string>, acc: map<string, DistGroup>)
    requires i <= |rows|
  {
    && KeyOrder(keys, acc)
    && acc.Keys == DistKeys(rows[..i])
    && forall d :: d in acc ==> acc[d] == DistGroup(d, DistTotal(rows[..i], d, k))
  }

  lemma AccumulateDist(rows: seq<KpiRow>, i: nat, k: Kpi, keys: seq<string>, acc: map<string, DistGroup>)
    requires i < |rows| && DistAccs(rows, i, k, keys, acc)
    ensures var d := DistKey(rows[i]);
            DistAccs(rows, i + 1, k, if d in acc then keys else keys + [d], acc[d := AddToGroup(acc, rows[i], k)])
  {
    var d := DistKey(rows[i]);
    var acc1 := acc[d := AddToGroup(acc, rows[i], k)];
    DistKeysSnoc(rows, i);
    DistTotalSnoc(rows, i, k);
    if d !in acc {
      DistTotalAbsent(rows[..i], d, k);
    }
    forall x | x in acc1 ensures acc1[x] == DistGroup(x, DistTotal(rows[..i + 1], x, k)) {
    }
  }

  /** The grouping reduce shared by both rankings, read through `Object.values`:
      one group per distributor present, in the order the distributors first
      appear, each holding its summed achievement. */
  method GroupByDistributor(rows: seq<KpiRow>, k: Kpi) returns (groups: seq<DistGroup>)
    ensures Names(groups) == FirstSeenKeys(rows, DistKey)
    ensures NoDuplicates(Names(groups))
    ensures forall d :: d in Names(groups) <==> d in DistKeys(rows)
    ensures forall g :: g in groups ==> g.value == DistTotal(rows, g.name, k)
  {
    var acc: map<string, DistGroup> := map[];
    var keys: seq<string> := [];
    var i := 0;
    assert rows[..0] == [];
    while i < |rows|
      invariant i <= |rows|
      invariant DistAccs(rows, i, k, keys, acc)
      invariant keys == FirstSeenKeys(rows[..i], DistKey)
    {
      var d := DistKey(rows[i]);
      AccumulateDist(rows, i, k, keys, acc);
      FirstSeenKeysSnoc(rows, i, DistKey);
      keys := if d in acc then keys else keys + [d];
      acc := acc[d := AddToGroup(acc, rows[i], k)];
      i := i + 1;
    }
    assert rows[..i] == rows;
    groups := Values(keys, acc);
    assert Names(groups) == keys;
  }

  /** The comparator's order: `b.Value - a.Value` (largest first) when `desc`,
      `a.Value - b.Value` (smallest first) otherwise; `a` may precede `b`. */
  predicate Before(a: DistGroup, b: DistGroup, desc: bool) {
    if desc then a.value >= b.value else a.value <= b.value
  }

  ghost predicate SortedBy(s: seq<DistGroup>, desc: bool) {
    forall i, j :: 0 <= i < j < |s| ==> Before(s[i], s[j], desc)
  }

  /** Inserts `x` before the first element it may precede, so that among equal
      values the earlier-inserted element stays first. */
  function Insert(x: DistGroup, s: seq<DistGroup>, desc: bool): (r: seq<DistGroup>)
    ensures multiset(r) == multiset(s) + multiset{x}
  {
    if s == [] then [x]
    else if Before(x, s[0], desc) then [x] + s
    else
      assert s == [s[0]] + s[1..];
      [s[0]] + Insert(x, s[1..], desc)
  }

  /** Everything a lower bound precedes in `s` and in `x`, it precedes in the
      result of inserting `x`. */
  lemma InsertBounded(y: DistGroup, x: DistGroup, s: seq<DistGroup>, desc: bool)
    requires Before(y, x, desc) && forall j :: 0 <= j < |s| ==> Before(y, s[j], desc)
    ensures forall j :: 0 <= j < |Insert(x, s, desc)| ==> Before(y, Insert(x, s, desc)[j], desc)
  {
    var r := Insert(x, s, desc);
    forall j | 0 <= j < |r| ensures Before(y, r[j], desc) {
      assert r[j] in multiset(r);
      if r[j] != x {
        assert r[j] in multiset(s);
      }
    }
  }

  /** Inserting into a sorted sequence keeps it sorted. */
  lemma {:induction false} InsertSorted(x: DistGroup, s: seq<DistGroup>, desc: bool)
    requires SortedBy(s, desc)
    ensures SortedBy(Insert(x, s, desc), desc)
  {
    if s == [] {
    } else if Before(x, s[0], desc) {
      var r := [x] + s;
      forall i, j | 0 <= i < j < |r| ensures Before(r[i], r[j], desc) {
        if i > 0 {
          assert r[i] == s[i - 1] && r[j] == s[j - 1];
        } else if j > 1 {
          assert Before(s[0], s[j - 1], desc);
        }
      }
    } else {
      var rest := Insert(x, s[1..], desc);
      InsertSorted(x, s[1..], desc);
      InsertBounded(s[0], x, s[1..], desc);
      var r := [s[0]] + rest;
      assert r == Insert(x, s, desc);
      forall i, j | 0 <= i < j < |r| ensures Before(r[i], r[j], desc) {
        assert r[j] == rest[j - 1];
        if i > 0 {
          assert r[i] == rest[i - 1] && Before(rest[i - 1], rest[j - 1], desc);
        } else {
          assert Before(s[0], rest[j - 1], desc);
        }
      }
    }
  }

  /** The sort of the rankings with the comparator of `Before`: insertion sort,
      equal values kept in their original order. */
  function Sort(s: seq<DistGroup>, desc: bool): (r: seq<DistGroup>)
    ensures multiset(r) == multiset(s)
  {
    if s == [] then []
    else
      assert s == [s[0]] + s[1..];
      Insert(s[0], Sort(s[1..], desc), desc)
  }

  /** The sort's result is in the comparator's order. */
  lemma {:induction false} SortSorted(s: seq<DistGroup>, desc: bool)
    ensures SortedBy(Sort(s, desc), desc)
  {
    if s != [] {
      SortSorted(s[1..], desc);
      InsertSorted(s[0], Sort(s[1..], desc), desc);
    }
  }

  /** The first five groups of a ranking, or all of them when there are fewer. */
  function Take5(s: seq<DistGroup>): (r: seq<DistGroup>)
    ensures |r| <= 5 && |r| == if |s| < 5 then |s| else 5
    ensures r == s[..|r|]
  {
    if |s| <= 5 then s else s[..5]
  }

  /** Two elements of a name-distinct sequence with the same name are equal. */
  lemma NameDeterminesGroup(t: seq<DistGroup>, u: DistGroup, v: DistGroup)
    requires NoDuplicates(Names(t)) && u in t && v in t && u.name == v.name
    ensures u == v
  {
    var a :| 0 <= a < |t| && t[a] == u;
    var b :| 0 <= b < |t| && t[b] == v;
    assert Names(t)[a] == Names(t)[b];
  }

  /** An element of a name-distinct sequence occurs in it once. */
  lemma CountInDistinct(t: seq<DistGroup>, x: DistGroup)
    requires NoDuplicates(Names(t)) && x in t
    ensures multiset(t)[x] == 1
  {
    var a :| 0 <= a < |t| && t[a] == x;
    assert t == t[..a] + [t[a]] + t[a + 1..];
    assert t[a] !in t[..a] by {
      forall j | 0 <= j < a ensures t[j] != t[a] {
        assert Names(t)[j] != Names(t)[a];
      }
    }
    assert t[a] !in t[a + 1..] by {
      forall j | a < j < |t| ensures t[j] != t[a] {
        assert Names(t)[a] != Names(t)[j];
      }
    }
  }

  /** An element at two positions occurs at least twice. */
  lemma CountTwice(s: seq<DistGroup>, i: nat, j: nat)
    requires i < j < |s| && s[i] == s[j]
    ensures multiset(s)[s[i]] >= 2
  {
    assert s == s[..i] + [s[i]] + s[i + 1..j] + [s[j]] + s[j + 1..];
  }

  /** Dropping or reordering elements of a name-distinct sequence keeps the names
      distinct. */
  lemma DistinctNamesSub(s: seq<DistGroup>, t: seq<DistGroup>)
    requires NoDuplicates(Names(t))
    requires multiset(s) <= multiset(t)
    ensures NoDuplicates(Names(s))
  {
    forall i, j | 0 <= i < j < |s| ensures Names(s)[i] != Names(s)[j] {
      if s[i].name == s[j].name {
        assert s[i] in multiset(t) && s[j] in multiset(t);
        NameDeterminesGroup(t, s[i], s[j]);
        CountTwice(s, i, j);
        CountInDistinct(t, s[i]);
        assert false;
      }
    }
  }

  /** The first five of a sorted sequence are sorted. */
  lemma TakeSorted(sorted: seq<DistGroup>, desc: bool)
    requires SortedBy(sorted, desc)
    ensures SortedBy(Take5(sorted), desc)
  {
    var top := Take5(sorted);
    forall i, j | 0 <= i < j < |top| ensures Before(top[i], top[j], desc) {
      assert top[i] == sorted[i] && top[j] == sorted[j];
    }
  }

  /** The first five of a name-distinct reordering of `groups` are name-distinct
      and drawn from `groups`. */
  lemma TakeOfSorted(groups: seq<DistGroup>, sorted: seq<DistGroup>)
    requires NoDuplicates(Names(groups))
    requires multiset(sorted) <= multiset(groups)
    ensures var top := Take5(sorted);
            && NoDuplicates(Names(top))
            && forall g :: g in top ==> g in groups
  {
    var top := Take5(sorted);
    assert multiset(top) <= multiset(sorted) by {
      assert sorted == top + sorted[|top|..];
    }
    DistinctNamesSub(top, groups);
    forall g | g in top ensures g in groups {
      assert g in multiset(groups);
    }
  }

  /** An element of the sorted sequence whose name the first five lack comes
      after all five of them. */
  lemma LeftOutOfSorted(sorted: seq<DistGroup>, desc: bool, x: DistGroup)
    requires SortedBy(sorted, desc) && x in sorted && x.name !in Names(Take5(sorted))
    ensures |Take5(sorted)| == 5
    ensures forall g :: g in Take5(sorted) ==> Before(g, x, desc)
  {
    var top := Take5(sorted);
    var b :| 0 <= b < |sorted| && sorted[b] == x;
    assert forall c :: 0 <= c < |top| ==> sorted[c].name == Names(top)[c];
    forall g | g in top ensures Before(g, x, desc) {
      var c :| 0 <= c < |top| && top[c] == g;
      assert sorted[c] == g;
    }
  }

  /** `topDistributors`: at most five groups, largest value first, each a
      distributor present in the rows with its summed achievement, no distributor
      twice; any distributor left out implies five entries, all at least as large
      as its value. */
  method TopDistributors(rows: seq<KpiRow>, k: Kpi) returns (top: seq<DistGroup>)
    ensures |top| <= 5
    ensures SortedBy(top, true)
    ensures NoDuplicates(Names(top))
    ensures forall g :: g in top ==> g.name in DistKeys(rows) && g.value == DistTotal(rows, g.name, k)
    ensures forall d :: d in DistKeys(rows) && d !in Names(top) ==>
              |top| == 5 && forall g :: g in top ==> DistTotal(rows, d, k) <= g.value
  {
    var groups := GroupByDistributor(rows, k);
    var sorted := Sort(groups, true);
    SortSorted(groups, true);
    TakeSorted(sorted, true);
    TakeOfSorted(groups, sorted);
    top := Take5(sorted);
    forall d | d in DistKeys(rows) && d !in Names(top)
      ensures |top| == 5 && forall g :: g in top ==> DistTotal(rows, d, k) <= g.value
    {
      var a :| 0 <= a < |groups| && Names(groups)[a] == d;
      assert groups[a] in multiset(sorted);
      LeftOutOfSorted(sorted, true, groups[a]);
    }
  }

  /** The groups with a positive value, the only ones `bottomDistributors` ranks. */
  function Positive(groups: seq<DistGroup>): (r: seq<DistGroup>)
    ensures multiset(r) <= multiset(groups)
    ensures forall g :: g in r <==> g in groups && g.value > 0
  {
    Filter(groups, (g: DistGroup) => g.value > 0)
  }

  /** `bottomDistributors`: at most five groups with a positive value, smallest
      first, each a distributor present in the rows with its summed achievement,
      no distributor twice; any positive distributor left out implies five
      entries, all at most its value. */
  method BottomDistributors(rows: seq<KpiRow>, k: Kpi) returns (bottom: seq<DistGroup>)
    ensures |bottom| <= 5
    ensures SortedBy(bottom, false)
    ensures NoDuplicates(Names(bottom))
    ensures forall g :: g in bottom ==> g.name in DistKeys(rows) && g.value == DistTotal(rows, g.name, k) && g.value > 0
    ensures forall d :: d in DistKeys(rows) && d !in Names(bottom) && DistTotal(rows, d, k) > 0 ==>
              |bottom| == 5 && forall g :: g in bottom ==> g.value <= DistTotal(rows, d, k)
  {
    var groups := GroupByDistributor(rows, k);
    var positive := Positive(groups);
    var sorted := Sort(positive, false);
    SortSorted(positive, false);
    DistinctNamesSub(positive, groups);
    TakeSorted(sorted, false);
    TakeOfSorted(positive, sorted);
    bottom := Take5(sorted);
    forall d | d in DistKeys(rows) && d !in Names(bottom) && DistTotal(rows, d, k) > 0
      ensures |bottom| == 5 && forall g :: g in bottom ==> g.value <= DistTotal(rows, d, k)
    {
      var a :| 0 <= a < |groups| && Names(groups)[a] == d;
      assert groups[a] in positive;
      assert groups[a] in multiset(sorted);
      LeftOutOfSorted(sorted, false, groups[a]);
    }
  }
}
