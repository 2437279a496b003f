/** The daily line chart of the dashboard (`chartData` in
    components/EVPMDashboard.tsx): the achievements of the salesmen that survive
    the filters, summed per day for the selected KPI, one point per day in
    ascending date order. */
module Series {
  import opened Basics
  import opened Text
  import opened Records

  /** The trimmed salesman numbers of the filtered plans, which `chartData` keeps achievements of. */
  function AllowedSalesmen(plans: seq<PlanRow>): (r: set<string>)
    ensures forall id :: id in r <==> exists p :: p in plans && Trim(p.salesmanNo) == id
  {
    set p | p in plans :: Trim(p.salesmanNo)
  }

  /** `relevantAchievements`: the achievements, in order, whose trimmed salesman
      number is that of some kept plan. */
  function Relevant(plans: seq<PlanRow>, achs: seq<AchievedRow>): (r: seq<AchievedRow>)
    ensures IsSubsequence(r, achs)
    ensures forall a :: multiset(r)[a] == if Trim(a.salesmanNo) in AllowedSalesmen(plans) then multiset(achs)[a] else 0
    ensures forall a :: a in r <==> a in achs && exists p :: p in plans && Trim(p.salesmanNo) == Trim(a.salesmanNo)
  {
    var allowed := AllowedSalesmen(plans);
    Filter(achs, (a: AchievedRow) => Trim(a.salesmanNo) in allowed)
  }

  /** The achievement carries a date; undated ones are skipped by `chartData`. */
  predicate Dated(a: AchievedRow) {
    a.days != ""
  }

  /** The day of an achievement: its `Days` text up to the first "T". */
  function DateKey(a: AchievedRow): string {
    BeforeFirst(a.days, "T")
  }

  /** The achievement's value of the chart's KPI, zero when not a number. */
  function AchValue(a: AchievedRow, k: Kpi): int {
    Val(a.ach.Get(k))
  }

  /** The summed KPI of the dated achievements of one day. */
  function DayTotal(rel: seq<AchievedRow>, date: string, k: Kpi): int {
    SumSeq(rel, (a: AchievedRow) => if Dated(a) && DateKey(a) == date then AchValue(a, k) else 0)
  }

  /** The summed KPI of all dated achievements. */
  function DatedTotal(rel: seq<AchievedRow>, k: Kpi): int {
    SumSeq(rel, (a: AchievedRow) => if Dated(a) then AchValue(a, k) else 0)
  }

  /** The days present among the dated achievements. */
  ghost function DayKeys(rel: seq<AchievedRow>): set<string> {
    set i | 0 <= i < |rel| && Dated(rel[i]) :: DateKey(rel[i])
  }

  /** One point of the chart: `{date, value}`. */
  datatype Point = Point(date: string, value: int)

  function PointValue(p: Point): int { p.value }

  function IntValue(x: int): int { x }

  function Dates(s: seq<Point>): (r: seq<string>)
    ensures |r| == |s| && forall i :: 0 <= i < |s| ==> r[i] == s[i].date
  {
    seq(|s|, i requires 0 <= i < |s| => s[i].date)
  }

  lemma DayKeysSnoc(rel: seq<AchievedRow>, i: nat)
    requires i < |rel|
    ensures DayKeys(rel[..i + 1]) == DayKeys(rel[..i]) + (if Dated(rel[i]) then {DateKey(rel[i])} else {})
  {
    var pre, ext := rel[..i], rel[..i + 1];
    assert ext[i] == rel[i];
    forall d | d in DayKeys(ext) ensures d in DayKeys(pre) + (if Dated(rel[i]) then {DateKey(rel[i])} else {}) {
      var j :| 0 <= j < |ext| && Dated(ext[j]) && DateKey(ext[j]) == d;
      if j < i {
        assert pre[j] == ext[j];
      }
    }
    forall d | d in DayKeys(pre) ensures d in DayKeys(ext) {
      var j :| 0 <= j < |pre| && Dated(pre[j]) && DateKey(pre[j]) == d;
      assert ext[j] == pre[j];
    }
  }

  lemma DayTotalSnoc(rel: seq<AchievedRow>, i: nat, k: Kpi)
    requires i < |rel|
    ensures forall d :: DayTotal(rel[..i + 1], d, k)
              == DayTotal(rel[..i], d, k) + (if Dated(rel[i]) && DateKey(rel[i]) == d then AchValue(rel[i], k) else 0)
    ensures DatedTotal(rel[..i + 1], k) == DatedTotal(rel[..i], k) + (if Dated(rel[i]) then AchValue(rel[i], k) else 0)
  {
    forall d ensures DayTotal(rel[..i + 1], d, k)
                       == DayTotal(rel[..i], d, k) + (if Dated(rel[i]) && DateKey(rel[i]) == d then AchValue(rel[i], k) else 0) {
      SumSeqSnoc(rel, i, (a: AchievedRow) => if Dated(a) && DateKey(a) == d then AchValue(a, k) else 0);
    }
    SumSeqSnoc(rel, i, (a: AchievedRow) => if Dated(a) then AchValue(a, k) else 0);
  }

  /** A day with no dated achievement sums to zero. */
  lemma {:induction false} DayTotalAbsent(rel: seq<AchievedRow>, d: string, k: Kpi)
    requires d !in DayKeys(rel)
    ensures DayTotal(rel, d, k) == 0
  {
    if rel != [] {
      var pre := rel[..|rel| - 1];
      assert DayKeys(pre) <= DayKeys(rel) by {
        forall x | x in DayKeys(pre) ensures x in DayKeys(rel) {
          var j :| 0 <= j < |pre| && Dated(pre[j]) && DateKey(pre[j]) == x;
          assert rel[j] == pre[j];
        }
      }
      if Dated(rel[|rel| - 1]) {
        assert DateKey(rel[|rel| - 1]) in DayKeys(rel);
      }
      DayTotalAbsent(pre, d, k);
    }
  }

  /** The accumulators hold exactly the days seen among the first `i`
      achievements, each with that day's sum. */
  ghost predicate PerDay(rel: seq<AchievedRow>, i: nat, k: Kpi, acc: map<string, int>)
    requires i <= |rel|
  {
    && acc.Keys == DayKeys(rel[..i])
    && forall d :: d in acc ==> acc[d] == DayTotal(rel[..i], d, k)
  }

  /** The state of the `forEach` after the first `i` achievements: `keys` lists
      the dictionary's days once each (their order does not matter, since the
      entries are sorted by date afterwards), each day holds its sum, and the
      days together hold the total of the dated achievements. */
  ghost predicate DayAccs(rel: seq<AchievedRow>, i: nat, k: Kpi, keys: seq<string>, acc: map<string, int>)
    requires i <= |rel|
  {
    && KeyOrder(keys, acc)
    && PerDay(rel, i, k, acc)
    && SumSeq(Values(keys, acc), IntValue) == DatedTotal(rel[..i], k)
  }

  /** The day's running total, zero when the day is new, with the achievement's value added. */
  function AddToDay(acc: map<string, int>, a: AchievedRow, k: Kpi): int {
    (if DateKey(a) in acc then acc[DateKey(a)] else 0) + AchValue(a, k)
  }

  lemma PerDayStep(rel: seq<AchievedRow>, i: nat, k: Kpi, acc: map<string, int>)
    requires i < |rel| && PerDay(rel, i, k, acc)
    ensures Dated(rel[i]) ==> PerDay(rel, i + 1, k, acc[DateKey(rel[i]) := AddToDay(acc, rel[i], k)])
    ensures !Dated(rel[i]) ==> PerDay(rel, i + 1, k, acc)
  {
    var d := DateKey(rel[i]);
    DayKeysSnoc(rel, i);
    DayTotalSnoc(rel, i, k);
    if Dated(rel[i]) {
      if d !in acc {
        DayTotalAbsent(rel[..i], d, k);
      }
      var acc1 := acc[d := AddToDay(acc, rel[i], k)];
      forall x | x in acc1 ensures acc1[x] == DayTotal(rel[..i + 1], x, k) {
        if x == d {
          assert acc1[x] == DayTotal(rel[..i], d, k) + AchValue(rel[i], k);
        } else {
          assert acc1[x] == acc[x] == DayTotal(rel[..i], x, k);
        }
      }
      assert acc1.Keys == acc.Keys + {d};
    } else {
      forall x | x in acc ensures acc[x] == DayTotal(rel[..i + 1], x, k) {
        assert DayTotal(rel[..i + 1], x, k) == DayTotal(rel[..i], x, k);
      }
    }
  }

  lemma DaySumStep(rel: seq<AchievedRow>, i: nat, k: Kpi, keys: seq<string>, acc: map<string, int>)
    requires i < |rel| && KeyOrder(keys, acc) && SumSeq(Values(keys, acc), IntValue) == DatedTotal(rel[..i], k)
    requires Dated(rel[i])
    ensures var d := DateKey(rel[i]);
            var keys' := if d in acc then keys else keys + [d];
            && KeyOrder(keys', acc[d := AddToDay(acc, rel[i], k)])
            && SumSeq(Values(keys', acc[d := AddToDay(acc, rel[i], k)]), IntValue) == DatedTotal(rel[..i + 1], k)
  {
    var d := DateKey(rel[i]);
    var v := AddToDay(acc, rel[i], k);
    DayTotalSnoc(rel, i, k);
    if d in acc {
      UpdateKey(keys, acc, d, v, IntValue);
    } else {
      InsertKey(keys, acc, d, 0, IntValue);
      var keys0, acc0 := keys + [d], acc[d := 0];
      UpdateKey(keys0, acc0, d, v, IntValue);
      assert acc0[d := v] == acc[d := v];
    }
  }

  lemma AccumulateDay(rel: seq<AchievedRow>, i: nat, k: Kpi, keys: seq<string>, acc: map<string, int>)
    requires i < |rel| && DayAccs(rel, i, k, keys, acc)
    ensures Dated(rel[i]) ==>
              var d := DateKey(rel[i]);
              DayAccs(rel, i + 1, k, if d in acc then keys else keys + [d], acc[d := AddToDay(acc, rel[i], k)])
    ensures !Dated(rel[i]) ==> DayAccs(rel, i + 1, k, keys, acc)
  {
    PerDayStep(rel, i, k, acc);
    DayTotalSnoc(rel, i, k);
    if Dated(rel[i]) {
      DaySumStep(rel, i, k, keys, acc);
    }
  }

  /** The dates of `s` strictly increase in the order `lt`. */
  ghost predicate Ascending(s: seq<Point>, lt: (string, string) -> bool) {
    forall i, j :: 0 <= i < j < |s| ==> lt(s[i].date, s[j].date)
  }

  lemma AscendingCons(x: Point, s: seq<Point>, lt: (string, string) -> bool)
    requires StrictTotalOrder(lt)
    requires Ascending(s, lt) && s != [] && lt(x.date, s[0].date)
    ensures Ascending([x] + s, lt)
  {
    forall i, j | 0 <= i < j < |s| + 1 ensures lt(([x] + s)[i].date, ([x] + s)[j].date) {
      if i == 0 && j > 1 {
        assert lt(s[0].date, s[j - 1].date);
      }
    }
  }

  /** Inserts `x` before the first point with a later date. */
  function InsertByDate(x: Point, s: seq<Point>, lt: (string, string) -> bool): (r: seq<Point>)
    ensures multiset(r) == multiset(s) + multiset{x}
  {
    if s == [] then [x]
    else if lt(x.date, s[0].date) then [x] + s
    else
      assert s == [s[0]] + s[1..];
      [s[0]] + InsertByDate(x, s[1..], lt)
  }

  /** A date before `x`'s and before every date of `s` is before every date of
      the result of inserting `x`. */
  lemma InsertByDateBounded(d: string, x: Point, s: seq<Point>, lt: (string, string) -> bool)
    requires lt(d, x.date) && forall j :: 0 <= j < |s| ==> lt(d, s[j].date)
    ensures forall j :: 0 <= j < |InsertByDate(x, s, lt)| ==> lt(d, InsertByDate(x, s, lt)[j].date)
  {
    var r := InsertByDate(x, s, lt);
    forall j | 0 <= j < |r| ensures lt(d, r[j].date) {
      assert r[j] in multiset(r);
      if r[j] != x {
        assert r[j] in multiset(s);
        var m :| 0 <= m < |s| && s[m] == r[j];
      }
    }
  }

  /** Inserting a point with a new date into an ascending sequence keeps it
      ascending. */
  lemma {:induction false} InsertByDateAscending(x: Point, s: seq<Point>, lt: (string, string) -> bool)
    requires StrictTotalOrder(lt)
    requires Ascending(s, lt) && forall p :: p in s ==> p.date != x.date
    ensures Ascending(InsertByDate(x, s, lt), lt)
  {
    if s == [] {
    } else if lt(x.date, s[0].date) {
      AscendingCons(x, s, lt);
    } else {
      assert s == [s[0]] + s[1..];
      assert s[0].date != x.date;
      assert lt(s[0].date, x.date);
      var rest := InsertByDate(x, s[1..], lt);
      InsertByDateAscending(x, s[1..], lt);
      InsertByDateBounded(s[0].date, x, s[1..], lt);
      var r := [s[0]] + rest;
      assert r == InsertByDate(x, s, lt);
      forall i, j | 0 <= i < j < |r| ensures lt(r[i].date, r[j].date) {
        assert r[j] == rest[j - 1];
        if i > 0 {
          assert r[i] == rest[i - 1] && lt(rest[i - 1].date, rest[j - 1].date);
        } else {
          assert lt(s[0].date, rest[j - 1].date);
        }
      }
    }
  }

  /** Inserting a point adds its value to the sum. */
  lemma {:induction false} InsertByDateSum(x: Point, s: seq<Point>, lt: (string, string) -> bool)
    ensures SumSeq(InsertByDate(x, s, lt), PointValue) == SumSeq(s, PointValue) + x.value
  {
    if s == [] {
      assert [x][..0] == [];
    } else if lt(x.date, s[0].date) {
      SumSeqCons(x, s, PointValue);
    } else {
      assert s == [s[0]] + s[1..];
      InsertByDateSum(x, s[1..], lt);
      SumSeqCons(s[0], InsertByDate(x, s[1..], lt), PointValue);
      SumSeqCons(s[0], s[1..], PointValue);
    }
  }

  /** The tail of a sequence of points with distinct dates has distinct dates,
      none equal to the head's. */
  lemma DistinctDatesTail(s: seq<Point>)
    requires s != [] && NoDuplicates(Dates(s))
    ensures NoDuplicates(Dates(s[1..]))
    ensures forall p :: p in multiset(s[1..]) ==> p.date != s[0].date
  {
    assert forall j :: 0 <= j < |s| - 1 ==> Dates(s[1..])[j] == Dates(s)[j + 1];
    forall p | p in multiset(s[1..]) ensures p.date != s[0].date {
      var m :| 0 <= m < |s| - 1 && s[1..][m] == p;
      assert Dates(s)[m + 1] == p.date && Dates(s)[0] == s[0].date;
    }
  }

  /** The date sort of `chartData`, `lt` standing for the string
      comparison: insertion sort, the same points reordered. */
  function SortByDate(s: seq<Point>, lt: (string, string) -> bool): (r: seq<Point>)
    ensures multiset(r) == multiset(s)
  {
    if s == [] then []
    else
      assert s == [s[0]] + s[1..];
      InsertByDate(s[0], SortByDate(s[1..], lt), lt)
  }

  /** Points with distinct dates come out of the sort in strictly ascending date
      order, for any strict total order. */
  lemma {:induction false} SortByDateAscending(s: seq<Point>, lt: (string, string) -> bool)
    requires StrictTotalOrder(lt) && NoDuplicates(Dates(s))
    ensures Ascending(SortByDate(s, lt), lt)
  {
    if s != [] {
      assert s == [s[0]] + s[1..];
      DistinctDatesTail(s);
      SortByDateAscending(s[1..], lt);
      var rest := SortByDate(s[1..], lt);
      assert forall p :: p in rest ==> p in multiset(s[1..]);
      InsertByDateAscending(s[0], rest, lt);
    }
  }

  /** The same for the code-point order of dates. */
  lemma SortByDateLexAscending(s: seq<Point>)
    requires NoDuplicates(Dates(s))
    ensures Ascending(SortByDate(s, LexLess), LexLess)
  {
    LexLessIsStrictTotalOrder();
    SortByDateAscending(s, LexLess);
  }

  /** Sorting keeps the sum of the points. */
  lemma {:induction false} SortByDateSum(s: seq<Point>, lt: (string, string) -> bool)
    ensures SumSeq(SortByDate(s, lt), PointValue) == SumSeq(s, PointValue)
  {
    if s != [] {
      assert s == [s[0]] + s[1..];
      SortByDateSum(s[1..], lt);
      InsertByDateSum(s[0], SortByDate(s[1..], lt), lt);
      SumSeqCons(s[0], s[1..], PointValue);
    }
  }

  /** The points of `chartData` before sorting: one per listed day, with that day's total. */
  function Entries(keys: seq<string>, acc: map<string, int>): (r: seq<Point>)
    requires forall d :: d in keys ==> d in acc
    ensures |r| == |keys| && forall j :: 0 <= j < |keys| ==> r[j] == Point(keys[j], acc[keys[j]])
  {
    seq(|keys|, j requires 0 <= j < |keys| => Point(keys[j], acc[keys[j]]))
  }

  /** What the finished `forEach` gives once read as sorted entries. */
  lemma SeriesOfAccs(rel: seq<AchievedRow>, k: Kpi, keys: seq<string>, acc: map<string, int>)
    requires DayAccs(rel, |rel|, k, keys, acc)
    ensures NoDuplicates(Dates(Entries(keys, acc)))
    ensures var r := SortByDate(Entries(keys, acc), LexLess);
            && (forall d :: d in Dates(r) <==> d in DayKeys(rel))
            && (forall p :: p in r ==> p.value == DayTotal(rel, p.date, k))
            && SumSeq(r, PointValue) == DatedTotal(rel, k)
  {
    assert rel[..|rel|] == rel;
    var points := Entries(keys, acc);
    assert Dates(points) == keys;
    SumSeqPointwise(points, PointValue, Values(keys, acc), IntValue);
    assert forall p :: p in points ==> p.value == DayTotal(rel, p.date, k);
    SortedSeries(rel, k, points);
  }

  /** Sorting the entries keeps their dates, their values and their sum. */
  lemma SortedSeries(rel: seq<AchievedRow>, k: Kpi, points: seq<Point>)
    requires forall d :: d in Dates(points) <==> d in DayKeys(rel)
    requires forall p :: p in points ==> p.value == DayTotal(rel, p.date, k)
    requires SumSeq(points, PointValue) == DatedTotal(rel, k)
    ensures var r := SortByDate(points, LexLess);
            && (forall d :: d in Dates(r) <==> d in DayKeys(rel))
            && (forall p :: p in r ==> p.value == DayTotal(rel, p.date, k))
            && SumSeq(r, PointValue) == DatedTotal(rel, k)
  {
    var r := SortByDate(points, LexLess);
    SortByDateSum(points, LexLess);
    SameDates(r, points);
    forall p | p in r ensures p in points {
      assert p in multiset(points);
    }
  }

  /** Two reorderings of the same points have the same dates. */
  lemma SameDates(s: seq<Point>, t: seq<Point>)
    requires multiset(s) == multiset(t)
    ensures forall d :: d in Dates(s) <==> d in Dates(t)
  {
    forall d | d in Dates(s) ensures d in Dates(t) {
      var i :| 0 <= i < |s| && Dates(s)[i] == d;
      assert s[i] in multiset(t);
      var j :| 0 <= j < |t| && t[j] == s[i];
      assert Dates(t)[j] == d;
    }
    forall d | d in Dates(t) ensures d in Dates(s) {
      var j :| 0 <= j < |t| && Dates(t)[j] == d;
      assert t[j] in multiset(s);
      var i :| 0 <= i < |s| && s[i] == t[j];
      assert Dates(s)[i] == d;
    }
  }

  /** `chartData`: one point per day present among the dated achievements of the
      kept salesmen, dates strictly ascending, each holding that day's sum of the
      selected KPI; the points add up to the total over those achievements. */
  method DailySeries(plans: seq<PlanRow>, achs: seq<AchievedRow>, k: Kpi) returns (series: seq<Point>)
    ensures Ascending(series, LexLess)
    ensures forall d :: d in Dates(series) <==> d in DayKeys(Relevant(plans, achs))
    ensures forall p :: p in series ==> p.value == DayTotal(Relevant(plans, achs), p.date, k)
    ensures SumSeq(series, PointValue) == DatedTotal(Relevant(plans, achs), k)
  {
    var rel := Relevant(plans, achs);
    var acc: map<string, int> := map[];
    var keys: seq<string> := [];
    var i := 0;
    assert rel[..0] == [];
    while i < |rel|
      invariant i <= |rel|
      invariant DayAccs(rel, i, k, keys, acc)
    {
      AccumulateDay(rel, i, k, keys, acc);
      if Dated(rel[i]) {
        var d := DateKey(rel[i]);
        keys := if d in acc then keys else keys + [d];
        acc := acc[d := AddToDay(acc, rel[i], k)];
      }
      i := i + 1;
    }
    SeriesOfAccs(rel, k, keys, acc);
    SortByDateLexAscending(Entries(keys, acc));
    series := SortByDate(Entries(keys, acc), LexLess);
  }
}
